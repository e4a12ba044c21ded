/** internal/replication/apply.go: applying replicated writes on a member that follows a source of truth. */
module Replication {
  import opened Json
  import opened DocumentStore
  import opened Engine

  /** A replicated write; patches normally carry the full document as payload. */
  datatype WorkItem = WorkItem(id: string, verb: Verb, after: string, payload: Option<Doc>, patch: Doc -> Option<Doc>)

  datatype Outcome = Applied | Failed

  /** The member's files after one delivery, and what it reports. */
  function ApplyItem(s: Store, item: WorkItem): (Store, Outcome) {
    match item.verb
    case Create =>
      if item.id in s.live then (s, if VersionOf(s.live[item.id]) == item.after then Applied else Failed)
      else if item.payload.None? then (s, Failed)
      else (s.(live := s.live[item.id := item.payload.value]), Applied)
    case Patch =>
      if item.id !in s.live then (s, Failed)
      else if VersionOf(s.live[item.id]) == item.after then (s, Applied)
      else
        var kept := Preserve(s, item.id);
        var doc := if item.payload.Some? then item.payload else item.patch(s.live[item.id]);
        if doc.Some? then (kept.(live := kept.live[item.id := doc.value]), Applied) else (kept, Failed)
    case Delete =>
      if item.id !in s.live then (s, Applied) else (SoftDeleted(s, item.id), Applied)
  }

  /** The same, on files. */
  method Apply(docs: DocumentFiles, item: WorkItem) returns (outcome: Outcome)
    modifies docs
    ensures (docs.View(), outcome) == ApplyItem(old(docs.View()), item)
  {
    match item.verb
    case Create =>
      if item.id in docs.live {
        return if VersionOf(docs.live[item.id]) == item.after then Applied else Failed;
      }
      if item.payload.None? {
        return Failed;
      }
      docs.WriteDocument(item.id, item.payload.value);
      return Applied;
    case Patch =>
      if item.id !in docs.live {
        return Failed;
      }
      var doc := docs.live[item.id];
      if VersionOf(doc) == item.after {
        return Applied;
      }
      var ok := docs.PreservePreviousIfAbsent(item.id);
      var next := if item.payload.Some? then item.payload else item.patch(doc);
      if next.None? {
        return Failed;
      }
      docs.WriteDocument(item.id, next.value);
      return Applied;
    case Delete =>
      if item.id !in docs.live {
        return Applied;
      }
      var ok := docs.SoftDeleteDocument(item.id);
      return Applied;
  }

  /** What a delivery reports and leaves live. A create is applied when it finds the document at its version or
      none and brings one; a patch when it finds the document, and it is at its version, or the item brings a
      document or applies; a delete always. */
  lemma DeliveryOutcome(s: Store, item: WorkItem)
    ensures
      var (t, o) := ApplyItem(s, item);
      var there := item.id in s.live;
      var done := there && VersionOf(s.live[item.id]) == item.after;
      var brought := if item.payload.Some? || !there then item.payload else item.patch(s.live[item.id]);
      && (o == Applied <==> match item.verb
            case Create => if there then done else item.payload.Some?
            case Patch => there && (done || brought.Some?)
            case Delete => true)
      && (forall id :: id != item.id ==> Get(t.live, id) == Get(s.live, id) && Get(t.prev, id) == Get(s.prev, id))
      && t.queue == s.queue && t.taken == s.taken
      && (o == Applied ==> Get(t.live, item.id) == match item.verb
            case Create => if there then Get(s.live, item.id) else item.payload
            case Patch => if done then Get(s.live, item.id) else brought
            case Delete => None)
      && (there && t.live != s.live && item.id !in s.prev ==> Get(t.prev, item.id) == Some(s.live[item.id]))
      && (item.id in s.prev ==> Get(t.prev, item.id) == Some(s.prev[item.id]))
  {
  }

  // ----- following a source of truth

  predicate Succeeds(rules: Rules, inputs: seq<Input>, i: nat)
    requires i < |inputs|
  {
    !ReplyAt(rules, inputs, i).Refused?
  }

  /** The item the source pushes for its i-th command. */
  function ItemAt(rules: Rules, inputs: seq<Input>, i: nat): WorkItem
    requires i < |inputs| && Succeeds(rules, inputs, i)
  {
    var c := inputs[i].command;
    var payload := Get(StoreAfter(rules, inputs[..i + 1]).live, c.id);
    var r := ReplyAt(rules, inputs, i);
    if r.Created? then WorkItem(c.id, Create, r.version, payload, doc => None)
    else if r.PatchedTo? then WorkItem(c.id, Patch, r.after, payload, doc => None)
    else WorkItem(c.id, Delete, r.before, None, doc => None)
  }

  /** One item delivered `times` more times. */
  function Deliveries(s: Store, item: WorkItem, times: nat): Store {
    if times == 0 then s else ApplyItem(Deliveries(s, item, times - 1), item).0
  }

  /** A member that gets the source's items in order, the i-th one `1 + again[i]` times in a row. */
  function Member(rules: Rules, inputs: seq<Input>, again: seq<nat>): Store
    requires |again| == |inputs|
  {
    if inputs == [] then EMPTY
    else
      var n := |inputs| - 1;
      var s := Member(rules, inputs[..n], again[..n]);
      if Succeeds(rules, inputs, n) then Deliveries(s, ItemAt(rules, inputs, n), 1 + again[n]) else s
  }

  /** The item takes the live documents `was` to `now`: what it names, carries and is numbered by. */
  ghost predicate Takes(was: map<string, Doc>, now: map<string, Doc>, item: WorkItem) {
    && (item.verb == Delete ==> item.id in was && now == was - {item.id})
    && (item.verb != Delete ==>
          && item.id in now && now == was[item.id := now[item.id]]
          && item.payload == Some(now[item.id]) && VersionOf(now[item.id]) == item.after)
    && (item.verb == Create ==> item.id !in was)
    && (item.verb == Patch ==> item.id in was && VersionOf(was[item.id]) != item.after)
  }

  lemma ItemTakes(rules: Rules, inputs: seq<Input>)
    requires FreshVersions(inputs) && inputs != [] && Succeeds(rules, inputs, |inputs| - 1)
    ensures Takes(StoreAfter(rules, inputs[..|inputs| - 1]).live, StoreAfter(rules, inputs).live,
      ItemAt(rules, inputs, |inputs| - 1))
  {
    var n := |inputs| - 1;
    var init, c, version := inputs[..n], inputs[n].command, inputs[n].version;
    assert inputs[..n + 1] == inputs;
    RunIsSound(rules, init);
    var source := StoreAfter(rules, init);
    Effect(rules, source, c, version);
    if c.id in source.live {
      assert Issued(init, VersionOf(source.live[c.id]));
      assert VersionOf(source.live[c.id]) != version;
    }
  }

  /** Delivering an item to a member that has all earlier ones: it reports applied and holds the
      source's live documents, the first time and every time after. */
  lemma DeliverOne(rules: Rules, inputs: seq<Input>, s: Store)
    requires FreshVersions(inputs) && inputs != [] && Succeeds(rules, inputs, |inputs| - 1)
    requires s.live == StoreAfter(rules, inputs[..|inputs| - 1]).live || s.live == StoreAfter(rules, inputs).live
    ensures ApplyItem(s, ItemAt(rules, inputs, |inputs| - 1)).1 == Applied
    ensures ApplyItem(s, ItemAt(rules, inputs, |inputs| - 1)).0.live == StoreAfter(rules, inputs).live
  {
    ItemTakes(rules, inputs);
    DeliverStep(StoreAfter(rules, inputs[..|inputs| - 1]).live, StoreAfter(rules, inputs).live,
      ItemAt(rules, inputs, |inputs| - 1), s);
  }

  lemma DeliverStep(was: map<string, Doc>, now: map<string, Doc>, item: WorkItem, s: Store)
    requires (s.live == was || s.live == now) && Takes(was, now, item)
    ensures ApplyItem(s, item).1 == Applied && ApplyItem(s, item).0.live == now
  {
    if item.verb == Patch && s.live == was {
      assert ApplyItem(s, item).0.live == was[item.id := now[item.id]];
    }
  }

  lemma {:induction false} DeliverAgain(rules: Rules, inputs: seq<Input>, s: Store, times: nat)
    requires FreshVersions(inputs) && inputs != [] && Succeeds(rules, inputs, |inputs| - 1)
    requires s.live == StoreAfter(rules, inputs[..|inputs| - 1]).live
    ensures var r := Deliveries(s, ItemAt(rules, inputs, |inputs| - 1), times);
      && (times > 0 ==> r.live == StoreAfter(rules, inputs).live)
      && ApplyItem(r, ItemAt(rules, inputs, |inputs| - 1)).1 == Applied
  {
    if times > 0 {
      DeliverAgain(rules, inputs, s, times - 1);
      DeliverOne(rules, inputs, Deliveries(s, ItemAt(rules, inputs, |inputs| - 1), times - 1));
    }
    DeliverOne(rules, inputs, Deliveries(s, ItemAt(rules, inputs, |inputs| - 1), times));
  }

  /** After every item, however often each was repeated, the member holds the source's live documents. */
  lemma {:induction false} MemberFollowsSource(rules: Rules, inputs: seq<Input>, again: seq<nat>)
    requires FreshVersions(inputs) && |again| == |inputs|
    ensures Member(rules, inputs, again).live == StoreAfter(rules, inputs).live
  {
    if inputs != [] {
      var n := |inputs| - 1;
      var init := inputs[..n];
      MemberFollowsSource(rules, init, again[..n]);
      var s := Member(rules, init, again[..n]);
      if Succeeds(rules, inputs, n) {
        DeliverAgain(rules, inputs, s, 1 + again[n]);
      } else {
        RefusedChangesNothing(rules, StoreAfter(rules, init), inputs[n].command, inputs[n].version);
      }
    }
  }

  /** An old item delivered again to a member that has moved on is harmless if and only if: a create
      finds the document live; a patch finds it gone or still at the item's version; a delete finds
      it gone. Otherwise it brings back an old version, or removes a newer document. */
  lemma RedeliveryHarmlessIff(rules: Rules, inputs: seq<Input>, i: nat, s: Store)
    requires FreshVersions(inputs) && i < |inputs| && Succeeds(rules, inputs, i)
    requires s.live == StoreAfter(rules, inputs).live
    ensures
      var id, item := inputs[i].command.id, ItemAt(rules, inputs, i);
      ApplyItem(s, item).0.live == s.live <==>
        match ReplyAt(rules, inputs, i)
        case Created(_) => id in s.live
        case PatchedTo(_, v) => id !in s.live || VersionOf(s.live[id]) == v
        case _ => id !in s.live
  {
    assert inputs[..i + 1][..i] == inputs[..i];
    Effect(rules, StoreAfter(rules, inputs[..i]), inputs[i].command, inputs[i].version);
    assert StoreAfter(rules, inputs[..i + 1]) ==
      Execute(rules, StoreAfter(rules, inputs[..i]), inputs[i].command, inputs[i].version).0;
    var id, item := inputs[i].command.id, ItemAt(rules, inputs, i);
    var t := ApplyItem(s, item).0;
    if ReplyAt(rules, inputs, i).PatchedTo? && id in s.live {
      assert item.payload.Some? && VersionOf(item.payload.value) == item.after;
      assert VersionOf(s.live[id]) != item.after ==> t.live[id] == item.payload.value;
    }
  }

  /** A delivery fails and still changes the live documents if and only if it is a patch without a
      payload that does not apply, to a live document at another version and without a dotfile: the live
      document was renamed away first. */
  lemma FailureLosesIff(s: Store, item: WorkItem)
    ensures ApplyItem(s, item).1 == Failed && ApplyItem(s, item).0.live != s.live <==>
      && item.verb == Patch && item.id in s.live && VersionOf(s.live[item.id]) != item.after
      && item.id !in s.prev && item.payload.None? && item.patch(s.live[item.id]).None?
    ensures ApplyItem(s, item).1 == Failed && ApplyItem(s, item).0.live != s.live ==>
      ApplyItem(s, item).0.live == s.live - {item.id}
  {
    if item.verb == Patch && item.id in s.live && item.id !in s.prev {
      assert item.id !in Preserve(s, item.id).live;
    }
  }

  // ----- both failures at concrete inputs

  /** A document with nothing in it, and a patch that does not apply to it. */
  lemma PatchLosesDocument(s: Store, item: WorkItem)
    requires s == Store(map["x" := map[]], map[], {}, {}) && item == WorkItem("x", Patch, "v", None, doc => None)
    ensures ApplyItem(s, item).1 == Failed && ApplyItem(s, item).0.live == map[]
  {
    FailureLosesIff(s, item);
    assert s.live - {"x"} == map[];
  }

  /** Any content is accepted. */
  const EASY := Rules("m", doc => true)

  const KEEP := PatchBody([], doc => Some(doc))

  /** Create, patch, patch: the middle item delivered again brings its old version back. */
  lemma LateItemBringsBack(a: Input, b: Input, c: Input, s: Store)
    requires a == Input(CreateCommand("x", map[]), "v1")
    requires b == Input(PatchCommand("x", "v1", "m", Some(KEEP)), "v2")
    requires c == Input(PatchCommand("x", "v2", "m", Some(KEEP)), "v3")
    requires s.live == StoreAfter(EASY, [a, b, c]).live
    ensures Succeeds(EASY, [a, b, c], 1) && "x" in s.live && VersionOf(s.live["x"]) == "v3"
    ensures var t := ApplyItem(s, ItemAt(EASY, [a, b, c], 1)).0; "x" in t.live && VersionOf(t.live["x"]) == "v2"
  {
    var inputs := [a, b, c];
    assert inputs[..1] == [] + [a] && inputs[..2] == [] + [a] + [b] && inputs[..3] == inputs == [] + [a] + [b] + [c];
    EasyCreate(a.command, "v1");
    StoreAfterOne([], a);
    var s1 := StoreAfter(EASY, [] + [a]);
    EasyPatch(s1, b.command, "v1", "v2");
    StoreAfterOne([] + [a], b);
    var s2 := StoreAfter(EASY, [] + [a] + [b]);
    EasyPatch(s2, c.command, "v2", "v3");
    StoreAfterOne([] + [a] + [b], c);
    assert "v2"[1] != "v3"[1];
  }

  lemma StoreAfterOne(inputs: seq<Input>, last: Input)
    ensures StoreAfter(EASY, inputs + [last]) == Execute(EASY, StoreAfter(EASY, inputs), last.command, last.version).0
  {
    assert (inputs + [last])[..|inputs|] == inputs;
  }

  /** The document "x" is live at this version. */
  predicate LiveAt(s: Store, version: string) {
    "x" in s.live && Text(s.live["x"], "!") == "x" && VersionOf(s.live["x"]) == version
  }

  lemma EasyCreate(c: Command, version: string)
    requires c == CreateCommand("x", map[])
    ensures Execute(EASY, EMPTY, c, version).1 == Created(version) &&
      LiveAt(Execute(EASY, EMPTY, c, version).0, version)
  {
    assert CreateRefusal(EASY, EMPTY, c) == None;
  }

  lemma EasyPatch(s: Store, c: Command, before: string, version: string)
    requires LiveAt(s, before) && before != "" && c == PatchCommand("x", before, "m", Some(KEEP))
    ensures Execute(EASY, s, c, version).1 == PatchedTo(before, version) &&
      LiveAt(Execute(EASY, s, c, version).0, version)
  {
    assert PatchRefusal(EASY, s, c) == None;
  }
}
