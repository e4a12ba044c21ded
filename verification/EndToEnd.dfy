/** Commands and search answers together: for every interleaving of engine commands with the work of the
    change agent, what a search lists is decided by the history of commands alone. */
module EndToEnd {
  import opened Json
  import opened SearchEvaluate
  import opened SearchQuery
  import opened SearchSort
  import opened DocumentStore
  import opened Engine
  import opened SearchIndex

  /** A command with the version drawn for it, or one step of the change agent. */
  datatype Event = Command(input: Input) | Agent(step: Step)

  /** Decoded numbers are floats, in the content of a create and in what a patch makes of a document. */
  ghost predicate FloatInput(cfg: Config, input: Input) {
    match input.command
    case CreateCommand(_, content) => Floats(cfg.nf, Obj(content))
    case PatchCommand(_, _, _, Some(patch)) =>
      forall doc: Doc :: Floats(cfg.nf, Obj(doc)) && patch.apply(doc).Some? ==>
        Floats(cfg.nf, Obj(patch.apply(doc).value))
    case _ => true
  }

  ghost predicate FloatEvents(cfg: Config, events: seq<Event>) {
    forall i :: 0 <= i < |events| && events[i].Command? ==> FloatInput(cfg, events[i].input)
  }

  /** A command runs against the files the agent has left; a refused one is no write. */
  function Commanded(rules: Rules, s: System, input: Input): System {
    var (store, reply) := Execute(rules, s.store, input.command, input.version);
    if reply.Refused? then s else s.Wrote(input.command.id, store)
  }

  ghost function Played(cfg: Config, rules: Rules, s: System, e: Event): Option<System> {
    match e
    case Command(input) => Some(Commanded(rules, s, input))
    case Agent(step) => if !IsWrite(step) && Enabled(cfg, s, step) then Some(Next(cfg, s, step)) else None
  }

  /** The files after a run of events; None when the agent took a step it could not take. */
  ghost function PlayedAll(cfg: Config, rules: Rules, events: seq<Event>): Option<System> {
    if events == [] then Some(INITIAL)
    else match PlayedAll(cfg, rules, events[..|events| - 1])
      case None => None
      case Some(s) => Played(cfg, rules, s, events[|events| - 1])
  }

  /** The commands of a run, in order. */
  function Inputs(events: seq<Event>): seq<Input> {
    if events == [] then []
    else
      var init, last := Inputs(events[..|events| - 1]), events[|events| - 1];
      if last.Command? then init + [last.input] else init
  }

  // ----- commands are write steps of the index machine

  function WriteStep(rules: Rules, s: Store, input: Input): Option<Step> {
    var (t, reply) := Execute(rules, s, input.command, input.version);
    var id := input.command.id;
    match reply
    case Refused(_) => None
    case Created(_) => if id in t.live then Some(CreateDoc(id, t.live[id])) else None
    case PatchedTo(_, _) => if id in t.live then Some(PatchDoc(id, t.live[id])) else None
    case DeletedAt(_) => Some(DeleteDoc(id))
  }

  lemma StoredFloats(cfg: Config, stored: Doc, source: Doc, id: string, marker: string, version: string)
    requires Carries(stored, source, id, marker, version) && Floats(cfg.nf, Obj(source))
    ensures Stored(cfg, id, stored)
  {
    forall k | k in stored
      ensures Floats(cfg.nf, stored[k])
    {
      if k !in META && k != "operationId" {
        assert Get(stored, k) == Get(source, k);
        assert k in source && source[k] == stored[k];
      }
    }
  }

  lemma CommandIsStep(cfg: Config, rules: Rules, s: System, input: Input)
    requires Inv(cfg, s) && FloatInput(cfg, input)
    ensures
      match WriteStep(rules, s.store, input)
      case None => Commanded(rules, s, input) == s
      case Some(step) => IsWrite(step) && Enabled(cfg, s, step) && Next(cfg, s, step) == Commanded(rules, s, input)
  {
    var c, version := input.command, input.version;
    var (t, reply) := Execute(rules, s.store, c, version);
    Effect(rules, s.store, c, version);
    if reply.Created? {
      StoredFloats(cfg, t.live[c.id], c.content, c.id, rules.marker, version);
    } else if reply.PatchedTo? {
      assert Stored(cfg, c.id, s.store.live[c.id]);
      StoredFloats(cfg, t.live[c.id], c.patch.value.apply(s.store.live[c.id]).value, c.id, rules.marker, version);
    }
  }

  /** The machine run behind a run of events. */
  ghost function Trace(cfg: Config, rules: Rules, events: seq<Event>): seq<Step> {
    if events == [] then []
    else
      var init, last := events[..|events| - 1], events[|events| - 1];
      var steps := Trace(cfg, rules, init);
      match last
      case Agent(step) => steps + [step]
      case Command(input) =>
        match PlayedAll(cfg, rules, init)
        case None => steps
        case Some(s) => match WriteStep(rules, s.store, input) case None => steps case Some(step) => steps + [step]
  }

  /** Every run of commands and agent work is a run of the index machine. */
  lemma {:induction false} EventsAreSteps(cfg: Config, rules: Rules, events: seq<Event>)
    requires PlayedAll(cfg, rules, events).Some? && FloatEvents(cfg, events)
    ensures After(cfg, Trace(cfg, rules, events)) == PlayedAll(cfg, rules, events)
  {
    if events != [] {
      var init, last := events[..|events| - 1], events[|events| - 1];
      EventsAreSteps(cfg, rules, init);
      var s, steps := PlayedAll(cfg, rules, init).value, Trace(cfg, rules, init);
      match last
      case Agent(step) => Extend(cfg, steps, s, step);
      case Command(input) =>
        RunKeepsInv(cfg, steps);
        assert events[|events| - 1].Command? && FloatInput(cfg, input);
        CommandIsStep(cfg, rules, s, input);
        var step := WriteStep(rules, s.store, input);
        if step.Some? {
          Extend(cfg, steps, s, step.value);
        }
    }
  }

  // ----- agent work is invisible to commands

  lemma SameLive(rules: Rules, s: Store, t: Store, input: Input)
    requires s.live == t.live
    ensures
      var a, b := Execute(rules, s, input.command, input.version), Execute(rules, t, input.command, input.version);
      a.0.live == b.0.live && a.1 == b.1
  {
    var c := input.command;
    match c
    case CreateCommand(_, _) => assert CreateRefusal(rules, s, c) == CreateRefusal(rules, t, c);
    case PatchCommand(_, _, _, _) =>
      assert PatchRefusal(rules, s, c) == PatchRefusal(rules, t, c);
      if c.id in s.live {
        SamePatched(s, t, c.id);
      }
    case DeleteCommand(_, _) =>
  }

  lemma SamePatched(s: Store, t: Store, id: string)
    requires s.live == t.live && id in s.live
    ensures forall doc :: Patched(s, id, doc).live == Patched(t, id, doc).live
  {
    forall doc
      ensures Patched(s, id, doc).live == s.live[id := doc] == Patched(t, id, doc).live
    {
    }
  }

  lemma {:induction false} LiveIsCommands(cfg: Config, rules: Rules, events: seq<Event>)
    requires PlayedAll(cfg, rules, events).Some?
    ensures PlayedAll(cfg, rules, events).value.store.live == StoreAfter(rules, Inputs(events)).live
  {
    if events != [] {
      var init, last := events[..|events| - 1], events[|events| - 1];
      LiveIsCommands(cfg, rules, init);
      if last.Command? {
        var inputs := Inputs(events);
        assert inputs[..|inputs| - 1] == Inputs(init) && inputs[|inputs| - 1] == last.input;
        var s := PlayedAll(cfg, rules, init).value;
        SameLive(rules, s.store, StoreAfter(rules, Inputs(init)), last.input);
        RefusedKeepsLive(rules, s.store, last.input);
      }
    }
  }

  lemma RefusedKeepsLive(rules: Rules, s: Store, input: Input)
    ensures var (t, r) := Execute(rules, s, input.command, input.version); r.Refused? ==> t == s
  {
    Effect(rules, s, input.command, input.version);
  }

  // ----- which documents are overwritten, read off the events

  /** A drain of the document was cut short at event i, and none of its drains was completed before event n. */
  predicate OpenSinceEvent(events: seq<Event>, id: string, i: int, n: int) {
    && 0 <= i < n <= |events| && events[i].Agent? && Cuts(events[i].step, id)
    && forall k :: i < k < n ==> !(events[k].Agent? && Settles(events[k].step, id))
  }

  ghost predicate Open(events: seq<Event>, id: string, n: int) {
    exists i :: OpenSinceEvent(events, id, i, n)
  }

  /** A command named the document in such a window, among the first n events. */
  ghost predicate DisturbedIn(events: seq<Event>, id: string, n: int) {
    exists i, j :: j < n && OpenSinceEvent(events, id, i, j) && j < |events| && events[j].Command? &&
      events[j].input.command.id == id
  }

  lemma {:induction false} HistoryIsEvents(cfg: Config, rules: Rules, events: seq<Event>, id: string, n: nat)
    requires n <= |events| && PlayedAll(cfg, rules, events[..n]).Some?
    ensures id in PlayedAll(cfg, rules, events[..n]).value.exposed ==> Open(events, id, n)
    ensures id in PlayedAll(cfg, rules, events[..n]).value.overwritten ==> DisturbedIn(events, id, n)
  {
    if n > 0 {
      assert events[..n][..n - 1] == events[..n - 1];
      HistoryIsEvents(cfg, rules, events, id, n - 1);
      HistoryEvent(cfg, rules, events, id, n, PlayedAll(cfg, rules, events[..n - 1]).value);
    }
  }

  lemma HistoryEvent(cfg: Config, rules: Rules, events: seq<Event>, id: string, n: nat, s: System)
    requires 0 < n <= |events| && Played(cfg, rules, s, events[n - 1]).Some?
    requires id in s.exposed ==> Open(events, id, n - 1)
    requires id in s.overwritten ==> DisturbedIn(events, id, n - 1)
    ensures id in Played(cfg, rules, s, events[n - 1]).value.exposed ==> Open(events, id, n)
    ensures id in Played(cfg, rules, s, events[n - 1]).value.overwritten ==> DisturbedIn(events, id, n)
  {
    var e := events[n - 1];
    if e.Agent? && Cuts(e.step, id) {
      assert OpenSinceEvent(events, id, n - 1, n);
    } else if id in s.exposed {
      var i :| OpenSinceEvent(events, id, i, n - 1);
      assert !(e.Agent? && Settles(e.step, id)) ==> OpenSinceEvent(events, id, i, n);
      assert e.Command? && e.input.command.id == id ==> DisturbedIn(events, id, n);
    }
    if id in s.overwritten {
      var i, j :| j < n - 1 && OpenSinceEvent(events, id, i, j) && j < |events| && events[j].Command? &&
        events[j].input.command.id == id;
      assert DisturbedIn(events, id, n);
    }
  }

  // ----- what a search answers

  /** The history of commands gives the document a version that satisfies the query. */
  ghost predicate HistoryAnswers(cfg: Config, rules: Rules, inputs: seq<Input>, name: string, vars: Bindings,
                                 id: string)
    requires name in cfg.defs
  {
    var doc := Replay(rules, inputs, id);
    doc.Some? && Satisfies(cfg.nf, cfg.defs[name].clauses, vars, doc.value)
  }

  /** For every interleaving of commands and agent work: once no marker remains, a server that accepts a
      search lists each document whose command history satisfies it, once; and nothing else, except
      documents named by a command between an interrupted drain of them and the next completed one. */
  lemma SearchAnswersHistory(cfg: Config, rules: Rules, events: seq<Event>, server: string, name: string,
                             vars: Bindings)
    requires cfg.Valid() && FloatEvents(cfg, events) && FloatBindings(cfg.nf, vars) && server != ""
    requires PlayedAll(cfg, rules, events).Some? && Quiet(PlayedAll(cfg, rules, events).value)
    requires Search(cfg, PlayedAll(cfg, rules, events).value, server, name, vars).Matches?
    requires Aligned(cfg, PlayedAll(cfg, rules, events).value, name, vars)
    ensures
      var s := PlayedAll(cfg, rules, events).value;
      var ids := Search(cfg, s, server, name, vars).ids;
      && (forall id :: HistoryAnswers(cfg, rules, Inputs(events), name, vars, id) ==> id in ids)
      && (forall id :: id in ids && id !in s.overwritten ==> HistoryAnswers(cfg, rules, Inputs(events), name, vars, id))
      && (forall id :: id in ids && !DisturbedIn(events, id, |events|) ==>
        HistoryAnswers(cfg, rules, Inputs(events), name, vars, id))
      && (forall i, j :: 0 <= i < j < |ids| ==> ids[i] != ids[j])
  {
    var s := PlayedAll(cfg, rules, events).value;
    EventsAreSteps(cfg, rules, events);
    SearchIsFilter(cfg, Trace(cfg, rules, events), server, name, vars);
    forall id
      ensures HistoryAnswers(cfg, rules, Inputs(events), name, vars, id) <==> Answers(cfg, s, name, vars, id)
    {
      LiveIsCommands(cfg, rules, events);
      LiveIsReplay(rules, Inputs(events), id);
    }
    forall id | id in s.overwritten
      ensures DisturbedIn(events, id, |events|)
    {
      assert events[..|events|] == events;
      HistoryIsEvents(cfg, rules, events, id, |events|);
    }
  }

  /** Every version that was ever live has sort fields that can be placed. */
  ghost predicate SortableVersions(cfg: Config, rules: Rules, kinds: map<string, seq<Kind>>, events: seq<Event>) {
    && (forall n :: n in cfg.defs ==> n in kinds && |kinds[n]| == |cfg.defs[n].sort|)
    && forall n: nat :: n <= |events| ==> SortableAt(cfg, rules, kinds, events, n)
  }

  ghost predicate SortableAt(cfg: Config, rules: Rules, kinds: map<string, seq<Kind>>, events: seq<Event>, n: nat)
    requires n <= |events|
  {
    var s := PlayedAll(cfg, rules, events[..n]);
    s.Some? ==> forall id :: id in s.value.store.live ==> Sortable(cfg, kinds, s.value.store.live[id])
  }

  lemma {:induction false} TraceSortable(cfg: Config, rules: Rules, kinds: map<string, seq<Kind>>, events: seq<Event>)
    requires PlayedAll(cfg, rules, events).Some? && SortableVersions(cfg, rules, kinds, events)
    ensures SortableRun(cfg, kinds, Trace(cfg, rules, events))
  {
    if events != [] {
      var n := |events| - 1;
      var init, last := events[..n], events[n];
      forall k: nat | k <= n
        ensures SortableAt(cfg, rules, kinds, init, k)
      {
        assert init[..k] == events[..k] && SortableAt(cfg, rules, kinds, events, k);
      }
      TraceSortable(cfg, rules, kinds, init);
      if last.Command? {
        assert events[..n + 1] == events && SortableAt(cfg, rules, kinds, events, n + 1);
        var s := PlayedAll(cfg, rules, init).value;
        WriteSortable(cfg, rules, kinds, s, last.input);
      }
    }
  }

  lemma WriteSortable(cfg: Config, rules: Rules, kinds: map<string, seq<Kind>>, s: System, input: Input)
    requires var t := Commanded(rules, s, input).store; forall id :: id in t.live ==> Sortable(cfg, kinds, t.live[id])
    ensures var step := WriteStep(rules, s.store, input); step.Some? ==> SortableStep(cfg, kinds, step.value)
  {
  }

  /** The same answer comes in sort order, by the keys of the documents' command histories. */
  lemma SearchAnswersInOrder(cfg: Config, rules: Rules, kinds: map<string, seq<Kind>>, events: seq<Event>,
                             server: string, name: string, vars: Bindings)
    requires FloatEvents(cfg, events) && SortableVersions(cfg, rules, kinds, events)
    requires PlayedAll(cfg, rules, events).Some? && Quiet(PlayedAll(cfg, rules, events).value)
    requires Search(cfg, PlayedAll(cfg, rules, events).value, server, name, vars).Matches?
    ensures
      var s := PlayedAll(cfg, rules, events).value;
      var ids := Search(cfg, s, server, name, vars).ids;
      && InOrder(cfg.defs[name], StoreAfter(rules, Inputs(events)).live, ids, s.overwritten)
      && (forall id :: id in s.overwritten ==> DisturbedIn(events, id, |events|))
  {
    EventsAreSteps(cfg, rules, events);
    TraceSortable(cfg, rules, kinds, events);
    SearchIsSorted(cfg, kinds, Trace(cfg, rules, events), server, name, vars);
    LiveIsCommands(cfg, rules, events);
    forall id | id in PlayedAll(cfg, rules, events).value.overwritten
      ensures DisturbedIn(events, id, |events|)
    {
      assert events[..|events|] == events;
      HistoryIsEvents(cfg, rules, events, id, |events|);
    }
  }
}
