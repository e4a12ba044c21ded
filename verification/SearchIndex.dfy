/** internal/agents/change/agent.go with internal/engine/search.go: the incremental search index as a
    state machine. Writes change documents, dotfiles and markers; drains repair the bucket files of
    every server that serves the bucket. One drain is atomic with respect to writes to its document. */
module SearchIndex {
  import opened Json
  import opened SearchPath
  import opened SearchEvaluate
  import opened SearchQuery
  import opened SearchSort
  import opened SearchStore
  import opened ShardMap
  import opened DocumentStore

  /** Number format, search definitions, shard map, known servers, the slot hash of a bucket path, and
      the server whose agent distributes a document. */
  datatype Config = Config(nf: NumberFormat, defs: map<string, Definition>, body: Body, servers: set<string>,
                           slotOf: string -> Slot, home: string -> string)
  {
    ghost predicate Valid() {
      nf.Valid() && Accepted(body, servers)
    }

    /** Every server that must hold the bucket. */
    ghost function Holders(segs: seq<string>): set<string> {
      var slot := slotOf(ShardInput(segs));
      if Served(body, slot) then SearchTargets(AssignmentOf(body, slot)) else {}
    }
  }

  /** A bucket file: on which server, of which search, under which path. */
  datatype Addr = Addr(server: string, search: string, segs: seq<string>)

  type Files = map<Addr, seq<Item>>

  function ItemsAt(files: Files, a: Addr): seq<Item> {
    if a in files then files[a] else []
  }

  predicate HasId(items: seq<Item>, id: string) {
    exists i :: 0 <= i < |items| && items[i].id == id
  }

  /** The bucket file should list the document. */
  ghost predicate Wanted(cfg: Config, doc: Option<Doc>, a: Addr) {
    && a.search in cfg.defs
    && Buckets(cfg.nf, cfg.defs[a.search], doc).Ok?
    && a.segs in Buckets(cfg.nf, cfg.defs[a.search], doc).value
    && a.server in cfg.Holders(a.segs)
  }

  predicate Evaluates(cfg: Config, doc: Option<Doc>) {
    forall n :: n in cfg.defs ==> Buckets(cfg.nf, cfg.defs[n], doc).Ok?
  }

  function Key(def: Definition, doc: Doc): seq<Json> {
    ToStored(ComputeSortValues(def, doc))
  }

  /** The sort values a holder compares with: the agent's own server has them as computed, any other
      rebuilds them from the stored form it is sent. */
  function Candidate(cfg: Config, id: string, server: string, vals: seq<SortValue>): (r: seq<SortValue>)
    ensures |r| == |vals| && ToStored(r) == ToStored(vals)
  {
    if server == cfg.home(id) then vals
    else
      RebuiltPlaceable(ToStored(vals));
      FromStored(ToStored(vals))
  }

  /** A holder other than the agent's server keeps every sorted file sorted, whatever values are missing. */
  lemma RemoteKeepsOrder(cfg: Config, id: string, server: string, vals: seq<SortValue>, items: seq<Item>,
                         kinds: seq<Kind>, desc: seq<bool>)
    requires server != cfg.home(id) && WellKept(items, kinds, desc) && Typed(kinds, ToStored(vals))
    ensures WellKept(UpsertItem(items, id, Candidate(cfg, id, server, vals), desc), kinds, desc)
  {
    RebuiltPlaceable(ToStored(vals));
    UpsertKeeps(items, id, Candidate(cfg, id, server, vals), kinds, desc);
  }

  /** What one delivered mutation leaves in a bucket file. */
  ghost function Repaired(cfg: Config, items: seq<Item>, id: string, prev: Option<Doc>, live: Option<Doc>,
                          a: Addr): seq<Item>
  {
    if Wanted(cfg, live, a) then
      var def := cfg.defs[a.search];
      assert live.Some?;
      UpsertItem(items, id, Candidate(cfg, id, a.server, ComputeSortValues(def, live.value)), Directions(def))
    else if Wanted(cfg, prev, a) then RemoveItem(items, id)
    else items
  }

  ghost function Delivered(cfg: Config, files: Files, id: string, prev: Option<Doc>, live: Option<Doc>,
                           done: set<Addr>): Files
  {
    map a | a in files.Keys + done ::
      if a in done then Repaired(cfg, ItemsAt(files, a), id, prev, live, a) else files[a]
  }

  /** Every file a drain of (prev, live) has to touch. */
  ghost function Plan(cfg: Config, prev: Option<Doc>, live: Option<Doc>): set<Addr> {
    WantedSet(cfg, prev) + WantedSet(cfg, live)
  }

  ghost function WantedSet(cfg: Config, doc: Option<Doc>): set<Addr> {
    set n, segs, server | n in cfg.defs && segs in BucketList(cfg, n, doc) &&
      server in cfg.Holders(segs) :: Addr(server, n, segs)
  }

  function BucketList(cfg: Config, n: string, doc: Option<Doc>): seq<seq<string>>
    requires n in cfg.defs
  {
    match Buckets(cfg.nf, cfg.defs[n], doc) case Ok(bs) => bs case Err => []
  }

  lemma WantedSetIsWanted(cfg: Config, doc: Option<Doc>, a: Addr)
    ensures a in WantedSet(cfg, doc) <==> Wanted(cfg, doc, a)
  {
  }

  // ----- the state machine

  /** Two history variables: `exposed`, documents with a dotfile whose last drain was cut short, and
      `overwritten`, documents written while exposed. */
  datatype System = System(store: Store, files: Files, exposed: set<string>, overwritten: set<string>) {
    function Wrote(id: string, store: Store): System {
      System(store, files, exposed, if id in exposed then overwritten + {id} else overwritten)
    }
  }

  const INITIAL := System(EMPTY, map[], {}, {})

  /** A drain takes a marker from the queue (`claim`) or resumes one already taken. It may be cut short
      after any part of its deliveries, or cut late, after the dotfile is removed and before the marker is. */
  datatype Step =
    | CreateDoc(id: string, doc: Doc)
    | PatchDoc(id: string, doc: Doc)
    | DeleteDoc(id: string)
    | Drain(m: Marker, claim: bool)
    | CutShort(m: Marker, claim: bool, done: set<Addr>)
    | CutLate(m: Marker, claim: bool)

  /** What every stored document satisfies: decoded numbers are floats, and "!" is its own id. */
  predicate Stored(cfg: Config, id: string, doc: Doc) {
    Floats(cfg.nf, Obj(doc)) && "!" in doc && doc["!"] == Str(id)
  }

  /** The marker is there, and both versions can be evaluated against every search. */
  ghost predicate Drainable(cfg: Config, s: System, m: Marker, claim: bool) {
    && m in (if claim then s.store.queue else s.store.taken)
    && Evaluates(cfg, Get(s.store.prev, m.id)) && Evaluates(cfg, Get(s.store.live, m.id))
  }

  ghost predicate Enabled(cfg: Config, s: System, step: Step) {
    match step
    case CreateDoc(id, doc) => id !in s.store.live && Stored(cfg, id, doc)
    case PatchDoc(id, doc) => id in s.store.live && Stored(cfg, id, doc)
    case DeleteDoc(id) => id in s.store.live
    case Drain(m, claim) => Drainable(cfg, s, m, claim)
    case CutLate(m, claim) => Drainable(cfg, s, m, claim)
    case CutShort(m, claim, done) =>
      && m in (if claim then s.store.queue else s.store.taken)
      && done <= Plan(cfg, Get(s.store.prev, m.id), Get(s.store.live, m.id))
  }

  function Claimed(s: Store, m: Marker, claim: bool): Store {
    if claim then s.(queue := s.queue - {m}, taken := s.taken + {m}) else s
  }

  /** The dotfile is removed first, then the marker. */
  function Unpreserved(s: Store, m: Marker, claim: bool): Store {
    var t := Claimed(s, m, claim);
    t.(prev := t.prev - {m.id})
  }

  function Finished(s: Store, m: Marker, claim: bool): Store {
    var t := Unpreserved(s, m, claim);
    t.(taken := t.taken - {m})
  }

  /** Every delivery of a drain made, with the given store. */
  ghost function Distributed(cfg: Config, s: System, m: Marker, store: Store): System {
    var prev, live := Get(s.store.prev, m.id), Get(s.store.live, m.id);
    System(store, Delivered(cfg, s.files, m.id, prev, live, Plan(cfg, prev, live)), s.exposed - {m.id}, s.overwritten)
  }

  ghost function Next(cfg: Config, s: System, step: Step): System
    requires Enabled(cfg, s, step)
  {
    match step
    case CreateDoc(id, doc) => s.Wrote(id, Written(s.store, id, doc, Create))
    case PatchDoc(id, doc) => s.Wrote(id, Patched(s.store, id, doc))
    case DeleteDoc(id) => s.Wrote(id, Deleted(s.store, id))
    case Drain(m, claim) => Distributed(cfg, s, m, Finished(s.store, m, claim))
    case CutLate(m, claim) => Distributed(cfg, s, m, Unpreserved(s.store, m, claim))
    case CutShort(m, claim, done) =>
      var prev, live := Get(s.store.prev, m.id), Get(s.store.live, m.id);
      System(Claimed(s.store, m, claim),
             Delivered(cfg, s.files, m.id, prev, live, done),
             if m.id in s.store.prev then s.exposed + {m.id} else s.exposed, s.overwritten)
  }

  /** The state after a run from the empty store; None when some step was not enabled. */
  ghost function After(cfg: Config, steps: seq<Step>): Option<System> {
    if steps == [] then Some(INITIAL)
    else match After(cfg, steps[..|steps| - 1])
      case None => None
      case Some(s) => if Enabled(cfg, s, steps[|steps| - 1]) then Some(Next(cfg, s, steps[|steps| - 1])) else None
  }

  lemma Extend(cfg: Config, steps: seq<Step>, s: System, step: Step)
    requires After(cfg, steps) == Some(s) && Enabled(cfg, s, step)
    ensures After(cfg, steps + [step]) == Some(Next(cfg, s, step))
  {
    assert (steps + [step])[..|steps|] == steps;
  }

  // ----- the invariant

  /** Where a document may still be listed: the buckets of its oldest undistributed version, and
      after a drain that was cut short also those of the live version. */
  ghost predicate MayList(cfg: Config, s: System, id: string, a: Addr) {
    Wanted(cfg, s.store.Oldest(id), a) || (id in s.exposed && Wanted(cfg, Get(s.store.live, id), a))
  }

  ghost predicate Covered(cfg: Config, s: System) {
    forall id, a :: id !in s.overwritten && HasId(ItemsAt(s.files, a), id) ==> MayList(cfg, s, id, a)
  }

  /** The document is listed, with its current sort key, wherever its live version wants it. */
  ghost predicate UpToDate(cfg: Config, s: System, id: string) {
    && id !in s.store.prev
    && Evaluates(cfg, Get(s.store.live, id))
    && forall a :: Wanted(cfg, Get(s.store.live, id), a) ==>
         Item(Key(cfg.defs[a.search], s.store.live[id]), id) in ItemsAt(s.files, a)
  }

  ghost predicate Inv(cfg: Config, s: System) {
    && (forall a :: Unique(ItemsAt(s.files, a)))
    && s.exposed <= s.store.prev.Keys
    && (forall id :: id in s.store.live ==> Stored(cfg, id, s.store.live[id]))
    && Covered(cfg, s)
    && (forall id :: !s.store.Pending(id) ==> UpToDate(cfg, s, id))
  }

  // ----- what a delivery does to one bucket file

  lemma DeliveredAt(cfg: Config, files: Files, id: string, prev: Option<Doc>, live: Option<Doc>, done: set<Addr>,
                    a: Addr)
    ensures ItemsAt(Delivered(cfg, files, id, prev, live, done), a) ==
      if a in done then Repaired(cfg, ItemsAt(files, a), id, prev, live, a) else ItemsAt(files, a)
  {
  }

  /** Entries of other documents stay as they are; the document's own entry is fresh if wanted, gone otherwise. */
  lemma RepairedMembers(cfg: Config, items: seq<Item>, id: string, prev: Option<Doc>, live: Option<Doc>, a: Addr)
    requires Unique(items)
    ensures
      var r := Repaired(cfg, items, id, prev, live, a);
      && Unique(r)
      && Others(r, id) == Others(items, id)
      && (Wanted(cfg, live, a) ==> Item(Key(cfg.defs[a.search], live.value), id) in r)
      && (!Wanted(cfg, live, a) && Wanted(cfg, prev, a) ==> !HasId(r, id))
      && (HasId(r, id) ==> Wanted(cfg, live, a) || HasId(items, id))
  {
    var r := Repaired(cfg, items, id, prev, live, a);
    assert forall it :: it in r <==> it in Members(r);
    if Wanted(cfg, live, a) {
      var def := cfg.defs[a.search];
      UpsertMembers(items, id, Candidate(cfg, id, a.server, ComputeSortValues(def, live.value)), Directions(def));
      assert Item(Key(def, live.value), id) in Members(r);
      OthersOf(items, r, id);
    } else if Wanted(cfg, prev, a) {
      RemoveUnique(items, id);
      RemoveMembers(items, id);
      OthersOf(items, r, id);
      assert forall i :: 0 <= i < |r| ==> r[i] in Members(r);
    }
  }

  lemma OthersOf(items: seq<Item>, r: seq<Item>, id: string)
    requires Others(items, id) <= Members(r)
    requires forall it :: it in Members(r) && it.id != id ==> it in Others(items, id)
    ensures Others(r, id) == Others(items, id)
  {
    forall it
      ensures it in Others(r, id) <==> it in Others(items, id)
    {
      assert it in r <==> it in Members(r);
    }
  }

  /** Another document's entries are exactly those among the others. */
  lemma OtherIds(items: seq<Item>, r: seq<Item>, id: string, j: string)
    requires Others(r, id) == Others(items, id) && j != id
    ensures HasId(r, j) <==> HasId(items, j)
    ensures forall key :: Item(key, j) in r <==> Item(key, j) in items
  {
    forall it: Item | it.id == j
      ensures it in r <==> it in items
    {
      assert it in r <==> it in Others(r, id);
      assert it in items <==> it in Others(items, id);
    }
    HasIdIn(r, j);
    HasIdIn(items, j);
  }

  lemma HasIdIn(items: seq<Item>, id: string)
    ensures HasId(items, id) <==> exists it :: it in items && it.id == id
  {
    if HasId(items, id) {
      var i :| 0 <= i < |items| && items[i].id == id;
      assert items[i] in items;
    }
  }

  lemma NextFiles(cfg: Config, s: System, m: Marker, done: set<Addr>, a: Addr)
    requires Inv(cfg, s)
    ensures
      var prev, live := Get(s.store.prev, m.id), Get(s.store.live, m.id);
      var items, r := ItemsAt(s.files, a), ItemsAt(Delivered(cfg, s.files, m.id, prev, live, done), a);
      && Unique(r) && Others(r, m.id) == Others(items, m.id)
      && (a in done && Wanted(cfg, live, a) ==> Item(Key(cfg.defs[a.search], live.value), m.id) in r)
      && (a in done && !Wanted(cfg, live, a) && Wanted(cfg, prev, a) ==> !HasId(r, m.id))
      && (HasId(r, m.id) ==> Wanted(cfg, live, a) || HasId(items, m.id))
  {
    var prev, live := Get(s.store.prev, m.id), Get(s.store.live, m.id);
    DeliveredAt(cfg, s.files, m.id, prev, live, done, a);
    RepairedMembers(cfg, ItemsAt(s.files, a), m.id, prev, live, a);
  }

  // ----- every step keeps the invariant

  predicate IsWrite(step: Step) {
    step.CreateDoc? || step.PatchDoc? || step.DeleteDoc?
  }

  function VerbOf(step: Step): Verb
    requires IsWrite(step)
  {
    if step.CreateDoc? then Create else if step.PatchDoc? then Patch else Delete
  }

  /** `t` is `s` after a write of `id`: other documents are untouched, one marker is added, and the
      oldest undistributed version of `id` is still the same. */
  ghost predicate WriteOf(s: Store, t: Store, id: string, verb: Verb) {
    && (forall j :: j != id ==> Get(t.live, j) == Get(s.live, j) && Get(t.prev, j) == Get(s.prev, j))
    && (s.Oldest(id).Some? ==> t.Oldest(id) == s.Oldest(id))
    && s.prev.Keys <= t.prev.Keys
    && t.taken == s.taken && t.queue == s.queue + {Marker(verb, id)}
  }

  lemma WriteEffect(cfg: Config, s: System, step: Step)
    requires Enabled(cfg, s, step) && IsWrite(step)
    ensures
      var t := Next(cfg, s, step);
      && t == s.Wrote(step.id, t.store) && WriteOf(s.store, t.store, step.id, VerbOf(step))
      && (step.id in t.store.live ==> Stored(cfg, step.id, t.store.live[step.id]))
      && Get(t.store.live, step.id) == (if step.DeleteDoc? then None else Some(step.doc))
  {
  }

  lemma WriteKeeps(cfg: Config, s: System, step: Step)
    requires Inv(cfg, s) && Enabled(cfg, s, step) && IsWrite(step)
    ensures Inv(cfg, Next(cfg, s, step))
  {
    WriteEffect(cfg, s, step);
    var t, id := Next(cfg, s, step), step.id;
    forall j, a | j !in t.overwritten && HasId(ItemsAt(t.files, a), j)
      ensures MayList(cfg, t, j, a)
    {
      WriteCovered(cfg, s, t, id, VerbOf(step), j, a);
    }
    forall j | !t.store.Pending(j)
      ensures UpToDate(cfg, t, j)
    {
      WriteUpToDate(cfg, s, t, id, VerbOf(step), j);
    }
    forall j | j in t.store.live
      ensures Stored(cfg, j, t.store.live[j])
    {
      assert j != id ==> Get(t.store.live, j) == Get(s.store.live, j);
    }
  }

  lemma WriteCovered(cfg: Config, s: System, t: System, id: string, verb: Verb, j: string, a: Addr)
    requires MayList(cfg, s, j, a) && j !in t.overwritten
    requires t == s.Wrote(id, t.store) && WriteOf(s.store, t.store, id, verb)
    ensures MayList(cfg, t, j, a)
  {
    if j == id {
      assert Wanted(cfg, s.store.Oldest(id), a);
    } else {
      assert Get(t.store.live, j) == Get(s.store.live, j) && Get(t.store.prev, j) == Get(s.store.prev, j);
      assert t.store.Oldest(j) == s.store.Oldest(j);
    }
  }

  lemma WriteUpToDate(cfg: Config, s: System, t: System, id: string, verb: Verb, j: string)
    requires !s.store.Pending(j) ==> UpToDate(cfg, s, j)
    requires t.files == s.files && !t.store.Pending(j)
    requires WriteOf(s.store, t.store, id, verb)
    ensures UpToDate(cfg, t, j)
  {
    assert Marker(verb, id) in t.store.queue + t.store.taken;
    assert j != id;
    assert Get(t.store.live, j) == Get(s.store.live, j) && Get(t.store.prev, j) == Get(s.store.prev, j);
    StillPending(s.store, t.store, id, j);
  }

  lemma StillPending(s: Store, t: Store, id: string, j: string)
    requires forall m: Marker :: m.id != id ==> (m in s.queue + s.taken <==> m in t.queue + t.taken)
    requires j != id
    ensures s.Pending(j) <==> t.Pending(j)
  {
  }

  lemma DrainKeeps(cfg: Config, s: System, m: Marker, claim: bool)
    requires Inv(cfg, s) && Enabled(cfg, s, Drain(m, claim))
    ensures Inv(cfg, Next(cfg, s, Drain(m, claim)))
    ensures UpToDate(cfg, Next(cfg, s, Drain(m, claim)), m.id)
  {
    DistributedKeeps(cfg, s, m, claim, Finished(s.store, m, claim));
  }

  lemma CutLateKeeps(cfg: Config, s: System, m: Marker, claim: bool)
    requires Inv(cfg, s) && Enabled(cfg, s, CutLate(m, claim))
    ensures Inv(cfg, Next(cfg, s, CutLate(m, claim)))
    ensures UpToDate(cfg, Next(cfg, s, CutLate(m, claim)), m.id)
  {
    DistributedKeeps(cfg, s, m, claim, Unpreserved(s.store, m, claim));
  }

  lemma DistributedKeeps(cfg: Config, s: System, m: Marker, claim: bool, store: Store)
    requires Inv(cfg, s) && Drainable(cfg, s, m, claim)
    requires store == Finished(s.store, m, claim) || store == Unpreserved(s.store, m, claim)
    ensures Inv(cfg, Distributed(cfg, s, m, store))
    ensures UpToDate(cfg, Distributed(cfg, s, m, store), m.id)
  {
    var t := Distributed(cfg, s, m, store);
    forall a
      ensures Unique(ItemsAt(t.files, a)) && Others(ItemsAt(t.files, a), m.id) == Others(ItemsAt(s.files, a), m.id)
    {
      DistributedFile(cfg, s, m, a);
    }
    CleanedUp(s.store, m, claim, store);
    OwnKept(cfg, s, m, store);
    OthersKept(cfg, s, t, m);
  }

  /** What cleaning up after a marker leaves as it was. */
  lemma CleanedUp(s: Store, m: Marker, claim: bool, t: Store)
    requires m in (if claim then s.queue else s.taken)
    requires t == Finished(s, m, claim) || t == Unpreserved(s, m, claim)
    ensures t.live == s.live && t.prev == s.prev - {m.id}
    ensures forall n: Marker :: n.id != m.id ==> (n in s.queue + s.taken <==> n in t.queue + t.taken)
  {
  }

  lemma OwnKept(cfg: Config, s: System, m: Marker, store: Store)
    requires Inv(cfg, s) && Evaluates(cfg, Get(s.store.live, m.id))
    requires store.live == s.store.live && store.prev == s.store.prev - {m.id}
    ensures
      var t := Distributed(cfg, s, m, store);
      && UpToDate(cfg, t, m.id)
      && forall a :: m.id !in t.overwritten && HasId(ItemsAt(t.files, a), m.id) ==> MayList(cfg, t, m.id, a)
  {
    var t := Distributed(cfg, s, m, store);
    forall a
      ensures Wanted(cfg, Get(t.store.live, m.id), a) ==>
        Item(Key(cfg.defs[a.search], t.store.live[m.id]), m.id) in ItemsAt(t.files, a)
      ensures m.id !in t.overwritten && HasId(ItemsAt(t.files, a), m.id) ==> Wanted(cfg, Get(t.store.live, m.id), a)
    {
      DistributedFile(cfg, s, m, a);
    }
  }

  lemma DistributedFile(cfg: Config, s: System, m: Marker, a: Addr)
    requires Inv(cfg, s)
    ensures
      var live, r := Get(s.store.live, m.id), ItemsAt(Distributed(cfg, s, m, s.store).files, a);
      && Unique(r) && Others(r, m.id) == Others(ItemsAt(s.files, a), m.id)
      && (Wanted(cfg, live, a) ==> Item(Key(cfg.defs[a.search], live.value), m.id) in r)
      && (m.id !in s.overwritten && HasId(r, m.id) ==> Wanted(cfg, live, a))
  {
    var prev, live := Get(s.store.prev, m.id), Get(s.store.live, m.id);
    NextFiles(cfg, s, m, Plan(cfg, prev, live), a);
    WantedSetIsWanted(cfg, prev, a);
    WantedSetIsWanted(cfg, live, a);
    assert m.id !in s.overwritten && HasId(ItemsAt(s.files, a), m.id) ==> MayList(cfg, s, m.id, a);
  }

  /** A delivery for one document leaves coverage and freshness of the others alone. */
  lemma OthersKept(cfg: Config, s: System, t: System, m: Marker)
    requires Inv(cfg, s)
    requires t.store.live == s.store.live && t.overwritten == s.overwritten
    requires forall j :: j != m.id ==>
      (j in s.store.prev <==> j in t.store.prev) && (j in s.store.prev ==> s.store.prev[j] == t.store.prev[j])
    requires forall j :: j != m.id ==> (j in s.exposed <==> j in t.exposed)
    requires forall n: Marker :: n.id != m.id ==>
      (n in s.store.queue + s.store.taken <==> n in t.store.queue + t.store.taken)
    requires forall a :: Others(ItemsAt(t.files, a), m.id) == Others(ItemsAt(s.files, a), m.id)
    ensures forall j, a :: j != m.id && j !in t.overwritten && HasId(ItemsAt(t.files, a), j) ==> MayList(cfg, t, j, a)
    ensures forall j :: j != m.id && !t.store.Pending(j) ==> UpToDate(cfg, t, j)
  {
    forall j, a | j != m.id && j !in t.overwritten && HasId(ItemsAt(t.files, a), j)
      ensures MayList(cfg, t, j, a)
    {
      OtherIds(ItemsAt(s.files, a), ItemsAt(t.files, a), m.id, j);
      assert MayList(cfg, s, j, a);
    }
    forall j | j != m.id && !t.store.Pending(j)
      ensures UpToDate(cfg, t, j)
    {
      StillPending(s.store, t.store, m.id, j);
      assert UpToDate(cfg, s, j);
      forall a | Wanted(cfg, Get(t.store.live, j), a)
        ensures Item(Key(cfg.defs[a.search], t.store.live[j]), j) in ItemsAt(t.files, a)
      {
        OtherIds(ItemsAt(s.files, a), ItemsAt(t.files, a), m.id, j);
      }
    }
  }

  lemma CutShortKeeps(cfg: Config, s: System, m: Marker, claim: bool, done: set<Addr>)
    requires Inv(cfg, s) && Enabled(cfg, s, CutShort(m, claim, done))
    ensures Inv(cfg, Next(cfg, s, CutShort(m, claim, done)))
  {
    var t := Next(cfg, s, CutShort(m, claim, done));
    var prev, live := Get(s.store.prev, m.id), Get(s.store.live, m.id);
    forall a
      ensures Unique(ItemsAt(t.files, a)) && Others(ItemsAt(t.files, a), m.id) == Others(ItemsAt(s.files, a), m.id)
      ensures m.id !in s.overwritten && HasId(ItemsAt(t.files, a), m.id) ==> MayList(cfg, t, m.id, a)
    {
      NextFiles(cfg, s, m, done, a);
      assert m.id !in s.overwritten && HasId(ItemsAt(s.files, a), m.id) ==> MayList(cfg, s, m.id, a);
    }
    OthersKept(cfg, s, t, m);
    assert m in t.store.queue + t.store.taken;
  }

  /** Every step of every run keeps the invariant. */
  lemma StepKeeps(cfg: Config, s: System, step: Step)
    requires Inv(cfg, s) && Enabled(cfg, s, step)
    ensures Inv(cfg, Next(cfg, s, step))
  {
    match step
    case Drain(m, claim) => DrainKeeps(cfg, s, m, claim);
    case CutShort(m, claim, done) => CutShortKeeps(cfg, s, m, claim, done);
    case CutLate(m, claim) => CutLateKeeps(cfg, s, m, claim);
    case _ => WriteKeeps(cfg, s, step);
  }

  lemma {:induction false} RunKeepsInv(cfg: Config, steps: seq<Step>)
    requires After(cfg, steps).Some?
    ensures Inv(cfg, After(cfg, steps).value)
  {
    if steps == [] {
      forall id, n
        ensures n in cfg.defs ==> Buckets(cfg.nf, cfg.defs[n], Get(INITIAL.store.live, id)).Ok?
      {
      }
    } else {
      RunKeepsInv(cfg, steps[..|steps| - 1]);
      StepKeeps(cfg, After(cfg, steps[..|steps| - 1]).value, steps[|steps| - 1]);
    }
  }

  // ----- which documents are overwritten, read off the steps

  predicate Cuts(step: Step, id: string) {
    step.CutShort? && step.m.id == id
  }

  predicate Settles(step: Step, id: string) {
    (step.Drain? || step.CutLate?) && step.m.id == id
  }

  predicate Writes(step: Step, id: string) {
    IsWrite(step) && step.id == id
  }

  /** A drain of the document was cut short at step i, and none of its drains was completed before step n. */
  predicate OpenSince(steps: seq<Step>, id: string, i: int, n: int) {
    0 <= i < n <= |steps| && Cuts(steps[i], id) && forall k :: i < k < n ==> !Settles(steps[k], id)
  }

  ghost predicate Open(steps: seq<Step>, id: string, n: int) {
    exists i :: OpenSince(steps, id, i, n)
  }

  /** The document was written in such a window, among the first n steps. */
  ghost predicate DisturbedIn(steps: seq<Step>, id: string, n: int) {
    exists i, j :: j < n && OpenSince(steps, id, i, j) && j < |steps| && Writes(steps[j], id)
  }

  ghost predicate Disturbed(steps: seq<Step>, id: string) {
    DisturbedIn(steps, id, |steps|)
  }

  /** No document was written between an interrupted drain of it and the next completed one. */
  ghost predicate Undisturbed(steps: seq<Step>) {
    forall id :: !Disturbed(steps, id)
  }

  /** The history variables tell no more than the steps do. */
  lemma {:induction false} HistoryIsSteps(cfg: Config, steps: seq<Step>, id: string, n: nat)
    requires n <= |steps| && After(cfg, steps[..n]).Some?
    ensures id in After(cfg, steps[..n]).value.exposed ==> Open(steps, id, n)
    ensures id in After(cfg, steps[..n]).value.overwritten ==> DisturbedIn(steps, id, n)
  {
    if n > 0 {
      assert steps[..n][..n - 1] == steps[..n - 1];
      HistoryIsSteps(cfg, steps, id, n - 1);
      HistoryStep(cfg, steps, id, n, After(cfg, steps[..n - 1]).value);
    }
  }

  lemma HistoryStep(cfg: Config, steps: seq<Step>, id: string, n: nat, s: System)
    requires 0 < n <= |steps| && Enabled(cfg, s, steps[n - 1])
    requires id in s.exposed ==> Open(steps, id, n - 1)
    requires id in s.overwritten ==> DisturbedIn(steps, id, n - 1)
    ensures id in Next(cfg, s, steps[n - 1]).exposed ==> Open(steps, id, n)
    ensures id in Next(cfg, s, steps[n - 1]).overwritten ==> DisturbedIn(steps, id, n)
  {
    var step := steps[n - 1];
    if Cuts(step, id) {
      assert OpenSince(steps, id, n - 1, n);
    } else if id in s.exposed {
      var i :| OpenSince(steps, id, i, n - 1);
      assert !Settles(step, id) ==> OpenSince(steps, id, i, n);
      assert Writes(step, id) ==> DisturbedIn(steps, id, n);
    }
    if id in s.overwritten {
      var i, j :| j < n - 1 && OpenSince(steps, id, i, j) && j < |steps| && Writes(steps[j], id);
      assert DisturbedIn(steps, id, n);
    }
  }

  /** A document is overwritten only if some write of it comes after an interrupted drain of it with no
      completed one between. */
  lemma OverwrittenIsDisturbed(cfg: Config, steps: seq<Step>, id: string)
    requires After(cfg, steps).Some? && id in After(cfg, steps).value.overwritten
    ensures Disturbed(steps, id)
  {
    assert steps[..|steps|] == steps;
    HistoryIsSteps(cfg, steps, id, |steps|);
  }

  lemma UndisturbedIsClean(cfg: Config, steps: seq<Step>)
    requires After(cfg, steps).Some? && Undisturbed(steps)
    ensures After(cfg, steps).value.overwritten == {}
  {
    if id :| id in After(cfg, steps).value.overwritten {
      OverwrittenIsDisturbed(cfg, steps, id);
    }
  }

  /** In particular when no drain is cut short: creates, patches, deletes and atomic drains. */
  lemma AtomicIsUndisturbed(steps: seq<Step>)
    requires forall i :: 0 <= i < |steps| ==> !steps[i].CutShort?
    ensures Undisturbed(steps)
  {
  }

  // ----- the index is the buckets of the live documents

  /** Once nothing is pending for a document, every file its live version belongs in lists it with its
      current sort key; and unless it was overwritten, no other file lists it. */
  lemma IndexIsBuckets(cfg: Config, s: System, id: string, a: Addr)
    requires Inv(cfg, s) && !s.store.Pending(id)
    ensures Wanted(cfg, Get(s.store.live, id), a) ==>
      HasId(ItemsAt(s.files, a), id) && forall it :: it in ItemsAt(s.files, a) && it.id == id ==>
        it.sort == Key(cfg.defs[a.search], s.store.live[id])
    ensures id !in s.overwritten && HasId(ItemsAt(s.files, a), id) ==> Wanted(cfg, Get(s.store.live, id), a)
  {
    assert UpToDate(cfg, s, id);
    if id !in s.overwritten && HasId(ItemsAt(s.files, a), id) {
      assert MayList(cfg, s, id, a);
    }
    if Wanted(cfg, Get(s.store.live, id), a) {
      EntryOf(ItemsAt(s.files, a), Item(Key(cfg.defs[a.search], s.store.live[id]), id));
    }
  }

  lemma EntryOf(items: seq<Item>, entry: Item)
    requires Unique(items) && entry in items
    ensures HasId(items, entry.id) && forall it :: it in items && it.id == entry.id ==> it == entry
  {
    HasIdIn(items, entry.id);
    var k :| 0 <= k < |items| && items[k] == entry;
  }

  /** A drain cut short anywhere and then retried ends where an undisturbed drain ends. */
  lemma RetryGivesSame(cfg: Config, s: System, m: Marker, claim: bool, done: set<Addr>, a: Addr)
    requires Inv(cfg, s) && Enabled(cfg, s, CutShort(m, claim, done)) && Enabled(cfg, s, Drain(m, claim))
    ensures
      var cut := Next(cfg, s, CutShort(m, claim, done));
      && Enabled(cfg, cut, Drain(m, false))
      && var retried, direct := Next(cfg, cut, Drain(m, false)), Next(cfg, s, Drain(m, claim));
         retried.store == direct.store && Members(ItemsAt(retried.files, a)) == Members(ItemsAt(direct.files, a))
  {
    var cut := Next(cfg, s, CutShort(m, claim, done));
    var retried, direct := Next(cfg, cut, Drain(m, false)), Next(cfg, s, Drain(m, claim));
    assert retried.store.queue == direct.store.queue && retried.store.taken == direct.store.taken;
    RetriedFile(cfg, s.files, m.id, Get(s.store.prev, m.id), Get(s.store.live, m.id), done, a);
  }

  /** So does one cut late, when only the marker was left to remove. */
  lemma LateRetryGivesSame(cfg: Config, s: System, m: Marker, claim: bool, a: Addr)
    requires Inv(cfg, s) && Enabled(cfg, s, CutLate(m, claim))
    ensures
      var cut := Next(cfg, s, CutLate(m, claim));
      && Enabled(cfg, cut, Drain(m, false))
      && var retried, direct := Next(cfg, cut, Drain(m, false)), Next(cfg, s, Drain(m, claim));
         retried.store == direct.store && Members(ItemsAt(retried.files, a)) == Members(ItemsAt(direct.files, a))
  {
    var cut := Next(cfg, s, CutLate(m, claim));
    var retried, direct := Next(cfg, cut, Drain(m, false)), Next(cfg, s, Drain(m, claim));
    assert retried.store.prev == direct.store.prev;
    assert retried.store.queue == direct.store.queue && retried.store.taken == direct.store.taken;
    var live := Get(s.store.live, m.id);
    DistributedFile(cfg, s, m, a);
    FreshStays(cfg, cut.files, m.id, live, a);
  }

  /** A drain without a dotfile changes nothing where the document is already listed as it should be. */
  lemma FreshStays(cfg: Config, files: Files, id: string, live: Option<Doc>, a: Addr)
    requires Unique(ItemsAt(files, a))
    requires Wanted(cfg, live, a) ==> Item(Key(cfg.defs[a.search], live.value), id) in ItemsAt(files, a)
    ensures Members(ItemsAt(Delivered(cfg, files, id, None, live, Plan(cfg, None, live)), a)) ==
      Members(ItemsAt(files, a))
  {
    var items := ItemsAt(files, a);
    DeliveredAt(cfg, files, id, None, live, Plan(cfg, None, live), a);
    NothingWanted(cfg, a);
    if Wanted(cfg, live, a) {
      var r := Repaired(cfg, items, id, None, live, a);
      RepairedMembers(cfg, items, id, None, live, a);
      EntryOf(items, Item(Key(cfg.defs[a.search], live.value), id));
      EntryOf(r, Item(Key(cfg.defs[a.search], live.value), id));
      SameEntry(items, r, id);
    }
  }

  lemma NothingWanted(cfg: Config, a: Addr)
    ensures !Wanted(cfg, None, a)
  {
  }

  lemma RetriedFile(cfg: Config, files: Files, id: string, prev: Option<Doc>, live: Option<Doc>, done: set<Addr>,
                    a: Addr)
    requires Unique(ItemsAt(files, a)) && done <= Plan(cfg, prev, live)
    ensures
      var plan := Plan(cfg, prev, live);
      var cut := Delivered(cfg, files, id, prev, live, done);
      Members(ItemsAt(Delivered(cfg, cut, id, prev, live, plan), a)) ==
        Members(ItemsAt(Delivered(cfg, files, id, prev, live, plan), a))
  {
    var plan := Plan(cfg, prev, live);
    var cut := Delivered(cfg, files, id, prev, live, done);
    DeliveredAt(cfg, files, id, prev, live, done, a);
    DeliveredAt(cfg, files, id, prev, live, plan, a);
    DeliveredAt(cfg, cut, id, prev, live, plan, a);
    RepairedTwice(cfg, ItemsAt(files, a), id, prev, live, a);
  }

  lemma RepairedTwice(cfg: Config, items: seq<Item>, id: string, prev: Option<Doc>, live: Option<Doc>, a: Addr)
    requires Unique(items)
    ensures
      var once := Repaired(cfg, items, id, prev, live, a);
      Members(Repaired(cfg, once, id, prev, live, a)) == Members(once)
  {
    var once := Repaired(cfg, items, id, prev, live, a);
    var twice := Repaired(cfg, once, id, prev, live, a);
    RepairedMembers(cfg, items, id, prev, live, a);
    RepairedMembers(cfg, once, id, prev, live, a);
    if Wanted(cfg, live, a) {
      EntryOf(once, Item(Key(cfg.defs[a.search], live.value), id));
      EntryOf(twice, Item(Key(cfg.defs[a.search], live.value), id));
      SameEntry(once, twice, id);
    } else if Wanted(cfg, prev, a) {
      HasIdIn(once, id);
      HasIdIn(twice, id);
      SameEntry(once, twice, id);
    }
  }

  lemma SameEntry(r: seq<Item>, d: seq<Item>, id: string)
    requires Others(r, id) == Others(d, id)
    requires forall it: Item :: it.id == id ==> (it in r <==> it in d)
    ensures Members(r) == Members(d)
  {
    forall it
      ensures it in Members(r) <==> it in Members(d)
    {
      if it.id != id {
        assert it in Others(r, id) <==> it in Others(d, id);
      }
    }
  }

  // ----- the search command

  datatype Response = NotFound | BadRequest | WrongMachine | Matches(ids: seq<string>)

  /** Resolves the query to a bucket path, checks that this server serves it, and lists the bucket file. */
  ghost function Search(cfg: Config, s: System, server: string, name: string, vars: Bindings): Response {
    if name !in cfg.defs then NotFound
    else match QueryPath(cfg.nf, cfg.defs[name].clauses, vars)
      case Err => BadRequest
      case Ok(segs) =>
        var slot := cfg.slotOf(ShardInput(segs));
        if !Served(cfg.body, slot) || !MaySearch(server, AssignmentOf(cfg.body, slot)) then WrongMachine
        else Matches(IdsOf(ItemsAt(s.files, Addr(server, name, segs))))
  }

  /** A search is unknown, refused for a clause the bindings leave unresolved, or answered by exactly the holders
      of the bucket its clauses resolve to, with the ids of that file. */
  lemma SearchOutcome(cfg: Config, s: System, server: string, name: string, vars: Bindings)
    requires server != ""
    ensures
      var r := Search(cfg, s, server, name, vars);
      && (r == NotFound <==> name !in cfg.defs)
      && (r == BadRequest <==>
            name in cfg.defs && exists c :: c in cfg.defs[name].clauses && Unresolved(cfg.nf, c, vars))
      && forall segs :: name in cfg.defs && ResolvesTo(cfg.nf, cfg.defs[name].clauses, vars, segs) ==>
           && (r.Matches? <==> server in cfg.Holders(segs))
           && (r == WrongMachine <==> server !in cfg.Holders(segs))
           && (r.Matches? ==> r.ids == IdsOf(ItemsAt(s.files, Addr(server, name, segs))))
  {
    if name in cfg.defs {
      QueryFailsIff(cfg.nf, cfg.defs[name].clauses, vars);
      forall segs | ResolvesTo(cfg.nf, cfg.defs[name].clauses, vars, segs)
        ensures QueryPath(cfg.nf, cfg.defs[name].clauses, vars) == Ok(segs)
      {
        QueryResolvesIff(cfg.nf, cfg.defs[name].clauses, vars, segs);
      }
    }
  }

  predicate Quiet(s: System) {
    s.store.queue == {} && s.store.taken == {}
  }

  ghost predicate Aligned(cfg: Config, s: System, name: string, vars: Bindings)
    requires name in cfg.defs
  {
    forall id, c :: id in s.store.live && c in cfg.defs[name].clauses ==> Unambiguous(cfg.nf, c, vars, s.store.live[id])
  }

  /** The documents a query asks for, with no index at all. */
  ghost predicate Answers(cfg: Config, s: System, name: string, vars: Bindings, id: string)
    requires name in cfg.defs
  {
    id in s.store.live && Satisfies(cfg.nf, cfg.defs[name].clauses, vars, s.store.live[id])
  }

  /** After any run, once no marker remains, any server that accepts a search lists every live document
      that satisfies it, each once, and nothing else except documents that were overwritten. */
  lemma SearchIsFilter(cfg: Config, steps: seq<Step>, server: string, name: string, vars: Bindings)
    requires cfg.Valid() && After(cfg, steps).Some? && Quiet(After(cfg, steps).value)
    requires Search(cfg, After(cfg, steps).value, server, name, vars).Matches? && server != ""
    requires FloatBindings(cfg.nf, vars) && Aligned(cfg, After(cfg, steps).value, name, vars)
    ensures
      var s := After(cfg, steps).value;
      var ids := Search(cfg, s, server, name, vars).ids;
      && (forall id :: Answers(cfg, s, name, vars, id) ==> id in ids)
      && (forall id :: id in ids && id !in s.overwritten ==> Answers(cfg, s, name, vars, id))
      && (forall i, j :: 0 <= i < j < |ids| ==> ids[i] != ids[j])
  {
    RunKeepsInv(cfg, steps);
    var s := After(cfg, steps).value;
    var ids := Search(cfg, s, server, name, vars).ids;
    forall id
      ensures Answers(cfg, s, name, vars, id) ==> id in ids
      ensures id in ids && id !in s.overwritten ==> Answers(cfg, s, name, vars, id)
    {
      ListedIffAnswers(cfg, s, server, name, vars, id);
    }
    var a := Addr(server, name, QueryPath(cfg.nf, cfg.defs[name].clauses, vars).value);
    DistinctIds(ItemsAt(s.files, a));
  }

  lemma ListedIffAnswers(cfg: Config, s: System, server: string, name: string, vars: Bindings, id: string)
    requires cfg.Valid() && Inv(cfg, s) && Quiet(s)
    requires Search(cfg, s, server, name, vars).Matches? && server != ""
    requires FloatBindings(cfg.nf, vars) && Aligned(cfg, s, name, vars)
    ensures Answers(cfg, s, name, vars, id) ==> id in Search(cfg, s, server, name, vars).ids
    ensures id in Search(cfg, s, server, name, vars).ids && id !in s.overwritten ==> Answers(cfg, s, name, vars, id)
  {
    var segs := QueryPath(cfg.nf, cfg.defs[name].clauses, vars).value;
    var a := Addr(server, name, segs);
    IdsAre(ItemsAt(s.files, a), id);
    IndexIsBuckets(cfg, s, id, a);
    if id in s.store.live {
      WantedIsSatisfied(cfg, s, a, vars, id);
    }
  }

  /** A server that may answer for the slot is one of its holders, and the bucket is the query. */
  lemma WantedIsSatisfied(cfg: Config, s: System, a: Addr, vars: Bindings, id: string)
    requires cfg.Valid() && Inv(cfg, s) && Quiet(s) && id in s.store.live && a.search in cfg.defs
    requires QueryPath(cfg.nf, cfg.defs[a.search].clauses, vars) == Ok(a.segs)
    requires
      var slot := cfg.slotOf(ShardInput(a.segs));
      Served(cfg.body, slot) && MaySearch(a.server, AssignmentOf(cfg.body, slot)) && a.server != ""
    requires FloatBindings(cfg.nf, vars) && Aligned(cfg, s, a.search, vars)
    ensures Wanted(cfg, Get(s.store.live, id), a) <==> Answers(cfg, s, a.search, vars, id)
  {
    ServerHolds(cfg, a.server, a.segs);
    assert UpToDate(cfg, s, id);
    BucketIsQuery(cfg.nf, cfg.defs[a.search], vars, s.store.live[id]);
  }

  /** On an accepted map the servers that answer for a bucket are exactly its holders. */
  lemma ServerHolds(cfg: Config, server: string, segs: seq<string>)
    requires
      var slot := cfg.slotOf(ShardInput(segs));
      Served(cfg.body, slot) && server != ""
    ensures server in cfg.Holders(segs) <==> MaySearch(server, AssignmentOf(cfg.body, cfg.slotOf(ShardInput(segs))))
  {
  }

  lemma DistinctIds(items: seq<Item>)
    requires Unique(items)
    ensures forall i, j :: 0 <= i < j < |IdsOf(items)| ==> IdsOf(items)[i] != IdsOf(items)[j]
  {
  }

  lemma IdsAre(items: seq<Item>, id: string)
    ensures id in IdsOf(items) <==> HasId(items, id)
  {
    if HasId(items, id) {
      var i :| 0 <= i < |items| && items[i].id == id;
      assert IdsOf(items)[i] == id;
    }
    if id in IdsOf(items) {
      var i :| 0 <= i < |items| && IdsOf(items)[i] == id;
      assert items[i].id == id;
    }
  }

  // ----- the order of the answer

  /** The sort fields are null, missing or of the search's sort kinds, and no known one follows a missing one. */
  predicate Sortable(cfg: Config, kinds: map<string, seq<Kind>>, doc: Doc) {
    forall n :: n in cfg.defs ==>
      && n in kinds && |kinds[n]| == |cfg.defs[n].sort|
      && Placeable(ComputeSortValues(cfg.defs[n], doc))
      && Typed(kinds[n], Key(cfg.defs[n], doc))
  }

  ghost predicate Tidy(cfg: Config, kinds: map<string, seq<Kind>>, s: System) {
    && (forall n :: n in cfg.defs ==> n in kinds && |kinds[n]| == |cfg.defs[n].sort|)
    && (forall id :: id in s.store.live ==> Sortable(cfg, kinds, s.store.live[id]))
    && (forall a: Addr :: a.search in cfg.defs ==>
      WellKept(ItemsAt(s.files, a), kinds[a.search], Directions(cfg.defs[a.search])))
  }

  predicate SortableStep(cfg: Config, kinds: map<string, seq<Kind>>, step: Step) {
    step.CreateDoc? || step.PatchDoc? ==> Sortable(cfg, kinds, step.doc)
  }

  /** Sort fields are written with their search's kinds, and no known one after a missing one. */
  ghost predicate SortableRun(cfg: Config, kinds: map<string, seq<Kind>>, steps: seq<Step>) {
    && (forall n :: n in cfg.defs ==> n in kinds && |kinds[n]| == |cfg.defs[n].sort|)
    && (forall i :: 0 <= i < |steps| ==> SortableStep(cfg, kinds, steps[i]))
  }

  lemma DeliveryTidy(cfg: Config, kinds: map<string, seq<Kind>>, s: System, id: string, prev: Option<Doc>,
                     done: set<Addr>, a: Addr)
    requires Tidy(cfg, kinds, s) && a.search in cfg.defs
    ensures WellKept(ItemsAt(Delivered(cfg, s.files, id, prev, Get(s.store.live, id), done), a), kinds[a.search],
      Directions(cfg.defs[a.search]))
  {
    var live := Get(s.store.live, id);
    DeliveredAt(cfg, s.files, id, prev, live, done, a);
    var items, def, ks := ItemsAt(s.files, a), cfg.defs[a.search], kinds[a.search];
    if a in done && Wanted(cfg, live, a) {
      assert Sortable(cfg, kinds, live.value);
      var vals := ComputeSortValues(def, live.value);
      ComputedNullsAbsent(def, live.value);
      RebuiltPlaceable(ToStored(vals));
      UpsertKeeps(items, id, Candidate(cfg, id, a.server, vals), ks, Directions(def));
    } else if a in done && Wanted(cfg, prev, a) {
      RemoveKeeps(items, id, ks, Directions(def));
    }
  }

  lemma {:induction false} RunKeepsTidy(cfg: Config, kinds: map<string, seq<Kind>>, steps: seq<Step>)
    requires After(cfg, steps).Some? && SortableRun(cfg, kinds, steps)
    ensures Tidy(cfg, kinds, After(cfg, steps).value)
  {
    if steps != [] {
      var init, step := steps[..|steps| - 1], steps[|steps| - 1];
      RunKeepsTidy(cfg, kinds, init);
      assert SortableStep(cfg, kinds, step);
      StepKeepsTidy(cfg, kinds, After(cfg, init).value, step);
    }
  }

  lemma StepKeepsTidy(cfg: Config, kinds: map<string, seq<Kind>>, s: System, step: Step)
    requires Tidy(cfg, kinds, s) && Enabled(cfg, s, step) && SortableStep(cfg, kinds, step)
    ensures Tidy(cfg, kinds, Next(cfg, s, step))
  {
    var t := Next(cfg, s, step);
    if IsWrite(step) {
      WriteEffect(cfg, s, step);
      forall id | id in t.store.live
        ensures Sortable(cfg, kinds, t.store.live[id])
      {
        assert id != step.id ==> Get(t.store.live, id) == Get(s.store.live, id);
      }
    } else {
      var prev, live := Get(s.store.prev, step.m.id), Get(s.store.live, step.m.id);
      var done := if step.CutShort? then step.done else Plan(cfg, prev, live);
      assert t.files == Delivered(cfg, s.files, step.m.id, prev, live, done);
      forall a: Addr | a.search in cfg.defs
        ensures WellKept(ItemsAt(t.files, a), kinds[a.search], Directions(cfg.defs[a.search]))
      {
        DeliveryTidy(cfg, kinds, s, step.m.id, prev, done, a);
      }
    }
  }

  /** In the order of the definition's sort fields, as read from the documents' own fields: of two documents the
      first precedes in the first sort field in which they are not level, or they are level in all. Documents
      in `skip` may stand anywhere. */
  ghost predicate InOrder(def: Definition, live: map<string, Doc>, ids: seq<string>, skip: set<string>) {
    && (forall id :: id in ids && id !in skip ==> id in live)
    && forall i, j :: 0 <= i < j < |ids| && ids[i] !in skip && ids[j] !in skip ==>
         NotAfter(def.sort, live[ids[i]], live[ids[j]])
  }

  /** The same answer comes in sort order, given sort fields of one kind each with no known one after a
      missing one. */
  lemma SearchIsSorted(cfg: Config, kinds: map<string, seq<Kind>>, steps: seq<Step>, server: string, name: string,
                       vars: Bindings)
    requires After(cfg, steps).Some? && Quiet(After(cfg, steps).value) && SortableRun(cfg, kinds, steps)
    requires Search(cfg, After(cfg, steps).value, server, name, vars).Matches?
    ensures
      var s := After(cfg, steps).value;
      InOrder(cfg.defs[name], s.store.live, Search(cfg, s, server, name, vars).ids, s.overwritten)
  {
    RunKeepsInv(cfg, steps);
    RunKeepsTidy(cfg, kinds, steps);
    var s := After(cfg, steps).value;
    var a := Addr(server, name, QueryPath(cfg.nf, cfg.defs[name].clauses, vars).value);
    FileInOrder(cfg, s, kinds[name], a);
  }

  lemma FileInOrder(cfg: Config, s: System, kinds: seq<Kind>, a: Addr)
    requires Inv(cfg, s) && Quiet(s) && a.search in cfg.defs && |kinds| == |cfg.defs[a.search].sort|
    requires WellKept(ItemsAt(s.files, a), kinds, Directions(cfg.defs[a.search]))
    ensures InOrder(cfg.defs[a.search], s.store.live, IdsOf(ItemsAt(s.files, a)), s.overwritten)
  {
    var items := ItemsAt(s.files, a);
    var ids := IdsOf(items);
    forall i | 0 <= i < |ids| && ids[i] !in s.overwritten
      ensures ids[i] in s.store.live && items[i].sort == Key(cfg.defs[a.search], s.store.live[ids[i]])
    {
      assert items[i] in items && HasId(items, items[i].id);
      IndexIsBuckets(cfg, s, ids[i], a);
    }
    forall i, j | 0 <= i < j < |ids| && ids[i] !in s.overwritten && ids[j] !in s.overwritten
      ensures NotAfter(cfg.defs[a.search].sort, s.store.live[ids[i]], s.store.live[ids[j]])
    {
      KeyOrderIsDocumentOrder(kinds, cfg.defs[a.search], s.store.live[ids[i]], s.store.live[ids[j]]);
    }
  }

  function Listing(def: Definition, live: map<string, Doc>, ids: seq<string>): (items: seq<Item>)
    requires forall id :: id in ids ==> id in live
    ensures |items| == |ids|
  {
    seq(|ids|, i requires 0 <= i < |ids| => Item(Key(def, live[ids[i]]), ids[i]))
  }

  predicate EndsWithId(def: Definition) {
    def.sort != [] && def.sort[|def.sort| - 1].field == "/!"
  }

  /** With the id as the last sort field a set of documents has one sorted listing. */
  lemma OneSortedListing(cfg: Config, kinds: seq<Kind>, def: Definition, live: map<string, Doc>, ids: seq<string>,
                         other: seq<string>)
    requires EndsWithId(def) && |kinds| == |def.sort|
    requires forall id :: id in live ==> Stored(cfg, id, live[id]) && Typed(kinds, Key(def, live[id]))
    requires forall id :: id in other <==> id in ids
    requires forall i, j :: 0 <= i < j < |ids| ==> ids[i] != ids[j]
    requires forall i, j :: 0 <= i < j < |other| ==> other[i] != other[j]
    requires InOrder(def, live, ids, {}) && InOrder(def, live, other, {})
    ensures ids == other
  {
    var a, b, desc := Listing(def, live, ids), Listing(def, live, other), Directions(def);
    ListingSorted(cfg, kinds, def, live, ids);
    ListingSorted(cfg, kinds, def, live, other);
    ListingMembers(def, live, ids, other);
    ListingMembers(def, live, other, ids);
    EndsInIdIsStrict(a, kinds, desc);
    Canonical(a, b, kinds, desc);
    SameIds(def, live, ids, other);
  }

  lemma ListingSorted(cfg: Config, kinds: seq<Kind>, def: Definition, live: map<string, Doc>, ids: seq<string>)
    requires EndsWithId(def) && |kinds| == |def.sort|
    requires forall id :: id in live ==> Stored(cfg, id, live[id]) && Typed(kinds, Key(def, live[id]))
    requires forall i, j :: 0 <= i < j < |ids| ==> ids[i] != ids[j]
    requires InOrder(def, live, ids, {})
    ensures WellKept(Listing(def, live, ids), kinds, Directions(def)) && EndsInId(Listing(def, live, ids))
  {
    ListingTyped(kinds, def, live, ids);
    ListingOrdered(kinds, def, live, ids);
    ListingEndsInId(cfg, def, live, ids);
  }

  lemma ListingAt(def: Definition, live: map<string, Doc>, ids: seq<string>, i: nat)
    requires (forall id :: id in ids ==> id in live) && i < |ids|
    ensures ids[i] in live && Listing(def, live, ids)[i] == Item(Key(def, live[ids[i]]), ids[i])
  {
    assert ids[i] in ids;
  }

  lemma ListingTyped(kinds: seq<Kind>, def: Definition, live: map<string, Doc>, ids: seq<string>)
    requires forall id :: id in ids ==> id in live && Typed(kinds, Key(def, live[id]))
    ensures AllTyped(Listing(def, live, ids), kinds)
  {
    forall i | 0 <= i < |ids|
      ensures Typed(kinds, Listing(def, live, ids)[i].sort)
    {
      ListingAt(def, live, ids, i);
    }
  }

  lemma ListingOrdered(kinds: seq<Kind>, def: Definition, live: map<string, Doc>, ids: seq<string>)
    requires |kinds| == |def.sort| && (forall id :: id in ids ==> id in live) &&
      AllTyped(Listing(def, live, ids), kinds)
    requires forall i, j :: 0 <= i < j < |ids| ==> ids[i] != ids[j]
    requires InOrder(def, live, ids, {})
    ensures Unique(Listing(def, live, ids)) && Sorted(Listing(def, live, ids), Directions(def))
  {
    var a := Listing(def, live, ids);
    forall i, j | 0 <= i < j < |a|
      ensures a[i].id != a[j].id && CompareKeys(a[i].sort, a[j].sort, Directions(def)) <= 0
    {
      ListingAt(def, live, ids, i);
      ListingAt(def, live, ids, j);
      KeyOrderIsDocumentOrder(kinds, def, live[ids[i]], live[ids[j]]);
    }
  }

  lemma ListingEndsInId(cfg: Config, def: Definition, live: map<string, Doc>, ids: seq<string>)
    requires EndsWithId(def) && forall id :: id in ids ==> id in live && Stored(cfg, id, live[id])
    ensures EndsInId(Listing(def, live, ids))
  {
    var a := Listing(def, live, ids);
    forall i | 0 <= i < |a|
      ensures a[i].sort != [] && a[i].sort[|a[i].sort| - 1] == Str(a[i].id)
    {
      ListingAt(def, live, ids, i);
      KeyEndsInId(cfg, def, ids[i], live[ids[i]]);
    }
  }

  lemma KeyEndsInId(cfg: Config, def: Definition, id: string, doc: Doc)
    requires EndsWithId(def) && Stored(cfg, id, doc)
    ensures Key(def, doc)[|def.sort| - 1] == Str(id)
  {
  }

  lemma SameIds(def: Definition, live: map<string, Doc>, ids: seq<string>, other: seq<string>)
    requires (forall id :: id in ids ==> id in live) && (forall id :: id in other ==> id in live)
    requires Listing(def, live, ids) == Listing(def, live, other)
    ensures ids == other
  {
    assert forall i :: 0 <= i < |ids| ==> ids[i] == Listing(def, live, ids)[i].id;
    assert forall i :: 0 <= i < |other| ==> other[i] == Listing(def, live, other)[i].id;
  }

  /** `ids` lists exactly the documents that satisfy the query, each once, in sort order. */
  ghost predicate FilteredAndSorted(cfg: Config, s: System, name: string, vars: Bindings, ids: seq<string>)
    requires name in cfg.defs
  {
    && (forall id :: id in ids <==> Answers(cfg, s, name, vars, id))
    && (forall i, j :: 0 <= i < j < |ids| ==> ids[i] != ids[j])
    && InOrder(cfg.defs[name], s.store.live, ids, {})
  }

  /** After every undisturbed run the answer is the filter-and-sort of the live documents. */
  lemma AnswerIsFilteredAndSorted(cfg: Config, kinds: map<string, seq<Kind>>, steps: seq<Step>, server: string,
                                  name: string, vars: Bindings)
    requires cfg.Valid() && FloatBindings(cfg.nf, vars) && server != "" && SortableRun(cfg, kinds, steps)
    requires After(cfg, steps).Some? && Quiet(After(cfg, steps).value) && Undisturbed(steps)
    requires Search(cfg, After(cfg, steps).value, server, name, vars).Matches? &&
      Aligned(cfg, After(cfg, steps).value, name, vars)
    ensures
      var s := After(cfg, steps).value;
      FilteredAndSorted(cfg, s, name, vars, Search(cfg, s, server, name, vars).ids)
  {
    UndisturbedIsClean(cfg, steps);
    SearchIsFilter(cfg, steps, server, name, vars);
    SearchIsSorted(cfg, kinds, steps, server, name, vars);
  }

  lemma OneAnswer(cfg: Config, kinds: map<string, seq<Kind>>, s: System, t: System, name: string, vars: Bindings,
                  ids: seq<string>, other: seq<string>)
    requires name in cfg.defs && EndsWithId(cfg.defs[name]) && Tidy(cfg, kinds, s)
    requires s.store.live == t.store.live && forall id :: id in s.store.live ==> Stored(cfg, id, s.store.live[id])
    requires FilteredAndSorted(cfg, s, name, vars, ids) && FilteredAndSorted(cfg, t, name, vars, other)
    ensures ids == other
  {
    forall id
      ensures id in ids <==> id in other
    {
      assert Answers(cfg, s, name, vars, id) <==> Answers(cfg, t, name, vars, id);
    }
    forall id | id in s.store.live
      ensures Typed(kinds[name], Key(cfg.defs[name], s.store.live[id]))
    {
      assert Sortable(cfg, kinds, s.store.live[id]);
    }
    OneSortedListing(cfg, kinds[name], cfg.defs[name], s.store.live, ids, other);
  }

  /** With the id as the last sort field the answer depends on the live documents alone: whatever the
      histories of writes and drains, whichever servers answer, equal documents give equal answers. */
  lemma AnswerIgnoresHistory(cfg: Config, kinds: map<string, seq<Kind>>, steps: seq<Step>, others: seq<Step>,
                             server: string, mirror: string, name: string, vars: Bindings)
    requires cfg.Valid() && FloatBindings(cfg.nf, vars) && server != "" && mirror != ""
    requires SortableRun(cfg, kinds, steps) && SortableRun(cfg, kinds, others)
    requires After(cfg, steps).Some? && After(cfg, others).Some? && Undisturbed(steps) && Undisturbed(others)
    requires
      var s, t := After(cfg, steps).value, After(cfg, others).value;
      && Quiet(s) && Quiet(t) && s.store.live == t.store.live
      && Search(cfg, s, server, name, vars).Matches? && Search(cfg, t, mirror, name, vars).Matches?
      && Aligned(cfg, s, name, vars) && EndsWithId(cfg.defs[name])
    ensures Search(cfg, After(cfg, steps).value, server, name, vars) ==
      Search(cfg, After(cfg, others).value, mirror, name, vars)
  {
    var s, t := After(cfg, steps).value, After(cfg, others).value;
    assert Aligned(cfg, t, name, vars);
    AnswerIsFilteredAndSorted(cfg, kinds, steps, server, name, vars);
    AnswerIsFilteredAndSorted(cfg, kinds, others, mirror, name, vars);
    RunKeepsInv(cfg, steps);
    RunKeepsTidy(cfg, kinds, steps);
    OneAnswer(cfg, kinds, s, t, name, vars, Search(cfg, s, server, name, vars).ids,
      Search(cfg, t, mirror, name, vars).ids);
  }

  lemma ListingMembers(def: Definition, live: map<string, Doc>, ids: seq<string>, other: seq<string>)
    requires (forall id :: id in ids ==> id in live) && (forall id :: id in ids ==> id in other) &&
      (forall id :: id in other ==> id in live)
    ensures Members(Listing(def, live, ids)) <= Members(Listing(def, live, other))
  {
    var a, b := Listing(def, live, ids), Listing(def, live, other);
    forall it | it in a
      ensures it in b
    {
      var i :| 0 <= i < |a| && a[i] == it;
      assert ids[i] in other;
      var k :| 0 <= k < |other| && other[k] == ids[i];
      assert b[k] == it;
    }
  }

  // ----- a write after a drain that was cut short

  /** Any write, then a full drain of its marker: the document is listed exactly where its new version
      belongs if and only if, before the write, it was listed only in buckets of its dotfile (or of the
      replaced live version, if there was no dotfile) or of the new version. A drain cut short may have
      listed it elsewhere; that listing stays. */
  lemma WriteAfterCutIff(cfg: Config, s: System, step: Step)
    requires Inv(cfg, s) && IsWrite(step) && Enabled(cfg, s, step)
    requires Enabled(cfg, Next(cfg, s, step), Drain(Marker(VerbOf(step), step.id), true))
    ensures
      var t, id := Next(cfg, s, step), step.id;
      var u := Next(cfg, t, Drain(Marker(VerbOf(step), id), true));
      (forall a :: HasId(ItemsAt(u.files, a), id) <==> Wanted(cfg, Get(u.store.live, id), a))
      <==>
      (forall a :: HasId(ItemsAt(s.files, a), id) ==>
        Wanted(cfg, s.store.Oldest(id), a) || Wanted(cfg, Get(t.store.live, id), a))
  {
    var t, id := Next(cfg, s, step), step.id;
    var prev, live := Get(t.store.prev, id), Get(t.store.live, id);
    assert prev.Some? ==> prev == s.store.Oldest(id);
    assert prev.None? ==> s.store.Oldest(id).None?;
    var u := Next(cfg, t, Drain(Marker(VerbOf(step), id), true));
    assert Get(u.store.live, id) == live;
    forall a
      ensures HasId(ItemsAt(u.files, a), id) <==>
        Wanted(cfg, live, a) || (HasId(ItemsAt(s.files, a), id) && !Wanted(cfg, prev, a))
    {
      ListedAfter(cfg, t, id, prev, live, a);
    }
  }

  /** A drain lists the document where the live version wants it, and elsewhere only removes it from
      the buckets of the dotfile. */
  lemma ListedAfter(cfg: Config, t: System, id: string, prev: Option<Doc>, live: Option<Doc>, a: Addr)
    requires Unique(ItemsAt(t.files, a))
    ensures HasId(ItemsAt(Delivered(cfg, t.files, id, prev, live, Plan(cfg, prev, live)), a), id) <==>
      Wanted(cfg, live, a) || (HasId(ItemsAt(t.files, a), id) && !Wanted(cfg, prev, a))
  {
    var plan := Plan(cfg, prev, live);
    DeliveredAt(cfg, t.files, id, prev, live, plan, a);
    RepairedMembers(cfg, ItemsAt(t.files, a), id, prev, live, a);
    WantedSetIsWanted(cfg, prev, a);
    WantedSetIsWanted(cfg, live, a);
    HasIdIn(ItemsAt(Delivered(cfg, t.files, id, prev, live, plan), a), id);
  }
}
