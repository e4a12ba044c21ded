/** internal/agents/change/agent.go and agent_search.go, as code: claim a marker, evaluate both document
    versions, deliver the bucket mutations to every holder, clean up. Maps are read in any order and
    any delivery may fail, so what is proved is that the code refines the index state machine. */
module ChangeAgent {
  import opened Json
  import opened SearchPath
  import opened SearchEvaluate
  import opened SearchSort
  import opened SearchStore
  import opened ShardMap
  import opened DocumentStore
  import opened SearchIndex

  /** Two collections of bucket files with the same contents; an absent file counts as an empty one. */
  ghost predicate SameFiles(f: Files, g: Files) {
    forall a :: ItemsAt(f, a) == ItemsAt(g, a)
  }

  /** `now` is `before` with the mutations of one drain delivered at `done` and nowhere else. */
  ghost predicate Progress(cfg: Config, before: Files, now: Files, id: string, prev: Option<Doc>, live: Option<Doc>,
                           done: set<Addr>)
  {
    forall a :: ItemsAt(now, a) ==
      if a in done then Repaired(cfg, ItemsAt(before, a), id, prev, live, a) else ItemsAt(before, a)
  }

  lemma ProgressIsDelivered(cfg: Config, before: Files, now: Files, id: string, prev: Option<Doc>, live: Option<Doc>,
                            done: set<Addr>)
    requires Progress(cfg, before, now, id, prev, live, done)
    ensures SameFiles(now, Delivered(cfg, before, id, prev, live, done))
  {
    forall a
      ensures ItemsAt(now, a) == ItemsAt(Delivered(cfg, before, id, prev, live, done), a)
    {
      DeliveredAt(cfg, before, id, prev, live, done, a);
    }
  }

  /** A mutation as a server sees it: the agent's own with the sort values as computed, any other with
      those it rebuilds from the stored form. */
  function SeenBy(self: string, server: string, m: Mutation): (r: Mutation)
    ensures r.Put? <==> m.Put?
    ensures r.Put? ==> |r.vals| == |m.vals|
  {
    if server == self || m.Drop? then m else Put(m.id, FromStored(ToStored(m.vals)))
  }

  /** `now` is `was` with one mutation applied at the files in `reached`, as their servers see it. */
  ghost predicate Mutated(self: string, was: Files, now: Files, m: Mutation, desc: seq<bool>, reached: set<Addr>)
    requires m.Put? ==> |desc| >= |m.vals|
  {
    forall a :: ItemsAt(now, a) ==
      if a in reached then Mutate(ItemsAt(was, a), SeenBy(self, a.server, m), desc) else ItemsAt(was, a)
  }

  /** Delivering the mutation at a file is what the drain does there. */
  ghost predicate Repairs(cfg: Config, self: string, before: Files, id: string, prev: Option<Doc>, live: Option<Doc>,
                          m: Mutation, desc: seq<bool>, a: Addr)
    requires m.Put? ==> |desc| >= |m.vals|
  {
    Repaired(cfg, ItemsAt(before, a), id, prev, live, a) == Mutate(ItemsAt(before, a), SeenBy(self, a.server, m), desc)
  }

  ghost predicate AllRepair(cfg: Config, self: string, before: Files, id: string, prev: Option<Doc>, live: Option<Doc>,
                            m: Mutation, desc: seq<bool>, where: set<Addr>)
    requires m.Put? ==> |desc| >= |m.vals|
  {
    forall a :: a in where ==> Repairs(cfg, self, before, id, prev, live, m, desc, a)
  }

  lemma SomeRepair(cfg: Config, self: string, before: Files, id: string, prev: Option<Doc>, live: Option<Doc>,
                   m: Mutation, desc: seq<bool>, where: set<Addr>, some: set<Addr>)
    requires m.Put? ==> |desc| >= |m.vals|
    requires AllRepair(cfg, self, before, id, prev, live, m, desc, where) && some <= where
    ensures AllRepair(cfg, self, before, id, prev, live, m, desc, some)
  {
  }

  lemma ProgressStep(cfg: Config, self: string, before: Files, was: Files, now: Files, id: string, prev: Option<Doc>,
                     live: Option<Doc>,
                     done: set<Addr>, m: Mutation, desc: seq<bool>, reached: set<Addr>)
    requires m.Put? ==> |desc| >= |m.vals|
    requires Progress(cfg, before, was, id, prev, live, done) && Mutated(self, was, now, m, desc, reached)
    requires done !! reached
    requires AllRepair(cfg, self, before, id, prev, live, m, desc, reached)
    ensures Progress(cfg, before, now, id, prev, live, done + reached)
  {
    forall a
      ensures ItemsAt(now, a) ==
        if a in done + reached then Repaired(cfg, ItemsAt(before, a), id, prev, live, a) else ItemsAt(before, a)
    {
      if a in reached {
        assert Repairs(cfg, self, before, id, prev, live, m, desc, a);
        assert ItemsAt(was, a) == ItemsAt(before, a);
      }
    }
  }

  /** `now` is `was` with one mutation applied at one file. */
  ghost predicate AppliedAt(was: Files, now: Files, m: Mutation, desc: seq<bool>, a: Addr)
    requires m.Put? ==> |desc| >= |m.vals|
  {
    forall b :: ItemsAt(now, b) == if b == a then Mutate(ItemsAt(was, b), m, desc) else ItemsAt(was, b)
  }

  lemma MutatedNone(self: string, files: Files, m: Mutation, desc: seq<bool>)
    requires m.Put? ==> |desc| >= |m.vals|
    ensures Mutated(self, files, files, m, desc, {})
  {
  }

  lemma MutatedStep(self: string, was: Files, mid: Files, now: Files, m: Mutation, desc: seq<bool>, reached: set<Addr>,
                    a: Addr)
    requires m.Put? ==> |desc| >= |m.vals|
    requires Mutated(self, was, mid, m, desc, reached) && a !in reached
    requires AppliedAt(mid, now, SeenBy(self, a.server, m), desc, a)
    ensures Mutated(self, was, now, m, desc, reached + {a})
  {
  }

  predicate Indexes(index: map<string, seq<string>>, buckets: seq<seq<string>>) {
    && (forall segs, seg :: segs in buckets && seg in segs ==> Component(seg))
    && (forall key :: key in index ==> index[key] in buckets && ShardInput(index[key]) == key)
    && (forall segs :: segs in buckets ==> ShardInput(segs) in index && index[ShardInput(segs)] == segs)
  }

  /** Buckets indexed by their joined path; distinct paths of components never share a key. */
  method BucketIndex(buckets: seq<seq<string>>) returns (index: map<string, seq<string>>)
    requires forall segs, seg :: segs in buckets && seg in segs ==> Component(seg)
    ensures Indexes(index, buckets)
  {
    index := map[];
    for i := 0 to |buckets|
      invariant forall key :: key in index ==> index[key] in buckets && ShardInput(index[key]) == key
      invariant forall k :: 0 <= k < i ==> ShardInput(buckets[k]) in index
    {
      index := index[ShardInput(buckets[i]) := buckets[i]];
    }
    forall segs | segs in buckets
      ensures ShardInput(segs) in index && index[ShardInput(segs)] == segs
    {
      ShardInputInjective(segs, index[ShardInput(segs)]);
    }
  }

  /** The files of one bucket: one on each holder. */
  ghost function At(cfg: Config, search: string, segs: seq<string>): set<Addr> {
    On(cfg.Holders(segs), search, segs)
  }

  ghost function On(servers: set<string>, search: string, segs: seq<string>): set<Addr> {
    set server | server in servers :: Addr(server, search, segs)
  }

  /** The files of all the given buckets. */
  ghost function Reach(cfg: Config, search: string, keys: set<string>, index: map<string, seq<string>>): set<Addr>
    requires keys <= index.Keys
  {
    set key, server | key in keys && server in cfg.Holders(index[key]) :: Addr(server, search, index[key])
  }

  lemma ReachNone(cfg: Config, search: string, index: map<string, seq<string>>)
    ensures Reach(cfg, search, {}, index) == {}
  {
  }

  /** What has been reached after some of the buckets, on top of `done0`. */
  ghost function ReachedSoFar(cfg: Config, search: string, keys: set<string>, index: map<string, seq<string>>,
                              done0: set<Addr>): set<Addr>
    requires keys <= index.Keys
  {
    done0 + Reach(cfg, search, keys, index)
  }

  lemma ReachStep(cfg: Config, search: string, some: set<string>, all: set<string>, index: map<string, seq<string>>,
                  key: string, done0: set<Addr>)
    requires some <= all <= index.Keys && key in all && key !in some && done0 !! Reach(cfg, search, all, index)
    requires forall k :: k in index ==> ShardInput(index[k]) == k
    ensures
      var done, next := ReachedSoFar(cfg, search, some, index, done0), At(cfg, search, index[key]);
      && done + next == ReachedSoFar(cfg, search, some + {key}, index, done0) && done !! next
      && done0 <= done && done + next <= ReachedSoFar(cfg, search, all, index, done0)
    ensures At(cfg, search, index[key]) <= Reach(cfg, search, all, index)
  {
  }

  class Agent {
    const cfg: Config
    const self: string
    const docs: DocumentFiles
    var files: Files

    constructor (cfg: Config, self: string, docs: DocumentFiles)
      ensures this.cfg == cfg && this.self == self && this.docs == docs && files == map[]
    {
      this.cfg, this.self, this.docs, files := cfg, self, docs, map[];
    }

    /** Loads one bucket file, mutates it, and writes it back if it changed. */
    method ApplyMutation(a: Addr, m: Mutation, def: Definition)
      requires m.Put? ==> |m.vals| == |def.sort|
      modifies this`files
      ensures AppliedAt(old(files), files, m, Directions(def), a)
    {
      var rf := new ResultFile(ItemsAt(files, a));
      var changed;
      match m {
        case Put(id, vals) => changed := rf.Upsert(def, id, vals);
        case Drop(id) =>
          changed := false;
          if a in files {
            changed := rf.Remove(id);
          }
      }
      if changed {
        files := files[a := rf.items];
      }
    }

    /** Calls the given servers in any order; a call may fail before or after the server applied it. */
    method DeliverRemote(remotes: set<string>, search: string, segs: seq<string>, m: Mutation, def: Definition,
                         ghost before: Files, ghost reached0: set<Addr>)
      returns (ok: bool, ghost reached: set<Addr>)
      requires m.Put? ==> |m.vals| == |def.sort|
      requires self !in remotes && reached0 !! On(remotes, search, segs)
      requires Mutated(self, before, files, m, Directions(def), reached0)
      modifies this`files
      ensures reached0 <= reached <= reached0 + On(remotes, search, segs)
      ensures ok ==> reached == reached0 + On(remotes, search, segs)
      ensures Mutated(self, before, files, m, Directions(def), reached)
    {
      ok, reached := true, reached0;
      var todo := remotes;
      while todo != {}
        invariant todo <= remotes && reached0 <= reached <= reached0 + On(remotes - todo, search, segs)
        invariant ok ==> reached == reached0 + On(remotes - todo, search, segs)
        invariant Mutated(self, before, files, m, Directions(def), reached)
        decreases |todo|
      {
        var target :| target in todo;
        ghost var a := Addr(target, search, segs);
        assert On(remotes - (todo - {target}), search, segs) == On(remotes - todo, search, segs) + {a};
        assert a !in reached;
        todo := todo - {target};
        var applied, acknowledged := *, *;
        if applied || acknowledged {
          ghost var mid := files;
          ApplyMutation(Addr(target, search, segs), SeenBy(self, target, m), def);
          MutatedStep(self, before, mid, files, m, Directions(def), reached, a);
          reached := reached + {a};
        }
        ok := ok && acknowledged;
      }
    }

    /** Applies the mutation here if this server is a holder, then at every other holder. */
    method Deliver(search: string, segs: seq<string>, m: Mutation, def: Definition)
      returns (ok: bool, ghost reached: set<Addr>)
      requires cfg.Valid()
      requires m.Put? ==> |m.vals| == |def.sort|
      modifies this`files
      ensures reached <= At(cfg, search, segs)
      ensures ok ==> reached == At(cfg, search, segs)
      ensures Mutated(self, old(files), files, m, Directions(def), reached)
    {
      var targets := Targets(segs);
      reached := {};
      MutatedNone(self, files, m, Directions(def));
      if self in targets {
        reached := DeliverLocal(Addr(self, search, segs), m, def);
      }
      ghost var here := reached;
      var remotes := targets - {self};
      ok, reached := DeliverRemote(remotes, search, segs, m, def, old(files), reached);
      assert here + On(remotes, search, segs) == At(cfg, search, segs);
    }

    method Targets(segs: seq<string>) returns (targets: set<string>)
      requires cfg.Valid()
      ensures targets == cfg.Holders(segs)
    {
      var found := SlotAssignment(cfg.body, cfg.slotOf(ShardInput(segs)));
      assert Served(cfg.body, cfg.slotOf(ShardInput(segs)));
      var names := ComputeSearchTargets(found.value);
      targets := SetOf(names);
    }

    method DeliverLocal(a: Addr, m: Mutation, def: Definition) returns (ghost reached: set<Addr>)
      requires a.server == self
      requires m.Put? ==> |m.vals| == |def.sort|
      modifies this`files
      ensures reached == {a} && Mutated(self, old(files), files, m, Directions(def), reached)
    {
      ApplyMutation(a, SeenBy(self, self, m), def);
      MutatedNone(self, old(files), m, Directions(def));
      MutatedStep(self, old(files), old(files), files, m, Directions(def), {}, a);
      reached := {} + {a};
    }

    /** Delivers one mutation to each of the given buckets, in any order, stopping at the first failure. */
    method DeliverAll(n: string, keys: set<string>, index: map<string, seq<string>>, m: Mutation, def: Definition,
                      id: string, ghost prev: Option<Doc>, ghost live: Option<Doc>, ghost before: Files,
                      ghost done0: set<Addr>)
      returns (ok: bool, ghost done: set<Addr>)
      requires cfg.Valid() && keys <= index.Keys
      requires m.Put? ==> |m.vals| == |def.sort|
      requires forall key :: key in index ==> ShardInput(index[key]) == key
      requires Progress(cfg, before, files, id, prev, live, done0) && done0 !! Reach(cfg, n, keys, index)
      requires AllRepair(cfg, self, before, id, prev, live, m, Directions(def), Reach(cfg, n, keys, index))
      modifies this`files
      ensures Progress(cfg, before, files, id, prev, live, done)
      ensures done0 <= done <= ReachedSoFar(cfg, n, keys, index, done0)
      ensures ok ==> done == ReachedSoFar(cfg, n, keys, index, done0)
    {
      ok, done := true, done0;
      var todo := keys;
      ReachNone(cfg, n, index);
      while todo != {}
        invariant todo <= keys && ok
        invariant done == ReachedSoFar(cfg, n, keys - todo, index, done0)
        invariant Progress(cfg, before, files, id, prev, live, done)
        decreases |todo|
      {
        var key :| key in todo;
        ReachStep(cfg, n, keys - todo, keys, index, key, done0);
        assert keys - (todo - {key}) == keys - todo + {key};
        SomeRepair(cfg, self, before, id, prev, live, m, Directions(def), Reach(cfg, n, keys, index),
          At(cfg, n, index[key]));
        ok, done := DeliverNext(n, index[key], m, def, id, prev, live, before, done);
        if !ok {
          return;
        }
        todo := todo - {key};
      }
    }

    method DeliverNext(n: string, segs: seq<string>, m: Mutation, def: Definition,
                       id: string, ghost prev: Option<Doc>, ghost live: Option<Doc>, ghost before: Files,
                       ghost done0: set<Addr>)
      returns (ok: bool, ghost done: set<Addr>)
      requires cfg.Valid()
      requires m.Put? ==> |m.vals| == |def.sort|
      requires Progress(cfg, before, files, id, prev, live, done0) && done0 !! At(cfg, n, segs)
      requires AllRepair(cfg, self, before, id, prev, live, m, Directions(def), At(cfg, n, segs))
      modifies this`files
      ensures done0 <= done <= done0 + At(cfg, n, segs) && (ok ==> done == done0 + At(cfg, n, segs))
      ensures Progress(cfg, before, files, id, prev, live, done)
    {
      ghost var was := files;
      ghost var reached;
      ok, reached := Deliver(n, segs, m, def);
      SomeRepair(cfg, self, before, id, prev, live, m, Directions(def), At(cfg, n, segs), reached);
      ProgressStep(cfg, self, before, was, files, id, prev, live, done0, m, Directions(def), reached);
      done := done0 + reached;
    }

    /** The buckets only the previous version has: the document is removed from each. */
    method RemoveStale(n: string, id: string, ghost prev: Option<Doc>, ghost live: Option<Doc>,
                       ghost olds: seq<seq<string>>, ghost news: seq<seq<string>>,
                       oldByKey: map<string, seq<string>>, newByKey: map<string, seq<string>>, ghost before: Files,
                       ghost done0: set<Addr>)
      returns (ok: bool, ghost done: set<Addr>)
      requires cfg.Valid() && n in cfg.defs && Evaluated(cfg, n, prev, olds, oldByKey) &&
        Evaluated(cfg, n, live, news, newByKey)
      requires Progress(cfg, before, files, id, prev, live, done0) && forall a :: a in done0 ==> a.search != n
      modifies this`files
      ensures Progress(cfg, before, files, id, prev, live, done)
      ensures done0 <= done && forall a :: a in done && a !in done0 ==>
        a.search == n && Wanted(cfg, prev, a) && !Wanted(cfg, live, a)
      ensures ok ==> forall a: Addr :: a.search == n && Wanted(cfg, prev, a) && !Wanted(cfg, live, a) ==> a in done
    {
      var stale := oldByKey.Keys - newByKey.Keys;
      forall a
        ensures a in Reach(cfg, n, stale, oldByKey) <==> a.search == n && Wanted(cfg, prev, a) && !Wanted(cfg, live, a)
      {
        StaleReach(cfg, n, prev, live, olds, news, oldByKey, newByKey, a);
      }
      ok, done := DeliverAll(n, stale, oldByKey, Drop(id), cfg.defs[n], id, prev, live, before, done0);
    }

    /** The buckets the live version has: the document is upserted into each. */
    method UpsertFresh(n: string, id: string, ghost prev: Option<Doc>, live: Option<Doc>, ghost news: seq<seq<string>>,
                       newByKey: map<string, seq<string>>, ghost before: Files, ghost done0: set<Addr>)
      returns (ok: bool, ghost done: set<Addr>)
      requires cfg.Valid() && n in cfg.defs && live.Some? && self == cfg.home(id) &&
        Evaluated(cfg, n, live, news, newByKey)
      requires Progress(cfg, before, files, id, prev, live, done0)
      requires forall a :: a in done0 ==> a.search != n || !Wanted(cfg, live, a)
      modifies this`files
      ensures Progress(cfg, before, files, id, prev, live, done)
      ensures done0 <= done && forall a :: a in done && a !in done0 ==> a.search == n && Wanted(cfg, live, a)
      ensures ok ==> forall a: Addr :: a.search == n && Wanted(cfg, live, a) ==> a in done
    {
      var def := cfg.defs[n];
      var vals := ComputeSortValues(def, live.value);
      forall a
        ensures a in Reach(cfg, n, newByKey.Keys, newByKey) <==> a.search == n && Wanted(cfg, live, a)
        ensures a in Reach(cfg, n, newByKey.Keys, newByKey) ==>
          Repairs(cfg, self, before, id, prev, live, Put(id, vals), Directions(def), a)
      {
        FreshReach(cfg, n, live, news, newByKey, a);
      }
      ok, done := DeliverAll(n, newByKey.Keys, newByKey, Put(id, vals), def, id, prev, live, before, done0);
    }

    /** One search definition: removals from the buckets only the previous version has, then upserts. */
    method DistributeOne(n: string, id: string, prev: Option<Doc>, live: Option<Doc>, ghost before: Files,
                         ghost done0: set<Addr>)
      returns (ok: bool, ghost done: set<Addr>)
      requires cfg.Valid() && n in cfg.defs && self == cfg.home(id)
      requires prev.Some? ==> Floats(cfg.nf, Obj(prev.value))
      requires live.Some? ==> Floats(cfg.nf, Obj(live.value))
      requires Progress(cfg, before, files, id, prev, live, done0)
      requires forall a :: a in done0 ==> a.search != n
      modifies this`files
      ensures Progress(cfg, before, files, id, prev, live, done)
      ensures done0 <= done
      ensures forall a :: a in done && a !in done0 ==> a.search == n && Either(cfg, prev, live, a)
      ensures ok ==> Buckets(cfg.nf, cfg.defs[n], prev).Ok? && Buckets(cfg.nf, cfg.defs[n], live).Ok?
      ensures ok ==> forall a: Addr :: a.search == n && Either(cfg, prev, live, a) ==> a in done
    {
      var def := cfg.defs[n];
      var olds := EvaluateDocument(cfg.nf, def, prev);
      var news := EvaluateDocument(cfg.nf, def, live);
      if olds.Err? || news.Err? {
        return false, done0;
      }
      var oldByKey := IndexBuckets(n, prev, olds.value);
      var newByKey := IndexBuckets(n, live, news.value);
      ok, done := RemoveStale(n, id, prev, live, olds.value, news.value, oldByKey, newByKey, before, done0);
      if ok && |news.value| > 0 {
        ok, done := UpsertFresh(n, id, prev, live, news.value, newByKey, before, done);
      }
    }

    method IndexBuckets(n: string, ghost doc: Option<Doc>, buckets: seq<seq<string>>)
      returns (index: map<string, seq<string>>)
      requires cfg.Valid() && n in cfg.defs && Buckets(cfg.nf, cfg.defs[n], doc) == Ok(buckets)
      requires doc.Some? ==> Floats(cfg.nf, Obj(doc.value))
      ensures Evaluated(cfg, n, doc, buckets, index)
    {
      forall segs | segs in buckets
        ensures forall seg :: seg in segs ==> Component(seg)
      {
        BucketComponents(cfg.nf, cfg.defs[n], doc, segs);
      }
      index := BucketIndex(buckets);
    }

    /** Every search definition, in any order; the first failure stops the rest. */
    method DistributeSearch(id: string, prev: Option<Doc>, live: Option<Doc>) returns (ok: bool, ghost done: set<Addr>)
      requires cfg.Valid() && self == cfg.home(id)
      requires prev.Some? ==> Floats(cfg.nf, Obj(prev.value))
      requires live.Some? ==> Floats(cfg.nf, Obj(live.value))
      modifies this`files
      ensures Progress(cfg, old(files), files, id, prev, live, done) && done <= Plan(cfg, prev, live)
      ensures ok ==> done == Plan(cfg, prev, live) && Evaluates(cfg, prev) && Evaluates(cfg, live)
    {
      ok, done := true, {};
      var todo := cfg.defs.Keys;
      while todo != {}
        invariant todo <= cfg.defs.Keys && DoneBut(cfg, prev, live, todo, done)
        invariant Progress(cfg, old(files), files, id, prev, live, done)
        decreases |todo|
      {
        var n :| n in todo;
        ghost var done0 := done;
        ok, done := DistributeOne(n, id, prev, live, old(files), done);
        if !ok {
          WithinPlan(cfg, prev, live, todo, done0, done);
          return;
        }
        DoneNext(cfg, prev, live, todo, n, done0, done);
        todo := todo - {n};
      }
      AllDone(cfg, prev, live, done);
    }

    /** Claims the entry if it is still queued, distributes, and cleans up only on success: first the
        dotfile, then the marker; the process may die before either. The state afterwards is that of the
        machine's Drain, CutShort or CutLate step. */
    method RunEntry(m: Marker, claim: bool) returns (claimed: bool, ok: bool, ghost step: Step)
      requires cfg.Valid() && (claim || m in docs.taken) && self == cfg.home(m.id)
      requires forall id :: id in docs.live ==> Floats(cfg.nf, Obj(docs.live[id]))
      requires forall id :: id in docs.prev ==> Floats(cfg.nf, Obj(docs.prev[id]))
      modifies this`files, docs
      ensures claimed <==> !claim || m in old(docs.queue)
      ensures !claimed ==> !ok && files == old(files) && docs.View() == old(docs.View())
      ensures !IsWrite(step) && step.m == m && step.claim == claim && (claimed ==> (ok <==> step.Drain?))
      ensures claimed ==>
        forall exposed, overwritten ::
          var s := System(old(docs.View()), old(files), exposed, overwritten);
          && Enabled(cfg, s, step)
          && docs.View() == Next(cfg, s, step).store
          && SameFiles(files, Next(cfg, s, step).files)
    {
      step := Drain(m, claim);
      if claim && m !in docs.queue {
        return false, false, step;
      }
      if claim {
        docs.Claim(m);
      }
      var live, prev := Get(docs.live, m.id), Get(docs.prev, m.id);
      ghost var done;
      ok, done := DistributeSearch(m.id, prev, live);
      ProgressIsDelivered(cfg, old(files), files, m.id, prev, live, done);
      var unlinked, unmarked := *, *;
      if !ok || !unlinked {
        return true, false, CutShort(m, claim, done);
      }
      docs.RemovePrevious(m.id);
      if !unmarked {
        return true, false, CutLate(m, claim);
      }
      docs.RemoveTaken(m);
      return true, true, step;
    }
  }

  /** Some version of the document belongs in the file. */
  ghost predicate Either(cfg: Config, prev: Option<Doc>, live: Option<Doc>, a: Addr) {
    Wanted(cfg, prev, a) || Wanted(cfg, live, a)
  }

  /** Everything of the searches not in `todo` is done, and nothing else. */
  ghost predicate DoneBut(cfg: Config, prev: Option<Doc>, live: Option<Doc>, todo: set<string>, done: set<Addr>) {
    && (forall a :: a in done <==> a.search !in todo && Either(cfg, prev, live, a))
    && (forall n :: n in cfg.defs && n !in todo ==>
      Buckets(cfg.nf, cfg.defs[n], prev).Ok? && Buckets(cfg.nf, cfg.defs[n], live).Ok?)
  }

  lemma DoneNext(cfg: Config, prev: Option<Doc>, live: Option<Doc>, todo: set<string>, n: string, done0: set<Addr>,
                 done: set<Addr>)
    requires DoneBut(cfg, prev, live, todo, done0) && n in cfg.defs && done0 <= done
    requires forall a :: a in done && a !in done0 ==> a.search == n && Either(cfg, prev, live, a)
    requires forall a: Addr :: a.search == n && Either(cfg, prev, live, a) ==> a in done
    requires Buckets(cfg.nf, cfg.defs[n], prev).Ok? && Buckets(cfg.nf, cfg.defs[n], live).Ok?
    ensures DoneBut(cfg, prev, live, todo - {n}, done)
  {
  }

  lemma WithinPlan(cfg: Config, prev: Option<Doc>, live: Option<Doc>, todo: set<string>, done0: set<Addr>,
                   done: set<Addr>)
    requires DoneBut(cfg, prev, live, todo, done0)
    requires forall a :: a in done && a !in done0 ==> Either(cfg, prev, live, a)
    ensures done <= Plan(cfg, prev, live)
  {
    PlanMembers(cfg, prev, live);
  }

  lemma AllDone(cfg: Config, prev: Option<Doc>, live: Option<Doc>, done: set<Addr>)
    requires DoneBut(cfg, prev, live, {}, done)
    ensures done == Plan(cfg, prev, live) && Evaluates(cfg, prev) && Evaluates(cfg, live)
  {
    PlanMembers(cfg, prev, live);
  }

  /** The buckets of a document under one search, and their index. */
  ghost predicate Evaluated(cfg: Config, n: string, doc: Option<Doc>, buckets: seq<seq<string>>,
                            index: map<string, seq<string>>)
    requires n in cfg.defs
  {
    Buckets(cfg.nf, cfg.defs[n], doc) == Ok(buckets) && Indexes(index, buckets)
  }

  lemma FreshReach(cfg: Config, n: string, live: Option<Doc>, news: seq<seq<string>>,
                   newByKey: map<string, seq<string>>, a: Addr)
    requires n in cfg.defs && Evaluated(cfg, n, live, news, newByKey)
    ensures a in Reach(cfg, n, newByKey.Keys, newByKey) <==> a.search == n && Wanted(cfg, live, a)
  {
    if a.search == n && Wanted(cfg, live, a) {
      assert newByKey[ShardInput(a.segs)] == a.segs;
    }
  }

  lemma StaleReach(cfg: Config, n: string, prev: Option<Doc>, live: Option<Doc>, olds: seq<seq<string>>,
                   news: seq<seq<string>>,
                   oldByKey: map<string, seq<string>>, newByKey: map<string, seq<string>>, a: Addr)
    requires n in cfg.defs && Evaluated(cfg, n, prev, olds, oldByKey) && Evaluated(cfg, n, live, news, newByKey)
    ensures a in Reach(cfg, n, oldByKey.Keys - newByKey.Keys, oldByKey) <==>
      a.search == n && Wanted(cfg, prev, a) && !Wanted(cfg, live, a)
  {
    SameKey(olds, news, oldByKey, newByKey, a.segs);
    if a.search == n && Wanted(cfg, prev, a) {
      assert oldByKey[ShardInput(a.segs)] == a.segs;
    }
  }

  /** A bucket of the previous version is a bucket of the live one exactly when the keys say so. */
  lemma SameKey(olds: seq<seq<string>>, news: seq<seq<string>>, oldByKey: map<string, seq<string>>,
                newByKey: map<string, seq<string>>, segs: seq<string>)
    requires Indexes(oldByKey, olds) && Indexes(newByKey, news)
    ensures segs in olds ==> (segs in news <==> ShardInput(segs) in newByKey)
  {
    if segs in olds && ShardInput(segs) in newByKey {
      ShardInputInjective(segs, newByKey[ShardInput(segs)]);
    }
  }

  lemma PlanMembers(cfg: Config, prev: Option<Doc>, live: Option<Doc>)
    ensures forall a :: a in Plan(cfg, prev, live) <==> Either(cfg, prev, live, a)
  {
    forall a
      ensures a in Plan(cfg, prev, live) <==> Either(cfg, prev, live, a)
    {
      WantedSetIsWanted(cfg, prev, a);
      WantedSetIsWanted(cfg, live, a);
    }
  }
}
