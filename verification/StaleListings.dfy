/** Two runs of the index machine that leave a stale listing: a drain is cut short after it listed the
    document in a bucket of the live version, and the document is then written again. */
module StaleListings {
  import opened Json
  import opened SearchPath
  import opened SearchEvaluate
  import opened SearchStore
  import opened DocumentStore
  import opened SearchIndex

  // One search on the field "s", and documents with s = true, s = false and no s.

  const BY_S := Definition([Clause("/s", Equals, Str("$v"), "", "", false)], [])

  function WithS(b: bool): Doc { map["!" := Str("x"), "s" := Bool(b)] }

  const WITHOUT_S: Doc := map["!" := Str("x")]

  lemma BucketsByS(nf: NumberFormat, doc: Doc)
    ensures "s" in doc && doc["s"].Bool? ==> Buckets(nf, BY_S, Some(doc)) == Ok([[EncodeTruth(doc["s"].b)]])
    ensures "s" !in doc ==> Buckets(nf, BY_S, Some(doc)) == Ok([])
  {
    var c := BY_S.clauses[0];
    assert FieldPath("/s") == ["s"] by {
      assert "/s"[1..] == "s";
      SplitFree("s", '/');
    }
    assert FieldValue(doc, "/s") == Walk(Obj(doc), ["s"]) == Get(doc, "s");
    assert EvaluateClauses(nf, [], doc) == Ok(Inside([]));
    assert BY_S.clauses[..0] == [];
    if "s" in doc && doc["s"].Bool? {
      var out := SearchEvaluate.Single(EncodeTruth(doc["s"].b));
      assert EvaluateClauses(nf, BY_S.clauses, doc) == Ok(Inside([] + [out]));
      var outs := [out];
      assert outs[..0] == [] && Expand(outs[..0]) == [[]];
      var one: seq<seq<string>> := [[]];
      assert one[..0] == [] && Cross(one[..0], out.options) == [];
      var seg := EncodeTruth(doc["s"].b);
      assert |Cross(one, out.options)| == 1 && Cross(one, out.options)[0] == [] + [seg] == [seg];
      assert Expand(outs) == Cross(one, out.options) == [[seg]];
    }
  }

  lemma WantedByS(cfg: Config, server: string, doc: Doc)
    requires cfg.defs == map["q" := BY_S] && server in cfg.Holders(["false"])
    requires "s" in doc ==> doc["s"].Bool?
    ensures Wanted(cfg, Some(doc), Addr(server, "q", ["false"])) <==> "s" in doc && doc["s"] == Bool(false)
    ensures Evaluates(cfg, Some(doc))
  {
    BucketsByS(cfg.nf, doc);
    assert "true"[0] != "false"[0];
  }

  /** The bucket of the documents with s = false, on one of its holders. */
  function UnderFalse(server: string): Addr {
    Addr(server, "q", ["false"])
  }

  ghost predicate Setting(cfg: Config, server: string) {
    cfg.Valid() && cfg.defs == map["q" := BY_S] && server in cfg.Holders(["false"])
  }

  /** This store, and "x" listed under "false". */
  ghost predicate StillListed(s: System, server: string, live: map<string, Doc>, prev: map<string, Doc>,
                              queue: set<Marker>, taken: set<Marker>)
  {
    && s.store == Store(live, prev, queue, taken)
    && HasId(ItemsAt(s.files, UnderFalse(server)), "x") && Unique(ItemsAt(s.files, UnderFalse(server)))
  }

  // ----- the common start: s = true, patched to s = false, the drain cut after listing "x" under "false"

  lemma CreateStep(cfg: Config, create: Step)
    requires create == CreateDoc("x", WithS(true))
    ensures After(cfg, [create]) ==
      Some(System(Store(map["x" := WithS(true)], map[], {Marker(Create, "x")}, {}), map[], {}, {}))
  {
    assert [] + [create] == [create];
    Extend(cfg, [], INITIAL, create);
    var s := Next(cfg, INITIAL, create);
    assert s.store.live == map["x" := WithS(true)] && s.store.queue == {Marker(Create, "x")};
  }

  lemma PatchStep(cfg: Config, s: System, patch: Step)
    requires s == System(Store(map["x" := WithS(true)], map[], {Marker(Create, "x")}, {}), map[], {}, {})
    requires patch == PatchDoc("x", WithS(false))
    ensures Enabled(cfg, s, patch)
    ensures Next(cfg, s, patch) ==
      System(Store(map["x" := WithS(false)], map["x" := WithS(true)], {Marker(Create, "x"), Marker(Patch, "x")}, {}),
        map[], {}, {})
  {
    var t := Next(cfg, s, patch).store;
    assert t.live == map["x" := WithS(false)];
    assert t.queue == {Marker(Create, "x"), Marker(Patch, "x")};
  }

  lemma CutLists(cfg: Config, s: System, m: Marker, a: Addr)
    requires m in s.store.queue && Wanted(cfg, Get(s.store.live, m.id), a) && Unique(ItemsAt(s.files, a))
    ensures Enabled(cfg, s, CutShort(m, true, {a}))
    ensures
      var t := Next(cfg, s, CutShort(m, true, {a}));
      t.store == Claimed(s.store, m, true) && HasId(ItemsAt(t.files, a), m.id) && Unique(ItemsAt(t.files, a))
  {
    var prev, live := Get(s.store.prev, m.id), Get(s.store.live, m.id);
    WantedSetIsWanted(cfg, live, a);
    DeliveredAt(cfg, s.files, m.id, prev, live, {a}, a);
    RepairedMembers(cfg, ItemsAt(s.files, a), m.id, prev, live, a);
    HasIdIn(ItemsAt(Next(cfg, s, CutShort(m, true, {a})).files, a), m.id);
  }

  lemma CutStep(cfg: Config, server: string, s: System, cut: Step)
    requires Setting(cfg, server) && cut == CutShort(Marker(Patch, "x"), true, {UnderFalse(server)})
    requires s.store == Store(map["x" := WithS(false)], map["x" := WithS(true)],
      {Marker(Create, "x"), Marker(Patch, "x")}, {})
    requires s.files == map[]
    ensures Enabled(cfg, s, cut)
    ensures StillListed(Next(cfg, s, cut), server, map["x" := WithS(false)], map["x" := WithS(true)],
      {Marker(Create, "x")}, {Marker(Patch, "x")})
  {
    assert Get(s.store.live, "x") == Some(WithS(false));
    FalseIsWanted(cfg, server);
    CutLists(cfg, s, Marker(Patch, "x"), UnderFalse(server));
    ClaimsPatch(s.store.live, s.store.prev);
  }

  lemma FalseIsWanted(cfg: Config, server: string)
    requires Setting(cfg, server)
    ensures Wanted(cfg, Some(WithS(false)), UnderFalse(server))
  {
    WantedByS(cfg, server, WithS(false));
  }

  lemma ClaimsPatch(live: map<string, Doc>, prev: map<string, Doc>)
    ensures
      var c, p := Marker(Create, "x"), Marker(Patch, "x");
      Claimed(Store(live, prev, {c, p}, {}), p, true) == Store(live, prev, {c}, {p})
  {
  }

  lemma CutRun(cfg: Config, server: string, create: Step, patch: Step, cut: Step)
    requires Setting(cfg, server) && create == CreateDoc("x", WithS(true)) && patch == PatchDoc("x", WithS(false))
    requires cut == CutShort(Marker(Patch, "x"), true, {UnderFalse(server)})
    ensures
      var end := After(cfg, [create] + [patch] + [cut]);
      end.Some? && StillListed(end.value, server, map["x" := WithS(false)], map["x" := WithS(true)],
        {Marker(Create, "x")}, {Marker(Patch, "x")})
  {
    CreateStep(cfg, create);
    var s1 := After(cfg, [create]).value;
    PatchStep(cfg, s1, patch);
    Extend(cfg, [create], s1, patch);
    var s2 := Next(cfg, s1, patch);
    CutStep(cfg, server, s2, cut);
    Extend(cfg, [create] + [patch], s2, cut);
  }

  // ----- a full drain that touches neither version's bucket

  lemma DrainLeaves(cfg: Config, s: System, m: Marker, claim: bool, a: Addr)
    requires Drainable(cfg, s, m, claim) && HasId(ItemsAt(s.files, a), m.id) && Unique(ItemsAt(s.files, a))
    requires !Wanted(cfg, Get(s.store.prev, m.id), a) && !Wanted(cfg, Get(s.store.live, m.id), a)
    ensures
      var t := Next(cfg, s, Drain(m, claim));
      t.store == Finished(s.store, m, claim) && ItemsAt(t.files, a) == ItemsAt(s.files, a)
  {
    var prev, live := Get(s.store.prev, m.id), Get(s.store.live, m.id);
    DeliveredAt(cfg, s.files, m.id, prev, live, Plan(cfg, prev, live), a);
    WantedSetIsWanted(cfg, prev, a);
    WantedSetIsWanted(cfg, live, a);
  }

  /** Versions with s = true or without s, or none, are not wanted under "false". */
  predicate NotFalse(doc: Option<Doc>) {
    doc.Some? ==> ("s" in doc.value ==> doc.value["s"] == Bool(true))
  }

  lemma NotFalseNotWanted(cfg: Config, server: string, doc: Option<Doc>)
    requires Setting(cfg, server) && NotFalse(doc)
    ensures !Wanted(cfg, doc, UnderFalse(server)) && Evaluates(cfg, doc)
  {
    if doc.Some? {
      WantedByS(cfg, server, doc.value);
    }
  }

  lemma StaleDrain(cfg: Config, server: string, s: System, m: Marker, claim: bool,
                   live: map<string, Doc>, prev: map<string, Doc>, queue: set<Marker>, taken: set<Marker>)
    requires Setting(cfg, server) && StillListed(s, server, live, prev, queue, taken)
    requires m.id == "x" && m in (if claim then queue else taken) && NotFalse(Get(live, "x")) &&
      NotFalse(Get(prev, "x"))
    ensures Enabled(cfg, s, Drain(m, claim))
    ensures StillListed(Next(cfg, s, Drain(m, claim)), server, live, prev - {"x"},
      if claim then queue - {m} else queue, taken - {m})
  {
    NotFalseNotWanted(cfg, server, Get(live, "x"));
    NotFalseNotWanted(cfg, server, Get(prev, "x"));
    DrainLeaves(cfg, s, m, claim, UnderFalse(server));
    assert claim ==> (taken + {m}) - {m} == taken - {m};
  }

  /** One more full drain of a run that leaves the listing. */
  lemma StaleRunDrain(cfg: Config, server: string, run: seq<Step>, m: Marker, claim: bool, drain: Step,
                      live: map<string, Doc>, prev: map<string, Doc>, queue: set<Marker>, taken: set<Marker>)
    requires Setting(cfg, server) && drain == Drain(m, claim)
    requires StaleRun(cfg, server, run, live, prev, queue, taken)
    requires m.id == "x" && m in (if claim then queue else taken) && NotFalse(Get(live, "x")) &&
      NotFalse(Get(prev, "x"))
    ensures StaleRun(cfg, server, run + [drain], live, prev - {"x"}, if claim then queue - {m} else queue, taken - {m})
  {
    var s := After(cfg, run).value;
    StaleDrain(cfg, server, s, m, claim, live, prev, queue, taken);
    Extend(cfg, run, s, drain);
  }

  ghost predicate StaleRun(cfg: Config, server: string, run: seq<Step>,
                           live: map<string, Doc>, prev: map<string, Doc>, queue: set<Marker>, taken: set<Marker>)
  {
    After(cfg, run).Some? && StillListed(After(cfg, run).value, server, live, prev, queue, taken)
  }

  /** Two claimed markers drained one after the other. */
  lemma StaleRunDrains(cfg: Config, server: string, run: seq<Step>, m: Marker, n: Marker, first: Step, second: Step,
                       live: map<string, Doc>, prev: map<string, Doc>, queue: set<Marker>, taken: set<Marker>)
    requires Setting(cfg, server) && first == Drain(m, true) && second == Drain(n, true)
    requires StaleRun(cfg, server, run, live, prev, queue, taken) && queue == {m, n} && m != n
    requires m.id == n.id == "x" && NotFalse(Get(live, "x")) && NotFalse(Get(prev, "x"))
    ensures StaleRun(cfg, server, run + [first] + [second], live, prev - {"x"}, {}, taken - {m} - {n})
  {
    StaleRunDrain(cfg, server, run, m, true, first, live, prev, queue, taken);
    StaleRunDrain(cfg, server, run + [first], n, true, second, live, prev - {"x"}, queue - {m}, taken - {m});
    assert prev - {"x"} - {"x"} == prev - {"x"} && queue - {m} - {n} == {};
  }

  // ----- then patched to have no s

  lemma PatchAgain(cfg: Config, server: string, s: System, patch: Step)
    requires StillListed(s, server, map["x" := WithS(false)], map["x" := WithS(true)], {Marker(Create, "x")},
      {Marker(Patch, "x")})
    requires patch == PatchDoc("x", WITHOUT_S)
    ensures Enabled(cfg, s, patch)
    ensures StillListed(Next(cfg, s, patch), server, map["x" := WITHOUT_S], map["x" := WithS(true)],
      {Marker(Create, "x"), Marker(Patch, "x")}, {Marker(Patch, "x")})
  {
    assert Next(cfg, s, patch).store.live == map["x" := WITHOUT_S];
    assert {Marker(Create, "x")} + {Marker(Patch, "x")} == {Marker(Create, "x"), Marker(Patch, "x")};
  }

  /** s = true, patched to s = false, the drain cut after listing the document under "false", then
      patched to have no s. When every marker has been drained, it is still listed under "false". */
  lemma CutThenPatchLeavesStale(cfg: Config, server: string, create: Step, patch: Step, cut: Step, patchAgain: Step,
                                drain: Step, drainLast: Step)
    requires Setting(cfg, server) && create == CreateDoc("x", WithS(true)) && patch == PatchDoc("x", WithS(false))
    requires cut == CutShort(Marker(Patch, "x"), true, {UnderFalse(server)}) && patchAgain == PatchDoc("x", WITHOUT_S)
    requires drain == Drain(Marker(Patch, "x"), true) && drainLast == Drain(Marker(Create, "x"), true)
    ensures
      var a, end := UnderFalse(server), After(cfg, [create] + [patch] + [cut] + [patchAgain] + [drain] + [drainLast]);
      && end.Some? && Quiet(end.value)
      && HasId(ItemsAt(end.value.files, a), "x") && !Wanted(cfg, Get(end.value.store.live, "x"), a)
  {
    CutRun(cfg, server, create, patch, cut);
    PatchTail(cfg, server, [create] + [patch] + [cut], patchAgain, drain, drainLast);
    NotFalseNotWanted(cfg, server, Some(WITHOUT_S));
  }

  lemma PatchedRun(cfg: Config, server: string, run: seq<Step>, patch: Step)
    requires StaleRun(cfg, server, run, map["x" := WithS(false)], map["x" := WithS(true)], {Marker(Create, "x")},
      {Marker(Patch, "x")})
    requires patch == PatchDoc("x", WITHOUT_S)
    ensures StaleRun(cfg, server, run + [patch], map["x" := WITHOUT_S], map["x" := WithS(true)],
      {Marker(Create, "x"), Marker(Patch, "x")}, {Marker(Patch, "x")})
  {
    PatchAgain(cfg, server, After(cfg, run).value, patch);
    Extend(cfg, run, After(cfg, run).value, patch);
  }

  lemma PatchTail(cfg: Config, server: string, run: seq<Step>, patchAgain: Step, drain: Step, drainLast: Step)
    requires Setting(cfg, server)
    requires StaleRun(cfg, server, run, map["x" := WithS(false)], map["x" := WithS(true)], {Marker(Create, "x")},
      {Marker(Patch, "x")})
    requires patchAgain == PatchDoc("x", WITHOUT_S)
    requires drain == Drain(Marker(Patch, "x"), true) && drainLast == Drain(Marker(Create, "x"), true)
    ensures StaleRun(cfg, server, run + [patchAgain] + [drain] + [drainLast], map["x" := WITHOUT_S], map[], {}, {})
  {
    var c, p := Marker(Create, "x"), Marker(Patch, "x");
    var live, prev := map["x" := WITHOUT_S], map["x" := WithS(true)];
    PatchedRun(cfg, server, run, patchAgain);
    StaleRunDrains(cfg, server, run + [patchAgain], p, c, drain, drainLast, live, prev, {c, p}, {p});
    assert prev - {"x"} == map[] && {p} - {p} - {c} == {};
  }

  // ----- then deleted

  lemma DeleteStep(cfg: Config, server: string, s: System, delete: Step)
    requires StillListed(s, server, map["x" := WithS(false)], map["x" := WithS(true)], {Marker(Create, "x")},
      {Marker(Patch, "x")})
    requires delete == DeleteDoc("x")
    ensures Enabled(cfg, s, delete)
    ensures StillListed(Next(cfg, s, delete), server, map[], map["x" := WithS(true)],
      {Marker(Create, "x"), Marker(Delete, "x")}, {Marker(Patch, "x")})
  {
    assert Next(cfg, s, delete).store.live == map[];
    assert {Marker(Create, "x")} + {Marker(Delete, "x")} == {Marker(Create, "x"), Marker(Delete, "x")};
  }

  /** The same start, then a delete. When every marker has been drained, the removed document is still
      listed under "false". */
  lemma CutThenDeleteLeavesStale(cfg: Config, server: string, create: Step, patch: Step, cut: Step, delete: Step,
                                 drain: Step, drainCreate: Step, drainPatch: Step)
    requires Setting(cfg, server) && create == CreateDoc("x", WithS(true)) && patch == PatchDoc("x", WithS(false))
    requires cut == CutShort(Marker(Patch, "x"), true, {UnderFalse(server)}) && delete == DeleteDoc("x")
    requires drain == Drain(Marker(Delete, "x"), true)
    requires drainCreate == Drain(Marker(Create, "x"), true) && drainPatch == Drain(Marker(Patch, "x"), false)
    ensures
      var a := UnderFalse(server);
      var end := After(cfg, [create] + [patch] + [cut] + [delete] + [drain] + [drainCreate] + [drainPatch]);
      && end.Some? && Quiet(end.value) && "x" !in end.value.store.live && HasId(ItemsAt(end.value.files, a), "x")
  {
    CutRun(cfg, server, create, patch, cut);
    DeleteTail(cfg, server, [create] + [patch] + [cut], delete, drain, drainCreate, drainPatch);
  }

  lemma DeletedRun(cfg: Config, server: string, run: seq<Step>, delete: Step)
    requires StaleRun(cfg, server, run, map["x" := WithS(false)], map["x" := WithS(true)], {Marker(Create, "x")},
      {Marker(Patch, "x")})
    requires delete == DeleteDoc("x")
    ensures StaleRun(cfg, server, run + [delete], map[], map["x" := WithS(true)],
      {Marker(Create, "x"), Marker(Delete, "x")}, {Marker(Patch, "x")})
  {
    DeleteStep(cfg, server, After(cfg, run).value, delete);
    Extend(cfg, run, After(cfg, run).value, delete);
  }

  lemma LastDrain(cfg: Config, server: string, run: seq<Step>, m: Marker, drain: Step,
                  live: map<string, Doc>, prev: map<string, Doc>, taken: set<Marker>)
    requires Setting(cfg, server) && drain == Drain(m, false) && m.id == "x" && taken == {m}
    requires StaleRun(cfg, server, run, live, prev, {}, taken) && NotFalse(Get(live, "x")) && prev == map[]
    ensures StaleRun(cfg, server, run + [drain], live, map[], {}, {})
  {
    StaleRunDrain(cfg, server, run, m, false, drain, live, prev, {}, taken);
    assert prev - {"x"} == map[] && taken - {m} == {};
  }

  lemma DeleteTail(cfg: Config, server: string, run: seq<Step>, delete: Step, drain: Step, drainCreate: Step,
                   drainPatch: Step)
    requires Setting(cfg, server)
    requires StaleRun(cfg, server, run, map["x" := WithS(false)], map["x" := WithS(true)], {Marker(Create, "x")},
      {Marker(Patch, "x")})
    requires delete == DeleteDoc("x") && drain == Drain(Marker(Delete, "x"), true)
    requires drainCreate == Drain(Marker(Create, "x"), true) && drainPatch == Drain(Marker(Patch, "x"), false)
    ensures StaleRun(cfg, server, run + [delete] + [drain] + [drainCreate] + [drainPatch], map[], map[], {}, {})
  {
    var c, p, d := Marker(Create, "x"), Marker(Patch, "x"), Marker(Delete, "x");
    var live: map<string, Doc>, prev := map[], map["x" := WithS(true)];
    DeletedRun(cfg, server, run, delete);
    StaleRunDrains(cfg, server, run + [delete], d, c, drain, drainCreate, live, prev, {c, d}, {p});
    LastDrain(cfg, server, run + [delete] + [drain] + [drainCreate], p, drainPatch, live, prev - {"x"},
      {p} - {d} - {c});
  }
}
