/** internal/adminconfig/collection.go, internal/config/load.go and internal/agents/upgrade/migrate.go:
    the version history that ensure calls build, and documents migrated by replaying it. */
module Upgrade {
  import opened Json
  import opened Schema
  import opened SchemaPatch

  datatype Spec = Spec(from: int, to: Option<int>, verId: string, ops: seq<UpdateOp>)

  /** A collection's current schema, every schema version, the update list that led to each, and the version. */
  datatype Collection = Collection(schema: Schema, history: map<int, Schema>, updates: map<int, Spec>, version: int)

  /** Checks done elsewhere: well-formed ids, and the schema rules of the whole configuration. */
  datatype Rules = Rules(validId: string -> bool, accepts: Schema -> bool)

  // ----- validating an update list

  const META: set<string> := {"!", "$", "#"}

  predicate ValidTarget(path: string) {
    && path != "" && path[0] == '/' && FieldPath(path) != []
    && forall i :: 0 <= i < |FieldPath(path)| ==> FieldPath(path)[i] !in META && !AllDigits(FieldPath(path)[i])
  }

  predicate ValidOp(op: UpdateOp) {
    && ValidTarget(op.path)
    && (op.op == Move || op.op == Copy ==> ValidTarget(op.from))
    && (op.op == Add || op.op == Import || op.op == Convert ==> op.schema.Some?)
  }

  predicate ValidOps(ops: seq<UpdateOp>) {
    forall i :: 0 <= i < |ops| ==> ValidOp(ops[i])
  }

  predicate ValidSpec(rules: Rules, spec: Spec, version: int) {
    spec.from == version && (spec.to == None || spec.to == Some(spec.from + 1)) && rules.validId(spec.verId)
    && spec.ops != [] && ValidOps(spec.ops)
  }

  // ----- ensure calls

  datatype Request = Request(schema: Option<Schema>, upgrade: Option<Spec>)

  datatype Outcome = Changed | Unchanged | Refused

  function Upgraded(s: Schema, ops: seq<UpdateOp>): Option<Schema> {
    match Apply(s.children, ops)
    case None => None
    case Some(cs) => Some(s.(children := cs))
  }

  predicate AlreadyApplied(c: Collection, spec: Spec) {
    spec.from + 1 <= c.version && spec.from + 1 in c.updates && c.updates[spec.from + 1].verId == spec.verId
  }

  function EnsureUpgrade(rules: Rules, c: Collection, spec: Spec): (Collection, Outcome) {
    if AlreadyApplied(c, spec) then (c, Unchanged)
    else if !ValidSpec(rules, spec, c.version) then (c, Refused)
    else match Upgraded(c.schema, spec.ops)
      case None => (c, Refused)
      case Some(s) =>
        if !rules.accepts(s) then (c, Refused)
        else
          var v := c.version + 1;
          (Collection(s, c.history[v := s], c.updates[v := spec], v), Changed)
  }

  lemma UpgradeStep(rules: Rules, c: Collection, spec: Spec, next: Schema)
    requires !AlreadyApplied(c, spec) && ValidSpec(rules, spec, c.version) && Upgraded(c.schema, spec.ops) == Some(next)
    ensures
      var v := c.version + 1;
      EnsureUpgrade(rules, c, spec) ==
        if rules.accepts(next) then (Collection(next, c.history[v := next], c.updates[v := spec], v), Changed)
        else (c, Refused)
  {
  }

  /** One ensure call on a collection that may not exist yet. */
  function Ensure(rules: Rules, c: Option<Collection>, req: Request): (Option<Collection>, Outcome) {
    if c.None? then
      if req.upgrade.Some? || req.schema.None? || !rules.accepts(req.schema.value) then (None, Refused)
      else (Some(Collection(req.schema.value, map[0 := req.schema.value], map[], 0)), Changed)
    else if req.upgrade.Some? then
      var (d, o) := EnsureUpgrade(rules, c.value, req.upgrade.value);
      (Some(d), o)
    else (c, if req.schema.None? || req.schema.value == c.value.schema then Unchanged else Refused)
  }

  /** The same, updating the configuration's maps in place. */
  class CollectionConfig {
    const rules: Rules
    var schema: Option<Schema>
    var history: map<int, Schema>
    var updates: map<int, Spec>
    var version: int

    ghost function View(): Option<Collection>
      reads this
    {
      if schema.None? then None else Some(Collection(schema.value, history, updates, version))
    }

    constructor (rules: Rules)
      ensures View() == None && this.rules == rules
    {
      this.rules, schema, history, updates, version := rules, None, map[], map[], 0;
    }

    method EnsureCollection(req: Request) returns (outcome: Outcome)
      requires schema.None? ==> history == map[] && updates == map[]
      modifies this
      ensures (View(), outcome) == Ensure(rules, old(View()), req)
      ensures schema.None? ==> history == map[] && updates == map[]
    {
      if schema.None? {
        if req.upgrade.Some? || req.schema.None? || !rules.accepts(req.schema.value) {
          return Refused;
        }
        schema, version := req.schema, 0;
        history := history[0 := req.schema.value];
        return Changed;
      }
      if req.upgrade.None? {
        return if req.schema.None? || req.schema.value == schema.value then Unchanged else Refused;
      }
      outcome := UpgradeCollection(req.upgrade.value);
    }

    method UpgradeCollection(spec: Spec) returns (outcome: Outcome)
      requires schema.Some?
      modifies this
      ensures schema.Some?
      ensures (View().value, outcome) == EnsureUpgrade(rules, old(View()).value, spec)
    {
      if spec.from + 1 <= version && spec.from + 1 in updates && updates[spec.from + 1].verId == spec.verId {
        return Unchanged;
      }
      if !ValidSpec(rules, spec, version) {
        return Refused;
      }
      var applied := ApplySpec(schema.value.children, spec.ops);
      if applied.None? {
        return Refused;
      }
      var next := schema.value.(children := applied.value);
      UpgradeStep(rules, View().value, spec, next);
      if !rules.accepts(next) {
        return Refused;
      }
      schema, version := Some(next), version + 1;
      history := history[version := next];
      updates := updates[version := spec];
      return Changed;
    }
  }

  /** A path an update may name: it starts with a slash and has parts, none of them metadata or a number. */
  predicate Targets(path: string) {
    && "/" <= path && path != "/"
    && var parts := Split(path[1..], '/');
       forall i :: 0 <= i < |parts| ==>
         parts[i] != "!" && parts[i] != "$" && parts[i] != "#" && !AllDigits(parts[i])
  }

  /** The update names such paths, and brings a schema where it needs one. */
  predicate WellFormed(op: UpdateOp) {
    && Targets(op.path) && (op.op == Move || op.op == Copy ==> Targets(op.from))
    && (op.op == Add || op.op == Import || op.op == Convert ==> op.schema.Some?)
  }

  /** The list is for the next version and well formed. */
  predicate IsNext(rules: Rules, c: Collection, spec: Spec) {
    && spec.from == c.version && (spec.to.Some? ==> spec.to.value == c.version + 1) && rules.validId(spec.verId)
    && |spec.ops| > 0 && forall i :: 0 <= i < |spec.ops| ==> WellFormed(spec.ops[i])
  }

  lemma TargetIs(path: string)
    ensures ValidTarget(path) <==> Targets(path)
  {
    if path != "" && path[0] == '/' && path != "/" {
      var parts := Split(path[1..], '/');
      assert "/" <= path && path[1..] != [] && FieldPath(path) == parts;
    } else {
      assert path == "/" ==> FieldPath(path) == [];
    }
  }

  lemma OpIsWellFormed(op: UpdateOp)
    ensures ValidOp(op) <==> WellFormed(op)
  {
    TargetIs(op.path);
    TargetIs(op.from);
  }

  lemma NextIsValid(rules: Rules, c: Collection, spec: Spec)
    ensures ValidSpec(rules, spec, c.version) <==> IsNext(rules, c, spec)
  {
    forall i | 0 <= i < |spec.ops|
      ensures ValidOp(spec.ops[i]) <==> WellFormed(spec.ops[i])
    {
      OpIsWellFormed(spec.ops[i]);
    }
  }

  /** An upgrade that was recorded under its id changes nothing. Any other is accepted exactly when it is for the
      next version and well formed, the schema side can apply it and the rules accept the result; it then
      becomes the next version. */
  lemma UpgradeOutcome(rules: Rules, c: Collection, spec: Spec)
    ensures
      var (d, o) := EnsureUpgrade(rules, c, spec);
      var v := spec.from + 1;
      var recorded := v <= c.version && v in c.updates && c.updates[v].verId == spec.verId;
      var applied := Apply(c.schema.children, spec.ops);
      && (o == Unchanged <==> recorded)
      && (o == Changed <==>
            !recorded && IsNext(rules, c, spec) && applied.Some? && rules.accepts(c.schema.(children := applied.value)))
      && (o != Changed ==> d == c)
      && (o == Changed ==>
            && d.version == c.version + 1 && d.schema == c.schema.(children := applied.value)
            && d.history == c.history[d.version := d.schema] && d.updates == c.updates[d.version := spec])
  {
    NextIsValid(rules, c, spec);
  }

  /** A new collection needs a schema the rules accept and no upgrade; an existing one matches its schema or is
      upgraded. */
  lemma EnsureOutcome(rules: Rules, c: Option<Collection>, req: Request)
    ensures
      var (d, o) := Ensure(rules, c, req);
      && (c.None? ==> (o == Changed <==> req.upgrade.None? && req.schema.Some? && rules.accepts(req.schema.value)))
      && (c.None? && o == Changed ==>
            d.Some? && d.value.version == 0 && d.value.schema == req.schema.value &&
            d.value.history == map[0 := req.schema.value] && d.value.updates == map[])
      && (c.None? && o != Changed ==> o == Refused && d.None?)
      && (c.Some? && req.upgrade.None? ==>
            d == c && (o == Unchanged <==> req.schema.Some? ==> req.schema.value == c.value.schema) && o != Changed)
      && (c.Some? && req.upgrade.Some? ==>
            (d, o) == (Some(EnsureUpgrade(rules, c.value, req.upgrade.value).0),
                       EnsureUpgrade(rules, c.value, req.upgrade.value).1))
  {
  }

  /** No gaps: schemas 0..n, update lists 1..n, the last schema is the current one, and each list
      takes one schema to the next. */
  ghost predicate Complete(rules: Rules, c: Collection) {
    && 0 <= c.version
    && Numbered(c.history.Keys, 0, c.version)
    && Numbered(c.updates.Keys, 1, c.version)
    && c.schema == c.history[c.version]
    && (forall v :: 1 <= v <= c.version ==> LeadsTo(rules, c, v))
  }

  ghost predicate Numbered(keys: set<int>, first: int, last: int) {
    forall v :: v in keys <==> first <= v <= last
  }

  ghost predicate LeadsTo(rules: Rules, c: Collection, v: int) {
    && v - 1 in c.history && v in c.history && v in c.updates
    && ValidSpec(rules, c.updates[v], v - 1)
    && Upgraded(c.history[v - 1], c.updates[v].ops) == Some(c.history[v])
  }

  lemma EnsureKeepsComplete(rules: Rules, c: Option<Collection>, req: Request)
    requires c.Some? ==> Complete(rules, c.value)
    ensures var d := Ensure(rules, c, req).0; d.Some? ==> Complete(rules, d.value)
  {
    if c.Some? && req.upgrade.Some? {
      var was := c.value;
      var (now, o) := EnsureUpgrade(rules, was, req.upgrade.value);
      if o == Changed {
        AppendedIsComplete(rules, was, now.schema, req.upgrade.value);
      }
    }
  }

  lemma NumberedNext(keys: set<int>, first: int, last: int)
    requires Numbered(keys, first, last) && first <= last + 1
    ensures Numbered(keys + {last + 1}, first, last + 1)
  {
  }

  function Appended(was: Collection, next: Schema, spec: Spec): Collection {
    var v := was.version + 1;
    Collection(next, was.history[v := next], was.updates[v := spec], v)
  }

  lemma StillLeadsTo(rules: Rules, was: Collection, next: Schema, spec: Spec, v: int)
    requires v <= was.version && LeadsTo(rules, was, v)
    ensures LeadsTo(rules, Appended(was, next, spec), v)
  {
  }

  lemma LastLeadsTo(rules: Rules, was: Collection, next: Schema, spec: Spec)
    requires was.version in was.history && was.schema == was.history[was.version]
    requires ValidSpec(rules, spec, was.version) && Upgraded(was.schema, spec.ops) == Some(next)
    ensures LeadsTo(rules, Appended(was, next, spec), was.version + 1)
  {
  }

  lemma AppendedIsComplete(rules: Rules, was: Collection, next: Schema, spec: Spec)
    requires Complete(rules, was) && ValidSpec(rules, spec, was.version) && Upgraded(was.schema, spec.ops) == Some(next)
    ensures Complete(rules, Appended(was, next, spec))
  {
    var now := Appended(was, next, spec);
    assert now.history.Keys == was.history.Keys + {now.version} && now.updates.Keys == was.updates.Keys + {now.version};
    NumberedNext(was.history.Keys, 0, was.version);
    NumberedNext(was.updates.Keys, 1, was.version);
    forall v | 1 <= v <= now.version
      ensures LeadsTo(rules, now, v)
    {
      if v <= was.version {
        StillLeadsTo(rules, was, next, spec, v);
      } else {
        LastLeadsTo(rules, was, next, spec);
      }
    }
  }

  function EnsureAll(rules: Rules, reqs: seq<Request>): Option<Collection> {
    if reqs == [] then None
    else Ensure(rules, EnsureAll(rules, reqs[..|reqs| - 1]), reqs[|reqs| - 1]).0
  }

  /** Over every run of ensure calls the history is complete. */
  lemma {:induction false} RunIsComplete(rules: Rules, reqs: seq<Request>)
    ensures var c := EnsureAll(rules, reqs); c.Some? ==> Complete(rules, c.value)
  {
    if reqs != [] {
      RunIsComplete(rules, reqs[..|reqs| - 1]);
      EnsureKeepsComplete(rules, EnsureAll(rules, reqs[..|reqs| - 1]), reqs[|reqs| - 1]);
    }
  }

  /** History is never rewritten. */
  lemma {:induction false} HistoryGrows(rules: Rules, reqs: seq<Request>, i: nat)
    requires i <= |reqs| && EnsureAll(rules, reqs[..i]).Some?
    ensures
      var was, now := EnsureAll(rules, reqs[..i]).value, EnsureAll(rules, reqs);
      && now.Some? && was.version <= now.value.version
      && (forall v :: v in was.history ==> v in now.value.history && now.value.history[v] == was.history[v])
      && (forall v :: v in was.updates ==> v in now.value.updates && now.value.updates[v] == was.updates[v])
  {
    if i < |reqs| {
      var init := reqs[..|reqs| - 1];
      assert init[..i] == reqs[..i];
      HistoryGrows(rules, init, i);
      RunIsComplete(rules, init);
    } else {
      assert reqs[..i] == reqs;
    }
  }

  /** An upgrade that was applied can be ensured again at any later time: nothing changes. */
  lemma ReEnsureIsNoop(rules: Rules, reqs: seq<Request>, i: nat)
    requires i < |reqs| && reqs[i].upgrade.Some?
    requires EnsureAll(rules, reqs[..i]).Some? && Ensure(rules, EnsureAll(rules, reqs[..i]), reqs[i]).1 != Refused
    ensures Ensure(rules, EnsureAll(rules, reqs), reqs[i]) == (EnsureAll(rules, reqs), Unchanged)
  {
    var spec, before, after := reqs[i].upgrade.value, EnsureAll(rules, reqs[..i]), EnsureAll(rules, reqs[..i + 1]);
    assert reqs[..i + 1][..i] == reqs[..i];
    RunIsComplete(rules, reqs[..i]);
    AppliedNow(rules, before.value, spec);
    assert after == Ensure(rules, before, reqs[i]).0;
    HistoryGrows(rules, reqs, i + 1);
    AppliedStill(after.value, EnsureAll(rules, reqs).value, spec);
  }

  /** An upgrade that is not refused is recorded under its id. */
  lemma AppliedNow(rules: Rules, c: Collection, spec: Spec)
    requires Complete(rules, c) && EnsureUpgrade(rules, c, spec).1 != Refused
    ensures AlreadyApplied(EnsureUpgrade(rules, c, spec).0, spec)
  {
  }

  /** And stays so. */
  lemma AppliedStill(c: Collection, d: Collection, spec: Spec)
    requires AlreadyApplied(c, spec) && c.version <= d.version
    requires forall v :: v in c.updates ==> v in d.updates && d.updates[v] == c.updates[v]
    ensures AlreadyApplied(d, spec)
  {
  }

  lemma SomeVersion(versions: set<int>)
    requires versions != {}
    ensures exists v :: v in versions
  {
    if forall v: int :: v !in versions {
      assert false;
    }
  }

  /** The version recomputed when the configuration is loaded, reading the history in any order. */
  method DeriveSchemaVersion(history: map<int, Schema>) returns (version: int)
    ensures history == map[] ==> version == 0
    ensures history != map[] ==> version in history && forall v :: v in history ==> v <= version
    ensures forall rules, c: Collection :: c.history == history && Complete(rules, c) ==> version == c.version
  {
    version := 0;
    var found := false;
    var todo: set<int> := history.Keys;
    while todo != {}
      invariant todo <= history.Keys
      invariant !found ==> todo == history.Keys
      invariant found ==> version in history && forall v :: v in history && v !in todo ==> v <= version
      invariant !found ==> version == 0
      decreases |todo|
    {
      SomeVersion(todo);
      var v :| v in todo;
      todo := todo - {v};
      if !found || v > version {
        version, found := v, true;
      }
    }
    if history != map[] {
      var k :| k in history;
      assert k in history.Keys;
    }
    forall rules, c: Collection | c.history == history && Complete(rules, c)
      ensures version == c.version
    {
      assert c.version in history;
    }
  }
}
