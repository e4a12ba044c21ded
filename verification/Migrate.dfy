/** internal/agents/upgrade/migrate.go: bringing one document forward by replaying update lists. */
module Migrate {
  import opened Json
  import opened Schema
  import opened SchemaPatch
  import opened SchemaCommute
  import opened SafeUpdates
  import opened Upgrade

  /** The position of the last occurrence of a character, or -1. */
  function LastIndex(s: string, c: char): (i: int)
    ensures -1 <= i < |s|
    ensures i >= 0 ==> s[i] == c
    ensures forall j :: i < j < |s| ==> s[j] != c
  {
    if s == [] then -1
    else if s[|s| - 1] == c then |s| - 1
    else LastIndex(s[..|s| - 1], c)
  }

  function ParseMarker(marker: string): Option<int> {
    var i := LastIndex(marker, ':');
    if i < 0 || i == |marker| - 1 then None else Atoi(marker[i + 1..])
  }

  /** The schema version a document says it has. */
  function DocVersion(doc: Doc): Option<int> {
    ParseMarker(if "$" in doc && doc["$"].Str? then doc["$"].s else "")
  }

  function MarkerText(collection: string, version: nat): string {
    collection + ":" + Itoa(version)
  }

  /** Steps v+1 .. w in turn, stopping at the first that fails. */
  function Iterate(step: (Doc, int) -> Option<Doc>, doc: Doc, v: int, w: int): Option<Doc>
    decreases w - v
  {
    if w <= v then Some(doc)
    else match Iterate(step, doc, v, w - 1)
      case None => None
      case Some(d) => step(d, w)
  }

  /** The step to version w: its update list, which must have been kept. */
  function StepOf(cv: Converter, updates: map<int, Spec>): (Doc, int) -> Option<Doc> {
    (d: Doc, w: int) => if w in updates && ValidOps(updates[w].ops) then ApplyList(cv, d, updates[w].ops) else None
  }

  /** The content after the update lists v+1 .. w; None when one is missing or fails. */
  function Replay(cv: Converter, updates: map<int, Spec>, doc: Doc, v: int, w: int): Option<Doc> {
    Iterate(StepOf(cv, updates), doc, v, w)
  }

  function ApplyList(cv: Converter, doc: Doc, ops: seq<UpdateOp>): Option<Doc>
    requires ValidOps(ops)
  {
    ValidHasPaths(ops);
    ApplyToDocument(cv, doc, ops)
  }

  lemma ValidHasPaths(ops: seq<UpdateOp>)
    requires ValidOps(ops)
    ensures forall i :: 0 <= i < |ops| ==> HasPaths(ops[i])
  {
    assert forall i :: 0 <= i < |ops| ==> ValidOp(ops[i]) ==> HasPaths(ops[i]);
  }

  datatype Migrated = Migrated(changed: bool, doc: Doc)

  /** Migrating a document to a schema version; Err when it has no marker or the replay fails. */
  function MigrateTo(cv: Converter, collection: string, updates: map<int, Spec>, doc: Doc,
                     target: nat): Result<Migrated>
  {
    match DocVersion(doc)
    case None => Err
    case Some(v) =>
      if v >= target then Ok(Migrated(false, doc))
      else match Replay(cv, updates, doc, v, target)
        case None => Err
        case Some(d) => Ok(Migrated(true, d["$" := Str(MarkerText(collection, target))]))
  }

  /** The version loop of the source. */
  method MigrateDocument(cv: Converter, collection: string, updates: map<int, Spec>, doc: Doc, target: nat)
    returns (r: Result<Migrated>)
    requires forall v :: v in updates ==> ValidOps(updates[v].ops)
    ensures r == MigrateTo(cv, collection, updates, doc, target)
  {
    var current := DocVersion(doc);
    if current.None? {
      return Err;
    }
    if current.value >= target {
      return Ok(Migrated(false, doc));
    }
    var replayed := ReplayDocument(cv, updates, doc, current.value, target);
    if replayed.None? {
      return Err;
    }
    return Ok(Migrated(true, replayed.value["$" := Str(MarkerText(collection, target))]));
  }

  method ReplayDocument(cv: Converter, updates: map<int, Spec>, doc: Doc, current: int, target: int)
    returns (r: Option<Doc>)
    requires current < target && forall v :: v in updates ==> ValidOps(updates[v].ops)
    ensures r == Replay(cv, updates, doc, current, target)
  {
    ghost var step := StepOf(cv, updates);
    var cur := doc;
    var v := current + 1;
    while v <= target
      invariant current < v <= target + 1
      invariant Iterate(step, doc, current, v - 1) == Some(cur)
    {
      var next := StepDocument(cv, updates, cur, v);
      IterateNext(step, doc, current, v, cur);
      if next.None? {
        IterateStops(step, doc, current, v, target);
        return None;
      }
      cur := next.value;
      v := v + 1;
    }
    return Some(cur);
  }

  method StepDocument(cv: Converter, updates: map<int, Spec>, doc: Doc, v: int) returns (r: Option<Doc>)
    requires forall v :: v in updates ==> ValidOps(updates[v].ops)
    ensures r == StepOf(cv, updates)(doc, v)
  {
    if v !in updates {
      return None;
    }
    ValidHasPaths(updates[v].ops);
    r := MigrateByList(cv, doc, updates[v].ops);
  }

  lemma IterateNext(step: (Doc, int) -> Option<Doc>, doc: Doc, v: int, w: int, d: Doc)
    requires v < w && Iterate(step, doc, v, w - 1) == Some(d)
    ensures Iterate(step, doc, v, w) == step(d, w)
  {
  }

  lemma {:induction false} IterateStops(step: (Doc, int) -> Option<Doc>, doc: Doc, v: int, u: int, w: int)
    requires v < u <= w && Iterate(step, doc, v, u).None?
    ensures Iterate(step, doc, v, w).None?
    decreases w - u
  {
    if u < w {
      IterateStops(step, doc, v, u, w - 1);
    }
  }

  // ----- the marker

  lemma {:induction false} LastIndexOf(prefix: string, rest: string, c: char)
    requires c !in rest
    ensures LastIndex(prefix + [c] + rest, c) == |prefix|
    decreases |rest|
  {
    var s := prefix + [c] + rest;
    if rest != [] {
      assert s[..|s| - 1] == prefix + [c] + rest[..|rest| - 1];
      LastIndexOf(prefix, rest[..|rest| - 1], c);
    }
  }

  /** The marker written by a migration parses back to its version, whatever the collection's name. */
  lemma MarkerParsesBack(collection: string, version: nat)
    requires version <= MAX_INT
    ensures ParseMarker(MarkerText(collection, version)) == Some(version)
  {
    var digits := Itoa(version);
    assert forall i :: 0 <= i < |digits| ==> IsDigit(digits[i]);
    LastIndexOf(collection, digits, ':');
    var marker := MarkerText(collection, version);
    assert marker == collection + [':'] + digits;
    assert marker[|collection| + 1..] == digits;
    AtoiItoa(version);
  }

  // ----- validated updates leave the metadata alone

  /** A change below another top-level key neither reads nor writes the value at `key`. */
  lemma {:induction false} Frame(doc: Doc, path: seq<string>, key: string, x: Json, v: Json)
    requires path != [] && path[0] != key
    ensures GetAt(doc[key := x], path) == GetAt(doc, path)
    ensures SetAt(doc[key := x], path, v) == SetAt(doc, path, v)[key := x]
    ensures RemoveAt(doc[key := x], path) == RemoveAt(doc, path)[key := x]
    ensures Get(SetAt(doc, path, v), key) == Get(doc, key)
    ensures Get(RemoveAt(doc, path), key) == Get(doc, key)
  {
    SetFrame(doc, path, key, x, v);
    RemoveFrame(doc, path, key, x);
  }

  lemma SetFrame(doc: Doc, path: seq<string>, key: string, x: Json, v: Json)
    requires path != [] && path[0] != key
    ensures SetAt(doc[key := x], path, v) == SetAt(doc, path, v)[key := x]
  {
  }

  lemma RemoveFrame(doc: Doc, path: seq<string>, key: string, x: Json)
    requires path != [] && path[0] != key
    ensures RemoveAt(doc[key := x], path) == RemoveAt(doc, path)[key := x]
  {
  }

  lemma TargetsContent(path: string, key: string)
    requires ValidTarget(path) && key in META
    ensures FieldPath(path) != [] && FieldPath(path)[0] != key
  {
  }

  lemma FilledFrame(doc: Doc, path: seq<string>, fill: Option<Json>, key: string, x: Json)
    requires path != [] && path[0] != key
    ensures Filled(doc[key := x], path, fill) == Filled(doc, path, fill)[key := x]
    ensures Get(Filled(doc, path, fill), key) == Get(doc, key)
  {
    Frame(doc, path, key, x, if fill.Some? then fill.value else Null);
  }

  function With(doc: Option<Doc>, key: string, x: Json): Option<Doc> {
    if doc.None? then None else Some(doc.value[key := x])
  }

  lemma OpFrame(cv: Converter, doc: Doc, op: UpdateOp, key: string, x: Json)
    requires ValidOp(op) && key in META
    ensures HasPaths(op)
    ensures ApplyDocOp(cv, doc[key := x], op) == With(ApplyDocOp(cv, doc, op), key, x)
    ensures ApplyDocOp(cv, doc, op).Some? ==> Get(ApplyDocOp(cv, doc, op).value, key) == Get(doc, key)
  {
    var path := FieldPath(op.path);
    TargetsContent(op.path, key);
    Frame(doc, path, key, x, Null);
    var fill := FillValue(op.value, op.schema, op.failover);
    match op.op
    case Add => FilledFrame(doc, path, fill, key, x);
    case Import =>
      FilledFrame(doc, path, fill, key, x);
      FilledFrame(RemoveAt(doc, path), path, fill, key, x);
    case Remove =>
    case Abandon =>
    case Replace =>
      if op.value.Some? {
        Frame(doc, path, key, x, op.value.value);
      }
    case Move => MoveFrame(cv, doc, op, key, x);
    case Copy => MoveFrame(cv, doc, op, key, x);
    case Convert => ConvertFrame(cv, doc, op, key, x);
  }

  lemma MoveFrame(cv: Converter, doc: Doc, op: UpdateOp, key: string, x: Json)
    requires ValidOp(op) && key in META && (op.op == Move || op.op == Copy) && HasPaths(op)
    ensures ApplyDocOp(cv, doc[key := x], op) == With(ApplyDocOp(cv, doc, op), key, x)
    ensures ApplyDocOp(cv, doc, op).Some? ==> Get(ApplyDocOp(cv, doc, op).value, key) == Get(doc, key)
  {
    var path, from := FieldPath(op.path), FieldPath(op.from);
    TargetsContent(op.path, key);
    TargetsContent(op.from, key);
    Frame(doc, from, key, x, Null);
    var v := GetAt(doc, from);
    if v.Some? {
      Frame(doc, path, key, x, v.value);
      Frame(RemoveAt(doc, from), path, key, x, v.value);
    }
  }

  lemma ConvertFrame(cv: Converter, doc: Doc, op: UpdateOp, key: string, x: Json)
    requires ValidOp(op) && key in META && op.op == Convert && HasPaths(op)
    ensures ApplyDocOp(cv, doc[key := x], op) == With(ApplyDocOp(cv, doc, op), key, x)
    ensures ApplyDocOp(cv, doc, op).Some? ==> Get(ApplyDocOp(cv, doc, op).value, key) == Get(doc, key)
  {
    var path := FieldPath(op.path);
    TargetsContent(op.path, key);
    Frame(doc, path, key, x, Null);
    var v := GetAt(doc, path);
    var fill := FillValue(None, op.schema, op.failover);
    if op.value.Some? {
      Frame(doc, path, key, x, op.value.value);
    } else if v.Some? {
      Frame(doc, path, key, x, ConvertKind(cv, v.value, op.schema.value.kind));
    } else if fill.Some? {
      Frame(doc, path, key, x, fill.value);
    }
  }

  lemma {:induction false} ListFrame(cv: Converter, doc: Doc, ops: seq<UpdateOp>, key: string, x: Json)
    requires ValidOps(ops) && key in META
    ensures ApplyList(cv, doc[key := x], ops) == With(ApplyList(cv, doc, ops), key, x)
    ensures ApplyList(cv, doc, ops).Some? ==> Get(ApplyList(cv, doc, ops).value, key) == Get(doc, key)
    decreases |ops|
  {
    if ops != [] {
      OpFrame(cv, doc, ops[0], key, x);
      var next := ApplyDocOp(cv, doc, ops[0]);
      if next.Some? {
        ListFrame(cv, next.value, ops[1..], key, x);
      }
    }
  }

  ghost predicate Frames(step: (Doc, int) -> Option<Doc>, key: string, x: Json) {
    forall d: Doc, w :: step(d[key := x], w) == With(step(d, w), key, x)
  }

  ghost predicate Keeps(step: (Doc, int) -> Option<Doc>, key: string) {
    forall d, w :: step(d, w).Some? ==> Get(step(d, w).value, key) == Get(d, key)
  }

  lemma {:induction false} IterateFrame(step: (Doc, int) -> Option<Doc>, doc: Doc, v: int, w: int, key: string, x: Json)
    requires Frames(step, key, x)
    ensures Iterate(step, doc[key := x], v, w) == With(Iterate(step, doc, v, w), key, x)
    decreases w - v
  {
    if v < w {
      IterateFrame(step, doc, v, w - 1, key, x);
    }
  }

  lemma {:induction false} IterateKeeps(step: (Doc, int) -> Option<Doc>, doc: Doc, v: int, w: int, key: string)
    requires Keeps(step, key)
    ensures Iterate(step, doc, v, w).Some? ==> Get(Iterate(step, doc, v, w).value, key) == Get(doc, key)
    decreases w - v
  {
    if v < w {
      IterateKeeps(step, doc, v, w - 1, key);
    }
  }

  lemma StepFrame(cv: Converter, updates: map<int, Spec>, key: string, x: Json)
    requires key in META
    ensures Frames(StepOf(cv, updates), key, x) && Keeps(StepOf(cv, updates), key)
  {
    forall d: Doc, w
      ensures StepOf(cv, updates)(d[key := x], w) == With(StepOf(cv, updates)(d, w), key, x)
      ensures StepOf(cv, updates)(d, w).Some? ==> Get(StepOf(cv, updates)(d, w).value, key) == Get(d, key)
    {
      if w in updates && ValidOps(updates[w].ops) {
        ListFrame(cv, d, updates[w].ops, key, x);
      }
    }
  }

  /** Migration keeps the id and the version of the document. */
  lemma MigrationKeepsMeta(cv: Converter, collection: string, updates: map<int, Spec>, doc: Doc, target: nat)
    requires MigrateTo(cv, collection, updates, doc, target).Ok?
    ensures
      var d := MigrateTo(cv, collection, updates, doc, target).value.doc;
      Get(d, "!") == Get(doc, "!") && Get(d, "#") == Get(doc, "#")
  {
    var v := DocVersion(doc).value;
    var step := StepOf(cv, updates);
    StepFrame(cv, updates, "!", Null);
    StepFrame(cv, updates, "#", Null);
    IterateKeeps(step, doc, v, target, "!");
    IterateKeeps(step, doc, v, target, "#");
  }

  // ----- composition

  lemma {:induction false} IterateComposes(step: (Doc, int) -> Option<Doc>, doc: Doc, v: int, u: int, w: int)
    requires v <= u <= w
    ensures Iterate(step, doc, v, w) ==
      match Iterate(step, doc, v, u) case None => None case Some(d) => Iterate(step, d, u, w)
    decreases w - u
  {
    if u < w {
      IterateComposes(step, doc, v, u, w - 1);
    }
  }

  /** Migrating to u and then to w is migrating to w, failures included. */
  lemma MigrationComposes(cv: Converter, collection: string, updates: map<int, Spec>, doc: Doc, u: nat, w: nat)
    requires DocVersion(doc).Some? && DocVersion(doc).value <= u <= w <= MAX_INT
    ensures
      var direct := MigrateTo(cv, collection, updates, doc, w);
      match MigrateTo(cv, collection, updates, doc, u)
      case Err => direct.Err?
      case Ok(m) =>
        var second := MigrateTo(cv, collection, updates, m.doc, w);
        second.Err? == direct.Err? && (direct.Ok? ==> second.value.doc == direct.value.doc)
  {
    var v := DocVersion(doc).value;
    if v < u {
      FromVersion(cv, collection, updates, doc, v, u);
      FromVersion(cv, collection, updates, doc, v, w);
      IterateComposes(StepOf(cv, updates), doc, v, u, w);
      if Replay(cv, updates, doc, v, u).Some? {
        MarkerParsesBack(collection, u);
        SecondLeg(cv, collection, updates, Replay(cv, updates, doc, v, u).value, MarkerText(collection, u), u, w);
      }
    }
  }

  lemma ReplayFrame(cv: Converter, updates: map<int, Spec>, d: Doc, u: int, w: int, text: string)
    ensures Replay(cv, updates, d["$" := Str(text)], u, w) == With(Replay(cv, updates, d, u, w), "$", Str(text))
  {
    StepFrame(cv, updates, "$", Str(text));
    IterateFrame(StepOf(cv, updates), d, u, w, "$", Str(text));
  }

  /** A migration that starts from any marker text for version u. */
  lemma SecondLeg(cv: Converter, collection: string, updates: map<int, Spec>, d: Doc, text: string, u: nat, w: nat)
    requires u <= w && ParseMarker(text) == Some(u)
    ensures
      var second := MigrateTo(cv, collection, updates, d["$" := Str(text)], w);
      var rest := Replay(cv, updates, d, u, w);
      && (second.Err? <==> rest.None?)
      && (u < w && rest.Some? ==> second.value.doc == rest.value["$" := Str(MarkerText(collection, w))])
      && (u == w ==> second == Ok(Migrated(false, d["$" := Str(text)])))
  {
    if u < w {
      ReplayFrame(cv, updates, d, u, w, text);
      FromVersion(cv, collection, updates, d["$" := Str(text)], u, w);
    }
  }

  lemma FromVersion(cv: Converter, collection: string, updates: map<int, Spec>, doc: Doc, u: int, w: nat)
    requires DocVersion(doc) == Some(u) && u < w
    ensures MigrateTo(cv, collection, updates, doc, w) ==
      if Replay(cv, updates, doc, u, w).None? then Err
      else Ok(Migrated(true, Replay(cv, updates, doc, u, w).value["$" := Str(MarkerText(collection, w))]))
  {
  }

  /** A migrated document is at its target version, and migrating it again is a no-op. */
  lemma MigratesOnce(cv: Converter, collection: string, updates: map<int, Spec>, doc: Doc, target: nat)
    requires target <= MAX_INT && MigrateTo(cv, collection, updates, doc, target).Ok?
    ensures
      var m := MigrateTo(cv, collection, updates, doc, target).value;
      && (m.changed ==> DocVersion(m.doc) == Some(target))
      && MigrateTo(cv, collection, updates, m.doc, target) == Ok(Migrated(false, m.doc))
  {
    MarkerParsesBack(collection, target);
  }

  // ----- when a migration fails

  /** The list of a version cannot be replayed: it is missing, malformed, or has a replace without a value. */
  predicate Unusable(updates: map<int, Spec>, w: int) {
    w !in updates || !ValidOps(updates[w].ops) || HasValueless(updates[w].ops)
  }

  lemma StepFailsIff(cv: Converter, updates: map<int, Spec>, d: Doc, w: int)
    ensures StepOf(cv, updates)(d, w).None? <==> Unusable(updates, w)
  {
    if w in updates && ValidOps(updates[w].ops) {
      ValidHasPaths(updates[w].ops);
      ListFailsIff(cv, d, updates[w].ops);
    }
  }

  lemma {:induction false} ReplayFailsIff(cv: Converter, updates: map<int, Spec>, doc: Doc, v: int, w: int)
    ensures Replay(cv, updates, doc, v, w).None? <==> exists u :: v < u <= w && Unusable(updates, u)
    decreases w - v
  {
    if v < w {
      ReplayFailsIff(cv, updates, doc, v, w - 1);
      var before := Replay(cv, updates, doc, v, w - 1);
      if before.Some? {
        StepFailsIff(cv, updates, before.value, w);
      }
    }
  }

  /** A migration fails if and only if the document has no readable marker or a list between its version and
      the target is unusable; the content of the document plays no part. */
  lemma MigrationFailsIff(cv: Converter, collection: string, updates: map<int, Spec>, doc: Doc, target: nat)
    ensures MigrateTo(cv, collection, updates, doc, target).Err? <==>
      (DocVersion(doc).None? || exists w :: DocVersion(doc).value < w <= target && Unusable(updates, w))
  {
    if DocVersion(doc).Some? {
      ReplayFailsIff(cv, updates, doc, DocVersion(doc).value, target);
    }
  }

  /** After any run of ensure calls no list is missing or malformed: a document of any version so far fails to
      migrate to the current one if and only if a list in between has a replace without a value. */
  lemma EnsuredMigrationFailsIff(rules: Rules, cv: Converter, reqs: seq<Request>, collection: string, doc: Doc)
    requires EnsureAll(rules, reqs).Some? && DocVersion(doc).Some? && DocVersion(doc).value >= 0
    ensures
      var c, v := EnsureAll(rules, reqs).value, DocVersion(doc).value;
      0 <= c.version &&
      (MigrateTo(cv, collection, c.updates, doc, c.version).Err? <==>
       exists w :: v < w <= c.version && w in c.updates && HasValueless(c.updates[w].ops))
  {
    var c, v := EnsureAll(rules, reqs).value, DocVersion(doc).value;
    RunIsComplete(rules, reqs);
    MigrationFailsIff(cv, collection, c.updates, doc, c.version);
    forall w | v < w <= c.version
      ensures w in c.updates && (Unusable(c.updates, w) <==> HasValueless(c.updates[w].ops))
    {
      assert LeadsTo(rules, c, w);
    }
  }

  // ----- documents of a collection with a complete history

  /** The document tracks every update list of its replay. */
  ghost predicate TrackedReplay(full: bool, cv: Converter, c: Collection, doc: Doc, v: int) {
    forall w :: v < w <= c.version ==> TrackedAt(full, cv, c, doc, v, w)
  }

  /** Its replay fits after every single update. */
  ghost predicate FitsAllAlong(full: bool, cv: Converter, c: Collection, doc: Doc, v: int) {
    forall w :: v < w <= c.version ==> FitsThroughoutAt(full, cv, c, doc, v, w)
  }

  ghost predicate TrackedAt(full: bool, cv: Converter, c: Collection, doc: Doc, v: int, w: int) {
    Reaches(cv, c, doc, v, w) ==>
      AllTracked(full, cv, c.history[w - 1].children, c.updates[w].ops, Replay(cv, c.updates, doc, v, w - 1).value)
  }

  ghost predicate FitsThroughoutAt(full: bool, cv: Converter, c: Collection, doc: Doc, v: int, w: int) {
    Reaches(cv, c, doc, v, w) ==>
      FitsThroughout(full, cv, c.history[w - 1].children, c.updates[w].ops, Replay(cv, c.updates, doc, v, w - 1).value)
  }

  /** The replay comes as far as the list of version w. */
  ghost predicate Reaches(cv: Converter, c: Collection, doc: Doc, v: int, w: int) {
    && w - 1 in c.history && w in c.updates && Replay(cv, c.updates, doc, v, w - 1).Some?
    && forall i :: 0 <= i < |c.updates[w].ops| ==> HasPaths(c.updates[w].ops[i])
  }

  /** The schemas supplied in the update lists have distinct sibling names. */
  ghost predicate DistinctLists(c: Collection) {
    forall w :: w in c.updates ==> DistinctList(c.updates[w].ops)
  }

  predicate DistinctList(ops: seq<UpdateOp>) {
    forall i :: 0 <= i < |ops| ==> NamesDistinct(ops[i])
  }

  predicate FitsVersion(full: bool, c: Collection, v: int, doc: Doc) {
    v in c.history && WellNamedAll(c.history[v].children) && FitsFields(full, c.history[v].children, doc)
  }

  /** One list of the replay. */
  lemma ListCommutes(full: bool, rules: Rules, cv: Converter, c: Collection, d: Doc, w: int)
    requires LeadsTo(rules, c, w) && DistinctList(c.updates[w].ops) && FitsVersion(full, c, w - 1, d)
    ensures forall i :: 0 <= i < |c.updates[w].ops| ==> HasPaths(c.updates[w].ops[i])
    ensures
      var old', ops := c.history[w - 1].children, c.updates[w].ops;
      && (FitsThroughout(full, cv, old', ops, d) <==> AllTracked(full, cv, old', ops, d))
      && (AllTracked(full, cv, old', ops, d) ==>
            StepOf(cv, c.updates)(d, w).Some? && FitsVersion(full, c, w, StepOf(cv, c.updates)(d, w).value))
  {
    ValidHasPaths(c.updates[w].ops);
    UpgradeCommutes(full, cv, c.history[w - 1].children, c.updates[w].ops, d);
  }

  /** The replay has come to version w and fits it. */
  ghost predicate FitsReplayed(full: bool, cv: Converter, c: Collection, doc: Doc, v: int, w: int) {
    Replay(cv, c.updates, doc, v, w).Some? && FitsVersion(full, c, w, Replay(cv, c.updates, doc, v, w).value)
  }

  lemma ReplayStep(full: bool, rules: Rules, cv: Converter, c: Collection, doc: Doc, v: int, w: int)
    requires LeadsTo(rules, c, w) && DistinctList(c.updates[w].ops) && v < w && FitsReplayed(full, cv, c, doc, v, w - 1)
    ensures FitsThroughoutAt(full, cv, c, doc, v, w) <==> TrackedAt(full, cv, c, doc, v, w)
    ensures TrackedAt(full, cv, c, doc, v, w) ==> FitsReplayed(full, cv, c, doc, v, w)
  {
    var d := Replay(cv, c.updates, doc, v, w - 1).value;
    ListCommutes(full, rules, cv, c, d, w);
    assert Reaches(cv, c, doc, v, w);
    IterateNext(StepOf(cv, c.updates), doc, v, w, d);
  }

  lemma ReplayGoesOn(full: bool, rules: Rules, cv: Converter, c: Collection, doc: Doc, v: int, w: int)
    requires Complete(rules, c) && DistinctLists(c) && 0 <= v < w <= c.version
    requires FitsReplayed(full, cv, c, doc, v, w - 1)
    requires FitsThroughoutAt(full, cv, c, doc, v, w) || TrackedAt(full, cv, c, doc, v, w)
    ensures FitsThroughoutAt(full, cv, c, doc, v, w) && TrackedAt(full, cv, c, doc, v, w)
    ensures FitsReplayed(full, cv, c, doc, v, w)
  {
    assert LeadsTo(rules, c, w) && DistinctList(c.updates[w].ops);
    ReplayStep(full, rules, cv, c, doc, v, w);
  }

  lemma FitsAtStart(full: bool, cv: Converter, c: Collection, doc: Doc, v: int)
    requires FitsVersion(full, c, v, doc)
    ensures FitsReplayed(full, cv, c, doc, v, v)
  {
  }

  lemma EitherGoesOn(full: bool, rules: Rules, cv: Converter, c: Collection, doc: Doc, v: int, w: int)
    requires Complete(rules, c) && DistinctLists(c) && 0 <= v < w <= c.version
    requires FitsAllAlong(full, cv, c, doc, v) || TrackedReplay(full, cv, c, doc, v)
    requires FitsReplayed(full, cv, c, doc, v, w - 1)
    ensures FitsReplayed(full, cv, c, doc, v, w)
  {
    assert FitsThroughoutAt(full, cv, c, doc, v, w) || TrackedAt(full, cv, c, doc, v, w);
    ReplayGoesOn(full, rules, cv, c, doc, v, w);
  }

  /** As long as the lists are tracked, or the document fits, the replay goes on. */
  lemma {:induction false} ReplayFits(full: bool, rules: Rules, cv: Converter, c: Collection, doc: Doc, v: int, w: int)
    requires Complete(rules, c) && DistinctLists(c) && 0 <= v <= w <= c.version && FitsVersion(full, c, v, doc)
    requires FitsAllAlong(full, cv, c, doc, v) || TrackedReplay(full, cv, c, doc, v)
    ensures FitsReplayed(full, cv, c, doc, v, w)
    decreases w
  {
    if v == w {
      FitsAtStart(full, cv, c, doc, v);
    } else {
      ReplayFits(full, rules, cv, c, doc, v, w - 1);
      EitherGoesOn(full, rules, cv, c, doc, v, w);
    }
  }

  lemma FitsAllAlongIff(full: bool, rules: Rules, cv: Converter, c: Collection, doc: Doc, v: int)
    requires Complete(rules, c) && DistinctLists(c) && 0 <= v <= c.version && FitsVersion(full, c, v, doc)
    ensures FitsAllAlong(full, cv, c, doc, v) <==> TrackedReplay(full, cv, c, doc, v)
  {
    if FitsAllAlong(full, cv, c, doc, v) || TrackedReplay(full, cv, c, doc, v) {
      forall w | v < w <= c.version
        ensures FitsThroughoutAt(full, cv, c, doc, v, w) && TrackedAt(full, cv, c, doc, v, w)
      {
        ReplayFits(full, rules, cv, c, doc, v, w - 1);
        ReplayGoesOn(full, rules, cv, c, doc, v, w);
      }
    }
  }

  /** After any run of ensure calls, a document that fits the schema of its version fits after every update of
      its migration if and only if it tracks each of them; and then the migration does not fail and what comes
      out fits the current schema. */
  lemma MigrationReachesCurrent(full: bool, rules: Rules, cv: Converter, reqs: seq<Request>, collection: string,
                                doc: Doc)
    requires EnsureAll(rules, reqs).Some? && DistinctLists(EnsureAll(rules, reqs).value)
    requires
      var c := EnsureAll(rules, reqs).value;
      && DocVersion(doc).Some? && 0 <= DocVersion(doc).value <= c.version
      && FitsVersion(full, c, DocVersion(doc).value, doc)
    requires forall i :: 0 <= i < |EnsureAll(rules, reqs).value.schema.children| ==>
      EnsureAll(rules, reqs).value.schema.children[i].name != "$"
    ensures
      var c, v := EnsureAll(rules, reqs).value, DocVersion(doc).value;
      var r := MigrateTo(cv, collection, c.updates, doc, c.version);
      && (FitsAllAlong(full, cv, c, doc, v) <==> TrackedReplay(full, cv, c, doc, v))
      && (TrackedReplay(full, cv, c, doc, v) ==> r.Ok? && FitsFields(full, c.schema.children, r.value.doc))
  {
    var c, v := EnsureAll(rules, reqs).value, DocVersion(doc).value;
    RunIsComplete(rules, reqs);
    FitsAllAlongIff(full, rules, cv, c, doc, v);
    if TrackedReplay(full, cv, c, doc, v) {
      ReplayFits(full, rules, cv, c, doc, v, c.version);
      if v < c.version {
        MarkerFits(full, c.schema.children, Replay(cv, c.updates, doc, v, c.version).value,
          Str(MarkerText(collection, c.version)));
      }
    }
  }

  lemma MarkerFits(full: bool, children: seq<Schema>, fields: Doc, x: Json)
    requires FitsFields(full, children, fields) && forall i :: 0 <= i < |children| ==> children[i].name != "$"
    ensures FitsFields(full, children, fields["$" := x])
  {
    forall i | 0 <= i < |children|
      ensures FitsIn(full, children[i], fields["$" := x])
    {
      assert FitsIn(full, children[i], fields);
    }
  }

  // ----- histories that are safe for every document

  /** Every update list after version v is sensible for the schema it was made for; no document plays a part. */
  ghost predicate SensibleHistory(cv: Converter, c: Collection, v: int) {
    forall w :: v < w <= c.version ==> SensibleVersion(cv, c, w)
  }

  ghost predicate SensibleVersion(cv: Converter, c: Collection, w: int) {
    && w - 1 in c.history && w in c.updates
    && (forall i :: 0 <= i < |c.updates[w].ops| ==> HasPaths(c.updates[w].ops[i]))
    && SensibleList(cv, c.history[w - 1].children, c.updates[w].ops)
  }

  /** The document is free for every move and copy of its replay. */
  ghost predicate FreeReplay(cv: Converter, c: Collection, doc: Doc, v: int) {
    forall w :: v < w <= c.version ==> FreeAt(cv, c, doc, v, w)
  }

  ghost predicate FreeAt(cv: Converter, c: Collection, doc: Doc, v: int, w: int) {
    Reaches(cv, c, doc, v, w) ==>
      FreeThroughout(cv, Replay(cv, c.updates, doc, v, w - 1).value, c.updates[w].ops)
  }

  lemma SensibleStep(rules: Rules, cv: Converter, c: Collection, doc: Doc, v: int, w: int)
    requires LeadsTo(rules, c, w) && v < w && FitsReplayed(false, cv, c, doc, v, w - 1)
    requires SensibleVersion(cv, c, w) && FreeAt(cv, c, doc, v, w)
    ensures FitsReplayed(false, cv, c, doc, v, w)
  {
    var d := Replay(cv, c.updates, doc, v, w - 1).value;
    assert Reaches(cv, c, doc, v, w);
    SensibleIsTracked(cv, c.history[w - 1].children, c.updates[w].ops, d);
    ReplayStep(false, rules, cv, c, doc, v, w);
  }

  lemma SensibleGoesOn(rules: Rules, cv: Converter, c: Collection, doc: Doc, v: int, w: int)
    requires Complete(rules, c) && 0 <= v < w <= c.version
    requires SensibleHistory(cv, c, v) && FreeReplay(cv, c, doc, v) && FitsReplayed(false, cv, c, doc, v, w - 1)
    ensures FitsReplayed(false, cv, c, doc, v, w)
  {
    assert LeadsTo(rules, c, w) && SensibleVersion(cv, c, w) && FreeAt(cv, c, doc, v, w);
    SensibleStep(rules, cv, c, doc, v, w);
  }

  lemma {:induction false} SensibleReplayFits(rules: Rules, cv: Converter, c: Collection, doc: Doc, v: int, w: int)
    requires Complete(rules, c) && 0 <= v <= w <= c.version && FitsVersion(false, c, v, doc)
    requires SensibleHistory(cv, c, v) && FreeReplay(cv, c, doc, v)
    ensures FitsReplayed(false, cv, c, doc, v, w)
    decreases w
  {
    if v == w {
      FitsAtStart(false, cv, c, doc, v);
    } else {
      SensibleReplayFits(rules, cv, c, doc, v, w - 1);
      SensibleGoesOn(rules, cv, c, doc, v, w);
    }
  }

  /** After any run of ensure calls whose lists are sensible: every document of the kinds of its version that is
      free for its replay migrates without failing to one of the kinds of the current schema. */
  lemma SensibleMigrationFits(rules: Rules, cv: Converter, reqs: seq<Request>, collection: string, doc: Doc)
    requires EnsureAll(rules, reqs).Some?
    requires
      var c := EnsureAll(rules, reqs).value;
      && DocVersion(doc).Some? && 0 <= DocVersion(doc).value <= c.version
      && FitsVersion(false, c, DocVersion(doc).value, doc)
      && SensibleHistory(cv, c, DocVersion(doc).value) && FreeReplay(cv, c, doc, DocVersion(doc).value)
    requires forall i :: 0 <= i < |EnsureAll(rules, reqs).value.schema.children| ==>
      EnsureAll(rules, reqs).value.schema.children[i].name != "$"
    ensures
      var c := EnsureAll(rules, reqs).value;
      var r := MigrateTo(cv, collection, c.updates, doc, c.version);
      r.Ok? && FitsFields(false, c.schema.children, r.value.doc)
  {
    var c, v := EnsureAll(rules, reqs).value, DocVersion(doc).value;
    RunIsComplete(rules, reqs);
    SensibleReplayFits(rules, cv, c, doc, v, c.version);
    if v < c.version {
      MarkerFits(false, c.schema.children, Replay(cv, c.updates, doc, v, c.version).value,
        Str(MarkerText(collection, c.version)));
    }
  }
}
