/** internal/schemapatch/document.go: what each update does to the value at its path, and that a migration
    touches no path its update lists do not name. */
module SchemaEffect {
  import opened Json
  import opened Schema
  import opened SchemaPatch
  import opened SchemaCommute
  import opened SchemaShape
  import opened Upgrade
  import opened Migrate

  /** Setting a value shows at its own path only, even where objects had to be made on the way. */
  lemma {:induction false} SetElsewhere(doc: Doc, path: seq<string>, v: Json, q: seq<string>)
    requires path != [] && q != [] && Apart(path, q)
    ensures GetAt(SetAt(doc, path, v), q) == GetAt(doc, q)
    decreases path
  {
    ApartStep(path, q);
    if |path| > 1 && path[0] == q[0] {
      SetElsewhere(Inner(doc, path[0]), path[1..], v, q[1..]);
    }
  }

  lemma {:induction false} RemoveElsewhere(doc: Doc, path: seq<string>, q: seq<string>)
    requires path != [] && q != [] && Apart(path, q)
    ensures GetAt(RemoveAt(doc, path), q) == GetAt(doc, q)
    decreases path
  {
    ApartStep(path, q);
    if |path| > 1 && path[0] == q[0] && path[0] in doc && doc[path[0]].Obj? {
      RemoveElsewhere(doc[path[0]].fields, path[1..], q[1..]);
    }
  }

  lemma FilledAt(doc: Doc, path: seq<string>, fill: Option<Json>)
    requires path != []
    ensures GetAt(Filled(doc, path, fill), path) == fill
  {
    if fill.Some? {
      GetSet(doc, path, fill.value);
    } else {
      RemovedIsGone(doc, path);
    }
  }

  /** The value selected for a new field: the supplied one, else the default, else the failover, else null or the
      empty value of its kind if the field is required. */
  predicate Selected(op: UpdateOp, supplied: Option<Json>, r: Option<Json>) {
    if supplied.Some? then r == supplied
    else if op.schema.None? then r == None
    else
      var s := op.schema.value;
      && (s.default.Some? ==> r == s.default)
      && (s.default.None? && op.failover != Null ==> r == Some(op.failover))
      && (s.default.None? && op.failover == Null ==>
            && (!s.required ==> r == None)
            && (s.required && s.nullable ==> r == Some(Null))
            && (s.required && !s.nullable ==> r.Some? && match s.kind
                  case StringKind => r.value == Str("")
                  case NumberKind => r.value == Num(0.0)
                  case BooleanKind => r.value == Bool(false)
                  case ArrayKind => r.value == Arr([])
                  case ObjectKind => r.value == Obj(map[])
                  case OtherKind => r.value == Null))
  }

  /** What a value becomes under a kind. */
  predicate Converted(cv: Converter, v: Json, kind: Kind, r: Json) {
    match kind
    case BooleanKind =>
      r == Bool(!(v == Null || v == Bool(false) || v == Str("") || v == Num(0.0) || v == Arr([]) || v == Obj(map[])))
    case StringKind =>
      && (v == Null ==> r == Str("null")) && (v == Bool(true) ==> r == Str("true"))
      && (v == Bool(false) ==> r == Str("false")) && (v.Str? ==> r == v)
      && (v.Num? || v.Arr? || v.Obj? ==> r == Str(cv.stringify(v)))
    case NumberKind =>
      && (v == Null ==> r == Num(0.0)) && (v == Bool(true) ==> r == Num(1.0)) && (v == Bool(false) ==> r == Num(0.0))
      && (v.Num? ==> r == v) && (v.Str? ==> r == Num(cv.leadingNumber(v.s)))
      && (v.Arr? ==> r == Num(|v.items| as real)) && (v.Obj? ==> r == Num(|v.fields| as real))
    case ArrayKind => r == if v.Arr? then v else Arr([v])
    case ObjectKind => r == if v.Obj? then v else Obj(map[])
    case OtherKind => r == v
  }

  function TargetKind(op: UpdateOp): Kind {
    if op.schema.Some? then op.schema.value.kind else OtherKind
  }

  lemma FillIsSelected(op: UpdateOp, supplied: Option<Json>)
    ensures Selected(op, supplied, FillValue(supplied, op.schema, op.failover))
  {
  }

  lemma ConvertKindConverts(cv: Converter, v: Json, kind: Kind)
    ensures Converted(cv, v, kind, ConvertKind(cv, v, kind))
  {
  }

  /** An import keeps a value of the declared kind. */
  predicate OfKind(s: Schema, v: Json) {
    match s.kind
    case StringKind => v.Str?
    case NumberKind => v.Num?
    case BooleanKind => v.Bool?
    case ArrayKind => v.Arr?
    case ObjectKind => v.Obj?
    case OtherKind => true
  }

  /** The value an update leaves at its path, as read from the document before and after. */
  lemma ValueAfter(cv: Converter, doc: Doc, op: UpdateOp)
    requires HasPaths(op) && ApplyDocOp(cv, doc, op).Some?
    ensures
      var path, from := FieldPath(op.path), FieldPath(op.from);
      var after, was := GetAt(ApplyDocOp(cv, doc, op).value, path), GetAt(doc, path);
      match op.op
      case Add => Selected(op, op.value, after)
      case Import =>
        if was.Some? && (op.schema.Some? ==> OfKind(op.schema.value, was.value)) then after == was
        else Selected(op, op.value, after)
      case Remove => after == None
      case Abandon => after == was
      case Replace => after == op.value
      case Move => after == if GetAt(doc, from).Some? then GetAt(doc, from) else was
      case Copy => after == if GetAt(doc, from).Some? then GetAt(doc, from) else was
      case Convert =>
        if op.value.Some? then after == op.value
        else if was.None? then Selected(op, None, after)
        else after.Some? && Converted(cv, was.value, TargetKind(op), after.value)
  {
    var path, from := FieldPath(op.path), FieldPath(op.from);
    var was, fill := GetAt(doc, path), FillValue(op.value, op.schema, op.failover);
    FillIsSelected(op, op.value);
    match op.op
    case Add => FilledAt(doc, path, fill);
    case Import =>
      FilledAt(doc, path, fill);
      FilledAt(RemoveAt(doc, path), path, fill);
    case Remove => RemovedIsGone(doc, path);
    case Replace => GetSet(doc, path, op.value.value);
    case Move =>
      if GetAt(doc, from).Some? {
        GetSet(RemoveAt(doc, from), path, GetAt(doc, from).value);
      }
    case Copy =>
      if GetAt(doc, from).Some? {
        GetSet(doc, path, GetAt(doc, from).value);
      }
    case Convert => ConvertedAfter(cv, doc, op);
    case Abandon =>
  }

  lemma ConvertedAfter(cv: Converter, doc: Doc, op: UpdateOp)
    requires op.op == Convert && HasPaths(op)
    ensures
      var was, after := GetAt(doc, FieldPath(op.path)), GetAt(ApplyDocOp(cv, doc, op).value, FieldPath(op.path));
      if op.value.Some? then after == op.value
      else if was.None? then Selected(op, None, after)
      else after.Some? && Converted(cv, was.value, TargetKind(op), after.value)
  {
    var path := FieldPath(op.path);
    var was := GetAt(doc, path);
    if op.value.Some? {
      GetSet(doc, path, op.value.value);
    } else if was.Some? {
      ConvertKindConverts(cv, was.value, TargetKind(op));
      GetSet(doc, path, ConvertKind(cv, was.value, TargetKind(op)));
    } else {
      FillIsSelected(op, None);
      var fill := FillValue(None, op.schema, op.failover);
      if fill.Some? {
        GetSet(doc, path, fill.value);
      }
    }
  }

  /** A move to a place apart from its source leaves nothing at the source; a copy leaves it as it was. */
  lemma SourceAfter(cv: Converter, doc: Doc, op: UpdateOp)
    requires HasPaths(op) && (op.op == Move || op.op == Copy) && Apart(FieldPath(op.path), FieldPath(op.from))
    ensures ApplyDocOp(cv, doc, op).Some?
    ensures GetAt(ApplyDocOp(cv, doc, op).value, FieldPath(op.from)) ==
      if op.op == Move then None else GetAt(doc, FieldPath(op.from))
  {
    var path, from := FieldPath(op.path), FieldPath(op.from);
    if GetAt(doc, from).Some? {
      var v := GetAt(doc, from).value;
      RemovedIsGone(doc, from);
      SetElsewhere(RemoveAt(doc, from), path, v, from);
      SetElsewhere(doc, path, v, from);
    }
  }

  /** The path lies apart from what the update names. */
  predicate Spared(op: UpdateOp, q: seq<string>) {
    Apart(FieldPath(op.path), q) && (op.op == Move ==> Apart(FieldPath(op.from), q))
  }

  /** An update changes nothing at a path apart from those it names. */
  lemma SparedIsKept(cv: Converter, doc: Doc, op: UpdateOp, q: seq<string>)
    requires HasPaths(op) && q != [] && Spared(op, q) && ApplyDocOp(cv, doc, op).Some?
    ensures GetAt(ApplyDocOp(cv, doc, op).value, q) == GetAt(doc, q)
  {
    DocOpIsWrite(cv, doc, op);
    RestIsKept(cv, doc, op, q);
    if Written(cv, doc, op).Some? {
      SetElsewhere(Rest(cv, doc, op), FieldPath(op.path), Written(cv, doc, op).value, q);
    }
  }

  lemma RestIsKept(cv: Converter, doc: Doc, op: UpdateOp, q: seq<string>)
    requires HasPaths(op) && q != [] && Spared(op, q)
    ensures GetAt(Rest(cv, doc, op), q) == GetAt(doc, q)
  {
    var path := FieldPath(op.path);
    RemoveElsewhere(doc, path, q);
    RemoveElsewhere(RemoveAt(doc, path), path, q);
    if op.op == Move {
      RemoveElsewhere(doc, FieldPath(op.from), q);
    }
  }

  lemma {:induction false} ListKeeps(cv: Converter, doc: Doc, ops: seq<UpdateOp>, q: seq<string>)
    requires q != [] && forall i :: 0 <= i < |ops| ==> HasPaths(ops[i]) && Spared(ops[i], q)
    ensures ApplyToDocument(cv, doc, ops).Some? ==> GetAt(ApplyToDocument(cv, doc, ops).value, q) == GetAt(doc, q)
    decreases |ops|
  {
    if ops != [] && ApplyDocOp(cv, doc, ops[0]).Some? {
      SparedIsKept(cv, doc, ops[0], q);
      ListKeeps(cv, ApplyDocOp(cv, doc, ops[0]).value, ops[1..], q);
    }
  }

  lemma {:induction false} IterateKeepsAt(step: (Doc, int) -> Option<Doc>, doc: Doc, v: int, w: int, q: seq<string>)
    requires q != [] && forall d, u :: v < u <= w && step(d, u).Some? ==> GetAt(step(d, u).value, q) == GetAt(d, q)
    ensures Iterate(step, doc, v, w).Some? ==> GetAt(Iterate(step, doc, v, w).value, q) == GetAt(doc, q)
    decreases w - v
  {
    if v < w {
      IterateKeepsAt(step, doc, v, w - 1, q);
    }
  }

  /** A migration keeps every value that lies apart from all paths its update lists name. */
  lemma MigrationKeepsElsewhere(cv: Converter, collection: string, updates: map<int, Spec>, doc: Doc, target: nat,
                                q: seq<string>)
    requires q != [] && q[0] != "$" && MigrateTo(cv, collection, updates, doc, target).Ok?
    requires forall v, i :: v in updates && DocVersion(doc).value < v <= target && 0 <= i < |updates[v].ops| ==>
      Spared(updates[v].ops[i], q)
    ensures GetAt(MigrateTo(cv, collection, updates, doc, target).value.doc, q) == GetAt(doc, q)
  {
    var v := DocVersion(doc).value;
    if v < target {
      var step := StepOf(cv, updates);
      forall d, u | v < u <= target && step(d, u).Some?
        ensures GetAt(step(d, u).value, q) == GetAt(d, q)
      {
        ValidHasPaths(updates[u].ops);
        ListKeeps(cv, d, updates[u].ops, q);
      }
      IterateKeepsAt(step, doc, v, target, q);
    }
  }
}
