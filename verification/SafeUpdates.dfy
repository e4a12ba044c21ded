/** Which updates are right for every document, on kinds alone: a condition on the schema and the update, and
    what it gives for whole update lists. */
module SafeUpdates {
  import opened Json
  import opened Schema
  import opened SchemaPatch
  import opened SchemaCommute
  import opened SchemaMisfits

  // ----- entries that take every value of their kind

  /** Nothing below the entry has a declared kind. */
  predicate Loose(s: Schema) {
    && (s.kind == ObjectKind ==> forall i :: 0 <= i < |s.children| ==> s.children[i].kind == OtherKind)
    && (s.kind == ArrayKind && s.items.Some? ==> s.items.value.kind == OtherKind)
  }

  /** A value that is not of this kind, and not null. */
  function OfAnotherKind(kind: Kind): Json {
    if kind == StringKind then Num(0.0) else Str("")
  }

  lemma MisfitField(s: Schema, i: nat)
    requires s.kind == ObjectKind && i < |s.children| && s.children[i].kind != OtherKind
    ensures !Fits(false, s, Obj(map[s.children[i].name := OfAnotherKind(s.children[i].kind)]))
  {
    var fields := map[s.children[i].name := OfAnotherKind(s.children[i].kind)];
    assert !FitsIn(false, s.children[i], fields);
  }

  lemma MisfitItem(s: Schema)
    requires s.kind == ArrayKind && s.items.Some? && s.items.value.kind != OtherKind
    ensures !Fits(false, s, Arr([OfAnotherKind(s.items.value.kind)]))
  {
    var items := [OfAnotherKind(s.items.value.kind)];
    assert !Fits(false, s.items.value, items[0]);
  }

  lemma LooseFits(s: Schema, v: Json)
    requires Loose(s) && KindMatches(s.kind, v)
    ensures Fits(false, s, v)
  {
    if s.kind == ObjectKind {
      assert forall i :: 0 <= i < |s.children| ==> FitsIn(false, s.children[i], v.fields);
    }
    if s.kind == ArrayKind && s.items.Some? {
      assert forall i :: 0 <= i < |v.items| ==> Fits(false, s.items.value, v.items[i]);
    }
  }

  /** Exactly the loose entries take every value of their top-level kind. */
  lemma LooseIff(s: Schema)
    ensures Loose(s) <==> forall v :: KindMatches(s.kind, v) ==> Fits(false, s, v)
  {
    if Loose(s) {
      forall v | KindMatches(s.kind, v)
        ensures Fits(false, s, v)
      {
        LooseFits(s, v);
      }
    } else if s.kind == ObjectKind {
      var i :| 0 <= i < |s.children| && s.children[i].kind != OtherKind;
      MisfitField(s, i);
      assert KindMatches(s.kind, Obj(map[s.children[i].name := OfAnotherKind(s.children[i].kind)]));
    } else {
      MisfitItem(s);
      assert KindMatches(s.kind, Arr([OfAnotherKind(s.items.value.kind)]));
    }
  }

  // ----- conversions

  /** Every value of the old entry converts to one of the new entry. */
  ghost predicate Converts(cv: Converter, was: Schema, now: Schema) {
    forall v :: Fits(false, was, v) ==> Fits(false, now, ConvertKind(cv, v, now.kind))
  }

  /** The same kind with the same declarations below it; a null becomes an item of an array. */
  predicate SameBelow(was: Schema, now: Schema) {
    && was.kind == now.kind && was.children == now.children && was.items == now.items
    && (was.kind == ArrayKind && was.nullable && was.items.Some? ==> Fits(false, was.items.value, Null))
  }

  /** Conversion is right to an entry with nothing declared below it, in particular to a string, number or
      boolean, and where only flags change. */
  lemma ConvertsWhen(cv: Converter, was: Schema, now: Schema)
    requires Loose(now) || SameBelow(was, now)
    ensures Converts(cv, was, now)
  {
    forall v | Fits(false, was, v)
      ensures Fits(false, now, ConvertKind(cv, v, now.kind))
    {
      assert KindMatches(now.kind, ConvertKind(cv, v, now.kind));
      if Loose(now) {
        LooseFits(now, ConvertKind(cv, v, now.kind));
      } else if v == Null {
        NullConverts(cv, was, now);
      }
    }
  }

  lemma NullConverts(cv: Converter, was: Schema, now: Schema)
    requires SameBelow(was, now) && Fits(false, was, Null)
    ensures Fits(false, now, ConvertKind(cv, Null, now.kind))
  {
    if now.kind == ArrayKind && now.items.Some? {
      assert FitsItems(false, now.items.value, [Null]);
    }
    if now.kind == ObjectKind {
      EmptyFits(now.children);
    }
  }

  lemma EmptyFits(children: seq<Schema>)
    ensures FitsFields(false, children, map[])
  {
    assert forall i :: 0 <= i < |children| ==> FitsIn(false, children[i], map[]);
  }

  // ----- one update

  /** What is written is written below objects, and a move or copy also takes from below objects. */
  predicate BelowObjects(children: seq<Schema>, op: UpdateOp)
    requires HasPaths(op)
  {
    && (op.op != Remove && op.op != Abandon ==> ObjectPath(children, Parent(FieldPath(op.path))))
    && (op.op == Move || op.op == Copy ==> ObjectPath(children, Parent(FieldPath(op.from))))
  }

  /** The value the update selects for a field that is not there, if any, fits its entry. */
  predicate FillFits(op: UpdateOp) {
    var fill := FillValue(op.value, op.schema, op.failover);
    op.schema.Some? && fill.Some? ==> Fits(false, op.schema.value, fill.value)
  }

  /** What the author of an update can check: selected and replacement values fit, an import is to a loose
      entry, and every old value converts. */
  ghost predicate Suits(cv: Converter, children: seq<Schema>, op: UpdateOp)
    requires HasPaths(op)
  {
    var node := NodeAt(children, FieldPath(op.path));
    match op.op
    case Add => FillFits(op)
    case Import => FillFits(op) && (op.schema.Some? ==> Loose(op.schema.value))
    case Replace => op.value.Some? && (node.Some? ==> Fits(false, node.value, op.value.value))
    case Convert => FillFits(op) &&
      (op.value.None? && node.Some? && op.schema.Some? ==> Converts(cv, node.value, op.schema.value))
    case _ => true
  }

  /** What it cannot see: for a move or copy, the source is there or nothing is in the way. */
  predicate Free(op: UpdateOp, doc: Doc)
    requires HasPaths(op)
  {
    op.op == Move || op.op == Copy ==> GetAt(doc, FieldPath(op.from)).Some? || GetAt(doc, FieldPath(op.path)).None?
  }

  lemma SuitsCommutes(cv: Converter, children: seq<Schema>, op: UpdateOp, doc: Doc)
    requires WellNamedAll(children) && FitsFields(false, children, doc) && HasPaths(op) && ApplyOp(children, op).Some?
    requires BelowObjects(children, op) && Suits(cv, children, op) && Free(op, doc)
    ensures Commutes(false, cv, children, op, doc)
  {
    match op.op
    case Add => AddIff(false, cv, children, op, doc);
    case Import => ImportSuits(cv, children, op, doc);
    case Replace => WriteSuits(cv, children, op, doc);
    case Convert => ConvertSuits(cv, children, op, doc);
    case Move => RelocationSuits(cv, children, op, doc);
    case Copy => RelocationSuits(cv, children, op, doc);
    case _ => WithoutEntry(false, cv, children, op, doc);
  }

  /** A written value that fits the entry. */
  lemma WriteSuits(cv: Converter, children: seq<Schema>, op: UpdateOp, doc: Doc)
    requires WellNamedAll(children) && FitsFields(false, children, doc) && HasPaths(op) && ApplyOp(children, op).Some?
    requires ObjectPath(children, Parent(FieldPath(op.path))) && op.op != Move && Entry(children, op).Some?
    requires Written(cv, doc, op).Some?
    ensures Commutes(false, cv, children, op, doc)
      <==> Fits(false, Entry(children, op).value, Written(cv, doc, op).value)
  {
    OpCommutesIff(false, cv, children, op, doc);
    SetBelowObjects(false, children, Parent(FieldPath(op.path)), Entry(children, op).value, Rest(cv, doc, op),
      Written(cv, doc, op).value);
  }

  lemma ImportSuits(cv: Converter, children: seq<Schema>, op: UpdateOp, doc: Doc)
    requires op.op == Import && WellNamedAll(children) && FitsFields(false, children, doc) && HasPaths(op)
    requires ApplyOp(children, op).Some? && BelowObjects(children, op) && Suits(cv, children, op)
    ensures Commutes(false, cv, children, op, doc)
  {
    var path, c := FieldPath(op.path), Entry(children, op).value;
    if Imported(op, doc) {
      LooseFits(op.schema.value, GetAt(doc, path).value);
      ImportIff(false, cv, children, op, doc);
    } else if Written(cv, doc, op).Some? {
      WriteSuits(cv, children, op, doc);
    } else {
      OpCommutesIff(false, cv, children, op, doc);
      RemovedIsGone(doc, path);
      RemovedIsGone(RemoveAt(doc, path), path);
      KeepBelowObjects(false, children, path, c, Rest(cv, doc, op));
    }
  }

  lemma ConvertSuits(cv: Converter, children: seq<Schema>, op: UpdateOp, doc: Doc)
    requires op.op == Convert && WellNamedAll(children) && FitsFields(false, children, doc) && HasPaths(op)
    requires ApplyOp(children, op).Some? && BelowObjects(children, op) && Suits(cv, children, op)
    ensures Commutes(false, cv, children, op, doc)
  {
    var path := FieldPath(op.path);
    var current := GetAt(doc, path);
    ConvertedNode(children, op);
    if op.value.None? && current.Some? {
      NodeFits(false, children, doc, path);
      ConvertIff(false, cv, children, op, doc);
    } else if Written(cv, doc, op).Some? {
      WriteSuits(cv, children, op, doc);
    } else {
      OpCommutesIff(false, cv, children, op, doc);
      KeepBelowObjects(false, children, path, Entry(children, op).value, doc);
    }
  }

  /** A convert is of a node that is there. */
  lemma ConvertedNode(children: seq<Schema>, op: UpdateOp)
    requires op.op == Convert && HasPaths(op) && ApplyOp(children, op).Some?
    ensures NodeAt(children, FieldPath(op.path)).Some?
  {
    PutIsThere(children, FieldPath(op.path), Named(op.schema.value, Leaf(FieldPath(op.path))));
  }

  lemma {:induction false} PutIsThere(children: seq<Schema>, path: seq<string>, c: Schema)
    requires path != [] && c.name == Leaf(path) && EditAt(children, Parent(path), Put(c)).Some?
    ensures NodeAt(children, path).Some?
    decreases path
  {
    if |path| > 1 {
      assert Parent(path)[0] == path[0] && Parent(path)[1..] == Parent(path[1..]);
      PutIsThere(children[FindChild(children, path[0])].children, path[1..], c);
    }
  }

  lemma RelocationSuits(cv: Converter, children: seq<Schema>, op: UpdateOp, doc: Doc)
    requires (op.op == Move || op.op == Copy) && WellNamedAll(children) && FitsFields(false, children, doc)
    requires HasPaths(op) && ApplyOp(children, op).Some? && BelowObjects(children, op) && Free(op, doc)
    ensures Commutes(false, cv, children, op, doc)
  {
    if Entry(children, op).None? {
      WithoutEntry(false, cv, children, op, doc);
    } else if GetAt(doc, FieldPath(op.from)).Some? {
      WithSourceFits(false, cv, children, op, doc);
    } else {
      WithoutSourceIff(false, cv, children, op, doc);
    }
  }

  // ----- and conversely

  /** A document with one field, which the schema does not name. */
  lemma {:induction false} FreshFieldFits(children: seq<Schema>, path: seq<string>, v: Json)
    requires path != [] && WellNamedAll(children) && ObjectPath(children, Parent(path)) && NodeAt(children, path).None?
    ensures FitsFields(false, children, SetAt(map[], path, v))
    decreases path
  {
    if |path| == 1 {
      assert forall i :: 0 <= i < |children| ==> FitsIn(false, children[i], SetAt(map[], path, v));
    } else {
      var i, none: Doc := FindChild(children, path[0]), map[];
      assert Parent(path)[0] == path[0] && Parent(path)[1..] == Parent(path[1..]);
      FreshFieldFits(children[i].children, path[1..], v);
      EmptyFits(children);
      ChildSet(false, children, i, children[i], none, Obj(SetAt(none, path[1..], v)));
      assert children[i := children[i]] == children;
    }
  }

  /** A document with one field, which fits its node. */
  lemma NodeFieldFits(children: seq<Schema>, path: seq<string>, v: Json)
    requires path != [] && WellNamedAll(children) && ObjectPath(children, Parent(path))
    requires NodeAt(children, path).Some? && Fits(false, NodeAt(children, path).value, v)
    ensures FitsFields(false, children, SetAt(map[], path, v))
  {
    var node := NodeAt(children, path).value;
    NodeWellNamed(children, path);
    PutSame(children, path);
    EmptyFits(children);
    assert Parent(path) + [node.name] == path;
    EditSetIff(false, children, Parent(path), Put(node), map[], v);
    SetBelowObjects(false, children, Parent(path), node, map[], v);
  }

  ghost predicate AlwaysCommutes(cv: Converter, children: seq<Schema>, op: UpdateOp)
    requires HasPaths(op) && ApplyOp(children, op).Some?
  {
    forall doc :: FitsFields(false, children, doc) && Free(op, doc) ==> Commutes(false, cv, children, op, doc)
  }

  lemma ImportNeedsLoose(cv: Converter, children: seq<Schema>, op: UpdateOp)
    requires op.op == Import && WellNamedAll(children) && HasPaths(op) && ApplyOp(children, op).Some?
    requires BelowObjects(children, op) && AlwaysCommutes(cv, children, op)
    ensures Loose(op.schema.value)
  {
    var path := FieldPath(op.path);
    forall v | KindMatches(op.schema.value.kind, v)
      ensures Fits(false, op.schema.value, v)
    {
      var doc := SetAt(map[], path, v);
      AppendIsFresh(children, path, Named(op.schema.value, Leaf(path)));
      FreshFieldFits(children, path, v);
      GetSet(map[], path, v);
      assert Commutes(false, cv, children, op, doc);
      ImportIff(false, cv, children, op, doc);
    }
    LooseIff(op.schema.value);
  }

  lemma ConvertNeedsConverts(cv: Converter, children: seq<Schema>, op: UpdateOp)
    requires op.op == Convert && op.value.None? && WellNamedAll(children) && HasPaths(op)
    requires ApplyOp(children, op).Some? && BelowObjects(children, op) && AlwaysCommutes(cv, children, op)
    ensures NodeAt(children, FieldPath(op.path)).Some?
    ensures Converts(cv, NodeAt(children, FieldPath(op.path)).value, op.schema.value)
  {
    var path := FieldPath(op.path);
    ConvertedNode(children, op);
    forall v | Fits(false, NodeAt(children, path).value, v)
      ensures Fits(false, op.schema.value, ConvertKind(cv, v, op.schema.value.kind))
    {
      var doc := SetAt(map[], path, v);
      NodeFieldFits(children, path, v);
      GetSet(map[], path, v);
      assert Commutes(false, cv, children, op, doc);
      ConvertIff(false, cv, children, op, doc);
    }
  }

  lemma {:induction false} EmptyHasNothing(path: seq<string>)
    requires path != []
    ensures GetAt(map[], path).None?
  {
  }

  /** On the empty document the update writes what it selects. */
  lemma FillNeedsFit(cv: Converter, children: seq<Schema>, op: UpdateOp)
    requires op.op == Add || op.op == Import || op.op == Convert
    requires WellNamedAll(children) && HasPaths(op) && ApplyOp(children, op).Some?
    requires BelowObjects(children, op) && AlwaysCommutes(cv, children, op)
    ensures FillFits(op)
  {
    EmptyFits(children);
    EmptyHasNothing(FieldPath(op.path));
    assert Commutes(false, cv, children, op, map[]);
    if Written(cv, map[], op).Some? {
      WriteSuits(cv, children, op, map[]);
    }
  }

  lemma ReplaceNeedsFit(cv: Converter, children: seq<Schema>, op: UpdateOp)
    requires op.op == Replace && WellNamedAll(children) && HasPaths(op) && ApplyOp(children, op).Some?
    requires BelowObjects(children, op) && AlwaysCommutes(cv, children, op)
    ensures Suits(cv, children, op)
  {
    EmptyFits(children);
    assert Commutes(false, cv, children, op, map[]);
    DocOpIsWrite(cv, map[], op);
    WriteSuits(cv, children, op, map[]);
  }

  /** An update below objects is right, on kinds, for every fitting document that is free for it if and only
      if it suits the schema. */
  lemma AlwaysCommutesIff(cv: Converter, children: seq<Schema>, op: UpdateOp)
    requires WellNamedAll(children) && HasPaths(op) && ApplyOp(children, op).Some? && BelowObjects(children, op)
    ensures AlwaysCommutes(cv, children, op) <==> Suits(cv, children, op)
  {
    if Suits(cv, children, op) {
      forall doc | FitsFields(false, children, doc) && Free(op, doc)
        ensures Commutes(false, cv, children, op, doc)
      {
        SuitsCommutes(cv, children, op, doc);
      }
    }
    if AlwaysCommutes(cv, children, op) {
      match op.op
      case Add => FillNeedsFit(cv, children, op);
      case Import =>
        FillNeedsFit(cv, children, op);
        ImportNeedsLoose(cv, children, op);
      case Replace => ReplaceNeedsFit(cv, children, op);
      case Convert =>
        FillNeedsFit(cv, children, op);
        if op.value.None? {
          ConvertNeedsConverts(cv, children, op);
        }
      case _ =>
    }
  }

  // ----- whole lists

  ghost predicate Sensible(cv: Converter, children: seq<Schema>, op: UpdateOp)
    requires HasPaths(op)
  {
    NamesDistinct(op) && BelowObjects(children, op) && Suits(cv, children, op)
  }

  /** Each update of the list is sensible for the schema it meets; no document plays a part. */
  ghost predicate SensibleList(cv: Converter, children: seq<Schema>, ops: seq<UpdateOp>)
    requires forall i :: 0 <= i < |ops| ==> HasPaths(ops[i])
    decreases |ops|
  {
    ops == [] ||
    (assert HasPaths(ops[0]);
     && Sensible(cv, children, ops[0])
     && (ApplyOp(children, ops[0]).Some? ==> SensibleList(cv, ApplyOp(children, ops[0]).value, ops[1..])))
  }

  /** The document is free for each move and copy when its turn comes. */
  predicate FreeThroughout(cv: Converter, doc: Doc, ops: seq<UpdateOp>)
    requires forall i :: 0 <= i < |ops| ==> HasPaths(ops[i])
    decreases |ops|
  {
    ops == [] ||
    (assert HasPaths(ops[0]);
     && Free(ops[0], doc)
     && (ApplyDocOp(cv, doc, ops[0]).Some? ==> FreeThroughout(cv, ApplyDocOp(cv, doc, ops[0]).value, ops[1..])))
  }

  /** Without moves and copies every document is. */
  lemma {:induction false} StationaryIsFree(cv: Converter, doc: Doc, ops: seq<UpdateOp>)
    requires forall i :: 0 <= i < |ops| ==> HasPaths(ops[i]) && ops[i].op != Move && ops[i].op != Copy
    ensures FreeThroughout(cv, doc, ops)
    decreases |ops|
  {
    if ops != [] && ApplyDocOp(cv, doc, ops[0]).Some? {
      StationaryIsFree(cv, ApplyDocOp(cv, doc, ops[0]).value, ops[1..]);
    }
  }

  lemma {:induction false} SensibleIsTracked(cv: Converter, children: seq<Schema>, ops: seq<UpdateOp>, doc: Doc)
    requires WellNamedAll(children) && FitsFields(false, children, doc) && Apply(children, ops).Some?
    requires forall i :: 0 <= i < |ops| ==> HasPaths(ops[i])
    requires SensibleList(cv, children, ops) && FreeThroughout(cv, doc, ops)
    ensures AllTracked(false, cv, children, ops, doc) && forall i :: 0 <= i < |ops| ==> NamesDistinct(ops[i])
    decreases |ops|
  {
    if ops != [] {
      SuitsCommutes(cv, children, ops[0], doc);
      OpCommutesIff(false, cv, children, ops[0], doc);
      OpWellNamed(children, ops[0]);
      SensibleIsTracked(cv, ApplyOp(children, ops[0]).value, ops[1..], ApplyDocOp(cv, doc, ops[0]).value);
      assert forall i :: 0 < i < |ops| ==> ops[i] == ops[1..][i - 1];
    }
  }

  /** Upgrade and migration commute on kinds: a sensible list takes every document of the old schema's kinds
      that is free for it to one of the new schema's kinds, and does not fail. */
  lemma SensibleListCommutes(cv: Converter, children: seq<Schema>, ops: seq<UpdateOp>, doc: Doc)
    requires WellNamedAll(children) && FitsFields(false, children, doc) && Apply(children, ops).Some?
    requires forall i :: 0 <= i < |ops| ==> HasPaths(ops[i])
    requires SensibleList(cv, children, ops) && FreeThroughout(cv, doc, ops)
    ensures ApplyToDocument(cv, doc, ops).Some?
    ensures FitsFields(false, Apply(children, ops).value, ApplyToDocument(cv, doc, ops).value)
  {
    SensibleIsTracked(cv, children, ops, doc);
    UpgradeCommutes(false, cv, children, ops, doc);
  }
}
