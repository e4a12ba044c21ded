/** The two readings of an update list agree: exactly which updates turn a document that fits the old schema
    into one that fits the new schema. */
module SchemaCommute {
  import opened Json
  import opened Schema
  import opened SchemaPatch

  /** The value has the entry's kind (or is null where that is allowed), and so have its fields and items,
      at every depth. In the full reading required fields are there, too; otherwise only kinds matter. */
  predicate Fits(full: bool, s: Schema, v: Json)
    decreases s, 1
  {
    || (v == Null && s.nullable)
    || (&& KindMatches(s.kind, v)
        && (s.kind == ObjectKind ==> FitsFields(full, s.children, v.fields))
        && (s.kind == ArrayKind && s.items.Some? ==> FitsItems(full, s.items.value, v.items)))
  }

  predicate FitsItems(full: bool, s: Schema, items: seq<Json>)
    decreases s, 2
  {
    forall i :: 0 <= i < |items| ==> Fits(full, s, items[i])
  }

  /** The entry's own field: it fits, or is absent and, in the full reading, not required. */
  predicate FitsIn(full: bool, s: Schema, fields: Doc)
    decreases s, 2
  {
    if s.name in fields then Fits(full, s, fields[s.name]) else full ==> !s.required
  }

  predicate FitsFields(full: bool, children: seq<Schema>, fields: Doc)
    decreases children, 0
  {
    forall i :: 0 <= i < |children| ==> FitsIn(full, children[i], fields)
  }

  /** Fits, except that a field of this name may be missing. */
  predicate FitsBut(full: bool, children: seq<Schema>, name: string, fields: Doc) {
    forall i :: 0 <= i < |children| ==>
      FitsIn(full, children[i], fields) || (children[i].name == name && name !in fields)
  }

  predicate WellNamedAll(children: seq<Schema>) {
    UniqueNames(children) && forall i :: 0 <= i < |children| ==> WellNamed(children[i])
  }

  // ----- edits keep names distinct

  lemma {:induction false} EditWellNamed(children: seq<Schema>, parent: seq<string>, e: Edit)
    requires WellNamedAll(children) && EditAt(children, parent, e).Some?
    requires !e.Drop? ==> WellNamed(e.child)
    ensures WellNamedAll(EditAt(children, parent, e).value)
    decreases parent
  {
    var out := EditAt(children, parent, e).value;
    if parent == [] {
      ApplyWellNamed(children, e);
    } else {
      var i := FindChild(children, parent[0]);
      EditWellNamed(children[i].children, parent[1..], e);
    }
  }

  lemma ApplyWellNamed(children: seq<Schema>, e: Edit)
    requires WellNamedAll(children) && ApplyEdit(children, e).Some?
    requires !e.Drop? ==> WellNamed(e.child)
    ensures WellNamedAll(ApplyEdit(children, e).value)
  {
    if e.Drop? {
      var out, i := ApplyEdit(children, e).value, FindChild(children, e.name);
      assert forall k :: 0 <= k < |out| ==> out[k] == if k < i then children[k] else children[k + 1];
    }
  }

  // ----- one edit against one change of the document

  /** Replacing one child and writing its field: only that field is left to check. */
  lemma ChildSet(full: bool, children: seq<Schema>, i: nat, c: Schema, fields: Doc, w: Json)
    requires UniqueNames(children) && i < |children| && c.name == children[i].name
    requires FitsBut(full, children, c.name, fields)
    ensures FitsFields(full, children[i := c], fields[c.name := w]) <==> Fits(full, c, w)
  {
    var out, now := children[i := c], fields[c.name := w];
    assert FitsIn(full, out[i], now) <==> Fits(full, c, w);
    forall k | 0 <= k < |out| && k != i
      ensures FitsIn(full, out[k], now)
    {
      assert children[k].name != children[i].name && FitsIn(full, children[k], fields);
    }
  }

  /** Replacing one child and leaving the document alone. */
  lemma ChildKept(full: bool, children: seq<Schema>, i: nat, c: Schema, fields: Doc)
    requires UniqueNames(children) && i < |children| && c.name == children[i].name && FitsFields(full, children, fields)
    ensures FitsFields(full, children[i := c], fields) <==> FitsIn(full, c, fields)
  {
    var out := children[i := c];
    assert out[i] == c;
    assert forall k :: 0 <= k < |out| && k != i ==> out[k] == children[k];
  }

  lemma ChildAppended(full: bool, children: seq<Schema>, c: Schema, fields: Doc)
    ensures FitsFields(full, children + [c], fields) <==> FitsFields(full, children, fields) && FitsIn(full, c, fields)
  {
    var out := children + [c];
    assert out[|children|] == c && forall k :: 0 <= k < |children| ==> out[k] == children[k];
  }

  /** The object below a field, or an empty one. */
  function Inner(fields: Doc, name: string): Doc {
    if HasObject(fields, name) then fields[name].fields else map[]
  }

  predicate HasObject(fields: Doc, name: string) {
    name in fields && fields[name].Obj?
  }

  lemma InnerFits(full: bool, children: seq<Schema>, i: nat, fields: Doc)
    requires i < |children| && children[i].kind == ObjectKind && HasObject(fields, children[i].name)
    requires FitsBut(full, children, children[i].name, fields)
    ensures FitsFields(full, children[i].children, fields[children[i].name].fields)
  {
    assert FitsIn(full, children[i], fields) && Fits(full, children[i], fields[children[i].name]);
  }

  /** Changing the children of one child and leaving the document alone: only the object there is left to
      check. */
  lemma ChildrenKept(full: bool, children: seq<Schema>, i: nat, cs: seq<Schema>, fields: Doc)
    requires UniqueNames(children) && i < |children| && FitsFields(full, children, fields)
    ensures FitsFields(full, children[i := children[i].(children := cs)], fields)
      <==> (children[i].kind == ObjectKind && HasObject(fields, children[i].name) ==>
              FitsFields(full, cs, fields[children[i].name].fields))
  {
    var c := children[i].(children := cs);
    ChildKept(full, children, i, c, fields);
    assert FitsIn(full, children[i], fields);
    if c.name in fields {
      assert Fits(full, children[i], fields[c.name]);
      assert FitsIn(full, c, fields) <==> Fits(full, c, fields[c.name]);
    }
  }

  /** Writing v below this parent, where the schema gets the entry c: an object on the way leads on, and one
      that has to be made must not lack other required fields; an entry of no checked kind takes anything;
      any other entry can hold no field. */
  predicate CanSet(full: bool, children: seq<Schema>, parent: seq<string>, c: Schema, fields: Doc, v: Json)
    decreases parent
  {
    if parent == [] then Fits(full, c, v)
    else
      var i := FindChild(children, parent[0]);
      i < |children| &&
      match children[i].kind
      case ObjectKind =>
        && (HasObject(fields, parent[0]) || FitsBut(full, children[i].children, (parent + [c.name])[1], map[]))
        && CanSet(full, children[i].children, parent[1..], c, Inner(fields, parent[0]), v)
      case OtherKind => true
      case _ => false
  }

  /** Leaving the document alone where the schema gets the entry c: if the parent object is there, the field
      fits or may be absent. */
  predicate CanKeep(full: bool, children: seq<Schema>, parent: seq<string>, c: Schema, fields: Doc)
    decreases parent
  {
    if parent == [] then FitsIn(full, c, fields)
    else
      var i := FindChild(children, parent[0]);
      i < |children| && children[i].kind == ObjectKind && HasObject(fields, parent[0]) ==>
        CanKeep(full, children[i].children, parent[1..], c, fields[parent[0]].fields)
  }

  /** An edit leaves the children off its path where they are. */
  lemma EditOthers(children: seq<Schema>, parent: seq<string>, e: Edit, k: nat)
    requires !e.Drop? && EditAt(children, parent, e).Some?
    requires k < |children| && children[k].name != (parent + [e.child.name])[0]
    ensures k < |EditAt(children, parent, e).value| && EditAt(children, parent, e).value[k] == children[k]
  {
  }

  /** An object made on the way that lacks a required field does not fit. */
  lemma Hollow(full: bool, below: seq<Schema>, parent: seq<string>, e: Edit, v: Json)
    requires !e.Drop? && EditAt(below, parent, e).Some? && !FitsBut(full, below, (parent + [e.child.name])[0], map[])
    ensures !FitsFields(full, EditAt(below, parent, e).value, SetAt(map[], parent + [e.child.name], v))
  {
    var path, out := parent + [e.child.name], EditAt(below, parent, e).value;
    var k :| 0 <= k < |below| && !(FitsIn(full, below[k], map[]) || below[k].name == path[0]);
    EditOthers(below, parent, e, k);
    assert below[k].name !in SetAt(map[], path, v);
    assert !FitsIn(full, out[k], SetAt(map[], path, v));
  }

  /** Append or put a child, and write a value. */
  lemma {:induction false} EditSetIff(full: bool, children: seq<Schema>, parent: seq<string>, e: Edit, fields: Doc,
                                      v: Json)
    requires WellNamedAll(children) && !e.Drop? && EditAt(children, parent, e).Some?
    requires FitsBut(full, children, (parent + [e.child.name])[0], fields)
    ensures FitsFields(full, EditAt(children, parent, e).value, SetAt(fields, parent + [e.child.name], v))
      <==> CanSet(full, children, parent, e.child, fields, v)
    decreases parent
  {
    var c, path := e.child, parent + [e.child.name];
    if parent == [] {
      SetAtTop(full, children, e, fields, v);
    } else {
      var i := FindChild(children, parent[0]);
      var below, inner := children[i].children, Inner(fields, parent[0]);
      assert path[1..] == parent[1..] + [c.name] && path[0] == parent[0];
      var cs, now := EditAt(below, parent[1..], e).value, SetAt(inner, path[1..], v);
      ChildSet(full, children, i, children[i].(children := cs), fields, Obj(now));
      if children[i].kind == ObjectKind {
        if HasObject(fields, parent[0]) {
          InnerFits(full, children, i, fields);
        }
        if HasObject(fields, parent[0]) || FitsBut(full, below, path[1], map[]) {
          EditSetIff(full, below, parent[1..], e, inner, v);
        } else {
          Hollow(full, below, parent[1..], e, v);
        }
      }
    }
  }

  lemma SetAtTop(full: bool, children: seq<Schema>, e: Edit, fields: Doc, v: Json)
    requires WellNamedAll(children) && !e.Drop? && ApplyEdit(children, e).Some?
    requires FitsBut(full, children, e.child.name, fields)
    ensures FitsFields(full, ApplyEdit(children, e).value, SetAt(fields, [e.child.name], v)) <==> Fits(full, e.child, v)
  {
    var c, now := e.child, fields[e.child.name := v];
    if e.Append? {
      forall k | 0 <= k < |children|
        ensures FitsIn(full, children[k], now)
      {
        assert FitsIn(full, children[k], fields) && children[k].name != c.name;
      }
      ChildAppended(full, children, c, now);
    } else {
      ChildSet(full, children, FindChild(children, c.name), c, fields, v);
    }
  }

  /** Append or put a child, and leave the document alone. */
  lemma {:induction false} EditKeepIff(full: bool, children: seq<Schema>, parent: seq<string>, e: Edit, fields: Doc)
    requires WellNamedAll(children) && FitsFields(full, children, fields)
    requires !e.Drop? && EditAt(children, parent, e).Some?
    ensures FitsFields(full, EditAt(children, parent, e).value, fields)
      <==> CanKeep(full, children, parent, e.child, fields)
    decreases parent
  {
    if parent == [] {
      if e.Append? {
        ChildAppended(full, children, e.child, fields);
      } else {
        ChildKept(full, children, FindChild(children, e.child.name), e.child, fields);
      }
    } else {
      var i := FindChild(children, parent[0]);
      if children[i].kind == ObjectKind && HasObject(fields, parent[0]) {
        InnerFits(full, children, i, fields);
        EditKeepIff(full, children[i].children, parent[1..], e, fields[parent[0]].fields);
      }
      ChildrenKept(full, children, i, EditAt(children[i].children, parent[1..], e).value, fields);
    }
  }

  /** Dropping a node asks less of the document. */
  lemma {:induction false} DropAndKeep(full: bool, children: seq<Schema>, parent: seq<string>, name: string,
                                       fields: Doc)
    requires WellNamedAll(children) && FitsFields(full, children, fields) && EditAt(children, parent, Drop(name)).Some?
    ensures FitsFields(full, EditAt(children, parent, Drop(name)).value, fields)
    decreases parent
  {
    var out := EditAt(children, parent, Drop(name)).value;
    if parent == [] {
      var i := FindChild(children, name);
      assert forall k :: 0 <= k < |out| ==> out[k] == if k < i then children[k] else children[k + 1];
    } else {
      var i := FindChild(children, parent[0]);
      if children[i].kind == ObjectKind && HasObject(fields, parent[0]) {
        InnerFits(full, children, i, fields);
        DropAndKeep(full, children[i].children, parent[1..], name, fields[parent[0]].fields);
      }
      ChildrenKept(full, children, i, out[i].children, fields);
    }
  }

  /** Removing a field the schema does not name keeps a document fitting. */
  lemma {:induction false} RemoveUntracked(full: bool, children: seq<Schema>, fields: Doc, path: seq<string>)
    requires path != [] && WellNamedAll(children) && FitsFields(full, children, fields) && NodeAt(children, path).None?
    ensures FitsFields(full, children, RemoveAt(fields, path))
    decreases path
  {
    var i, now := FindChild(children, path[0]), RemoveAt(fields, path);
    if |path| > 1 && i < |children| && HasObject(fields, path[0]) {
      assert FitsIn(full, children[i], fields) && Fits(full, children[i], fields[path[0]]);
      if children[i].kind == ObjectKind {
        RemoveUntracked(full, children[i].children, fields[path[0]].fields, path[1..]);
      }
      ChildSet(full, children, i, children[i], fields, now[path[0]]);
      assert children[i := children[i]] == children;
    } else {
      forall k | 0 <= k < |children|
        ensures FitsIn(full, children[k], now)
      {
        assert FitsIn(full, children[k], fields);
      }
    }
  }

  lemma {:induction false} RemovedIsGone(fields: Doc, path: seq<string>)
    requires path != []
    ensures GetAt(RemoveAt(fields, path), path) == None
    decreases path
  {
    if |path| > 1 && path[0] in fields && fields[path[0]].Obj? {
      RemovedIsGone(fields[path[0]].fields, path[1..]);
    }
  }

  lemma {:induction false} GetSet(doc: Doc, path: seq<string>, v: Json)
    requires path != []
    ensures GetAt(SetAt(doc, path, v), path) == Some(v)
    decreases path
  {
    if |path| > 1 {
      GetSet(Inner(doc, path[0]), path[1..], v);
    }
  }

  /** A name that can be appended is not there yet. */
  lemma {:induction false} AppendIsFresh(children: seq<Schema>, path: seq<string>, c: Schema)
    requires path != [] && c.name == Leaf(path) && EditAt(children, Parent(path), Append(c)).Some?
    ensures NodeAt(children, path).None?
    decreases path
  {
    if |path| > 1 {
      assert Parent(path)[0] == path[0] && Parent(path)[1..] == Parent(path[1..]);
      AppendIsFresh(children[FindChild(children, path[0])].children, path[1..], c);
    }
  }

  lemma {:induction false} DroppedIsGone(children: seq<Schema>, path: seq<string>)
    requires path != [] && WellNamedAll(children) && EditAt(children, Parent(path), Drop(Leaf(path))).Some?
    ensures NodeAt(EditAt(children, Parent(path), Drop(Leaf(path))).value, path).None?
    decreases path
  {
    var i := FindChild(children, path[0]);
    if |path| == 1 {
      var out := children[..i] + children[i + 1..];
      assert forall k :: 0 <= k < |out| ==> out[k] == if k < i then children[k] else children[k + 1];
    } else {
      assert Parent(path)[0] == path[0] && Parent(path)[1..] == Parent(path[1..]);
      DroppedIsGone(children[i].children, path[1..]);
      var out := EditAt(children, Parent(path), Drop(Leaf(path))).value;
      FindUpdated(children, i, out[i], path[0]);
    }
  }

  /** Dropping a node and removing its field. */
  lemma DropAndRemove(full: bool, children: seq<Schema>, path: seq<string>, fields: Doc)
    requires path != [] && WellNamedAll(children) && FitsFields(full, children, fields)
    requires EditAt(children, Parent(path), Drop(Leaf(path))).Some?
    ensures
      var without := EditAt(children, Parent(path), Drop(Leaf(path))).value;
      WellNamedAll(without) && FitsFields(full, without, fields) && FitsFields(full, without, RemoveAt(fields, path))
  {
    EditWellNamed(children, Parent(path), Drop(Leaf(path)));
    DropAndKeep(full, children, Parent(path), Leaf(path), fields);
    DroppedIsGone(children, path);
    RemoveUntracked(full, EditAt(children, Parent(path), Drop(Leaf(path))).value, fields, path);
  }

  /** Writing below a field that was there and that the schema does not name. */
  lemma {:induction false} SetBelowUntracked(full: bool, children: seq<Schema>, fields: Doc, from: seq<string>,
                                             path: seq<string>, v: Json)
    requires from != [] && from < path && WellNamedAll(children) && FitsFields(full, children, fields)
    requires NodeAt(children, from).None? && GetAt(fields, from).Some?
    ensures FitsFields(full, children, SetAt(RemoveAt(fields, from), path, v))
    decreases from
  {
    var i := FindChild(children, path[0]);
    var now := SetAt(RemoveAt(fields, from), path, v);
    assert path[0] == from[0];
    if i == |children| {
      forall k | 0 <= k < |children|
        ensures FitsIn(full, children[k], now)
      {
        assert FitsIn(full, children[k], fields) && children[k].name != path[0];
      }
    } else {
      assert FitsIn(full, children[i], fields) && Fits(full, children[i], fields[path[0]]);
      if children[i].kind == ObjectKind {
        SetBelowUntracked(full, children[i].children, fields[path[0]].fields, from[1..], path[1..], v);
      }
      ChildSet(full, children, i, children[i], fields, now[path[0]]);
      assert children[i := children[i]] == children && now == fields[path[0] := now[path[0]]];
    }
  }

  lemma {:induction false} NodeWellNamed(children: seq<Schema>, path: seq<string>)
    requires path != [] && WellNamedAll(children) && NodeAt(children, path).Some?
    ensures WellNamed(NodeAt(children, path).value) && NodeAt(children, path).value.name == Leaf(path)
    decreases path
  {
    var i := FindChild(children, path[0]);
    if |path| > 1 {
      assert WellNamed(children[i]);
      NodeWellNamed(children[i].children, path[1..]);
    }
  }

  /** Putting a node where it already is changes nothing. */
  lemma {:induction false} PutSame(children: seq<Schema>, path: seq<string>)
    requires path != [] && WellNamedAll(children) && NodeAt(children, path).Some?
    ensures EditAt(children, Parent(path), Put(NodeAt(children, path).value)) == Some(children)
    decreases path
  {
    NodeWellNamed(children, path);
    var i := FindChild(children, path[0]);
    if |path| > 1 {
      assert WellNamed(children[i]);
      assert Parent(path)[0] == path[0] && Parent(path)[1..] == Parent(path[1..]);
      PutSame(children[i].children, path[1..]);
      assert children[i := children[i]] == children;
    } else {
      assert Parent(path) == [] && children[i := children[i]] == children;
    }
  }

  lemma FindUpdated(children: seq<Schema>, d: nat, c: Schema, name: string)
    requires d < |children| && c.name == children[d].name
    ensures FindChild(children[d := c], name) == FindChild(children, name)
  {
    var out := children[d := c];
    assert forall k :: 0 <= k < |out| ==> out[k].name == children[k].name;
  }

  // ----- one update

  /** The schema the update appends or puts a node to: for a move, the one without the source. */
  function Base(children: seq<Schema>, op: UpdateOp): seq<Schema>
    requires HasPaths(op)
  {
    if op.op != Move then children
    else
      var from := FieldPath(op.from);
      var without := EditAt(children, Parent(from), Drop(Leaf(from)));
      if without.Some? then without.value else children
  }

  /** The node the schema has at the path of the update afterwards, if the update is about one. A node moved
      below itself is lost. */
  function Entry(children: seq<Schema>, op: UpdateOp): Option<Schema>
    requires HasPaths(op)
  {
    var path, from := FieldPath(op.path), FieldPath(op.from);
    match op.op
    case Remove => None
    case Abandon => None
    case Replace => NodeAt(children, path)
    case Move => if NodeAt(children, from).None? || from <= Parent(path) then None
      else Some(Named(NodeAt(children, from).value, Leaf(path)))
    case Copy => if NodeAt(children, from).None? then None else Some(Named(NodeAt(children, from).value, Leaf(path)))
    case _ => if op.schema.None? then None else Some(Named(op.schema.value, Leaf(path)))
  }

  /** An import keeps what is there when its top-level kind is the declared one. */
  predicate Imported(op: UpdateOp, doc: Doc)
    requires HasPaths(op)
  {
    var existing := GetAt(doc, FieldPath(op.path));
    existing.Some? && (op.schema.None? || KindMatches(op.schema.value.kind, existing.value))
  }

  /** The value the update writes at its path, if it writes one. */
  function Written(cv: Converter, doc: Doc, op: UpdateOp): Option<Json>
    requires HasPaths(op)
  {
    var current := GetAt(doc, FieldPath(op.path));
    match op.op
    case Add => FillValue(op.value, op.schema, op.failover)
    case Import => if Imported(op, doc) then None else FillValue(op.value, op.schema, op.failover)
    case Remove => None
    case Abandon => None
    case Replace => op.value
    case Move => GetAt(doc, FieldPath(op.from))
    case Copy => GetAt(doc, FieldPath(op.from))
    case Convert => if op.value.Some? then op.value
      else if current.None? then FillValue(None, op.schema, op.failover)
      else Some(ConvertKind(cv, current.value, if op.schema.Some? then op.schema.value.kind else OtherKind))
  }

  /** The document just before that write. */
  function Rest(cv: Converter, doc: Doc, op: UpdateOp): Doc
    requires HasPaths(op)
  {
    var path, from := FieldPath(op.path), FieldPath(op.from);
    var nothing := Written(cv, doc, op).None?;
    match op.op
    case Add => if nothing then RemoveAt(doc, path) else doc
    case Import =>
      if Imported(op, doc) then doc
      else
        var base := if GetAt(doc, path).Some? then RemoveAt(doc, path) else doc;
        if nothing then RemoveAt(base, path) else base
    case Remove => RemoveAt(doc, path)
    case Move => if nothing then doc else RemoveAt(doc, from)
    case _ => doc
  }

  /** The document tracks the update: it does not fail, and what it writes or leaves at its path fits there. */
  predicate Tracked(full: bool, cv: Converter, children: seq<Schema>, op: UpdateOp, doc: Doc)
    requires HasPaths(op)
  {
    var entry, rest, written := Entry(children, op), Rest(cv, doc, op), Written(cv, doc, op);
    var parent := Parent(FieldPath(op.path));
    && (op.op == Replace ==> op.value.Some?)
    && (entry.Some? && written.Some? ==> CanSet(full, Base(children, op), parent, entry.value, rest, written.value))
    && (entry.Some? && written.None? ==> CanKeep(full, Base(children, op), parent, entry.value, rest))
  }

  lemma DocOpIsWrite(cv: Converter, doc: Doc, op: UpdateOp)
    requires HasPaths(op)
    ensures ApplyDocOp(cv, doc, op).None? <==> op.op == Replace && op.value.None?
    ensures ApplyDocOp(cv, doc, op).Some? ==>
      ApplyDocOp(cv, doc, op).value ==
        if Written(cv, doc, op).None? then Rest(cv, doc, op)
        else SetAt(Rest(cv, doc, op), FieldPath(op.path), Written(cv, doc, op).value)
  {
  }

  /** The schema side is one edit at the path of the update. */
  lemma OpIsEdit(children: seq<Schema>, op: UpdateOp)
    requires WellNamedAll(children) && HasPaths(op) && ApplyOp(children, op).Some? && Entry(children, op).Some?
    ensures Entry(children, op).value.name == Leaf(FieldPath(op.path))
    ensures
      var c, parent := Entry(children, op).value, Parent(FieldPath(op.path));
      var e := if op.op == Replace || op.op == Convert then Put(c) else Append(c);
      EditAt(Base(children, op), parent, e) == ApplyOp(children, op)
  {
    if op.op == Replace {
      NodeWellNamed(children, FieldPath(op.path));
      PutSame(children, FieldPath(op.path));
    }
  }

  /** Removing a field that the schema is about to get, once or twice. */
  lemma RemoveFresh(full: bool, children: seq<Schema>, path: seq<string>, c: Schema, doc: Doc)
    requires path != [] && WellNamedAll(children) && FitsFields(full, children, doc)
    requires c.name == Leaf(path) && EditAt(children, Parent(path), Append(c)).Some?
    ensures FitsFields(full, children, RemoveAt(doc, path))
    ensures FitsFields(full, children, RemoveAt(RemoveAt(doc, path), path))
  {
    AppendIsFresh(children, path, c);
    RemoveUntracked(full, children, doc, path);
    RemoveUntracked(full, children, RemoveAt(doc, path), path);
  }

  /** Before the write, the document fits the schema without the new node. */
  lemma RestFits(full: bool, cv: Converter, children: seq<Schema>, op: UpdateOp, doc: Doc)
    requires WellNamedAll(children) && FitsFields(full, children, doc)
    requires HasPaths(op) && ApplyOp(children, op).Some? && Entry(children, op).Some?
    ensures WellNamedAll(Base(children, op)) && FitsFields(full, Base(children, op), Rest(cv, doc, op))
  {
    var path := FieldPath(op.path);
    match op.op
    case Add => RemoveFresh(full, children, path, Entry(children, op).value, doc);
    case Import => RemoveFresh(full, children, path, Entry(children, op).value, doc);
    case Move => DropAndRemove(full, children, FieldPath(op.from), doc);
    case _ =>
  }

  /** Nothing at the path of the update is in the schema afterwards. */
  lemma WithoutEntry(full: bool, cv: Converter, children: seq<Schema>, op: UpdateOp, doc: Doc)
    requires WellNamedAll(children) && FitsFields(full, children, doc)
    requires HasPaths(op) && ApplyOp(children, op).Some? && Entry(children, op).None?
    ensures Commutes(full, cv, children, op, doc)
  {
    var path, from := FieldPath(op.path), FieldPath(op.from);
    if op.op == Move {
      DropAndRemove(full, children, from, doc);
      DroppedIsGone(children, from);
      if GetAt(doc, from).Some? {
        assert from < path;
        SetBelowUntracked(full, ApplyOp(children, op).value, doc, from, path, GetAt(doc, from).value);
      }
    } else {
      DropAndRemove(full, children, path, doc);
    }
  }

  /** The update succeeds on the document, and the result fits the updated schema. */
  predicate Commutes(full: bool, cv: Converter, children: seq<Schema>, op: UpdateOp, doc: Doc)
    requires HasPaths(op) && ApplyOp(children, op).Some?
  {
    ApplyDocOp(cv, doc, op).Some? && FitsFields(full, ApplyOp(children, op).value, ApplyDocOp(cv, doc, op).value)
  }

  /** One update the schema side accepts: the document side succeeds with a document that fits the updated
      schema if and only if the document tracks the update. */
  lemma OpCommutesIff(full: bool, cv: Converter, children: seq<Schema>, op: UpdateOp, doc: Doc)
    requires WellNamedAll(children) && FitsFields(full, children, doc) && HasPaths(op) && ApplyOp(children, op).Some?
    ensures Commutes(full, cv, children, op, doc) <==> Tracked(full, cv, children, op, doc)
  {
    DocOpIsWrite(cv, doc, op);
    if Entry(children, op).None? {
      WithoutEntry(full, cv, children, op, doc);
    } else {
      OpIsEdit(children, op);
      RestFits(full, cv, children, op, doc);
      WriteIff(full, Base(children, op), op, Entry(children, op).value, Rest(cv, doc, op), Written(cv, doc, op));
    }
  }

  lemma WriteIff(full: bool, base: seq<Schema>, op: UpdateOp, c: Schema, rest: Doc, written: Option<Json>)
    requires WellNamedAll(base) && FitsFields(full, base, rest) && HasPaths(op) && c.name == Leaf(FieldPath(op.path))
    ensures
      var path := FieldPath(op.path);
      var out := EditAt(base, Parent(path), if op.op == Replace || op.op == Convert then Put(c) else Append(c));
      out.Some? ==>
        (FitsFields(full, out.value, if written.Some? then SetAt(rest, path, written.value) else rest) <==>
         if written.Some? then CanSet(full, base, Parent(path), c, rest, written.value)
         else CanKeep(full, base, Parent(path), c, rest))
  {
    var path := FieldPath(op.path);
    var e := if op.op == Replace || op.op == Convert then Put(c) else Append(c);
    assert Parent(path) + [c.name] == path;
    if EditAt(base, Parent(path), e).Some? {
      if written.Some? {
        EditSetIff(full, base, Parent(path), e, rest, written.value);
      } else {
        EditKeepIff(full, base, Parent(path), e, rest);
      }
    }
  }

  /** The supplied schema has distinct sibling names. */
  predicate NamesDistinct(op: UpdateOp) {
    op.schema.Some? ==> WellNamed(op.schema.value)
  }

  lemma OpWellNamed(children: seq<Schema>, op: UpdateOp)
    requires WellNamedAll(children) && HasPaths(op) && NamesDistinct(op) && ApplyOp(children, op).Some?
    ensures WellNamedAll(ApplyOp(children, op).value)
  {
    var path, from := FieldPath(op.path), FieldPath(op.from);
    match op.op
    case Remove => EditWellNamed(children, Parent(path), Drop(Leaf(path)));
    case Abandon => EditWellNamed(children, Parent(path), Drop(Leaf(path)));
    case Replace =>
    case Convert => EditWellNamed(children, Parent(path), Put(Entry(children, op).value));
    case Move =>
      EditWellNamed(children, Parent(from), Drop(Leaf(from)));
      NodeWellNamed(children, from);
      if !(from <= Parent(path)) {
        EditWellNamed(Base(children, op), Parent(path), Append(Entry(children, op).value));
      }
    case Copy =>
      NodeWellNamed(children, from);
      EditWellNamed(children, Parent(path), Append(Entry(children, op).value));
    case _ => EditWellNamed(children, Parent(path), Append(Entry(children, op).value));
  }

  // ----- whole update lists

  function ApplyToDocument(cv: Converter, doc: Doc, ops: seq<UpdateOp>): Option<Doc>
    requires forall i :: 0 <= i < |ops| ==> HasPaths(ops[i])
    decreases |ops|
  {
    if ops == [] then Some(doc)
    else
      assert HasPaths(ops[0]);
      match ApplyDocOp(cv, doc, ops[0])
      case None => None
      case Some(next) => ApplyToDocument(cv, next, ops[1..])
  }

  method MigrateByList(cv: Converter, doc: Doc, ops: seq<UpdateOp>) returns (r: Option<Doc>)
    requires forall i :: 0 <= i < |ops| ==> HasPaths(ops[i])
    ensures r == ApplyToDocument(cv, doc, ops)
  {
    var cur := doc;
    for i := 0 to |ops|
      invariant ApplyToDocument(cv, cur, ops[i..]) == ApplyToDocument(cv, doc, ops)
    {
      assert ops[i..][0] == ops[i] && ops[i..][1..] == ops[i + 1..];
      var next := ApplyDocOp(cv, cur, ops[i]);
      if next.None? {
        return None;
      }
      cur := next.value;
    }
    return Some(cur);
  }

  /** A replace without a value, which the schema side accepts. */
  predicate Valueless(op: UpdateOp) {
    op.op == Replace && op.value.None?
  }

  predicate HasValueless(ops: seq<UpdateOp>) {
    exists i :: 0 <= i < |ops| && Valueless(ops[i])
  }

  lemma ValuelessStep(ops: seq<UpdateOp>)
    requires ops != []
    ensures HasValueless(ops) <==> Valueless(ops[0]) || HasValueless(ops[1..])
  {
    var rest := ops[1..];
    if i :| 0 <= i < |rest| && Valueless(rest[i]) {
      assert Valueless(ops[i + 1]);
    }
    if i :| 0 < i < |ops| && Valueless(ops[i]) {
      assert Valueless(rest[i - 1]);
    }
  }

  /** An update list fails on a document if and only if it has a replace without a value; so it fails on
      every document or on none. */
  lemma {:induction false} ListFailsIff(cv: Converter, doc: Doc, ops: seq<UpdateOp>)
    requires forall i :: 0 <= i < |ops| ==> HasPaths(ops[i])
    ensures ApplyToDocument(cv, doc, ops).None? <==> HasValueless(ops)
    decreases |ops|
  {
    if ops != [] {
      DocOpIsWrite(cv, doc, ops[0]);
      ValuelessStep(ops);
      if ApplyDocOp(cv, doc, ops[0]).Some? {
        ListFailsIff(cv, ApplyDocOp(cv, doc, ops[0]).value, ops[1..]);
      }
    }
  }

  /** The document tracks each update in turn. */
  predicate AllTracked(full: bool, cv: Converter, children: seq<Schema>, ops: seq<UpdateOp>, doc: Doc)
    requires forall i :: 0 <= i < |ops| ==> HasPaths(ops[i])
    decreases |ops|
  {
    ops == [] ||
    (assert HasPaths(ops[0]);
     && Tracked(full, cv, children, ops[0], doc)
     && (ApplyOp(children, ops[0]).Some? && ApplyDocOp(cv, doc, ops[0]).Some? ==>
           AllTracked(full, cv, ApplyOp(children, ops[0]).value, ops[1..], ApplyDocOp(cv, doc, ops[0]).value)))
  }

  /** No update of the list fails, and after each the document fits the schema as it then is. */
  predicate FitsThroughout(full: bool, cv: Converter, children: seq<Schema>, ops: seq<UpdateOp>, doc: Doc)
    requires forall i :: 0 <= i < |ops| ==> HasPaths(ops[i])
    decreases |ops|
  {
    FitsFields(full, children, doc) &&
    (ops != [] && ApplyOp(children, ops[0]).Some? ==>
       assert HasPaths(ops[0]);
       ApplyDocOp(cv, doc, ops[0]).Some? &&
       FitsThroughout(full, cv, ApplyOp(children, ops[0]).value, ops[1..], ApplyDocOp(cv, doc, ops[0]).value))
  }

  /** Schema upgrade and document migration commute, for every list the schema side accepts: the document
      fits after every update if and only if it tracks each of them; and then the migration does not fail
      and ends in a document that fits the upgraded schema. */
  lemma {:induction false} UpgradeCommutes(full: bool, cv: Converter, children: seq<Schema>, ops: seq<UpdateOp>,
                                           doc: Doc)
    requires WellNamedAll(children) && FitsFields(full, children, doc) && Apply(children, ops).Some?
    requires forall i :: 0 <= i < |ops| ==> HasPaths(ops[i]) && NamesDistinct(ops[i])
    ensures WellNamedAll(Apply(children, ops).value)
    ensures FitsThroughout(full, cv, children, ops, doc) <==> AllTracked(full, cv, children, ops, doc)
    ensures AllTracked(full, cv, children, ops, doc) ==>
      && ApplyToDocument(cv, doc, ops).Some?
      && FitsFields(full, Apply(children, ops).value, ApplyToDocument(cv, doc, ops).value)
    decreases |ops|
  {
    if ops != [] {
      var next := ApplyOp(children, ops[0]).value;
      OpCommutesIff(full, cv, children, ops[0], doc);
      OpWellNamed(children, ops[0]);
      if Tracked(full, cv, children, ops[0], doc) {
        UpgradeCommutes(full, cv, next, ops[1..], ApplyDocOp(cv, doc, ops[0]).value);
      } else {
        NamesKept(next, ops[1..]);
        if ApplyDocOp(cv, doc, ops[0]).Some? {
          assert !FitsFields(full, next, ApplyDocOp(cv, doc, ops[0]).value);
        }
      }
    }
  }

  lemma {:induction false} NamesKept(children: seq<Schema>, ops: seq<UpdateOp>)
    requires WellNamedAll(children) && Apply(children, ops).Some?
    requires forall i :: 0 <= i < |ops| ==> HasPaths(ops[i]) && NamesDistinct(ops[i])
    ensures WellNamedAll(Apply(children, ops).value)
    decreases |ops|
  {
    if ops != [] {
      OpWellNamed(children, ops[0]);
      NamesKept(ApplyOp(children, ops[0]).value, ops[1..]);
    }
  }
}
