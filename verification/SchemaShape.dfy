/** internal/schemapatch/apply.go: when the schema side accepts an update, and the tree it leaves: the node at
    the path, its place among its siblings, and everything else as it was. */
module SchemaShape {
  import opened Json
  import opened Schema
  import opened SchemaPatch
  import opened SchemaCommute

  /** Neither path leads through the other. */
  predicate Apart(p: seq<string>, q: seq<string>) {
    !(p <= q) && !(q <= p)
  }

  lemma ApartStep(p: seq<string>, q: seq<string>)
    requires p != [] && q != [] && Apart(p, q)
    ensures p[0] == q[0] ==> |p| > 1 && |q| > 1 && Apart(p[1..], q[1..])
  {
    if p[0] == q[0] {
      assert p == [p[0]] + p[1..] && q == [q[0]] + q[1..];
    }
  }

  /** The children of the node at a path; of the root for the empty path. */
  function ChildrenAt(children: seq<Schema>, path: seq<string>): Option<seq<Schema>> {
    if path == [] then Some(children)
    else match NodeAt(children, path) case None => None case Some(node) => Some(node.children)
  }

  function EditName(e: Edit): string {
    if e.Drop? then e.name else e.child.name
  }

  lemma StepInto(children: seq<Schema>, path: seq<string>)
    requires path != []
    ensures
      var i := FindChild(children, path[0]);
      ChildrenAt(children, path) == if i == |children| then None else ChildrenAt(children[i].children, path[1..])
  {
  }

  /** An edit needs its parent to be there, and its name to be new for an append and known otherwise. */
  lemma {:induction false} EditSucceedsIff(children: seq<Schema>, parent: seq<string>, e: Edit)
    ensures EditAt(children, parent, e).Some? <==>
      && ChildrenAt(children, parent).Some?
      && (NodeAt(children, parent + [EditName(e)]).Some? <==> !e.Append?)
    decreases parent
  {
    var path := parent + [EditName(e)];
    if parent != [] {
      StepInto(children, parent);
      assert path[0] == parent[0] && path[1..] == parent[1..] + [EditName(e)];
      var i := FindChild(children, parent[0]);
      if i < |children| {
        EditSucceedsIff(children[i].children, parent[1..], e);
      }
    }
  }

  /** The siblings afterwards: the appended one last, the dropped one gone, the put one in its old place. */
  predicate Siblings(was: seq<Schema>, e: Edit, now: seq<Schema>) {
    match e
    case Append(c) => now == was + [c]
    case Drop(name) => exists i :: 0 <= i < |was| && was[i].name == name && now == was[..i] + was[i + 1..]
    case Put(c) => exists i :: 0 <= i < |was| && was[i].name == c.name && now == was[i := c]
  }

  lemma {:induction false} SiblingsAfter(children: seq<Schema>, parent: seq<string>, e: Edit)
    requires EditAt(children, parent, e).Some?
    ensures
      var out := EditAt(children, parent, e).value;
      && ChildrenAt(children, parent).Some? && ChildrenAt(out, parent).Some?
      && Siblings(ChildrenAt(children, parent).value, e, ChildrenAt(out, parent).value)
    decreases parent
  {
    var out := EditAt(children, parent, e).value;
    if parent == [] {
      if !e.Append? {
        assert children[FindChild(children, EditName(e))].name == EditName(e);
      }
    } else {
      var i := FindChild(children, parent[0]);
      SiblingsAfter(children[i].children, parent[1..], e);
      FindUpdated(children, i, out[i], parent[0]);
      StepInto(children, parent);
      StepInto(out, parent);
    }
  }

  /** A path apart from the edited one leads to the same node as before. */
  lemma {:induction false} EditElsewhere(children: seq<Schema>, parent: seq<string>, e: Edit, q: seq<string>)
    requires EditAt(children, parent, e).Some? && q != [] && Apart(parent + [EditName(e)], q)
    ensures NodeAt(EditAt(children, parent, e).value, q) == NodeAt(children, q)
    decreases parent
  {
    var path, out := parent + [EditName(e)], EditAt(children, parent, e).value;
    ApartStep(path, q);
    if parent == [] {
      assert path == [EditName(e)] && q[0] != EditName(e);
      FindOther(children, e, q[0]);
    } else {
      var i := FindChild(children, parent[0]);
      FindUpdated(children, i, out[i], q[0]);
      if q[0] == parent[0] {
        assert path[1..] == parent[1..] + [EditName(e)];
        EditElsewhere(children[i].children, parent[1..], e, q[1..]);
      }
    }
  }

  /** An edit of one name leaves the first child of another name where a lookup finds it. */
  lemma FindOther(children: seq<Schema>, e: Edit, name: string)
    requires ApplyEdit(children, e).Some? && name != EditName(e)
    ensures
      var out := ApplyEdit(children, e).value;
      var i, k := FindChild(children, name), FindChild(out, name);
      (i == |children| <==> k == |out|) && (i < |children| ==> out[k] == children[i])
  {
    match e
    case Append(c) => FindBesideAppended(children, c, name);
    case Put(c) => FindUpdated(children, FindChild(children, c.name), c, name);
    case Drop(dropped) => FindBesideDropped(children, FindChild(children, dropped), name);
  }

  lemma FindBesideAppended(children: seq<Schema>, c: Schema, name: string)
    requires name != c.name
    ensures
      var out, i := children + [c], FindChild(children, name);
      var k := FindChild(out, name);
      (i == |children| <==> k == |out|) && (i < |children| ==> out[k] == children[i])
  {
    var out, i := children + [c], FindChild(children, name);
    assert forall k :: 0 <= k < |children| ==> out[k] == children[k];
    if i < |children| {
      FirstAt(out, i, name);
    }
  }

  lemma FindBesideDropped(children: seq<Schema>, d: nat, name: string)
    requires d < |children| && children[d].name != name
    ensures
      var out, i := children[..d] + children[d + 1..], FindChild(children, name);
      var k := FindChild(out, name);
      (i == |children| <==> k == |out|) && (i < |children| ==> out[k] == children[i])
  {
    var out, i := children[..d] + children[d + 1..], FindChild(children, name);
    assert forall k :: 0 <= k < |out| ==> out[k] == if k < d then children[k] else children[k + 1];
    if i < |children| {
      FirstAt(out, if i < d then i else i - 1, name);
    }
  }

  lemma FirstAt(children: seq<Schema>, i: nat, name: string)
    requires i < |children| && children[i].name == name && forall j :: 0 <= j < i ==> children[j].name != name
    ensures FindChild(children, name) == i
  {
  }

  /** A node above the edited one only changes in its children. */
  lemma {:induction false} EditAbove(children: seq<Schema>, parent: seq<string>, e: Edit, q: seq<string>)
    requires EditAt(children, parent, e).Some? && q != [] && q <= parent
    ensures
      var was, now := NodeAt(children, q), NodeAt(EditAt(children, parent, e).value, q);
      was.Some? && now.Some? && now.value == was.value.(children := now.value.children)
    decreases parent
  {
    var out := EditAt(children, parent, e).value;
    var i := FindChild(children, parent[0]);
    FindUpdated(children, i, out[i], q[0]);
    if |q| > 1 {
      EditAbove(children[i].children, parent[1..], e, q[1..]);
    }
  }

  // ----- the updates

  /** A new node can be made at the path: its parent is there and it is not. */
  predicate Room(children: seq<Schema>, path: seq<string>)
    requires path != []
  {
    ChildrenAt(children, Parent(path)).Some? && NodeAt(children, path).None?
  }

  lemma RoomIff(children: seq<Schema>, path: seq<string>, c: Schema)
    requires path != [] && c.name == Leaf(path)
    ensures EditAt(children, Parent(path), Append(c)).Some? <==> Room(children, path)
  {
    assert Parent(path) + [Leaf(path)] == path;
    EditSucceedsIff(children, Parent(path), Append(c));
  }

  lemma KnownIff(children: seq<Schema>, path: seq<string>, e: Edit)
    requires path != [] && EditName(e) == Leaf(path) && !e.Append?
    ensures EditAt(children, Parent(path), e).Some? <==> NodeAt(children, path).Some?
  {
    assert Parent(path) + [Leaf(path)] == path;
    EditSucceedsIff(children, Parent(path), e);
    if NodeAt(children, path).Some? {
      NodeHasParent(children, path);
    }
  }

  lemma {:induction false} NodeHasParent(children: seq<Schema>, path: seq<string>)
    requires path != [] && NodeAt(children, path).Some?
    ensures ChildrenAt(children, Parent(path)).Some?
    decreases path
  {
    if |path| > 1 {
      assert Parent(path)[0] == path[0] && Parent(path)[1..] == Parent(path[1..]);
      StepInto(children, Parent(path));
      NodeHasParent(children[FindChild(children, path[0])].children, path[1..]);
    }
  }

  /** Taking a node out leaves room at a path that is not below it. */
  lemma RoomAfterDrop(children: seq<Schema>, from: seq<string>, path: seq<string>)
    requires from != [] && path != [] && NodeAt(children, from).Some? && Room(children, path)
    requires !(from <= Parent(path)) && EditAt(children, Parent(from), Drop(Leaf(from))).Some?
    ensures Room(EditAt(children, Parent(from), Drop(Leaf(from))).value, path)
  {
    var without, e := EditAt(children, Parent(from), Drop(Leaf(from))).value, Drop(Leaf(from));
    assert Parent(from) + [Leaf(from)] == from && Parent(path) + [Leaf(path)] == path;
    NotAbove(children, from, path);
    EditElsewhere(children, Parent(from), e, path);
    var up := Parent(path);
    if up != [] {
      if up <= from {
        assert up <= Parent(from);
        EditAbove(children, Parent(from), e, up);
      } else {
        EditElsewhere(children, Parent(from), e, up);
      }
    }
  }

  lemma NotAbove(children: seq<Schema>, from: seq<string>, path: seq<string>)
    requires from != [] && path != [] && NodeAt(children, from).Some? && NodeAt(children, path).None?
    requires !(from <= Parent(path))
    ensures Apart(from, path)
  {
    if path <= from {
      AboveIsThere(children, path, from);
    }
  }

  lemma {:induction false} AboveIsThere(children: seq<Schema>, path: seq<string>, from: seq<string>)
    requires path != [] && path <= from && NodeAt(children, from).Some?
    ensures NodeAt(children, path).Some?
    decreases path
  {
    if |path| > 1 {
      AboveIsThere(children[FindChild(children, path[0])].children, path[1..], from[1..]);
    }
  }

  /** The schema side accepts an add or import of a given schema where there is room; a remove, abandon or replace
      of a node that is there; a convert of such a node to a given schema; a move or copy of such a node to where
      there is room. */
  lemma SchemaAcceptsIff(children: seq<Schema>, op: UpdateOp)
    requires HasPaths(op)
    ensures
      var path, from := FieldPath(op.path), FieldPath(op.from);
      ApplyOp(children, op).Some? <==>
        match op.op
        case Add => op.schema.Some? && Room(children, path)
        case Import => op.schema.Some? && Room(children, path)
        case Convert => op.schema.Some? && NodeAt(children, path).Some?
        case Move => NodeAt(children, from).Some? && Room(children, path)
        case Copy => NodeAt(children, from).Some? && Room(children, path)
        case _ => NodeAt(children, path).Some?
  {
    var path, from := FieldPath(op.path), FieldPath(op.from);
    match op.op
    case Move =>
      if NodeAt(children, from).Some? {
        var c := Named(NodeAt(children, from).value, Leaf(path));
        RoomIff(children, path, c);
        KnownIff(children, from, Drop(Leaf(from)));
        if Room(children, path) && !(from <= Parent(path)) {
          RoomAfterDrop(children, from, path);
          RoomIff(EditAt(children, Parent(from), Drop(Leaf(from))).value, path, c);
        }
      }
    case Copy =>
      if NodeAt(children, from).Some? {
        RoomIff(children, path, Named(NodeAt(children, from).value, Leaf(path)));
      }
    case Replace =>
    case Remove => KnownIff(children, path, Drop(Leaf(path)));
    case Abandon => KnownIff(children, path, Drop(Leaf(path)));
    case Convert =>
      if op.schema.Some? {
        KnownIff(children, path, Put(Named(op.schema.value, Leaf(path))));
      }
    case _ =>
      if op.schema.Some? {
        RoomIff(children, path, Named(op.schema.value, Leaf(path)));
      }
  }

  /** The edit at the path of the update, if its schema changes there. */
  function EditOf(children: seq<Schema>, op: UpdateOp): Option<Edit>
    requires HasPaths(op)
  {
    var path, from := FieldPath(op.path), FieldPath(op.from);
    match op.op
    case Remove => Some(Drop(Leaf(path)))
    case Abandon => Some(Drop(Leaf(path)))
    case Replace => None
    case Convert => if op.schema.None? then None else Some(Put(op.schema.value.(name := Leaf(path))))
    case Copy => if NodeAt(children, from).None? then None
      else Some(Append(NodeAt(children, from).value.(name := Leaf(path))))
    case Move => if NodeAt(children, from).None? then None
      else Some(Append(NodeAt(children, from).value.(name := Leaf(path))))
    case _ => if op.schema.None? then None else Some(Append(op.schema.value.(name := Leaf(path))))
  }

  /** The tree an update leaves. Among the siblings at its path an added, imported, moved or copied node comes last,
      a converted one stays in its place and a removed or abandoned one is gone; a moved node is gone from its
      source, and a move below itself is only that; a replace leaves the tree alone; and every path apart from those
      the update names leads to the same node as before. */
  lemma SchemaAfter(children: seq<Schema>, op: UpdateOp, q: seq<string>)
    requires HasPaths(op) && ApplyOp(children, op).Some? && WellNamedAll(children)
    ensures
      var out, path, from := ApplyOp(children, op).value, FieldPath(op.path), FieldPath(op.from);
      && (op.op == Replace ==> out == children)
      && (op.op != Replace && op.op != Move ==>
            && ChildrenAt(children, Parent(path)).Some? && ChildrenAt(out, Parent(path)).Some?
            && EditOf(children, op).Some?
            && Siblings(ChildrenAt(children, Parent(path)).value, EditOf(children, op).value,
                        ChildrenAt(out, Parent(path)).value))
      && (op.op == Move ==> Moved(children, out, from, path))
      && (q != [] && Apart(path, q) && (op.op == Move ==> Apart(from, q)) ==> NodeAt(out, q) == NodeAt(children, q))
  {
    var path := FieldPath(op.path);
    assert Parent(path) + [Leaf(path)] == path;
    if op.op == Move {
      MoveShape(children, op, q);
    } else if op.op != Replace {
      var e := EditOf(children, op).value;
      SiblingsAfter(children, Parent(path), e);
      if q != [] && Apart(path, q) {
        EditElsewhere(children, Parent(path), e, q);
      }
    }
  }

  /** The node has left its old place and stands under its new name at its new one, unless that lay below it. */
  predicate Moved(children: seq<Schema>, out: seq<Schema>, from: seq<string>, path: seq<string>)
    requires from != [] && path != []
  {
    && NodeAt(children, from).Some? && NodeAt(out, from).None?
    && (!(from <= Parent(path)) ==>
          && NodeAt(out, path) == Some(NodeAt(children, from).value.(name := Leaf(path)))
          && ChildrenAt(out, Parent(path)).Some? && |ChildrenAt(out, Parent(path)).value| > 0
          && var now := ChildrenAt(out, Parent(path)).value;
             now[|now| - 1] == NodeAt(children, from).value.(name := Leaf(path)))
  }

  lemma MoveShape(children: seq<Schema>, op: UpdateOp, q: seq<string>)
    requires op.op == Move && HasPaths(op) && ApplyOp(children, op).Some? && WellNamedAll(children)
    ensures
      var out, path, from := ApplyOp(children, op).value, FieldPath(op.path), FieldPath(op.from);
      && Moved(children, out, from, path)
      && (q != [] && Apart(path, q) && Apart(from, q) ==> NodeAt(out, q) == NodeAt(children, q))
  {
    var path, from := FieldPath(op.path), FieldPath(op.from);
    SchemaAcceptsIff(children, op);
    if from <= Parent(path) {
      TakenOut(children, from, q);
    } else {
      Carried(children, from, path, q);
    }
  }

  lemma TakenOut(children: seq<Schema>, from: seq<string>, q: seq<string>)
    requires from != [] && WellNamedAll(children) && EditAt(children, Parent(from), Drop(Leaf(from))).Some?
    ensures
      var without := EditAt(children, Parent(from), Drop(Leaf(from))).value;
      NodeAt(without, from).None? && (q != [] && Apart(from, q) ==> NodeAt(without, q) == NodeAt(children, q))
  {
    DroppedIsGone(children, from);
    if q != [] && Apart(from, q) {
      ElsewhereAt(children, from, Drop(Leaf(from)), q);
    }
  }

  lemma Carried(children: seq<Schema>, from: seq<string>, path: seq<string>, q: seq<string>)
    requires from != [] && path != [] && WellNamedAll(children) && !(from <= Parent(path))
    requires NodeAt(children, from).Some? && NodeAt(children, path).None?
    requires EditAt(children, Parent(from), Drop(Leaf(from))).Some?
    requires
      var without := EditAt(children, Parent(from), Drop(Leaf(from))).value;
      EditAt(without, Parent(path), Append(Named(NodeAt(children, from).value, Leaf(path)))).Some?
    ensures
      var without := EditAt(children, Parent(from), Drop(Leaf(from))).value;
      var out := EditAt(without, Parent(path), Append(Named(NodeAt(children, from).value, Leaf(path)))).value;
      && Moved(children, out, from, path)
      && (q != [] && Apart(path, q) && Apart(from, q) ==> NodeAt(out, q) == NodeAt(children, q))
  {
    var without := EditAt(children, Parent(from), Drop(Leaf(from))).value;
    TakenOut(children, from, q);
    NotAbove(children, from, path);
    PutBack(without, from, path, Named(NodeAt(children, from).value, Leaf(path)), q);
  }

  /** The node taken out, appended at its new place. */
  lemma PutBack(without: seq<Schema>, from: seq<string>, path: seq<string>, c: Schema, q: seq<string>)
    requires from != [] && path != [] && Apart(from, path) && NodeAt(without, from).None? && c.name == Leaf(path)
    requires EditAt(without, Parent(path), Append(c)).Some?
    ensures
      var out := EditAt(without, Parent(path), Append(c)).value;
      && NodeAt(out, from).None? && NodeAt(out, path) == Some(c)
      && ChildrenAt(out, Parent(path)).Some? && |ChildrenAt(out, Parent(path)).value| > 0
      && (var now := ChildrenAt(out, Parent(path)).value; now[|now| - 1] == c)
      && (q != [] && Apart(path, q) ==> NodeAt(out, q) == NodeAt(without, q))
  {
    ElsewhereAt(without, path, Append(c), from);
    AppendedLast(without, path, c);
    if q != [] && Apart(path, q) {
      ElsewhereAt(without, path, Append(c), q);
    }
  }

  lemma ElsewhereAt(children: seq<Schema>, path: seq<string>, e: Edit, q: seq<string>)
    requires path != [] && EditName(e) == Leaf(path) && EditAt(children, Parent(path), e).Some?
    requires q != [] && Apart(path, q)
    ensures NodeAt(EditAt(children, Parent(path), e).value, q) == NodeAt(children, q)
  {
    assert Parent(path) + [Leaf(path)] == path;
    EditElsewhere(children, Parent(path), e, q);
  }

  lemma AppendedLast(children: seq<Schema>, path: seq<string>, c: Schema)
    requires path != [] && c.name == Leaf(path) && EditAt(children, Parent(path), Append(c)).Some?
    ensures
      var out := EditAt(children, Parent(path), Append(c)).value;
      && NodeAt(out, path) == Some(c) && ChildrenAt(out, Parent(path)).Some?
      && var now := ChildrenAt(out, Parent(path)).value; |now| > 0 && now[|now| - 1] == c
  {
    AppendedFound(children, path, c);
    SiblingsAfter(children, Parent(path), Append(c));
  }

  lemma {:induction false} AppendedFound(children: seq<Schema>, path: seq<string>, c: Schema)
    requires path != [] && c.name == Leaf(path) && EditAt(children, Parent(path), Append(c)).Some?
    ensures NodeAt(EditAt(children, Parent(path), Append(c)).value, path) == Some(c)
    decreases path
  {
    var out := EditAt(children, Parent(path), Append(c)).value;
    if |path| == 1 {
      FirstAt(out, |children|, c.name);
    } else {
      assert Parent(path)[0] == path[0] && Parent(path)[1..] == Parent(path[1..]);
      var i := FindChild(children, path[0]);
      AppendedFound(children[i].children, path[1..], c);
      FindUpdated(children, i, out[i], path[0]);
    }
  }
}
