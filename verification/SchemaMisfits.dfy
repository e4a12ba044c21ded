/** What the exact condition of SchemaCommute means for the single updates, below object parents, and the
    updates that leave a misfit at concrete inputs. */
module SchemaMisfits {
  import opened Json
  import opened Schema
  import opened SchemaPatch
  import opened SchemaCommute

  /** Every node on the path exists and is an object. */
  predicate ObjectPath(children: seq<Schema>, path: seq<string>)
    decreases path
  {
    path == [] ||
    var i := FindChild(children, path[0]);
    i < |children| && children[i].kind == ObjectKind && ObjectPath(children[i].children, path[1..])
  }

  /** The document has an object at every step of the path. */
  predicate ObjectsThere(fields: Doc, path: seq<string>)
    decreases path
  {
    path == [] || (HasObject(fields, path[0]) && ObjectsThere(fields[path[0]].fields, path[1..]))
  }

  lemma {:induction false} SetBelowObjects(full: bool, children: seq<Schema>, parent: seq<string>, c: Schema,
                                           fields: Doc, v: Json)
    requires ObjectPath(children, parent) && (full ==> ObjectsThere(fields, parent))
    ensures CanSet(full, children, parent, c, fields, v) <==> Fits(full, c, v)
    decreases parent
  {
    if parent != [] {
      SetBelowObjects(full, children[FindChild(children, parent[0])].children, parent[1..], c,
        Inner(fields, parent[0]), v);
    }
  }

  /** A field that is there fits; one that is not is, in the full reading, not required, or its parent object is
      not there either. */
  predicate FitsAt(full: bool, c: Schema, fields: Doc, path: seq<string>)
    requires path != []
  {
    var w := GetAt(fields, path);
    if w.Some? then Fits(full, c, w.value) else full && c.required ==> !ObjectsThere(fields, Parent(path))
  }

  lemma {:induction false} KeepBelowObjects(full: bool, children: seq<Schema>, path: seq<string>, c: Schema,
                                            fields: Doc)
    requires path != [] && c.name == Leaf(path) && ObjectPath(children, Parent(path))
    ensures CanKeep(full, children, Parent(path), c, fields) <==> FitsAt(full, c, fields, path)
    decreases path
  {
    if |path| > 1 {
      assert Parent(path)[0] == path[0] && Parent(path)[1..] == Parent(path[1..]);
      if HasObject(fields, path[0]) {
        KeepBelowObjects(full, children[FindChild(children, path[0])].children, path[1..], c, fields[path[0]].fields);
      }
    }
  }

  lemma {:induction false} PresentBelowObjects(fields: Doc, path: seq<string>)
    requires path != [] && GetAt(fields, path).Some?
    ensures ObjectsThere(fields, Parent(path))
    decreases path
  {
    if |path| > 1 {
      assert Parent(path)[0] == path[0] && Parent(path)[1..] == Parent(path[1..]);
      PresentBelowObjects(fields[path[0]].fields, path[1..]);
    }
  }

  // ----- add, import, convert

  /** An add, in the full reading to an object that is there: right if and only if the value it selects fits. */
  lemma AddIff(full: bool, cv: Converter, children: seq<Schema>, op: UpdateOp, doc: Doc)
    requires op.op == Add && WellNamedAll(children) && FitsFields(full, children, doc) && HasPaths(op)
    requires ApplyOp(children, op).Some? && ObjectPath(children, Parent(FieldPath(op.path)))
    requires full ==> ObjectsThere(doc, Parent(FieldPath(op.path)))
    ensures
      var fill := FillValue(op.value, op.schema, op.failover);
      Commutes(full, cv, children, op, doc) <==> (fill.Some? ==> Fits(full, op.schema.value, fill.value))
  {
    var path, c := FieldPath(op.path), Named(op.schema.value, Leaf(FieldPath(op.path)));
    var fill := FillValue(op.value, op.schema, op.failover);
    OpCommutesIff(full, cv, children, op, doc);
    if fill.Some? {
      SetBelowObjects(full, children, Parent(path), c, doc, fill.value);
    } else {
      RemovedIsGone(doc, path);
      KeepBelowObjects(full, children, path, c, RemoveAt(doc, path));
    }
  }

  /** An import keeps a value of the declared top-level kind: right if and only if the value fits, with its
      fields and items. */
  lemma ImportIff(full: bool, cv: Converter, children: seq<Schema>, op: UpdateOp, doc: Doc)
    requires op.op == Import && WellNamedAll(children) && FitsFields(full, children, doc) && HasPaths(op)
    requires ApplyOp(children, op).Some? && ObjectPath(children, Parent(FieldPath(op.path))) && Imported(op, doc)
    ensures Commutes(full, cv, children, op, doc) <==> Fits(full, op.schema.value, GetAt(doc, FieldPath(op.path)).value)
  {
    OpCommutesIff(full, cv, children, op, doc);
    KeepBelowObjects(full, children, FieldPath(op.path), Entry(children, op).value, doc);
  }

  /** A convert of a value that is there: right if and only if the converted value fits. */
  lemma ConvertIff(full: bool, cv: Converter, children: seq<Schema>, op: UpdateOp, doc: Doc)
    requires op.op == Convert && WellNamedAll(children) && FitsFields(full, children, doc) && HasPaths(op)
    requires ApplyOp(children, op).Some? && ObjectPath(children, Parent(FieldPath(op.path)))
    requires op.value.None? && GetAt(doc, FieldPath(op.path)).Some?
    ensures Commutes(full, cv, children, op, doc) <==>
      Fits(full, op.schema.value, ConvertKind(cv, GetAt(doc, FieldPath(op.path)).value, op.schema.value.kind))
  {
    var path := FieldPath(op.path);
    OpCommutesIff(full, cv, children, op, doc);
    PresentBelowObjects(doc, path);
    SetBelowObjects(full, children, Parent(path), Entry(children, op).value, doc, Written(cv, doc, op).value);
  }

  // ----- move and copy

  /** A present field below object parents fits its node. */
  lemma {:induction false} NodeFits(full: bool, children: seq<Schema>, fields: Doc, path: seq<string>)
    requires path != [] && FitsFields(full, children, fields) && ObjectPath(children, Parent(path))
    requires NodeAt(children, path).Some? && GetAt(fields, path).Some?
    ensures Fits(full, NodeAt(children, path).value, GetAt(fields, path).value)
    decreases path
  {
    var i := FindChild(children, path[0]);
    assert Fits(full, children[i], fields[path[0]]);
    if |path| > 1 {
      assert Parent(path)[0] == path[0] && Parent(path)[1..] == Parent(path[1..]);
      NodeFits(full, children[i].children, fields[path[0]].fields, path[1..]);
    }
  }

  lemma FindAt(children: seq<Schema>, i: nat)
    requires UniqueNames(children) && i < |children|
    ensures FindChild(children, children[i].name) == i
  {
  }

  /** Dropping a node keeps the object paths that do not go through it. */
  lemma {:induction false} DropKeepsPath(children: seq<Schema>, parent: seq<string>, name: string, path: seq<string>)
    requires WellNamedAll(children) && ObjectPath(children, path) && !(parent + [name] <= path)
    requires EditAt(children, parent, Drop(name)).Some?
    ensures ObjectPath(EditAt(children, parent, Drop(name)).value, path)
    decreases parent
  {
    var out := EditAt(children, parent, Drop(name)).value;
    if path != [] {
      var i := FindChild(children, path[0]);
      if parent == [] {
        assert path[0] != name;
        FindAfterDrop(children, FindChild(children, name), i);
      } else {
        var d := FindChild(children, parent[0]);
        if d == i {
          assert parent + [name] == [parent[0]] + (parent[1..] + [name]) && path == [path[0]] + path[1..];
          DropKeepsPath(children[i].children, parent[1..], name, path[1..]);
        }
        PathThroughUpdated(children, d, out[d], path);
      }
    }
  }

  lemma PathThroughUpdated(children: seq<Schema>, d: nat, c: Schema, path: seq<string>)
    requires path != [] && d < |children| && c.name == children[d].name && c.kind == children[d].kind
    requires ObjectPath(children, path)
    requires FindChild(children, path[0]) == d ==> ObjectPath(c.children, path[1..])
    ensures ObjectPath(children[d := c], path)
  {
    FindUpdated(children, d, c, path[0]);
  }

  lemma DropUnique(children: seq<Schema>, d: nat)
    requires UniqueNames(children) && d < |children|
    ensures UniqueNames(children[..d] + children[d + 1..])
  {
    var out := children[..d] + children[d + 1..];
    assert forall k :: 0 <= k < |out| ==> out[k] == if k < d then children[k] else children[k + 1];
  }

  /** A child other than the dropped one is found again. */
  lemma FindAfterDrop(children: seq<Schema>, d: nat, i: nat)
    requires UniqueNames(children) && d < |children| && i < |children| && i != d
    ensures
      var out := children[..d] + children[d + 1..];
      var k := FindChild(out, children[i].name);
      k < |out| && out[k] == children[i]
  {
    var out := children[..d] + children[d + 1..];
    var k := if i < d then i else i - 1;
    assert out[k] == children[i];
    DropUnique(children, d);
    FindAt(out, k);
  }

  /** An appended node is found at its path, below the same object parents. */
  lemma {:induction false} AppendedNode(children: seq<Schema>, parent: seq<string>, c: Schema)
    requires WellNamedAll(children) && ObjectPath(children, parent) && EditAt(children, parent, Append(c)).Some?
    ensures
      var out := EditAt(children, parent, Append(c)).value;
      ObjectPath(out, parent) && NodeAt(out, parent + [c.name]) == Some(c)
    decreases parent
  {
    var out := EditAt(children, parent, Append(c)).value;
    var path := parent + [c.name];
    if parent == [] {
      assert out[|children|] == c;
      assert FindChild(out, c.name) == |children|;
    } else {
      var i := FindChild(children, parent[0]);
      assert path[1..] == parent[1..] + [c.name] && path[0] == parent[0];
      AppendedNode(children[i].children, parent[1..], c);
      FindUpdated(children, i, out[i], parent[0]);
    }
  }

  /** After a move or copy the node is found at the destination, below object parents. */
  lemma DestinationNode(children: seq<Schema>, op: UpdateOp)
    requires Relocates(children, op) && WellNamedAll(children) && ApplyOp(children, op).Some?
    ensures
      var path, from := FieldPath(op.path), FieldPath(op.from);
      && ObjectPath(ApplyOp(children, op).value, Parent(path))
      && NodeAt(ApplyOp(children, op).value, path) == Some(Named(NodeAt(children, from).value, Leaf(path)))
  {
    var path, from := FieldPath(op.path), FieldPath(op.from);
    if op.op == Copy {
      NodeAtDestination(children, NodeAt(children, from).value, path);
    } else {
      var without := EditAt(children, Parent(from), Drop(Leaf(from))).value;
      PathAfterDrop(children, from, path);
      NodeAtDestination(without, NodeAt(children, from).value, path);
    }
  }

  /** A move or copy to a place below object parents, and not of a node below itself. */
  predicate Relocates(children: seq<Schema>, op: UpdateOp) {
    && (op.op == Move || op.op == Copy) && HasPaths(op) && ObjectPath(children, Parent(FieldPath(op.path)))
    && (op.op == Move ==> !(FieldPath(op.from) <= Parent(FieldPath(op.path))))
  }

  lemma NodeAtDestination(children: seq<Schema>, node: Schema, path: seq<string>)
    requires WellNamedAll(children) && path != [] && ObjectPath(children, Parent(path))
    requires EditAt(children, Parent(path), Append(Named(node, Leaf(path)))).Some?
    ensures
      var out := EditAt(children, Parent(path), Append(Named(node, Leaf(path)))).value;
      ObjectPath(out, Parent(path)) && NodeAt(out, path) == Some(Named(node, Leaf(path)))
  {
    assert Parent(path) + [Leaf(path)] == path;
    AppendedNode(children, Parent(path), Named(node, Leaf(path)));
  }

  lemma PathAfterDrop(children: seq<Schema>, from: seq<string>, path: seq<string>)
    requires WellNamedAll(children) && from != [] && path != [] && ObjectPath(children, Parent(path)) &&
      !(from <= Parent(path))
    requires EditAt(children, Parent(from), Drop(Leaf(from))).Some?
    ensures
      var without := EditAt(children, Parent(from), Drop(Leaf(from))).value;
      WellNamedAll(without) && ObjectPath(without, Parent(path))
  {
    assert Parent(from) + [Leaf(from)] == from;
    EditWellNamed(children, Parent(from), Drop(Leaf(from)));
    DropKeepsPath(children, Parent(from), Leaf(from), Parent(path));
  }

  lemma BasePath(children: seq<Schema>, op: UpdateOp)
    requires Relocates(children, op) && WellNamedAll(children) && ApplyOp(children, op).Some?
    ensures ObjectPath(Base(children, op), Parent(FieldPath(op.path)))
  {
    if op.op == Move {
      PathAfterDrop(children, FieldPath(op.from), FieldPath(op.path));
    }
  }

  lemma KeptIsTracked(full: bool, cv: Converter, children: seq<Schema>, op: UpdateOp, doc: Doc)
    requires Relocates(children, op) && ApplyOp(children, op).Some? && GetAt(doc, FieldPath(op.from)).None?
    ensures Entry(children, op) == Some(Named(NodeAt(children, FieldPath(op.from)).value, Leaf(FieldPath(op.path))))
    ensures Tracked(full, cv, children, op, doc)
      <==> CanKeep(full, Base(children, op), Parent(FieldPath(op.path)), Entry(children, op).value, doc)
  {
  }

  lemma NameAside(full: bool, c: Schema, name: string, fields: Doc, path: seq<string>)
    requires path != []
    ensures FitsAt(full, Named(c, name), fields, path) <==> FitsAt(full, c, fields, path)
  {
  }

  /** A move or copy whose source the document lacks: right if and only if what is at the destination
      already fits the node, or may be absent. */
  lemma WithoutSourceIff(full: bool, cv: Converter, children: seq<Schema>, op: UpdateOp, doc: Doc)
    requires Relocates(children, op) && WellNamedAll(children) && FitsFields(full, children, doc)
    requires ApplyOp(children, op).Some? && GetAt(doc, FieldPath(op.from)).None?
    ensures Commutes(full, cv, children, op, doc)
      <==> FitsAt(full, NodeAt(children, FieldPath(op.from)).value, doc, FieldPath(op.path))
  {
    var path, node := FieldPath(op.path), NodeAt(children, FieldPath(op.from)).value;
    OpCommutesIff(full, cv, children, op, doc);
    KeptIsTracked(full, cv, children, op, doc);
    BasePath(children, op);
    KeepBelowObjects(full, Base(children, op), path, Named(node, Leaf(path)), doc);
    NameAside(full, node, Leaf(path), doc, path);
  }

  /** A move or copy of a value that is there, in the full reading to an object that is there, is always right. */
  lemma WithSourceFits(full: bool, cv: Converter, children: seq<Schema>, op: UpdateOp, doc: Doc)
    requires Relocates(children, op) && WellNamedAll(children) && FitsFields(full, children, doc)
    requires ApplyOp(children, op).Some? && GetAt(doc, FieldPath(op.from)).Some?
    requires ObjectPath(children, Parent(FieldPath(op.from)))
    requires full ==> ObjectsThere(Rest(cv, doc, op), Parent(FieldPath(op.path)))
    ensures Commutes(full, cv, children, op, doc)
  {
    var path, from := FieldPath(op.path), FieldPath(op.from);
    OpCommutesIff(full, cv, children, op, doc);
    BasePath(children, op);
    NodeFits(full, children, doc, from);
    SetBelowObjects(full, Base(children, op), Parent(path), Entry(children, op).value, Rest(cv, doc, op),
      GetAt(doc, from).value);
  }

  // ----- misfits at concrete inputs

  /** An optional entry without default. */
  function Plain(name: string, kind: Kind, children: seq<Schema>, items: Option<Schema>): Schema {
    Schema(name, kind, false, false, None, children, items)
  }

  lemma TopPath(path: string, name: string)
    requires path == "/" + name && name != "" && '/' !in name
    ensures FieldPath(path) == [name] && Parent(FieldPath(path)) == [] && Leaf(FieldPath(path)) == name
  {
    assert path[1..] == name;
    SplitFree(name, '/');
  }

  /** "a" copied to "b" in the schema, in a document that has no "a" but an old number under "b". */
  lemma CopyOntoUntracked(full: bool, cv: Converter, a: Schema, op: UpdateOp, doc: Doc)
    requires a == Plain("a", StringKind, [], None) && op == UpdateOp(Copy, "/b", "/a", None, None, Null)
    requires doc == map["b" := Num(1.0)]
    ensures WellNamedAll([a]) && FitsFields(full, [a], doc) && HasPaths(op) && ApplyOp([a], op).Some?
    ensures ApplyDocOp(cv, doc, op) == Some(doc) && !Commutes(full, cv, [a], op, doc)
  {
    TopPath("/a", "a");
    TopPath("/b", "b");
    assert FindChild([a], "a") == 0 && FindChild([a], "b") == 1;
    assert NodeAt([a], ["a"]) == Some(a);
    WithoutSourceIff(full, cv, [a], op, doc);
  }

  /** An object with a string field "a" imported where the document has a number in it. */
  lemma ImportKeepsMisfit(full: bool, cv: Converter, o: Schema, op: UpdateOp, doc: Doc)
    requires o == Plain("o", ObjectKind, [Plain("a", StringKind, [], None)], None)
    requires op == UpdateOp(Import, "/o", "", Some(o), None, Null) && doc == map["o" := Obj(map["a" := Num(1.0)])]
    ensures FitsFields(full, [], doc) && HasPaths(op) && ApplyOp([], op).Some?
    ensures ApplyDocOp(cv, doc, op) == Some(doc) && !Commutes(full, cv, [], op, doc)
  {
    TopPath("/o", "o");
    assert !FitsIn(full, o.children[0], doc["o"].fields);
    ImportIff(full, cv, [], op, doc);
  }

  /** An array of strings imported where the document has an array of numbers. */
  lemma ImportKeepsItems(full: bool, cv: Converter, o: Schema, op: UpdateOp, doc: Doc)
    requires o == Plain("o", ArrayKind, [], Some(Plain("", StringKind, [], None)))
    requires op == UpdateOp(Import, "/o", "", Some(o), None, Null) && doc == map["o" := Arr([Num(1.0), Num(2.0)])]
    ensures FitsFields(full, [], doc) && HasPaths(op) && ApplyOp([], op).Some?
    ensures ApplyDocOp(cv, doc, op) == Some(doc) && !Commutes(full, cv, [], op, doc)
  {
    TopPath("/o", "o");
    assert !Fits(full, o.items.value, doc["o"].items[0]);
    ImportIff(full, cv, [], op, doc);
  }

  /** An array whose items become strings by a convert, in a document with an array of numbers. */
  lemma ConvertKeepsItems(full: bool, cv: Converter, o: Schema, typed: Schema, op: UpdateOp, doc: Doc)
    requires o == Plain("o", ArrayKind, [], None) && typed == o.(items := Some(Plain("", StringKind, [], None)))
    requires op == UpdateOp(Convert, "/o", "", Some(typed), None, Null) && doc == map["o" := Arr([Num(1.0)])]
    ensures WellNamedAll([o]) && FitsFields(full, [o], doc) && HasPaths(op) && ApplyOp([o], op).Some?
    ensures ApplyDocOp(cv, doc, op) == Some(doc) && !Commutes(full, cv, [o], op, doc)
  {
    TopPath("/o", "o");
    assert FindChild([o], "o") == 0 && GetAt(doc, ["o"]) == Some(doc["o"]);
    assert !Fits(full, typed.items.value, doc["o"].items[0]);
    assert doc["o" := doc["o"]] == doc && SetAt(doc, ["o"], doc["o"]) == doc;
    ConvertIff(full, cv, [o], op, doc);
  }

  /** A field added below an optional object the document lacks: the kinds are right, but the object is made
      without its required field "y". */
  lemma AddMakesHollowObject(cv: Converter, o: Schema, x: Schema, op: UpdateOp, doc: Doc)
    requires o == Plain("o", ObjectKind, [Plain("y", StringKind, [], None).(required := true)], None)
    requires x == Plain("x", NumberKind, [], None) && op == UpdateOp(Add, "/o/x", "", Some(x), Some(Num(1.0)), Null)
    requires doc == map[]
    ensures WellNamedAll([o]) && FitsFields(true, [o], doc) && HasPaths(op) && ApplyOp([o], op).Some?
    ensures !Commutes(true, cv, [o], op, doc) && Commutes(false, cv, [o], op, doc)
  {
    TwoStepPath();
    assert FindChild([o], "o") == 0 && FindChild(o.children, "x") == 1;
    assert EditAt(o.children, [], Append(x)).Some? && EditAt([o], ["o"], Append(x)).Some?;
    OpCommutesIff(true, cv, [o], op, doc);
    assert !FitsIn(true, o.children[0], map[]) && !FitsBut(true, o.children, "x", map[]);
    assert (["o"] + ["x"])[1] == "x";
    assert !CanSet(true, [o], ["o"], x, doc, Num(1.0));
    AddIff(false, cv, [o], op, doc);
  }

  lemma TwoStepPath()
    ensures FieldPath("/o/x") == ["o", "x"] && Parent(["o", "x"]) == ["o"] && Leaf(["o", "x"]) == "x"
  {
    assert "/o/x"[1..] == "o" + ['/'] + "x";
    SplitPrefix("o", "x", '/');
    SplitFree("x", '/');
  }

  /** A replace without a value: the schema side accepts it wherever the field exists, and the list that
      holds it fails for every document. */
  lemma ValuelessReplaceFails(cv: Converter, a: Schema, op: UpdateOp, doc: Doc)
    requires a == Plain("a", StringKind, [], None) && op == UpdateOp(Replace, "/a", "", None, None, Null)
    ensures HasPaths(op) && Apply([a], [op]).Some? && ApplyToDocument(cv, doc, [op]).None?
  {
    TopPath("/a", "a");
    assert FindChild([a], "a") == 0 && NodeAt([a], ["a"]) == Some(a);
    assert [op][1..] == [];
    assert Valueless([op][0]);
    ListFailsIff(cv, doc, [op]);
  }
}
