/** internal/docjson/docjson.go: the canonical field order of a stored document. Object fields are an
    ordered list with distinct keys. */
module DocJson {
  import opened Json
  import opened Schema

  datatype Field = Field(key: string, value: Ordered)

  datatype Ordered =
    | NullValue
    | BoolValue(b: bool)
    | NumberValue(n: real)
    | StringValue(s: string)
    | ArrayValue(items: seq<Ordered>)
    | ObjectValue(fields: seq<Field>)

  predicate DistinctKeys(fields: seq<Field>) {
    forall i, j :: 0 <= i < j < |fields| ==> fields[i].key != fields[j].key
  }

  /** Keys are distinct in every object of the value. */
  predicate Proper(v: Ordered) {
    match v
    case ArrayValue(items) => forall i :: 0 <= i < |items| ==> Proper(items[i])
    case ObjectValue(fields) => DistinctKeys(fields) && forall i :: 0 <= i < |fields| ==> Proper(fields[i].value)
    case _ => true
  }

  /** The position of a key, or the number of fields. */
  function Index(fields: seq<Field>, key: string): (i: nat)
    ensures i <= |fields|
    ensures forall j :: 0 <= j < i ==> fields[j].key != key
    ensures i < |fields| ==> fields[i].key == key
  {
    if fields == [] || fields[0].key == key then 0 else 1 + Index(fields[1..], key)
  }

  predicate Has(fields: seq<Field>, key: string) {
    Index(fields, key) < |fields|
  }

  function Lookup(fields: seq<Field>, key: string): Option<Ordered> {
    if Has(fields, key) then Some(fields[Index(fields, key)].value) else None
  }

  /** Set on an ordered object: overwrites in place, or appends. */
  function SetField(fields: seq<Field>, key: string, value: Ordered): seq<Field> {
    if Has(fields, key) then fields[Index(fields, key) := Field(key, value)] else fields + [Field(key, value)]
  }

  function Reorder(entry: Option<Schema>, v: Ordered): Ordered
    decreases v
  {
    if entry.None? then v
    else match (entry.value.kind, v)
      case (ObjectKind, ObjectValue(fields)) =>
        ObjectValue(SchemaPart(entry.value.children, fields) + ExtraPart(entry.value.children, fields))
      case (ArrayKind, ArrayValue(items)) =>
        ArrayValue(seq(|items|, i requires 0 <= i < |items| => Reorder(entry.value.items, items[i])))
      case _ => v
  }

  /** The fields the schema names, in schema order, each reordered by its own entry. */
  function SchemaPart(children: seq<Schema>, fields: seq<Field>): seq<Field>
    decreases fields, |children|
  {
    if children == [] then []
    else
      var done := SchemaPart(children[..|children| - 1], fields);
      var c := children[|children| - 1];
      if Has(fields, c.name)
      then SetField(done, c.name, Reorder(Some(c), fields[Index(fields, c.name)].value))
      else done
  }

  /** The fields the schema does not name, as they come. */
  function ExtraPart(children: seq<Schema>, fields: seq<Field>): seq<Field> {
    if fields == [] then []
    else
      var rest := ExtraPart(children, fields[..|fields| - 1]);
      var last := fields[|fields| - 1];
      if HasChild(children, last.key) then rest else rest + [last]
  }

  const META_ORDER := ["!", "$", "#"]

  /** The metadata fields present, in their fixed order. */
  function MetaPart(fields: seq<Field>, names: seq<string>): seq<Field> {
    if names == [] then []
    else
      var done := MetaPart(fields, names[..|names| - 1]);
      var name := names[|names| - 1];
      if Has(fields, name) then done + [Field(name, fields[Index(fields, name)].value)] else done
  }

  function Content(fields: seq<Field>): seq<Field> {
    if fields == [] then []
    else
      var rest := Content(fields[..|fields| - 1]);
      var last := fields[|fields| - 1];
      if last.key in META_ORDER then rest else rest + [last]
  }

  /** The canonical form of a document: metadata, schema fields, extras. */
  function Canonical(root: Schema, doc: seq<Field>): seq<Field> {
    MetaPart(doc, META_ORDER) + Reorder(Some(root), ObjectValue(Content(doc))).fields
  }

  // ----- lookups in lists of fields

  lemma LookupAt(fields: seq<Field>, i: nat)
    requires DistinctKeys(fields) && i < |fields|
    ensures Lookup(fields, fields[i].key) == Some(fields[i].value)
  {
    assert Index(fields, fields[i].key) == i;
  }

  lemma LookupAppend(a: seq<Field>, b: seq<Field>, key: string)
    ensures Lookup(a + b, key) == if Has(a, key) then Lookup(a, key) else Lookup(b, key)
  {
    var i, k := Index(a, key), Index(a + b, key);
    if i < |a| {
      assert (a + b)[i] == a[i];
      assert k == i;
    } else {
      assert forall j :: 0 <= j < |a| ==> (a + b)[j] == a[j];
      var j := Index(b, key);
      assert forall m :: 0 <= m < |b| ==> (a + b)[|a| + m] == b[m];
      assert k == |a| + j;
    }
  }

  lemma HasIff(fields: seq<Field>, key: string)
    ensures Has(fields, key) <==> exists i :: 0 <= i < |fields| && fields[i].key == key
  {
  }

  /** With distinct sibling names each schema field is simply appended. */
  lemma {:induction false} SchemaPartIs(children: seq<Schema>, fields: seq<Field>, key: string)
    requires UniqueNames(children)
    ensures Has(SchemaPart(children, fields), key) <==> HasChild(children, key) && Has(fields, key)
    ensures Has(SchemaPart(children, fields), key) ==>
      Lookup(SchemaPart(children, fields), key) ==
        Some(Reorder(Some(children[FindChild(children, key)]), fields[Index(fields, key)].value))
    ensures DistinctKeys(SchemaPart(children, fields))
  {
    if children != [] {
      var init, c := children[..|children| - 1], children[|children| - 1];
      SchemaPartIs(init, fields, key);
      SchemaPartIs(init, fields, c.name);
      var done := SchemaPart(init, fields);
      FindInit(children, key);
      assert !HasChild(init, c.name);
      if Has(fields, c.name) {
        var x := Field(c.name, Reorder(Some(c), fields[Index(fields, c.name)].value));
        assert SchemaPart(children, fields) == done + [x];
        LookupAppend(done, [x], key);
        HasIff(done, c.name);
        SingleField(x, key);
      }
    }
  }

  lemma SingleField(x: Field, key: string)
    ensures Lookup([x], key) == if x.key == key then Some(x.value) else None
  {
  }

  lemma FindInit(children: seq<Schema>, key: string)
    requires children != [] && UniqueNames(children)
    ensures
      var init, c := children[..|children| - 1], children[|children| - 1];
      && (HasChild(init, key) ==> FindChild(children, key) == FindChild(init, key))
      && (HasChild(children, key) <==> HasChild(init, key) || c.name == key)
      && (c.name == key ==> FindChild(children, key) == |children| - 1 && !HasChild(init, key))
  {
    var init := children[..|children| - 1];
    var i, k := FindChild(init, key), FindChild(children, key);
    assert forall j :: 0 <= j < |init| ==> init[j] == children[j];
  }

  /** A list grown by one field. */
  lemma Grown(fields: seq<Field>, last: Field, key: string)
    ensures Lookup(fields + [last], key) ==
      if Has(fields, key) then Lookup(fields, key) else if last.key == key then Some(last.value) else None
  {
    LookupAppend(fields, [last], key);
    SingleField(last, key);
  }

  lemma GrownDistinct(fields: seq<Field>, last: Field)
    requires DistinctKeys(fields) && !Has(fields, last.key)
    ensures DistinctKeys(fields + [last])
  {
    HasIff(fields, last.key);
  }

  lemma {:induction false} ExtraLookup(children: seq<Schema>, fields: seq<Field>, key: string)
    requires DistinctKeys(fields)
    ensures Lookup(ExtraPart(children, fields), key) == if HasChild(children, key) then None else Lookup(fields, key)
  {
    if fields != [] {
      var init, last := fields[..|fields| - 1], fields[|fields| - 1];
      ExtraLookup(children, init, key);
      assert fields == init + [last];
      Grown(init, last, key);
      Grown(ExtraPart(children, init), last, key);
    }
  }

  lemma {:induction false} ExtraPartIs(children: seq<Schema>, fields: seq<Field>, key: string)
    requires DistinctKeys(fields)
    ensures Lookup(ExtraPart(children, fields), key) == if HasChild(children, key) then None else Lookup(fields, key)
    ensures DistinctKeys(ExtraPart(children, fields))
  {
    ExtraLookup(children, fields, key);
    if fields != [] {
      var init, last := fields[..|fields| - 1], fields[|fields| - 1];
      ExtraPartIs(children, init, last.key);
      HasIff(init, last.key);
      if !HasChild(children, last.key) {
        GrownDistinct(ExtraPart(children, init), last);
      }
    }
  }

  lemma {:induction false} ExtraAppend(children: seq<Schema>, a: seq<Field>, b: seq<Field>)
    ensures ExtraPart(children, a + b) == ExtraPart(children, a) + ExtraPart(children, b)
  {
    if b == [] {
      assert a + b == a;
    } else {
      var init, last := b[..|b| - 1], b[|b| - 1];
      assert (a + b)[..|a + b| - 1] == a + init;
      ExtraAppend(children, a, init);
    }
  }

  lemma {:induction false} ExtraNone(children: seq<Schema>, a: seq<Field>)
    requires forall i :: 0 <= i < |a| ==> HasChild(children, a[i].key)
    ensures ExtraPart(children, a) == []
  {
    if a != [] {
      ExtraNone(children, a[..|a| - 1]);
    }
  }

  lemma {:induction false} ExtraAll(children: seq<Schema>, a: seq<Field>)
    requires forall i :: 0 <= i < |a| ==> !HasChild(children, a[i].key)
    ensures ExtraPart(children, a) == a
  {
    if a != [] {
      ExtraAll(children, a[..|a| - 1]);
      assert a == a[..|a| - 1] + [a[|a| - 1]];
    }
  }

  /** An object after reordering: what each key holds, and that its extras are those of the input. */
  lemma ReorderedObject(children: seq<Schema>, fields: seq<Field>, key: string)
    requires UniqueNames(children) && DistinctKeys(fields)
    ensures
      var out := SchemaPart(children, fields) + ExtraPart(children, fields);
      && DistinctKeys(out)
      && Lookup(out, key) == (
        if !Has(fields, key) then None
        else if HasChild(children, key)
          then Some(Reorder(Some(children[FindChild(children, key)]), fields[Index(fields, key)].value))
        else Some(fields[Index(fields, key)].value))
      && ExtraPart(children, out) == ExtraPart(children, fields)
  {
    var named, extra := SchemaPart(children, fields), ExtraPart(children, fields);
    SchemaPartIs(children, fields, key);
    ExtraPartIs(children, fields, key);
    LookupAppend(named, extra, key);
    forall i | 0 <= i < |named|
      ensures HasChild(children, named[i].key)
    {
      SchemaPartIs(children, fields, named[i].key);
      HasIff(named, named[i].key);
    }
    forall i | 0 <= i < |extra|
      ensures !HasChild(children, extra[i].key)
    {
      ExtraPartIs(children, fields, extra[i].key);
      LookupAt(extra, i);
    }
    ExtraAppend(children, named, extra);
    ExtraNone(children, named);
    ExtraAll(children, extra);
  }

  /** The schema part only depends on what each named field reorders to. */
  lemma {:induction false} SameSchemaPart(children: seq<Schema>, f: seq<Field>, g: seq<Field>)
    requires forall i :: 0 <= i < |children| ==> Has(f, children[i].name) == Has(g, children[i].name)
    requires forall i :: 0 <= i < |children| && Has(f, children[i].name) && Has(g, children[i].name) ==>
      Reorder(Some(children[i]), f[Index(f, children[i].name)].value) ==
        Reorder(Some(children[i]), g[Index(g, children[i].name)].value)
    ensures SchemaPart(children, f) == SchemaPart(children, g)
  {
    if children != [] {
      SameSchemaPart(children[..|children| - 1], f, g);
    }
  }

  lemma NamedChild(children: seq<Schema>, i: nat)
    requires UniqueNames(children) && i < |children|
    ensures FindChild(children, children[i].name) == i
  {
  }

  // ----- idempotence and normal form

  predicate ProperPair(entry: Option<Schema>, v: Ordered) {
    (entry.Some? ==> WellNamed(entry.value)) && Proper(v)
  }

  /** Reordering twice is reordering once. */
  lemma {:induction false} ReorderTwice(entry: Option<Schema>, v: Ordered)
    requires ProperPair(entry, v)
    ensures Reorder(entry, Reorder(entry, v)) == Reorder(entry, v)
    decreases v
  {
    if entry.Some? && entry.value.kind == ObjectKind && v.ObjectValue? {
      var children, fields := entry.value.children, v.fields;
      var out := SchemaPart(children, fields) + ExtraPart(children, fields);
      forall i | 0 <= i < |children|
        ensures Has(out, children[i].name) == Has(fields, children[i].name)
        ensures Has(out, children[i].name) && Has(fields, children[i].name) ==>
          Reorder(Some(children[i]), out[Index(out, children[i].name)].value) ==
            Reorder(Some(children[i]), fields[Index(fields, children[i].name)].value)
      {
        var name := children[i].name;
        ReorderedObject(children, fields, name);
        NamedChild(children, i);
        if Has(fields, name) {
          ReorderTwice(Some(children[i]), fields[Index(fields, name)].value);
        }
      }
      SameSchemaPart(children, out, fields);
      ReorderedObject(children, fields, "");
    } else if entry.Some? && entry.value.kind == ArrayKind && v.ArrayValue? {
      forall i | 0 <= i < |v.items|
        ensures Reorder(entry.value.items, Reorder(entry.value.items, v.items[i])) ==
          Reorder(entry.value.items, v.items[i])
      {
        ReorderTwice(entry.value.items, v.items[i]);
      }
    }
  }

  /** Two values that differ at most in the order of schema-named fields. */
  ghost predicate Equivalent(entry: Option<Schema>, a: Ordered, b: Ordered)
    decreases a
  {
    if entry.None? then a == b
    else match (entry.value.kind, a, b)
      case (ObjectKind, ObjectValue(f), ObjectValue(g)) =>
        && (forall i :: 0 <= i < |entry.value.children| ==> ChildEquivalent(entry.value.children[i], f, g))
        && ExtraPart(entry.value.children, f) == ExtraPart(entry.value.children, g)
      case (ArrayKind, ArrayValue(x), ArrayValue(y)) =>
        |x| == |y| && forall i :: 0 <= i < |x| ==> Equivalent(entry.value.items, x[i], y[i])
      case _ => a == b
  }

  /** Reordering is a normal form: it identifies exactly the equivalent values. */
  lemma {:induction false} NormalForm(entry: Option<Schema>, a: Ordered, b: Ordered)
    requires ProperPair(entry, a) && ProperPair(entry, b)
    ensures Reorder(entry, a) == Reorder(entry, b) <==> Equivalent(entry, a, b)
    decreases a
  {
    if entry.Some? && entry.value.kind == ObjectKind && a.ObjectValue? && b.ObjectValue? {
      ObjectNormalForm(entry.value, a, b);
    } else if entry.Some? && entry.value.kind == ArrayKind && a.ArrayValue? && b.ArrayValue? {
      var x, y := Reorder(entry, a).items, Reorder(entry, b).items;
      if |a.items| == |b.items| {
        forall i | 0 <= i < |a.items|
          ensures x[i] == y[i] <==> Equivalent(entry.value.items, a.items[i], b.items[i])
        {
          NormalForm(entry.value.items, a.items[i], b.items[i]);
        }
        assert x == y <==> forall i :: 0 <= i < |x| ==> x[i] == y[i];
      }
    }
  }

  /** A child of both objects: absent from both, or present in both and equivalent. */
  ghost predicate ChildEquivalent(c: Schema, f: seq<Field>, g: seq<Field>)
    decreases f, 0
  {
    Has(f, c.name) == Has(g, c.name)
    && (Has(f, c.name) && Has(g, c.name) ==> Equivalent(Some(c), f[Index(f, c.name)].value, g[Index(g, c.name)].value))
  }

  lemma {:induction false} ChildNormalForm(children: seq<Schema>, f: seq<Field>, g: seq<Field>, i: nat)
    requires UniqueNames(children) && i < |children| && WellNamed(children[i])
    requires Proper(ObjectValue(f)) && Proper(ObjectValue(g))
    ensures
      var x := SchemaPart(children, f) + ExtraPart(children, f);
      var y := SchemaPart(children, g) + ExtraPart(children, g);
      Lookup(x, children[i].name) == Lookup(y, children[i].name) <==> ChildEquivalent(children[i], f, g)
    ensures Has(f, children[i].name) && Has(g, children[i].name) && ChildEquivalent(children[i], f, g) ==>
      Reorder(Some(children[i]), f[Index(f, children[i].name)].value) ==
        Reorder(Some(children[i]), g[Index(g, children[i].name)].value)
    decreases f, 1
  {
    var name := children[i].name;
    ReorderedObject(children, f, name);
    ReorderedObject(children, g, name);
    NamedChild(children, i);
    if Has(f, name) && Has(g, name) {
      NormalForm(Some(children[i]), f[Index(f, name)].value, g[Index(g, name)].value);
    }
  }

  function Rebuilt(children: seq<Schema>, f: seq<Field>): seq<Field> {
    SchemaPart(children, f) + ExtraPart(children, f)
  }

  lemma {:induction false} SameIsEquivalent(children: seq<Schema>, f: seq<Field>, g: seq<Field>)
    requires UniqueNames(children) && (forall i :: 0 <= i < |children| ==> WellNamed(children[i]))
    requires Proper(ObjectValue(f)) && Proper(ObjectValue(g)) && Rebuilt(children, f) == Rebuilt(children, g)
    ensures forall i :: 0 <= i < |children| ==> ChildEquivalent(children[i], f, g)
    ensures ExtraPart(children, f) == ExtraPart(children, g)
    decreases f, 2
  {
    ReorderedObject(children, f, "");
    ReorderedObject(children, g, "");
    forall i | 0 <= i < |children|
      ensures ChildEquivalent(children[i], f, g)
    {
      ChildNormalForm(children, f, g, i);
    }
  }

  lemma {:induction false} EquivalentIsSame(children: seq<Schema>, f: seq<Field>, g: seq<Field>)
    requires UniqueNames(children) && (forall i :: 0 <= i < |children| ==> WellNamed(children[i]))
    requires Proper(ObjectValue(f)) && Proper(ObjectValue(g))
    requires forall i :: 0 <= i < |children| ==> ChildEquivalent(children[i], f, g)
    requires ExtraPart(children, f) == ExtraPart(children, g)
    ensures Rebuilt(children, f) == Rebuilt(children, g)
    decreases f, 2
  {
    forall i | 0 <= i < |children|
      ensures Has(f, children[i].name) && Has(g, children[i].name) ==>
        Reorder(Some(children[i]), f[Index(f, children[i].name)].value) ==
          Reorder(Some(children[i]), g[Index(g, children[i].name)].value)
    {
      assert ChildEquivalent(children[i], f, g);
      ChildNormalForm(children, f, g, i);
    }
    SameSchemaPart(children, f, g);
  }

  lemma {:induction false} ObjectNormalForm(entry: Schema, a: Ordered, b: Ordered)
    requires ProperPair(Some(entry), a) && ProperPair(Some(entry), b)
    requires entry.kind == ObjectKind && a.ObjectValue? && b.ObjectValue?
    ensures Reorder(Some(entry), a) == Reorder(Some(entry), b) <==> Equivalent(Some(entry), a, b)
    decreases a, 0
  {
    var children, f, g := entry.children, a.fields, b.fields;
    assert Reorder(Some(entry), a) == Reorder(Some(entry), b) <==> Rebuilt(children, f) == Rebuilt(children, g);
    if Rebuilt(children, f) == Rebuilt(children, g) {
      SameIsEquivalent(children, f, g);
    } else if Equivalent(Some(entry), a, b) {
      EquivalentIsSame(children, f, g);
    }
  }

  // ----- content and order

  function KeySet(fields: seq<Field>): set<string> {
    set i | 0 <= i < |fields| :: fields[i].key
  }

  /** The value without any field order. */
  function ToJson(v: Ordered): Json {
    match v
    case NullValue => Null
    case BoolValue(b) => Bool(b)
    case NumberValue(n) => Num(n)
    case StringValue(s) => Str(s)
    case ArrayValue(items) => Arr(seq(|items|, i requires 0 <= i < |items| => ToJson(items[i])))
    case ObjectValue(fields) => Obj(FieldMap(fields))
  }

  function FieldMap(fields: seq<Field>): map<string, Json> {
    map key | key in KeySet(fields) && Has(fields, key) :: ToJson(fields[Index(fields, key)].value)
  }

  lemma FieldMapIs(fields: seq<Field>, key: string)
    ensures key in FieldMap(fields) <==> Has(fields, key)
    ensures Has(fields, key) ==> FieldMap(fields)[key] == ToJson(fields[Index(fields, key)].value)
  {
    if Has(fields, key) {
      assert fields[Index(fields, key)].key in KeySet(fields);
    }
  }

  lemma SameFieldMap(f: seq<Field>, g: seq<Field>)
    requires forall key :: Has(f, key) == Has(g, key)
    requires forall key :: Has(f, key) && Has(g, key) ==>
      ToJson(f[Index(f, key)].value) == ToJson(g[Index(g, key)].value)
    ensures FieldMap(f) == FieldMap(g)
  {
    forall key
      ensures key in FieldMap(f) <==> key in FieldMap(g)
      ensures key in FieldMap(f) ==> FieldMap(f)[key] == FieldMap(g)[key]
    {
      FieldMapIs(f, key);
      FieldMapIs(g, key);
    }
  }

  /** Reordering changes the order of fields and nothing else. */
  lemma {:induction false} ReorderKeepsContent(entry: Option<Schema>, v: Ordered)
    requires ProperPair(entry, v)
    ensures ToJson(Reorder(entry, v)) == ToJson(v)
    decreases v
  {
    if entry.Some? && entry.value.kind == ObjectKind && v.ObjectValue? {
      var children, fields := entry.value.children, v.fields;
      var out := SchemaPart(children, fields) + ExtraPart(children, fields);
      forall key
        ensures Has(out, key) == Has(fields, key)
        ensures Has(out, key) && Has(fields, key) ==>
          ToJson(out[Index(out, key)].value) == ToJson(fields[Index(fields, key)].value)
      {
        ReorderedObject(children, fields, key);
        if Has(fields, key) && HasChild(children, key) {
          ReorderKeepsContent(Some(children[FindChild(children, key)]), fields[Index(fields, key)].value);
        }
      }
      SameFieldMap(out, fields);
    } else if entry.Some? && entry.value.kind == ArrayKind && v.ArrayValue? {
      forall i | 0 <= i < |v.items|
        ensures ToJson(Reorder(entry.value.items, v.items[i])) == ToJson(v.items[i])
      {
        ReorderKeepsContent(entry.value.items, v.items[i]);
      }
      assert ToJson(Reorder(entry, v)).items == ToJson(v).items;
    }
  }

  function Keys(fields: seq<Field>): (keys: seq<string>)
    ensures |keys| == |fields|
  {
    seq(|fields|, i requires 0 <= i < |fields| => fields[i].key)
  }

  /** The names of a schema's children that occur among the fields, in schema order. */
  function PresentNames(children: seq<Schema>, fields: seq<Field>): seq<string> {
    if children == [] then []
    else
      var done := PresentNames(children[..|children| - 1], fields);
      var c := children[|children| - 1];
      if Has(fields, c.name) then done + [c.name] else done
  }

  /** At every depth: schema fields in schema order, then extras as they come. */
  ghost predicate InOrder(entry: Option<Schema>, v: Ordered)
    decreases v
  {
    entry.Some? ==>
      match (entry.value.kind, v)
      case (ObjectKind, ObjectValue(fields)) =>
        && Keys(fields) == PresentNames(entry.value.children, fields) + Keys(ExtraPart(entry.value.children, fields))
        && forall i :: 0 <= i < |entry.value.children| ==> ChildInOrder(entry.value.children[i], fields)
      case (ArrayKind, ArrayValue(items)) => forall i :: 0 <= i < |items| ==> InOrder(entry.value.items, items[i])
      case _ => true
  }

  ghost predicate ChildInOrder(c: Schema, fields: seq<Field>)
    decreases fields, 0
  {
    Has(fields, c.name) ==> InOrder(Some(c), fields[Index(fields, c.name)].value)
  }

  lemma {:induction false} SchemaPartKeys(children: seq<Schema>, fields: seq<Field>)
    requires UniqueNames(children)
    ensures Keys(SchemaPart(children, fields)) == PresentNames(children, fields)
  {
    if children != [] {
      var init, c := children[..|children| - 1], children[|children| - 1];
      SchemaPartKeys(init, fields);
      SchemaPartIs(init, fields, c.name);
      FindInit(children, c.name);
      if Has(fields, c.name) {
        KeysSetField(SchemaPart(init, fields), c.name, Reorder(Some(c), fields[Index(fields, c.name)].value));
      }
    }
  }

  lemma KeysSetField(done: seq<Field>, key: string, value: Ordered)
    requires !Has(done, key)
    ensures Keys(SetField(done, key, value)) == Keys(done) + [key]
  {
  }

  lemma {:induction false} SamePresentNames(children: seq<Schema>, f: seq<Field>, g: seq<Field>)
    requires forall i :: 0 <= i < |children| ==> Has(f, children[i].name) == Has(g, children[i].name)
    ensures PresentNames(children, f) == PresentNames(children, g)
  {
    if children != [] {
      SamePresentNames(children[..|children| - 1], f, g);
    }
  }

  /** The result is in order, at every depth. */
  lemma {:induction false} ReorderedInOrder(entry: Option<Schema>, v: Ordered)
    requires ProperPair(entry, v)
    ensures InOrder(entry, Reorder(entry, v))
    decreases v
  {
    if entry.Some? && entry.value.kind == ObjectKind && v.ObjectValue? {
      ObjectInOrder(entry.value, v.fields);
    } else if entry.Some? && entry.value.kind == ArrayKind && v.ArrayValue? {
      forall i | 0 <= i < |v.items|
        ensures InOrder(entry.value.items, Reorder(entry.value.items, v.items[i]))
      {
        ReorderedInOrder(entry.value.items, v.items[i]);
      }
    }
  }

  lemma {:induction false} ObjectInOrder(entry: Schema, fields: seq<Field>)
    requires WellNamed(entry) && Proper(ObjectValue(fields))
    ensures
      var out := SchemaPart(entry.children, fields) + ExtraPart(entry.children, fields);
      && Keys(out) == PresentNames(entry.children, out) + Keys(ExtraPart(entry.children, out))
      && (forall i :: 0 <= i < |entry.children| ==> ChildInOrder(entry.children[i], out))
    decreases fields, 1
  {
    var children := entry.children;
    var out := SchemaPart(children, fields) + ExtraPart(children, fields);
    forall i | 0 <= i < |children|
      ensures Has(out, children[i].name) == Has(fields, children[i].name) && ChildInOrder(children[i], out)
    {
      ChildOfReordered(entry, fields, i);
    }
    SamePresentNames(children, out, fields);
    ReorderedKeys(children, fields);
  }

  lemma ReorderedKeys(children: seq<Schema>, fields: seq<Field>)
    requires UniqueNames(children) && DistinctKeys(fields)
    ensures
      var out := SchemaPart(children, fields) + ExtraPart(children, fields);
      Keys(out) == PresentNames(children, fields) + Keys(ExtraPart(children, fields)) &&
        ExtraPart(children, out) == ExtraPart(children, fields)
  {
    SchemaPartKeys(children, fields);
    KeysAppend(SchemaPart(children, fields), ExtraPart(children, fields));
    ReorderedObject(children, fields, "");
  }

  lemma {:induction false} ChildOfReordered(entry: Schema, fields: seq<Field>, i: nat)
    requires WellNamed(entry) && Proper(ObjectValue(fields)) && i < |entry.children|
    ensures
      var out := SchemaPart(entry.children, fields) + ExtraPart(entry.children, fields);
      Has(out, entry.children[i].name) == Has(fields, entry.children[i].name) && ChildInOrder(entry.children[i], out)
    decreases fields, 0
  {
    var name := entry.children[i].name;
    ReorderedObject(entry.children, fields, name);
    NamedChild(entry.children, i);
    if Has(fields, name) {
      ReorderedInOrder(Some(entry.children[i]), fields[Index(fields, name)].value);
    }
  }

  /** And a value already in order is left alone: the order fixes the result. */
  lemma {:induction false} InOrderIsFixed(entry: Option<Schema>, v: Ordered)
    requires ProperPair(entry, v) && InOrder(entry, v)
    ensures Reorder(entry, v) == v
    decreases v
  {
    if entry.Some? && entry.value.kind == ObjectKind && v.ObjectValue? {
      ObjectIsFixed(entry.value, v.fields);
    } else if entry.Some? && entry.value.kind == ArrayKind && v.ArrayValue? {
      forall i | 0 <= i < |v.items|
        ensures Reorder(entry.value.items, v.items[i]) == v.items[i]
      {
        InOrderIsFixed(entry.value.items, v.items[i]);
      }
    }
  }

  lemma {:induction false} ObjectIsFixed(entry: Schema, fields: seq<Field>)
    requires WellNamed(entry) && Proper(ObjectValue(fields))
    requires Keys(fields) == PresentNames(entry.children, fields) + Keys(ExtraPart(entry.children, fields))
    requires forall i :: 0 <= i < |entry.children| ==> ChildInOrder(entry.children[i], fields)
    ensures SchemaPart(entry.children, fields) + ExtraPart(entry.children, fields) == fields
    decreases fields, 1
  {
    var named, extra := SchemaPart(entry.children, fields), ExtraPart(entry.children, fields);
    SchemaPartKeys(entry.children, fields);
    KeysAppend(named, extra);
    forall k | 0 <= k < |fields|
      ensures (named + extra)[k] == fields[k]
    {
      assert fields[k].key == Keys(fields)[k] == Keys(named + extra)[k];
      FieldIsFixed(entry, fields, named + extra, k);
    }
  }

  lemma KeysAppend(a: seq<Field>, b: seq<Field>)
    ensures Keys(a + b) == Keys(a) + Keys(b)
  {
  }

  lemma {:induction false} FieldIsFixed(entry: Schema, fields: seq<Field>, out: seq<Field>, k: nat)
    requires WellNamed(entry) && Proper(ObjectValue(fields))
    requires forall i :: 0 <= i < |entry.children| ==> ChildInOrder(entry.children[i], fields)
    requires out == SchemaPart(entry.children, fields) + ExtraPart(entry.children, fields)
    requires k < |fields| && k < |out| && out[k].key == fields[k].key
    ensures out[k] == fields[k]
    decreases fields, 0
  {
    var key, children := fields[k].key, entry.children;
    ReorderedObject(children, fields, key);
    LookupAt(fields, k);
    LookupAt(out, k);
    if HasChild(children, key) {
      var c := children[FindChild(children, key)];
      assert ChildInOrder(c, fields);
      InOrderIsFixed(Some(c), fields[Index(fields, key)].value);
    }
  }

  // ----- whole documents

  lemma {:induction false} ContentLookup(fields: seq<Field>, key: string)
    requires DistinctKeys(fields)
    ensures Lookup(Content(fields), key) == if key in META_ORDER then None else Lookup(fields, key)
  {
    if fields != [] {
      var init, last := fields[..|fields| - 1], fields[|fields| - 1];
      ContentLookup(init, key);
      assert fields == init + [last];
      Grown(init, last, key);
      Grown(Content(init), last, key);
    }
  }

  lemma {:induction false} ContentIs(fields: seq<Field>, key: string)
    requires DistinctKeys(fields)
    ensures Lookup(Content(fields), key) == if key in META_ORDER then None else Lookup(fields, key)
    ensures DistinctKeys(Content(fields))
    ensures forall i :: 0 <= i < |Content(fields)| ==>
      Content(fields)[i].key !in META_ORDER && Content(fields)[i] in fields
  {
    ContentLookup(fields, key);
    if fields != [] {
      var init, last := fields[..|fields| - 1], fields[|fields| - 1];
      ContentIs(init, last.key);
      HasIff(init, last.key);
      if last.key !in META_ORDER {
        GrownDistinct(Content(init), last);
      }
    }
  }

  lemma ProperContent(fields: seq<Field>)
    requires Proper(ObjectValue(fields))
    ensures Proper(ObjectValue(Content(fields)))
  {
    ContentIs(fields, "");
  }

  lemma {:induction false} ContentAppend(a: seq<Field>, b: seq<Field>)
    ensures Content(a + b) == Content(a) + Content(b)
  {
    if b == [] {
      assert a + b == a;
    } else {
      var init, last := b[..|b| - 1], b[|b| - 1];
      assert (a + b)[..|a + b| - 1] == a + init;
      ContentAppend(a, init);
    }
  }

  lemma {:induction false} ContentOf(a: seq<Field>)
    ensures (forall i :: 0 <= i < |a| ==> a[i].key in META_ORDER) ==> Content(a) == []
    ensures (forall i :: 0 <= i < |a| ==> a[i].key !in META_ORDER) ==> Content(a) == a
  {
    if a != [] {
      ContentOf(a[..|a| - 1]);
      assert a == a[..|a| - 1] + [a[|a| - 1]];
    }
  }

  lemma {:induction false} MetaPartIs(fields: seq<Field>, names: seq<string>, key: string)
    requires forall i, j :: 0 <= i < j < |names| ==> names[i] != names[j]
    ensures Lookup(MetaPart(fields, names), key) == if key in names then Lookup(fields, key) else None
    ensures forall i :: 0 <= i < |MetaPart(fields, names)| ==> MetaPart(fields, names)[i].key in names
  {
    if names != [] {
      var init, name := names[..|names| - 1], names[|names| - 1];
      MetaPartIs(fields, init, key);
      assert names == init + [name];
      if Has(fields, name) {
        var x := Field(name, fields[Index(fields, name)].value);
        LookupAppend(MetaPart(fields, init), [x], key);
        SingleField(x, key);
      }
    }
  }

  lemma {:induction false} SameMetaPart(f: seq<Field>, g: seq<Field>, names: seq<string>)
    requires forall i :: 0 <= i < |names| ==> Lookup(f, names[i]) == Lookup(g, names[i])
    ensures MetaPart(f, names) == MetaPart(g, names)
  {
    if names != [] {
      SameMetaPart(f, g, names[..|names| - 1]);
    }
  }

  /** The document's reordered content has the content's keys, so none of the metadata. */
  lemma BodyKeys(root: Schema, doc: seq<Field>, key: string)
    requires WellNamed(root) && Proper(ObjectValue(doc))
    ensures Has(Reorder(Some(root), ObjectValue(Content(doc))).fields, key) <==> key !in META_ORDER && Has(doc, key)
  {
    ContentIs(doc, key);
    ReorderKeepsKeys(root, Content(doc), key);
  }

  lemma ReorderKeepsKeys(root: Schema, fields: seq<Field>, key: string)
    requires UniqueNames(root.children) && DistinctKeys(fields)
    ensures Reorder(Some(root), ObjectValue(fields)).ObjectValue?
    ensures Has(Reorder(Some(root), ObjectValue(fields)).fields, key) <==> Has(fields, key)
    ensures DistinctKeys(Reorder(Some(root), ObjectValue(fields)).fields)
  {
    if root.kind == ObjectKind {
      ReorderedObject(root.children, fields, key);
    }
  }

  /** The two documents agree on the metadata. */
  ghost predicate SameMeta(a: seq<Field>, b: seq<Field>) {
    forall i :: 0 <= i < |META_ORDER| ==> Lookup(a, META_ORDER[i]) == Lookup(b, META_ORDER[i])
  }

  lemma SameMetaTrans(c: seq<Field>, a: seq<Field>, b: seq<Field>)
    requires SameMeta(c, a) && SameMeta(c, b)
    ensures SameMeta(a, b)
  {
  }

  /** The content of `c` is the document's, reordered, and its metadata is the document's. */
  ghost predicate PartsOf(root: Schema, doc: seq<Field>, c: seq<Field>) {
    ObjectValue(Content(c)) == Reorder(Some(root), ObjectValue(Content(doc))) && SameMeta(c, doc)
  }

  /** Taking a canonical document apart again. */
  lemma CanonicalParts(root: Schema, doc: seq<Field>, c: seq<Field>)
    requires WellNamed(root) && Proper(ObjectValue(doc)) && c == Canonical(root, doc)
    ensures PartsOf(root, doc, c)
  {
    var meta, body := MetaPart(doc, META_ORDER), Reorder(Some(root), ObjectValue(Content(doc))).fields;
    MetaPartIs(doc, META_ORDER, "");
    forall key
      ensures Has(body, key) ==> key !in META_ORDER
      ensures key in META_ORDER ==> Lookup(meta, key) == Lookup(doc, key)
    {
      BodyKeys(root, doc, key);
      MetaPartIs(doc, META_ORDER, key);
    }
    ApartAgain(meta, body, doc);
  }

  lemma ContentApart(meta: seq<Field>, body: seq<Field>)
    requires forall i :: 0 <= i < |meta| ==> meta[i].key in META_ORDER
    requires forall key :: Has(body, key) ==> key !in META_ORDER
    ensures Content(meta + body) == body
  {
    forall i | 0 <= i < |body|
      ensures body[i].key !in META_ORDER
    {
      HasIff(body, body[i].key);
    }
    ContentAppend(meta, body);
    ContentOf(meta);
    ContentOf(body);
  }

  lemma ApartAgain(meta: seq<Field>, body: seq<Field>, doc: seq<Field>)
    requires forall i :: 0 <= i < |meta| ==> meta[i].key in META_ORDER
    requires forall key :: Has(body, key) ==> key !in META_ORDER
    requires forall key :: key in META_ORDER ==> Lookup(meta, key) == Lookup(doc, key)
    ensures Content(meta + body) == body && SameMeta(meta + body, doc)
  {
    ContentApart(meta, body);
    forall i | 0 <= i < |META_ORDER|
      ensures Lookup(meta + body, META_ORDER[i]) == Lookup(doc, META_ORDER[i])
    {
      LookupAppend(meta, body, META_ORDER[i]);
    }
  }

  /** Canonicalizing keeps every key and value of the document. */
  lemma CanonicalKeepsContent(root: Schema, doc: seq<Field>)
    requires WellNamed(root) && Proper(ObjectValue(doc))
    ensures ToJson(ObjectValue(Canonical(root, doc))) == ToJson(ObjectValue(doc))
  {
    var meta, content := MetaPart(doc, META_ORDER), Content(doc);
    var body := Reorder(Some(root), ObjectValue(content)).fields;
    ProperContent(doc);
    ReorderKeepsContent(Some(root), ObjectValue(content));
    assert FieldMap(body) == FieldMap(content);
    forall key
      ensures Has(meta + body, key) == Has(doc, key)
      ensures Has(meta + body, key) && Has(doc, key) ==>
        ToJson((meta + body)[Index(meta + body, key)].value) == ToJson(doc[Index(doc, key)].value)
    {
      MetaPartIs(doc, META_ORDER, key);
      LookupAppend(meta, body, key);
      BodyKeys(root, doc, key);
      ContentIs(doc, key);
      FieldMapIs(body, key);
      FieldMapIs(content, key);
    }
    SameFieldMap(meta + body, doc);
  }

  /** Canonicalizing twice is canonicalizing once. */
  lemma CanonicalTwice(root: Schema, doc: seq<Field>)
    requires WellNamed(root) && Proper(ObjectValue(doc))
    ensures Canonical(root, Canonical(root, doc)) == Canonical(root, doc)
  {
    CanonicalAgain(root, doc, Canonical(root, doc));
  }

  lemma CanonicalAgain(root: Schema, doc: seq<Field>, c: seq<Field>)
    requires WellNamed(root) && Proper(ObjectValue(doc)) && c == Canonical(root, doc)
    ensures Canonical(root, c) == c
  {
    CanonicalParts(root, doc, c);
    SameMetaPart(c, doc, META_ORDER);
    ProperContent(doc);
    ReorderTwice(Some(root), ObjectValue(Content(doc)));
  }

  lemma SharedParts(root: Schema, a: seq<Field>, b: seq<Field>, c: seq<Field>)
    requires PartsOf(root, a, c) && PartsOf(root, b, c)
    ensures SameMeta(a, b)
    ensures Reorder(Some(root), ObjectValue(Content(a))) == Reorder(Some(root), ObjectValue(Content(b)))
  {
    SameMetaTrans(c, a, b);
  }

  lemma SamePartsCanonical(root: Schema, a: seq<Field>, b: seq<Field>)
    requires SameMeta(a, b)
    requires Reorder(Some(root), ObjectValue(Content(a))) == Reorder(Some(root), ObjectValue(Content(b)))
    ensures Canonical(root, a) == Canonical(root, b)
  {
    SameMetaPart(a, b, META_ORDER);
  }

  lemma ContentNormalForm(root: Schema, a: seq<Field>, b: seq<Field>)
    requires WellNamed(root) && Proper(ObjectValue(a)) && Proper(ObjectValue(b))
    ensures Reorder(Some(root), ObjectValue(Content(a))) == Reorder(Some(root), ObjectValue(Content(b)))
      <==> SameContent(root, a, b)
  {
    ProperContent(a);
    ProperContent(b);
    NormalForm(Some(root), ObjectValue(Content(a)), ObjectValue(Content(b)));
  }

  /** The contents differ at most in the order of schema-named fields. */
  ghost predicate SameContent(root: Schema, a: seq<Field>, b: seq<Field>) {
    Equivalent(Some(root), ObjectValue(Content(a)), ObjectValue(Content(b)))
  }

  /** Two documents have the same canonical form if and only if they agree on the metadata and their
      contents differ at most in the order of schema-named fields. */
  lemma CanonicalIff(root: Schema, a: seq<Field>, b: seq<Field>)
    requires WellNamed(root) && Proper(ObjectValue(a)) && Proper(ObjectValue(b))
    ensures Canonical(root, a) == Canonical(root, b) <==> SameMeta(a, b) && SameContent(root, a, b)
  {
    if Canonical(root, a) == Canonical(root, b) {
      CanonicalParts(root, a, Canonical(root, a));
      CanonicalParts(root, b, Canonical(root, a));
      SharedParts(root, a, b, Canonical(root, a));
      ContentNormalForm(root, a, b);
    }
    if SameMeta(a, b) && SameContent(root, a, b) {
      ContentNormalForm(root, a, b);
      SamePartsCanonical(root, a, b);
    }
  }

  /** The order of a canonical document: metadata, then schema fields, then extras. */
  lemma CanonicalOrder(root: Schema, doc: seq<Field>)
    requires WellNamed(root) && root.kind == ObjectKind && Proper(ObjectValue(doc))
    ensures Keys(Canonical(root, doc)) ==
      Present(["!", "$", "#"], doc) + PresentNames(root.children, Content(doc)) +
        Keys(ExtraPart(root.children, Content(doc)))
  {
    ProperContent(doc);
    MetaKeys(doc, META_ORDER);
    KeysAfter(MetaPart(doc, META_ORDER), root.children, Content(doc));
  }

  /** Those of the names that are keys of the document, in the order of the names. */
  function Present(names: seq<string>, doc: seq<Field>): seq<string> {
    if names == [] then []
    else
      var before, name := Present(names[..|names| - 1], doc), names[|names| - 1];
      if exists i :: 0 <= i < |doc| && doc[i].key == name then before + [name] else before
  }

  lemma {:induction false} MetaKeys(doc: seq<Field>, names: seq<string>)
    ensures Keys(MetaPart(doc, names)) == Present(names, doc)
  {
    if names != [] {
      var n := |names| - 1;
      MetaKeys(doc, names[..n]);
      assert Has(doc, names[n]) <==> exists i :: 0 <= i < |doc| && doc[i].key == names[n];
    }
  }

  lemma KeysAfter(meta: seq<Field>, children: seq<Schema>, content: seq<Field>)
    requires UniqueNames(children) && DistinctKeys(content)
    ensures Keys(meta + (SchemaPart(children, content) + ExtraPart(children, content))) ==
      Keys(meta) + PresentNames(children, content) + Keys(ExtraPart(children, content))
  {
    ReorderedKeys(children, content);
    KeysAppend(meta, SchemaPart(children, content) + ExtraPart(children, content));
  }

  /** And nested values are in schema order too. */
  lemma CanonicalInOrder(root: Schema, doc: seq<Field>)
    requires WellNamed(root) && Proper(ObjectValue(doc))
    ensures InOrder(Some(root), ObjectValue(Content(Canonical(root, doc))))
  {
    ProperContent(doc);
    CanonicalParts(root, doc, Canonical(root, doc));
    ReorderedInOrder(Some(root), ObjectValue(Content(doc)));
  }

  // ----- the loops of the source

  method ReorderBySchema(entry: Option<Schema>, v: Ordered) returns (r: Ordered)
    requires ProperPair(entry, v)
    ensures r == Reorder(entry, v)
    decreases v
  {
    if entry.None? {
      return v;
    }
    match (entry.value.kind, v) {
      case (ObjectKind, ObjectValue(fields)) =>
        var named := ReorderNamed(entry.value.children, fields);
        var out := AppendExtras(entry.value.children, fields, named);
        return ObjectValue(out);
      case (ArrayKind, ArrayValue(items)) =>
        var out: seq<Ordered> := [];
        for i := 0 to |items|
          invariant |out| == i && forall k :: 0 <= k < i ==> out[k] == Reorder(entry.value.items, items[k])
        {
          var nested := ReorderBySchema(entry.value.items, items[i]);
          out := out + [nested];
        }
        return ArrayValue(out);
      case _ => return v;
    }
  }

  /** The schema's fields that are present, each reordered by its own entry. */
  method ReorderNamed(children: seq<Schema>, fields: seq<Field>) returns (out: seq<Field>)
    requires (forall i :: 0 <= i < |children| ==> WellNamed(children[i])) && Proper(ObjectValue(fields))
    ensures out == SchemaPart(children, fields)
    decreases fields, 0
  {
    out := [];
    for i := 0 to |children|
      invariant out == SchemaPart(children[..i], fields)
    {
      assert children[..i + 1][..i] == children[..i];
      var c := children[i];
      if Has(fields, c.name) {
        var nested := ReorderBySchema(Some(c), fields[Index(fields, c.name)].value);
        out := SetField(out, c.name, nested);
      }
    }
    assert children[..|children|] == children;
  }

  method AppendExtras(children: seq<Schema>, fields: seq<Field>, named: seq<Field>) returns (out: seq<Field>)
    requires UniqueNames(children) && DistinctKeys(fields) && named == SchemaPart(children, fields)
    ensures out == named + ExtraPart(children, fields)
  {
    out := named;
    for k := 0 to |fields|
      invariant out == named + ExtraPart(children, fields[..k])
    {
      assert fields[..k + 1][..k] == fields[..k];
      if !HasChild(children, fields[k].key) {
        NotYetThere(children, fields, k);
        out := SetField(out, fields[k].key, fields[k].value);
      }
    }
    assert fields[..|fields|] == fields;
  }

  lemma NotYetThere(children: seq<Schema>, fields: seq<Field>, k: nat)
    requires UniqueNames(children) && DistinctKeys(fields) && k < |fields| && !HasChild(children, fields[k].key)
    ensures !Has(SchemaPart(children, fields) + ExtraPart(children, fields[..k]), fields[k].key)
  {
    var key := fields[k].key;
    SchemaPartIs(children, fields, key);
    ExtraPartIs(children, fields[..k], key);
    HasIff(fields[..k], key);
    LookupAppend(SchemaPart(children, fields), ExtraPart(children, fields[..k]), key);
  }

  method CollectContent(doc: seq<Field>) returns (content: seq<Field>)
    requires DistinctKeys(doc)
    ensures content == Content(doc)
  {
    content := [];
    for i := 0 to |doc|
      invariant content == Content(doc[..i])
    {
      assert doc[..i + 1][..i] == doc[..i];
      if doc[i].key !in META_ORDER {
        ContentIs(doc[..i], doc[i].key);
        HasIff(doc[..i], doc[i].key);
        content := SetField(content, doc[i].key, doc[i].value);
      }
    }
    assert doc[..|doc|] == doc;
  }

  method CollectMeta(doc: seq<Field>) returns (out: seq<Field>)
    ensures out == MetaPart(doc, META_ORDER)
  {
    out := [];
    for i := 0 to |META_ORDER|
      invariant out == MetaPart(doc, META_ORDER[..i])
    {
      assert META_ORDER[..i + 1][..i] == META_ORDER[..i];
      var name := META_ORDER[i];
      if Has(doc, name) {
        MetaPartIs(doc, META_ORDER[..i], name);
        out := SetField(out, name, doc[Index(doc, name)].value);
      }
    }
    assert META_ORDER[..|META_ORDER|] == META_ORDER;
  }

  method Canonicalize(root: Schema, doc: seq<Field>) returns (out: seq<Field>)
    requires WellNamed(root) && Proper(ObjectValue(doc))
    ensures out == Canonical(root, doc)
  {
    var content := CollectContent(doc);
    ProperContent(doc);
    var body := ReorderBySchema(Some(root), ObjectValue(content));
    var meta := CollectMeta(doc);
    forall k | 0 <= k < |body.fields|
      ensures !Has(meta + body.fields[..k], body.fields[k].key)
    {
      BodyNotYetThere(root, doc, k);
    }
    out := SetAll(meta, body.fields);
  }

  method SetAll(fields: seq<Field>, more: seq<Field>) returns (out: seq<Field>)
    requires forall k :: 0 <= k < |more| ==> !Has(fields + more[..k], more[k].key)
    ensures out == fields + more
  {
    out := fields;
    for k := 0 to |more|
      invariant out == fields + more[..k]
    {
      out := SetField(out, more[k].key, more[k].value);
      assert more[..k + 1] == more[..k] + [more[k]];
    }
    assert more[..|more|] == more;
  }

  lemma BodyNotYetThere(root: Schema, doc: seq<Field>, k: nat)
    requires WellNamed(root) && Proper(ObjectValue(doc))
    requires k < |Reorder(Some(root), ObjectValue(Content(doc))).fields|
    ensures
      var body := Reorder(Some(root), ObjectValue(Content(doc))).fields;
      !Has(MetaPart(doc, META_ORDER) + body[..k], body[k].key)
  {
    var body := Reorder(Some(root), ObjectValue(Content(doc))).fields;
    var key := body[k].key;
    BodyKeys(root, doc, key);
    HasIff(body, key);
    MetaPartIs(doc, META_ORDER, key);
    BodyDistinct(root, doc);
    HasIff(body[..k], key);
    LookupAppend(MetaPart(doc, META_ORDER), body[..k], key);
  }

  lemma BodyDistinct(root: Schema, doc: seq<Field>)
    requires WellNamed(root) && Proper(ObjectValue(doc))
    ensures DistinctKeys(Reorder(Some(root), ObjectValue(Content(doc))).fields)
  {
    ContentIs(doc, "");
    ReorderKeepsKeys(root, Content(doc), "");
  }
}
