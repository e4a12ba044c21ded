/** internal/schemapatch: one update list read twice, as a change to a schema tree (apply.go) and as a
    change to a document (document.go). Trees are rebuilt instead of changed through shared references. */
module SchemaPatch {
  import opened Json
  import opened Schema

  datatype OpName = Add | Import | Remove | Abandon | Replace | Move | Copy | Convert

  /** One update. `failover` is Null when absent or null, as the source does not tell these apart. */
  datatype UpdateOp = UpdateOp(op: OpName, path: string, from: string, schema: Option<Schema>, value: Option<Json>,
    failover: Json)

  // ----- schema trees

  datatype Edit = Append(child: Schema) | Drop(name: string) | Put(child: Schema)

  function ApplyEdit(children: seq<Schema>, e: Edit): Option<seq<Schema>> {
    match e
    case Append(c) => if HasChild(children, c.name) then None else Some(children + [c])
    case Drop(name) =>
      var i := FindChild(children, name);
      if i == |children| then None else Some(children[..i] + children[i + 1..])
    case Put(c) =>
      var i := FindChild(children, c.name);
      if i == |children| then None else Some(children[i := c])
  }

  /** The edit applied to the children of the node at `parent`; None when the path or the edit fails. */
  function EditAt(children: seq<Schema>, parent: seq<string>, e: Edit): Option<seq<Schema>>
    decreases parent
  {
    if parent == [] then ApplyEdit(children, e)
    else
      var i := FindChild(children, parent[0]);
      if i == |children| then None
      else match EditAt(children[i].children, parent[1..], e)
        case None => None
        case Some(cs) => Some(children[i := children[i].(children := cs)])
  }

  function NodeAt(children: seq<Schema>, path: seq<string>): Option<Schema>
    requires path != []
    decreases path
  {
    var i := FindChild(children, path[0]);
    if i == |children| then None
    else if |path| == 1 then Some(children[i])
    else NodeAt(children[i].children, path[1..])
  }

  function Parent(path: seq<string>): seq<string>
    requires path != []
  {
    path[..|path| - 1]
  }

  function Leaf(path: seq<string>): string
    requires path != []
  {
    path[|path| - 1]
  }

  function Named(s: Schema, name: string): Schema { s.(name := name) }

  /** One update on the root's children. A node moved below itself is detached and lost, as in the source. */
  function ApplyOp(children: seq<Schema>, op: UpdateOp): Option<seq<Schema>> {
    var path := FieldPath(op.path);
    if path == [] then None
    else
      match op.op
      case Add => if op.schema.None? then None
        else EditAt(children, Parent(path), Append(Named(op.schema.value, Leaf(path))))
      case Import => if op.schema.None? then None
        else EditAt(children, Parent(path), Append(Named(op.schema.value, Leaf(path))))
      case Remove => EditAt(children, Parent(path), Drop(Leaf(path)))
      case Abandon => EditAt(children, Parent(path), Drop(Leaf(path)))
      case Replace => if NodeAt(children, path).None? then None else Some(children)
      case Convert => if op.schema.None? then None
        else EditAt(children, Parent(path), Put(Named(op.schema.value, Leaf(path))))
      case Copy =>
        var from := FieldPath(op.from);
        if from == [] || NodeAt(children, from).None? then None
        else EditAt(children, Parent(path), Append(Named(NodeAt(children, from).value, Leaf(path))))
      case Move =>
        var from := FieldPath(op.from);
        if from == [] || NodeAt(children, from).None? then None
        else
          var e := Append(Named(NodeAt(children, from).value, Leaf(path)));
          var without := EditAt(children, Parent(from), Drop(Leaf(from)));
          if EditAt(children, Parent(path), e).None? || without.None? then None
          else if from <= Parent(path) then without
          else EditAt(without.value, Parent(path), e)
  }

  function Apply(children: seq<Schema>, ops: seq<UpdateOp>): Option<seq<Schema>>
    decreases |ops|
  {
    if ops == [] then Some(children)
    else match ApplyOp(children, ops[0])
      case None => None
      case Some(cs) => Apply(cs, ops[1..])
  }

  /** The update loop of the source. */
  method ApplySpec(children: seq<Schema>, ops: seq<UpdateOp>) returns (r: Option<seq<Schema>>)
    ensures r == Apply(children, ops)
  {
    var cur := children;
    for i := 0 to |ops|
      invariant Apply(cur, ops[i..]) == Apply(children, ops)
    {
      assert ops[i..][0] == ops[i] && ops[i..][1..] == ops[i + 1..];
      var next := ApplyOp(cur, ops[i]);
      if next.None? {
        return None;
      }
      cur := next.value;
    }
    return Some(cur);
  }

  // ----- documents

  /** How values turn into strings and strings into numbers; only their kinds matter here. */
  datatype Converter = Converter(stringify: Json -> string, leadingNumber: string -> real)

  function GetAt(fields: Doc, path: seq<string>): Option<Json>
    requires path != []
    decreases path
  {
    if path[0] !in fields then None
    else if |path| == 1 then Some(fields[path[0]])
    else if fields[path[0]].Obj? then GetAt(fields[path[0]].fields, path[1..])
    else None
  }

  /** Anything on the way that is not an object is replaced by an empty one. */
  function SetAt(fields: Doc, path: seq<string>, v: Json): Doc
    requires path != []
    decreases path
  {
    if |path| == 1 then fields[path[0] := v]
    else
      var inner := if path[0] in fields && fields[path[0]].Obj? then fields[path[0]].fields else map[];
      fields[path[0] := Obj(SetAt(inner, path[1..], v))]
  }

  function RemoveAt(fields: Doc, path: seq<string>): Doc
    requires path != []
    decreases path
  {
    if |path| == 1 then fields - {path[0]}
    else if path[0] in fields && fields[path[0]].Obj?
      then fields[path[0] := Obj(RemoveAt(fields[path[0]].fields, path[1..]))]
    else fields
  }

  function EmptyValue(kind: Kind): Json {
    match kind
    case StringKind => Str("")
    case NumberKind => Num(0.0)
    case BooleanKind => Bool(false)
    case ArrayKind => Arr([])
    case ObjectKind => Obj(map[])
    case OtherKind => Null
  }

  /** The value for a new field: supplied, default, failover, then null or the empty value if required. */
  function FillValue(value: Option<Json>, schema: Option<Schema>, failover: Json): Option<Json> {
    if value.Some? then value
    else if schema.None? then None
    else if schema.value.default.Some? then schema.value.default
    else if failover != Null then Some(failover)
    else if !schema.value.required then None
    else if schema.value.nullable then Some(Null)
    else Some(EmptyValue(schema.value.kind))
  }

  predicate KindMatches(kind: Kind, v: Json) {
    match kind
    case StringKind => v.Str?
    case NumberKind => v.Num?
    case BooleanKind => v.Bool?
    case ArrayKind => v.Arr?
    case ObjectKind => v.Obj?
    case OtherKind => true
  }

  predicate IsEmptyOrNull(v: Json) {
    match v
    case Null => true
    case Bool(b) => !b
    case Str(s) => s == ""
    case Num(n) => n == 0.0
    case Arr(items) => items == []
    case Obj(fields) => fields == map[]
  }

  function ConvertKind(cv: Converter, v: Json, kind: Kind): Json {
    match kind
    case BooleanKind => Bool(!IsEmptyOrNull(v))
    case StringKind =>
      (match v
       case Null => Str("null")
       case Str(s) => v
       case Bool(b) => Str(if b then "true" else "false")
       case _ => Str(cv.stringify(v)))
    case NumberKind =>
      (match v
       case Bool(b) => Num(if b then 1.0 else 0.0)
       case Str(s) => Num(cv.leadingNumber(s))
       case Arr(items) => Num(|items| as real)
       case Obj(fields) => Num(|fields| as real)
       case Num(n) => v
       case Null => Num(0.0))
    case ArrayKind => if v.Arr? then v else Arr([v])
    case ObjectKind => if v.Obj? then v else Obj(map[])
    case OtherKind => v
  }

  function Filled(doc: Doc, path: seq<string>, fill: Option<Json>): Doc
    requires path != []
  {
    if fill.Some? then SetAt(doc, path, fill.value) else RemoveAt(doc, path)
  }

  /** Neither path is the document root. */
  predicate HasPaths(op: UpdateOp) {
    FieldPath(op.path) != [] && (op.op == Move || op.op == Copy ==> FieldPath(op.from) != [])
  }

  /** One update on a document; None when it fails. */
  function ApplyDocOp(cv: Converter, doc: Doc, op: UpdateOp): Option<Doc>
    requires HasPaths(op)
  {
    var path, from := FieldPath(op.path), FieldPath(op.from);
    match op.op
    case Add => Some(Filled(doc, path, FillValue(op.value, op.schema, op.failover)))
    case Import =>
      var existing := GetAt(doc, path);
      if existing.Some? && (op.schema.None? || KindMatches(op.schema.value.kind, existing.value)) then Some(doc)
      else
        var base := if existing.Some? then RemoveAt(doc, path) else doc;
        Some(Filled(base, path, FillValue(op.value, op.schema, op.failover)))
    case Remove => Some(RemoveAt(doc, path))
    case Abandon => Some(doc)
    case Replace => if op.value.None? then None else Some(SetAt(doc, path, op.value.value))
    case Move =>
      (match GetAt(doc, from)
       case None => Some(doc)
       case Some(v) => Some(SetAt(RemoveAt(doc, from), path, v)))
    case Copy =>
      (match GetAt(doc, from)
       case None => Some(doc)
       case Some(v) => Some(SetAt(doc, path, v)))
    case Convert =>
      if op.value.Some? then Some(SetAt(doc, path, op.value.value))
      else match GetAt(doc, path)
        case Some(v) => Some(SetAt(doc, path,
          ConvertKind(cv, v, if op.schema.Some? then op.schema.value.kind else OtherKind)))
        case None =>
          var fill := FillValue(None, op.schema, op.failover);
          Some(if fill.Some? then SetAt(doc, path, fill.value) else doc)
  }
}
