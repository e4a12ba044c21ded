/** internal/rfc6902/rfc6902.go: the JSON Patch operations of RFC 6902 section 4 on decoded documents,
    with the pointers of RFC 6901. Nested maps and slices are rebuilt along the path; the source
    changes them in place. */
module JsonPatch {
  import opened Json

  // ----- pointers

  /** strings.ReplaceAll of the two characters `a`, `b` by `c`. */
  function ReplacePair(s: string, a: char, b: char, c: char): string {
    if s == [] then []
    else if |s| >= 2 && s[0] == a && s[1] == b then [c] + ReplacePair(s[2..], a, b, c)
    else [s[0]] + ReplacePair(s[1..], a, b, c)
  }

  function Unescape(token: string): string {
    ReplacePair(ReplacePair(token, '~', '1', '/'), '~', '0', '~')
  }

  function Unescaped(tokens: seq<string>): seq<string> {
    seq(|tokens|, i requires 0 <= i < |tokens| => Unescape(tokens[i]))
  }

  function SplitPointer(path: string): seq<string> {
    Unescaped(FieldPath(path))
  }

  /** How section 3 of RFC 6901 writes a token. */
  function EscapeChar(c: char): string {
    if c == '~' then "~0" else if c == '/' then "~1" else [c]
  }

  function Escape(token: string): string {
    if token == [] then [] else EscapeChar(token[0]) + Escape(token[1..])
  }

  function Pointer(tokens: seq<string>): string {
    if tokens == [] then "" else "/" + Join(seq(|tokens|, i requires 0 <= i < |tokens| => Escape(tokens[i])), '/')
  }

  /** Only the tildes of a token escaped: what is left after slashes have been restored. */
  function Tildes(token: string): string {
    if token == [] then [] else (if token[0] == '~' then "~0" else [token[0]]) + Tildes(token[1..])
  }

  lemma PairHit(rest: string, a: char, b: char, c: char)
    ensures ReplacePair([a, b] + rest, a, b, c) == [c] + ReplacePair(rest, a, b, c)
  {
    assert ([a, b] + rest)[2..] == rest;
  }

  lemma PairMiss(x: char, rest: string, a: char, b: char, c: char)
    requires x == a && rest != [] ==> rest[0] != b
    ensures ReplacePair([x] + rest, a, b, c) == [x] + ReplacePair(rest, a, b, c)
  {
    assert ([x] + rest)[1..] == rest;
  }

  lemma TildeKept(rest: string)
    ensures ReplacePair("~0" + rest, '~', '1', '/') == "~0" + ReplacePair(rest, '~', '1', '/')
  {
    assert "~0" + rest == ['~'] + (['0'] + rest);
    PairMiss('~', ['0'] + rest, '~', '1', '/');
    PairMiss('0', rest, '~', '1', '/');
  }

  lemma {:induction false} SlashesRestored(token: string)
    ensures ReplacePair(Escape(token), '~', '1', '/') == Tildes(token)
  {
    if token != [] {
      var rest := Escape(token[1..]);
      SlashesRestored(token[1..]);
      if token[0] == '~' {
        TildeKept(rest);
      } else if token[0] == '/' {
        PairHit(rest, '~', '1', '/');
      } else {
        PairMiss(token[0], rest, '~', '1', '/');
      }
    }
  }

  lemma {:induction false} TildesRestored(token: string)
    ensures ReplacePair(Tildes(token), '~', '0', '~') == token
  {
    if token != [] {
      var rest := Tildes(token[1..]);
      TildesRestored(token[1..]);
      assert token == [token[0]] + token[1..];
      if token[0] == '~' {
        PairHit(rest, '~', '0', '~');
      } else {
        PairMiss(token[0], rest, '~', '0', '~');
      }
    }
  }

  lemma {:induction false} EscapeHasNoSlash(token: string)
    ensures '/' !in Escape(token)
    ensures token != [] ==> Escape(token) != []
  {
    if token != [] {
      EscapeHasNoSlash(token[1..]);
    }
  }

  /** Escaped tokens split back to themselves, except for the single empty token, which is taken for the root. */
  lemma PointerRoundTripIff(tokens: seq<string>)
    ensures SplitPointer(Pointer(tokens)) == tokens <==> tokens != [""]
  {
    if tokens != [] {
      var escaped := seq(|tokens|, i requires 0 <= i < |tokens| => Escape(tokens[i]));
      forall i | 0 <= i < |tokens|
        ensures '/' !in escaped[i] && Unescape(escaped[i]) == tokens[i]
      {
        EscapeHasNoSlash(tokens[i]);
        SlashesRestored(tokens[i]);
        TildesRestored(tokens[i]);
      }
      assert Pointer(tokens)[1..] == Join(escaped, '/');
      if tokens != [""] {
        JoinedIsEmpty(escaped);
        EscapeHasNoSlash(tokens[0]);
        SplitJoin(escaped, '/');
        assert Unescaped(escaped) == tokens;
      } else {
        assert escaped == [""];
      }
    }
  }

  lemma JoinedIsEmpty(parts: seq<string>)
    ensures Join(parts, '/') == [] ==> parts == [] || parts == [""]
  {
  }

  // ----- reading

  /** Where a token leads in a node: a key of an object or an index into an array. */
  datatype Place = Key(key: string) | Index(i: nat)

  function PlaceOf(node: Json, part: string): Option<Place> {
    match node
    case Obj(fields) => Some(Key(part))
    case Arr(items) =>
      (match Atoi(part)
       case Some(i) => if 0 <= i < |items| then Some(Index(i)) else None
       case None => None)
    case _ => None
  }

  function Child(node: Json, part: string): Option<Json> {
    match PlaceOf(node, part)
    case None => None
    case Some(Key(k)) => Get(node.fields, k)
    case Some(Index(i)) => Some(node.items[i])
  }

  function GetAt(node: Json, tokens: seq<string>): Option<Json>
    decreases |tokens|
  {
    if tokens == [] then Some(node)
    else match Child(node, tokens[0])
      case None => None
      case Some(next) => GetAt(next, tokens[1..])
  }

  /** The cursor loop of the source. */
  method PointerGet(doc: Json, path: string) returns (value: Option<Json>)
    ensures value == GetAt(doc, SplitPointer(path))
  {
    var parts := SplitPointer(path);
    var cur := doc;
    for i := 0 to |parts|
      invariant GetAt(cur, parts[i..]) == GetAt(doc, parts)
    {
      assert parts[i..][1..] == parts[i + 1..];
      var next := Child(cur, parts[i]);
      if next.None? {
        return None;
      }
      cur := next.value;
    }
    return Some(cur);
  }

  // ----- writing back along the path

  function SetChild(node: Json, part: string, child: Json): Json
    requires Child(node, part).Some?
  {
    match PlaceOf(node, part).value
    case Key(k) => Obj(node.fields[k := child])
    case Index(i) => Arr(node.items[i := child])
  }

  /** The node at the path replaced; none if there is no such node. */
  function PutAt(node: Json, tokens: seq<string>, x: Json): Option<Json>
    decreases |tokens|
  {
    if tokens == [] then Some(x)
    else match Child(node, tokens[0])
      case None => None
      case Some(next) =>
        match PutAt(next, tokens[1..], x)
        case None => None
        case Some(child) => Some(SetChild(node, tokens[0], child))
  }

  lemma SetChildLaws(node: Json, part: string, a: Json, b: Json)
    requires Child(node, part).Some?
    ensures Child(SetChild(node, part, a), part) == Some(a)
    ensures SetChild(SetChild(node, part, a), part, b) == SetChild(node, part, b)
    ensures SetChild(node, part, Child(node, part).value) == node
  {
    match PlaceOf(node, part).value
    case Key(k) =>
      assert node.fields[k := a][k := b] == node.fields[k := b] && node.fields[k := node.fields[k]] == node.fields;
    case Index(i) =>
      assert node.items[i := a][i := b] == node.items[i := b] && node.items[i := node.items[i]] == node.items;
  }

  /** Reading and writing back obey the lens laws: what was put is read, putting back what was read
      changes nothing, and a second put forgets the first. */
  lemma {:induction false} PutLaws(node: Json, tokens: seq<string>, x: Json, y: Json)
    requires GetAt(node, tokens).Some?
    ensures PutAt(node, tokens, x).Some? && GetAt(PutAt(node, tokens, x).value, tokens) == Some(x)
    ensures PutAt(PutAt(node, tokens, x).value, tokens, y) == PutAt(node, tokens, y)
    ensures PutAt(node, tokens, GetAt(node, tokens).value) == Some(node)
    decreases |tokens|
  {
    if tokens != [] {
      var next := Child(node, tokens[0]).value;
      PutLaws(next, tokens[1..], x, y);
      PutLaws(next, tokens[1..], y, x);
      SetChildLaws(node, tokens[0], PutAt(next, tokens[1..], x).value, PutAt(next, tokens[1..], y).value);
    }
  }

  /** The paths part ways: at some node they lead to different places. */
  predicate Diverge(node: Json, p: seq<string>, q: seq<string>)
    decreases |p|
  {
    && p != [] && q != []
    && (|| PlaceOf(node, p[0]) != PlaceOf(node, q[0])
        || (Child(node, p[0]).Some? && Diverge(Child(node, p[0]).value, p[1..], q[1..])))
  }

  /** Nothing off the path changes. */
  lemma {:induction false} PutElsewhere(node: Json, p: seq<string>, x: Json, q: seq<string>)
    requires PutAt(node, p, x).Some? && Diverge(node, p, q)
    ensures GetAt(PutAt(node, p, x).value, q) == GetAt(node, q)
    decreases |p|
  {
    var next := Child(node, p[0]).value;
    var child := PutAt(next, p[1..], x).value;
    SetChildLaws(node, p[0], child, child);
    if PlaceOf(node, p[0]) == PlaceOf(node, q[0]) {
      PutElsewhere(next, p[1..], x, q[1..]);
    }
  }

  // ----- the operations

  /** The source's mutateParent: walks to the parent, changes it, and writes it back into its owners. */
  function MutateParent(node: Json, tokens: seq<string>, change: Json -> Option<Json>): Option<Json>
    decreases |tokens|
  {
    if tokens == [] then change(node)
    else match Child(node, tokens[0])
      case None => None
      case Some(next) =>
        match MutateParent(next, tokens[1..], change)
        case None => None
        case Some(child) => Some(SetChild(node, tokens[0], child))
  }

  function Inserted(parent: Json, key: string, v: Json): Option<Json> {
    match parent
    case Obj(fields) => Some(Obj(fields[key := v]))
    case Arr(items) =>
      if key == "-" then Some(Arr(items + [v]))
      else (match Atoi(key)
        case None => None
        case Some(i) => if i < 0 || i > |items| then None else Some(Arr(items[..i] + [v] + items[i..])))
    case _ => None
  }

  function Overwritten(parent: Json, key: string, v: Json): Option<Json> {
    match parent
    case Obj(fields) => if key in fields then Some(Obj(fields[key := v])) else None
    case Arr(items) =>
      if key == "-" then None
      else (match Atoi(key)
        case None => None
        case Some(i) => if i < 0 || i >= |items| then None else Some(Arr(items[i := v])))
    case _ => None
  }

  function Without(parent: Json, key: string): Option<Json> {
    match parent
    case Obj(fields) => if key in fields then Some(Obj(fields - {key})) else None
    case Arr(items) =>
      (match PlaceOf(parent, key)
       case Some(Index(i)) => Some(Arr(items[..i] + items[i + 1..]))
       case _ => None)
    case _ => None
  }

  function Init(tokens: seq<string>): seq<string>
    requires tokens != []
  {
    tokens[..|tokens| - 1]
  }

  function Last(tokens: seq<string>): string
    requires tokens != []
  {
    tokens[|tokens| - 1]
  }

  function Add(doc: Json, tokens: seq<string>, v: Json): Option<Json> {
    if tokens == [] then None else MutateParent(doc, Init(tokens), parent => Inserted(parent, Last(tokens), v))
  }

  function Replace(doc: Json, tokens: seq<string>, v: Json): Option<Json> {
    if tokens == [] || GetAt(doc, tokens).None? then None
    else MutateParent(doc, Init(tokens), parent => Overwritten(parent, Last(tokens), v))
  }

  function Remove(doc: Json, tokens: seq<string>): Option<Json> {
    if tokens == [] then None else MutateParent(doc, Init(tokens), parent => Without(parent, Last(tokens)))
  }

  /** Changing the parent in place is reading it, changing it, and putting it back. */
  lemma {:induction false} MutateIsPut(node: Json, tokens: seq<string>, change: Json -> Option<Json>)
    ensures MutateParent(node, tokens, change) ==
      match GetAt(node, tokens)
      case None => None
      case Some(parent) => (match change(parent) case None => None case Some(next) => PutAt(node, tokens, next))
    decreases |tokens|
  {
    if tokens != [] && Child(node, tokens[0]).Some? {
      MutateIsPut(Child(node, tokens[0]).value, tokens[1..], change);
    }
  }

  lemma {:induction false} GetLast(node: Json, tokens: seq<string>)
    requires tokens != []
    ensures GetAt(node, tokens) ==
      match GetAt(node, Init(tokens)) case None => None case Some(parent) => Child(parent, Last(tokens))
    decreases |tokens|
  {
    if |tokens| > 1 && Child(node, tokens[0]).Some? {
      assert Init(tokens)[1..] == Init(tokens[1..]) && Init(tokens)[0] == tokens[0];
      GetLast(Child(node, tokens[0]).value, tokens[1..]);
    } else {
      assert |tokens| == 1 ==> Init(tokens) == [] && tokens[1..] == [];
    }
  }

  /** A pointer is read through its parent: below an object the last token is a key, below an array a position,
      and below anything else there is nothing. */
  lemma PointerByParent(doc: Json, tokens: seq<string>, k: string)
    ensures GetAt(doc, []) == Some(doc)
    ensures
      var here := GetAt(doc, tokens + [k]);
      match GetAt(doc, tokens)
      case Some(Obj(fields)) => here == Get(fields, k)
      case Some(Arr(items)) =>
        && (Atoi(k).None? ==> here == None)
        && forall i: nat :: i <= MAX_INT && k == Itoa(i) ==> here == if i < |items| then Some(items[i]) else None
      case _ => here == None
  {
    assert Init(tokens + [k]) == tokens;
    GetLast(doc, tokens + [k]);
    forall i: nat | i <= MAX_INT && k == Itoa(i)
      ensures Atoi(k) == Some(i)
    {
      AtoiItoa(i);
    }
  }

  /** The token names a position of a new element: the end, or an index up to the end. */
  predicate NewPosition(items: seq<Json>, key: string, i: int) {
    (key == "-" && i == |items|) || (key != "-" && Atoi(key) == Some(i) && 0 <= i <= |items|)
  }

  /** Section 4.1: the value is at the target; in an array earlier elements stay and later ones move up by one. */
  lemma AddLaws(doc: Json, tokens: seq<string>, v: Json)
    requires Add(doc, tokens, v).Some?
    ensures
      var after, parent := Add(doc, tokens, v).value, GetAt(doc, Init(tokens));
      && parent.Some?
      && (Last(tokens) != "-" || parent.value.Obj? ==> GetAt(after, tokens) == Some(v))
      && (parent.value.Arr? ==>
            var items := parent.value.items;
            exists i :: NewPosition(items, Last(tokens), i) &&
              GetAt(after, Init(tokens)) == Some(Arr(items[..i] + [v] + items[i..])))
      && (parent.value.Obj? ==> GetAt(after, Init(tokens)) == Some(Obj(parent.value.fields[Last(tokens) := v])))
  {
    var p, k := Init(tokens), Last(tokens);
    MutateIsPut(doc, p, parent => Inserted(parent, k, v));
    var parent := GetAt(doc, p).value;
    var next := Inserted(parent, k, v).value;
    PutLaws(doc, p, next, next);
    GetLast(Add(doc, tokens, v).value, tokens);
    InsertedChild(parent, k, v);
    if parent.Arr? {
      assert NewPosition(parent.items, k, if k == "-" then |parent.items| else Atoi(k).value);
    }
  }

  lemma InsertedChild(parent: Json, key: string, v: Json)
    requires Inserted(parent, key, v).Some?
    ensures key != "-" || parent.Obj? ==> Child(Inserted(parent, key, v).value, key) == Some(v)
    ensures parent.Arr? && key == "-" ==>
      parent.items + [v] == parent.items[..|parent.items|] + [v] + parent.items[|parent.items|..]
  {
  }

  /** Remove undoes the add of a new key, or of an element at an index. */
  lemma RemoveUndoesAdd(doc: Json, tokens: seq<string>, v: Json)
    requires Add(doc, tokens, v).Some?
    requires
      var parent := GetAt(doc, Init(tokens));
      parent.Some? && (if parent.value.Obj? then Last(tokens) !in parent.value.fields else Last(tokens) != "-")
    ensures Remove(Add(doc, tokens, v).value, tokens) == Some(doc)
  {
    var p, k := Init(tokens), Last(tokens);
    var parent := GetAt(doc, p).value;
    MutateIsPut(doc, p, node => Inserted(node, k, v));
    var next := Inserted(parent, k, v).value;
    PutLaws(doc, p, next, parent);
    MutateIsPut(Add(doc, tokens, v).value, p, node => Without(node, k));
    WithoutInserted(parent, k, v);
  }

  lemma WithoutInserted(parent: Json, key: string, v: Json)
    requires Inserted(parent, key, v).Some?
    requires if parent.Obj? then key !in parent.fields else key != "-"
    ensures Without(Inserted(parent, key, v).value, key) == Some(parent)
  {
    match parent
    case Obj(fields) => assert fields[key := v] - {key} == fields;
    case Arr(items) =>
      var i := Atoi(key).value;
      var out := items[..i] + [v] + items[i..];
      assert out[..i] + out[i + 1..] == items;
  }

  /** Section 4.3: replace is remove followed by add at the same place, and fails only when there is nothing there. */
  lemma ReplaceIsRemoveThenAdd(doc: Json, tokens: seq<string>, v: Json)
    requires tokens != []
    ensures Replace(doc, tokens, v).Some? <==> GetAt(doc, tokens).Some?
    ensures Remove(doc, tokens).Some? <==> GetAt(doc, tokens).Some?
    ensures GetAt(doc, tokens).Some? ==> Replace(doc, tokens, v) == Add(Remove(doc, tokens).value, tokens, v)
  {
    var p, k := Init(tokens), Last(tokens);
    GetLast(doc, tokens);
    MutateIsPut(doc, p, node => Without(node, k));
    MutateIsPut(doc, p, node => Overwritten(node, k, v));
    if GetAt(doc, p).Some? {
      var parent := GetAt(doc, p).value;
      InsertedWithout(parent, k, v);
      if Child(parent, k).Some? {
        var less := Without(parent, k).value;
        PutLaws(doc, p, less, Inserted(less, k, v).value);
        MutateIsPut(Remove(doc, tokens).value, p, node => Inserted(node, k, v));
        PutLaws(doc, p, Overwritten(parent, k, v).value, parent);
      }
    }
  }

  lemma InsertedWithout(parent: Json, key: string, v: Json)
    ensures Without(parent, key).Some? <==> Child(parent, key).Some?
    ensures Overwritten(parent, key, v).Some? <==> Child(parent, key).Some?
    ensures Child(parent, key).Some? ==>
      Inserted(Without(parent, key).value, key, v).Some? &&
        Inserted(Without(parent, key).value, key, v) == Overwritten(parent, key, v)
  {
    if Child(parent, key).Some? {
      match parent
      case Obj(fields) => assert (fields - {key})[key := v] == fields[key := v];
      case Arr(items) =>
        var i := Atoi(key).value;
        var less := items[..i] + items[i + 1..];
        assert less[..i] + [v] + less[i..] == items[i := v];
    }
  }

  /** An operation that succeeds leaves alone whatever lies off the path to the addressed parent. */
  lemma OutsideIsUntouched(doc: Json, tokens: seq<string>, v: Json, q: seq<string>)
    requires tokens != [] && Diverge(doc, Init(tokens), q)
    ensures Add(doc, tokens, v).Some? ==> GetAt(Add(doc, tokens, v).value, q) == GetAt(doc, q)
    ensures Replace(doc, tokens, v).Some? ==> GetAt(Replace(doc, tokens, v).value, q) == GetAt(doc, q)
    ensures Remove(doc, tokens).Some? ==> GetAt(Remove(doc, tokens).value, q) == GetAt(doc, q)
  {
    var p, k := Init(tokens), Last(tokens);
    MutateIsPut(doc, p, node => Inserted(node, k, v));
    MutateIsPut(doc, p, node => Overwritten(node, k, v));
    MutateIsPut(doc, p, node => Without(node, k));
    if Add(doc, tokens, v).Some? {
      PutElsewhere(doc, p, Inserted(GetAt(doc, p).value, k, v).value, q);
    }
    if Replace(doc, tokens, v).Some? {
      PutElsewhere(doc, p, Overwritten(GetAt(doc, p).value, k, v).value, q);
    }
    if Remove(doc, tokens).Some? {
      PutElsewhere(doc, p, Without(GetAt(doc, p).value, k).value, q);
    }
  }

  // ----- one operation on the stored document

  datatype Op =
    | AddOp(path: string, value: Json)
    | ReplaceOp(path: string, value: Json)
    | RemoveOp(path: string)
    | TestOp(path: string, value: Json)
    | MoveOp(path: string, from: string)
    | CopyOp(path: string, from: string)
    | OtherOp(path: string)

  /** The document afterwards and whether the operation succeeded. */
  function ApplyOp(doc: Json, op: Op): (Json, bool) {
    if op.path == "" || op.path[0] != '/' then (doc, false)
    else
      var tokens := SplitPointer(op.path);
      match op
      case AddOp(_, v) => Outcome(doc, Add(doc, tokens, v))
      case ReplaceOp(_, v) => Outcome(doc, Replace(doc, tokens, v))
      case RemoveOp(_) => Outcome(doc, Remove(doc, tokens))
      case TestOp(_, v) => (doc, GetAt(doc, tokens) == Some(v))
      case MoveOp(_, from) =>
        var source := SplitPointer(from);
        if from == "" || GetAt(doc, source).None? || Remove(doc, source).None? then (doc, false)
        else Outcome(Remove(doc, source).value, Add(Remove(doc, source).value, tokens, GetAt(doc, source).value))
      case CopyOp(_, from) =>
        var source := SplitPointer(from);
        if from == "" || GetAt(doc, source).None? then (doc, false)
        else Outcome(doc, Add(doc, tokens, GetAt(doc, source).value))
      case OtherOp(_) => (doc, false)
  }

  function Outcome(doc: Json, after: Option<Json>): (Json, bool) {
    if after.Some? then (after.value, true) else (doc, false)
  }

  /** A document patched in place, one operation at a time. */
  class PatchTarget {
    var doc: Json

    constructor (doc: Json)
      ensures this.doc == doc
    {
      this.doc := doc;
    }

    method Apply(op: Op) returns (ok: bool)
      modifies this
      ensures (doc, ok) == ApplyOp(old(doc), op)
    {
      if op.path == "" || op.path[0] != '/' {
        return false;
      }
      var tokens := SplitPointer(op.path);
      match op {
        case AddOp(_, v) => ok := Set(Add(doc, tokens, v));
        case ReplaceOp(_, v) => ok := Set(Replace(doc, tokens, v));
        case RemoveOp(_) => ok := Set(Remove(doc, tokens));
        case TestOp(path, v) =>
          var actual := PointerGet(doc, path);
          return actual == Some(v);
        case MoveOp(_, from) =>
          if from == "" {
            return false;
          }
          var val := PointerGet(doc, from);
          if val.None? {
            return false;
          }
          ok := Set(Remove(doc, SplitPointer(from)));
          if ok {
            ok := Set(Add(doc, tokens, val.value));
          }
        case CopyOp(_, from) =>
          if from == "" {
            return false;
          }
          var val := PointerGet(doc, from);
          if val.None? {
            return false;
          }
          ok := Set(Add(doc, tokens, val.value));
        case OtherOp(_) => return false;
      }
    }

    method Set(after: Option<Json>) returns (ok: bool)
      modifies this
      ensures (doc, ok) == Outcome(old(doc), after)
    {
      if after.Some? {
        doc := after.value;
      }
      return after.Some?;
    }
  }

  /** There is a place for a new value: the parent is an object, or an array with such a position. */
  predicate CanAdd(doc: Json, tokens: seq<string>) {
    tokens != [] &&
    match GetAt(doc, Init(tokens))
    case Some(Obj(_)) => true
    case Some(Arr(items)) =>
      Last(tokens) == "-" || (Atoi(Last(tokens)).Some? && 0 <= Atoi(Last(tokens)).value <= |items|)
    case _ => false
  }

  lemma AddSucceedsIff(doc: Json, tokens: seq<string>, v: Json)
    ensures Add(doc, tokens, v).Some? <==> CanAdd(doc, tokens)
  {
    if tokens != [] {
      MutateIsPut(doc, Init(tokens), parent => Inserted(parent, Last(tokens), v));
      if CanAdd(doc, tokens) {
        var next := Inserted(GetAt(doc, Init(tokens)).value, Last(tokens), v).value;
        PutLaws(doc, Init(tokens), next, next);
      }
    }
  }

  /** The path is written as a pointer. */
  predicate Rooted(path: string) {
    "/" <= path
  }

  /** When each operation succeeds, in terms of the document before it. */
  lemma SucceedsIff(doc: Json, op: Op)
    ensures
      var tokens, source := SplitPointer(op.path), if op.MoveOp? || op.CopyOp? then SplitPointer(op.from) else [];
      var there := op.MoveOp? || op.CopyOp? ==> op.from != "" && GetAt(doc, source).Some?;
      ApplyOp(doc, op).1 <==>
        && Rooted(op.path)
        && match op
           case AddOp(_, _) => CanAdd(doc, tokens)
           case ReplaceOp(_, _) => tokens != [] && GetAt(doc, tokens).Some?
           case RemoveOp(_) => tokens != [] && GetAt(doc, tokens).Some?
           case TestOp(_, v) => GetAt(doc, tokens) == Some(v)
           case MoveOp(_, _) => there && source != [] && Remove(doc, source).Some? &&
             CanAdd(Remove(doc, source).value, tokens)
           case CopyOp(_, _) => there && CanAdd(doc, tokens)
           case OtherOp(_) => false
  {
    var tokens := SplitPointer(op.path);
    if tokens != [] {
      ReplaceIsRemoveThenAdd(doc, tokens, if op.ReplaceOp? then op.value else Null);
    }
    match op
    case AddOp(_, v) => AddSucceedsIff(doc, tokens, v);
    case MoveOp(_, _) =>
      var source := SplitPointer(op.from);
      if GetAt(doc, source).Some? && Remove(doc, source).Some? {
        AddSucceedsIff(Remove(doc, source).value, tokens, GetAt(doc, source).value);
      }
    case CopyOp(_, _) =>
      var source := SplitPointer(op.from);
      if GetAt(doc, source).Some? {
        AddSucceedsIff(doc, tokens, GetAt(doc, source).value);
      }
    case _ =>
  }

  /** After an operation that succeeds: an add, replace, move or copy reads its value at the path, for a move or
      copy the value its source had; a test changes nothing; a removed key is gone. */
  lemma ReadsAfter(doc: Json, op: Op)
    requires ApplyOp(doc, op).1
    ensures
      var after, tokens := ApplyOp(doc, op).0, SplitPointer(op.path);
      match op
      case AddOp(_, v) => tokens != [] && (Last(tokens) != "-" ==> GetAt(after, tokens) == Some(v))
      case ReplaceOp(_, v) => GetAt(after, tokens) == Some(v)
      case TestOp(_, _) => after == doc
      case MoveOp(_, _) =>
        tokens != [] && (Last(tokens) != "-" ==> GetAt(after, tokens) == GetAt(doc, SplitPointer(op.from)))
      case CopyOp(_, _) =>
        tokens != [] && (Last(tokens) != "-" ==> GetAt(after, tokens) == GetAt(doc, SplitPointer(op.from)))
      case RemoveOp(_) =>
        tokens != [] &&
        var parent := GetAt(doc, Init(tokens));
        parent.Some? && (parent.value.Obj? ==>
          GetAt(after, Init(tokens)) == Some(Obj(parent.value.fields - {Last(tokens)})) && GetAt(after, tokens) == None)
      case OtherOp(_) => false
  {
    var tokens := SplitPointer(op.path);
    SucceedsIff(doc, op);
    match op
    case AddOp(_, v) => AddLaws(doc, tokens, v);
    case ReplaceOp(_, v) => ReplacedReads(doc, tokens, v);
    case MoveOp(_, _) =>
      AddLaws(Remove(doc, SplitPointer(op.from)).value, tokens, GetAt(doc, SplitPointer(op.from)).value);
    case CopyOp(_, _) => AddLaws(doc, tokens, GetAt(doc, SplitPointer(op.from)).value);
    case RemoveOp(_) => RemovedReads(doc, tokens);
    case _ =>
  }

  lemma ReplacedReads(doc: Json, tokens: seq<string>, v: Json)
    requires Replace(doc, tokens, v).Some?
    ensures GetAt(Replace(doc, tokens, v).value, tokens) == Some(v)
  {
    var p, k := Init(tokens), Last(tokens);
    MutateIsPut(doc, p, node => Overwritten(node, k, v));
    var next := Overwritten(GetAt(doc, p).value, k, v).value;
    PutLaws(doc, p, next, next);
    GetLast(Replace(doc, tokens, v).value, tokens);
  }

  lemma RemovedReads(doc: Json, tokens: seq<string>)
    requires tokens != [] && Remove(doc, tokens).Some?
    ensures
      var after, parent := Remove(doc, tokens).value, GetAt(doc, Init(tokens));
      parent.Some? && (parent.value.Obj? ==>
        GetAt(after, Init(tokens)) == Some(Obj(parent.value.fields - {Last(tokens)})) && GetAt(after, tokens) == None)
  {
    var p, k := Init(tokens), Last(tokens);
    MutateIsPut(doc, p, node => Without(node, k));
    var less := Without(GetAt(doc, p).value, k).value;
    PutLaws(doc, p, less, less);
    GetLast(Remove(doc, tokens).value, tokens);
  }

  /** The path, the source path and the document let a move take its source away and then find no place for it. */
  predicate MoveStrands(doc: Json, op: Op) {
    && op.MoveOp? && op.path != "" && op.path[0] == '/' && op.from != ""
    && SplitPointer(op.from) != [] && GetAt(doc, SplitPointer(op.from)).Some?
    && (Remove(doc, SplitPointer(op.from)).Some? ==>
      !CanAdd(Remove(doc, SplitPointer(op.from)).value, SplitPointer(op.path)))
  }

  /** An operation fails and still changes the document if and only if it is a move whose source is
      there, is not the root, and leaves no place for the value once it is gone; the source is then lost. */
  lemma FailureChangesIff(doc: Json, op: Op)
    ensures !ApplyOp(doc, op).1 && ApplyOp(doc, op).0 != doc <==> MoveStrands(doc, op)
    ensures !ApplyOp(doc, op).1 && ApplyOp(doc, op).0 != doc ==>
      Some(ApplyOp(doc, op).0) == Remove(doc, SplitPointer(op.from))
  {
    if op.MoveOp? && SplitPointer(op.from) != [] {
      var source := SplitPointer(op.from);
      ReplaceIsRemoveThenAdd(doc, source, Null);
      if Remove(doc, source).Some? {
        RemoveChanges(doc, source);
        AddSucceedsIff(Remove(doc, source).value, SplitPointer(op.path), GetAt(doc, source).value);
      }
    }
  }

  lemma RemoveChanges(doc: Json, tokens: seq<string>)
    requires Remove(doc, tokens).Some?
    ensures Remove(doc, tokens).value != doc
  {
    var p, k := Init(tokens), Last(tokens);
    MutateIsPut(doc, p, node => Without(node, k));
    var parent := GetAt(doc, p).value;
    var less := Without(parent, k).value;
    PutLaws(doc, p, less, less);
    assert less != parent by {
      if parent.Obj? {
        assert k !in less.fields;
      } else {
        assert |less.items| < |parent.items|;
      }
    }
  }

  /** A move into the moved value itself loses it. */
  lemma MoveIntoItselfLoses(v: Json)
    ensures ApplyOp(Obj(map["a" := v]), MoveOp("/a/b", "/a")) == (Obj(map[]), false)
  {
    var doc := Obj(map["a" := v]);
    var source, target := SplitPointer("/a"), SplitPointer("/a/b");
    assert source == ["a"] && target == ["a", "b"] by {
      PointersOfAB();
    }
    assert Init(source) == [] && Init(target) == ["a"];
    assert map["a" := v] - {"a"} == map[];
    assert Remove(doc, source) == Some(Obj(map[]));
    assert Add(Obj(map[]), target, v) == None;
  }

  lemma PointersOfAB()
    ensures SplitPointer("/a") == ["a"] && SplitPointer("/a/b") == ["a", "b"]
  {
    assert "/a"[1..] == "a" && "/a/b"[1..] == "a/b" && "a/b" == "a" + "/" + "b";
    SplitFree("a", '/');
    SplitFree("b", '/');
    SplitPrefix("a", "b", '/');
    assert Unescape("a") == "a" && Unescape("b") == "b";
  }
}
