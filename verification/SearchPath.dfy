/** internal/search/path.go: reading a field of a document, and encoding a value as one
    component of a search bucket's directory path. */
module SearchPath {
  import opened Json

  /** One step of a path walk: an object field by name, an array entry by index. */
  function Descend(cur: Json, seg: string): Option<Json> {
    match cur
    case Obj(fields) => Get(fields, seg)
    case Arr(items) =>
      (match Atoi(seg)
       case Some(i) => if 0 <= i < |items| then Some(items[i]) else None
       case None => None)
    case _ => None
  }

  function Walk(cur: Json, segs: seq<string>): Option<Json> {
    if segs == [] then Some(cur)
    else match Descend(cur, segs[0])
      case None => None
      case Some(next) => Walk(next, segs[1..])
  }

  /** The value a field path names in a document, or None when it is missing. */
  function FieldValue(doc: Doc, path: string): Option<Json> {
    Walk(Obj(doc), FieldPath(path))
  }

  /** The cursor loop of the source. */
  method PointerGet(doc: Doc, path: string) returns (value: Option<Json>)
    ensures value == FieldValue(doc, path)
  {
    var segments := FieldPath(path);
    var cur := Obj(doc);
    for i := 0 to |segments|
      invariant Walk(cur, segments[i..]) == FieldValue(doc, path)
    {
      var next := Descend(cur, segments[i]);
      assert segments[i..][1..] == segments[i + 1..];
      if next.None? {
        return None;
      }
      cur := next.value;
    }
    return Some(cur);
  }

  // ----- what a written path reads

  predicate Component(seg: string) {
    seg != "" && '/' !in seg
  }

  /** A path as a definition writes it: "" for the document, "/a/b" for a field of a field. */
  function PathOf(parts: seq<string>): string {
    if parts == [] then "" else "/" + Join(parts, '/')
  }

  lemma PathOfSplits(parts: seq<string>)
    requires forall p :: p in parts ==> Component(p)
    ensures FieldPath(PathOf(parts)) == parts
  {
    if parts != [] {
      assert PathOf(parts)[1..] == Join(parts, '/');
      assert parts[0] in parts;
      SplitJoin(parts, '/');
    }
  }

  lemma {:induction false} WalkLast(cur: Json, segs: seq<string>, k: string)
    ensures Walk(cur, segs + [k]) ==
      match Walk(cur, segs) case None => None case Some(next) => Descend(next, k)
    decreases |segs|
  {
    if segs == [] {
      assert segs + [k] == [k] && [k][1..] == [];
    } else if Descend(cur, segs[0]).Some? {
      WalkLast(Descend(cur, segs[0]).value, segs[1..], k);
      assert (segs + [k])[1..] == segs[1..] + [k];
    }
  }

  /** A written path is read through its parent: the empty path is the document; below an object the last
      part is a field name, below an array a position, and below anything else there is nothing. */
  lemma FieldByParent(doc: Doc, parts: seq<string>, k: string)
    requires Component(k) && forall p :: p in parts ==> Component(p)
    ensures FieldValue(doc, "") == Some(Obj(doc))
    ensures
      var here := FieldValue(doc, PathOf(parts + [k]));
      match FieldValue(doc, PathOf(parts))
      case Some(Obj(fields)) => here == Get(fields, k)
      case Some(Arr(items)) =>
        && (Atoi(k).None? ==> here == None)
        && forall i: nat :: i <= MAX_INT && k == Itoa(i) ==> here == if i < |items| then Some(items[i]) else None
      case _ => here == None
  {
    PathOfSplits(parts);
    PathOfSplits(parts + [k]);
    WalkLast(Obj(doc), parts, k);
    forall i: nat | i <= MAX_INT && k == Itoa(i)
      ensures Atoi(k) == Some(i)
    {
      AtoiItoa(i);
    }
  }

  /** How float64 values print and parse; `isFloat` says which reals are float64 values. */
  datatype NumberFormat = NumberFormat(isFloat: real -> bool, text: real -> string, parse: string -> Option<real>) {
    /** Shortest formatting tells distinct floats apart, starts with a digit or a minus sign and holds no slash. */
    ghost predicate Valid() {
      && (forall x, y :: isFloat(x) && isFloat(y) && text(x) == text(y) ==> x == y)
      && (forall x :: isFloat(x) ==> text(x) != "" && (IsDigit(text(x)[0]) || text(x)[0] == '-') && '/' !in text(x))
    }
  }

  // ----- string values: upper-case hex of the UTF-8 bytes

  newtype Byte = x: int | 0 <= x < 256

  function Utf8(c: char): (bytes: seq<Byte>)
    ensures 1 <= |bytes| <= 4
  {
    var n := c as int;
    if n < 0x80 then [n as Byte]
    else if n < 0x800 then [(0xC0 + n / 64) as Byte, Continuation(n)]
    else if n < 0x10000 then [(0xE0 + n / 4096) as Byte, Continuation(n / 64), Continuation(n)]
    else [(0xF0 + n / 262144) as Byte, Continuation(n / 4096), Continuation(n / 64), Continuation(n)]
  }

  function Continuation(n: nat): Byte {
    (0x80 + n % 64) as Byte
  }

  function Utf8All(s: string): seq<Byte> {
    if s == [] then [] else Utf8(s[0]) + Utf8All(s[1..])
  }

  function HexDigit(n: nat): char
    requires n < 16
  {
    if n < 10 then '0' + n as char else 'A' + (n - 10) as char
  }

  function Hex(bytes: seq<Byte>): string {
    if bytes == [] then []
    else [HexDigit(bytes[0] as int / 16), HexDigit(bytes[0] as int % 16)] + Hex(bytes[1..])
  }

  function EncodeString(s: string): string {
    if s == "" then "empty" else Hex(Utf8All(s))
  }

  function EncodeTruth(b: bool): string {
    if b then "true" else "false"
  }

  /** The path component of a scalar value; arrays and objects have none. */
  function EncodeScalar(nf: NumberFormat, v: Json): Option<string> {
    match v
    case Str(s) => Some(EncodeString(s))
    case Bool(b) => Some(EncodeTruth(b))
    case Null => Some("null")
    case Num(n) => Some(nf.text(n))
    case _ => None
  }

  predicate IsHexChar(c: char) { IsDigit(c) || 'A' <= c <= 'F' }

  lemma Base64(n: nat)
    ensures n == 64 * (n / 64) + n % 64
    ensures n / 64 == 64 * (n / 4096) + n / 64 % 64
    ensures n / 4096 == 64 * (n / 262144) + n / 4096 % 64
  {
  }

  /** Decodes one rune from its leading bytes: UTF-8 is a prefix code. */
  lemma Utf8Head(c: char, d: char, x: seq<Byte>, y: seq<Byte>)
    requires Utf8(c) + x == Utf8(d) + y
    ensures c == d && x == y
  {
    var w := Utf8(c) + x;
    assert w[0] == Utf8(c)[0] == Utf8(d)[0];
    assert |Utf8(c)| == |Utf8(d)|;
    assert Utf8(c) == w[..|Utf8(c)|] == Utf8(d);
    assert x == w[|Utf8(c)|..] == y;
    Utf8Rune(c, d);
  }

  lemma Utf8Rune(c: char, d: char)
    requires Utf8(c) == Utf8(d)
    ensures c == d
  {
    var n, m, len := c as int, d as int, |Utf8(c)|;
    Base64(n);
    Base64(m);
    if len > 1 {
      assert Continuation(n) == Utf8(c)[len - 1] == Continuation(m);
    }
    if len > 2 {
      assert Continuation(n / 64) == Utf8(c)[len - 2] == Continuation(m / 64);
    }
    if len > 3 {
      assert Continuation(n / 4096) == Utf8(c)[1] == Continuation(m / 4096);
    }
    assert n == m;
  }

  lemma {:induction false} Utf8Injective(s: string, t: string)
    requires Utf8All(s) == Utf8All(t)
    ensures s == t
  {
    if s != [] && t != [] {
      Utf8Head(s[0], t[0], Utf8All(s[1..]), Utf8All(t[1..]));
      Utf8Injective(s[1..], t[1..]);
      assert s == [s[0]] + s[1..] && t == [t[0]] + t[1..];
    }
  }

  lemma {:induction false} HexInjective(a: seq<Byte>, b: seq<Byte>)
    requires Hex(a) == Hex(b)
    ensures a == b
  {
    if a != [] && b != [] {
      var h := Hex(a);
      assert h[0] == HexDigit(b[0] as int / 16) && h[1] == HexDigit(b[0] as int % 16);
      assert h[2..] == Hex(a[1..]) && h[2..] == Hex(b[1..]);
      HexInjective(a[1..], b[1..]);
      assert a == [a[0]] + a[1..] && b == [b[0]] + b[1..];
    }
  }

  lemma HexShape(bytes: seq<Byte>)
    ensures |Hex(bytes)| == 2 * |bytes|
    ensures forall i :: 0 <= i < |Hex(bytes)| ==> IsHexChar(Hex(bytes)[i])
  {
  }

  lemma EncodeStringShape(s: string)
    requires s != ""
    ensures EncodeString(s) != "" && forall i :: 0 <= i < |EncodeString(s)| ==> IsHexChar(EncodeString(s)[i])
  {
    HexShape(Utf8All(s));
  }

  /** Distinct strings never share a directory. */
  lemma EncodeStringInjective(s: string, t: string)
    requires EncodeString(s) == EncodeString(t)
    ensures s == t
  {
    if s != "" {
      EncodeStringShape(s);
    }
    if t != "" {
      EncodeStringShape(t);
    }
    assert !IsHexChar("empty"[0]);
    if s != "" && t != "" {
      HexInjective(Utf8All(s), Utf8All(t));
      Utf8Injective(s, t);
    }
  }

  // ----- and back: section 3 of RFC 3629

  /** The code points of a UTF-8 byte sequence: the leading byte says how many bytes make up the next one. */
  function CodePoints(b: seq<Byte>): seq<int> {
    if b == [] then []
    else
      var n := b[0] as int;
      if n < 0x80 || |b| == 1 then [n] + CodePoints(b[1..])
      else if n < 0xE0 || |b| == 2 then [(n - 0xC0) * 64 + Low(b[1])] + CodePoints(b[2..])
      else if n < 0xF0 || |b| == 3 then [((n - 0xE0) * 64 + Low(b[1])) * 64 + Low(b[2])] + CodePoints(b[3..])
      else [(((n - 0xF0) * 64 + Low(b[1])) * 64 + Low(b[2])) * 64 + Low(b[3])] + CodePoints(b[4..])
  }

  function Low(b: Byte): int { b as int - 0x80 }

  function DigitValue(c: char): int {
    if IsDigit(c) then c as int - '0' as int else c as int - 'A' as int + 10
  }

  /** The bytes whose digits stand in pairs, high digit first. */
  function Unhex(s: string): seq<int> {
    if |s| < 2 then [] else [16 * DigitValue(s[0]) + DigitValue(s[1])] + Unhex(s[2..])
  }

  lemma CodePointFirst(c: char, rest: seq<Byte>)
    ensures CodePoints(Utf8(c) + rest) == [c as int] + CodePoints(rest)
  {
    var n, b := c as int, Utf8(c) + rest;
    Base64(n);
    assert b[|Utf8(c)|..] == rest;
  }

  lemma {:induction false} Utf8Decodes(s: string)
    ensures CodePoints(Utf8All(s)) == seq(|s|, i requires 0 <= i < |s| => s[i] as int)
  {
    if s != [] {
      Utf8Decodes(s[1..]);
      CodePointFirst(s[0], Utf8All(s[1..]));
    }
  }

  lemma {:induction false} HexDecodes(bytes: seq<Byte>)
    ensures Unhex(Hex(bytes)) == seq(|bytes|, i requires 0 <= i < |bytes| => bytes[i] as int)
  {
    if bytes != [] {
      HexDecodes(bytes[1..]);
      assert Hex(bytes)[2..] == Hex(bytes[1..]);
    }
  }

  /** A component is the upper-case hex form of bytes that decode to the string; the empty string has a word. */
  lemma EncodeStringDecodes(s: string)
    ensures EncodeString("") == "empty"
    ensures s != "" ==> exists bytes: seq<Byte> ::
      && Unhex(EncodeString(s)) == seq(|bytes|, i requires 0 <= i < |bytes| => bytes[i] as int)
      && CodePoints(bytes) == seq(|s|, i requires 0 <= i < |s| => s[i] as int)
    ensures s != "" ==> forall i :: 0 <= i < |EncodeString(s)| ==> IsHexChar(EncodeString(s)[i])
  {
    if s != "" {
      EncodeStringShape(s);
      Utf8Decodes(s);
      HexDecodes(Utf8All(s));
    }
  }

  /** The components of the other scalars; arrays and objects have none. */
  lemma ScalarComponents(nf: NumberFormat, v: Json)
    ensures v == Null ==> EncodeScalar(nf, v) == Some("null")
    ensures v == Bool(true) ==> EncodeScalar(nf, v) == Some("true")
    ensures v == Bool(false) ==> EncodeScalar(nf, v) == Some("false")
    ensures v.Num? ==> EncodeScalar(nf, v) == Some(nf.text(v.n))
    ensures v.Str? ==> EncodeScalar(nf, v) == Some(EncodeString(v.s))
    ensures v.Arr? || v.Obj? ==> EncodeScalar(nf, v) == None
  {
  }

  /** One of the two is a string and the other a number: the only kinds whose components can clash. */
  predicate Clashing(a: Json, b: Json) {
    (a.Str? && b.Num?) || (a.Num? && b.Str?)
  }

  predicate IsScalar(v: Json) { !v.Arr? && !v.Obj? }

  predicate FloatOk(nf: NumberFormat, v: Json) { v.Num? ==> nf.isFloat(v.n) }

  /** A component names one scalar, except across strings and numbers. */
  lemma EncodeScalarInjective(nf: NumberFormat, a: Json, b: Json)
    requires nf.Valid() && FloatOk(nf, a) && FloatOk(nf, b)
    requires IsScalar(a) && IsScalar(b) && !Clashing(a, b)
    requires EncodeScalar(nf, a) == EncodeScalar(nf, b)
    ensures a == b
  {
    FirstChar(nf, a);
    FirstChar(nf, b);
    if a.Str? && b.Str? {
      EncodeStringInjective(a.s, b.s);
    }
  }

  /** The first character of a component, which tells the kinds apart. */
  lemma FirstChar(nf: NumberFormat, v: Json)
    requires nf.Valid() && FloatOk(nf, v) && IsScalar(v)
    ensures EncodeScalar(nf, v).Some?
    ensures var e := EncodeScalar(nf, v).value;
      && e != "" && '/' !in e
      && (v.Str? ==> e == "empty" || IsHexChar(e[0]))
      && (v.Num? ==> IsDigit(e[0]) || e[0] == '-')
  {
    if v.Str? && v.s != "" {
      EncodeStringShape(v.s);
    }
  }

  // ----- whole bucket paths

  /** The path below the search name; also the input of the shard hash. */
  function ShardInput(segments: seq<string>): string {
    Join(segments, '/')
  }

  /** Bucket paths built from components are told apart by their joined form. */
  lemma ShardInputInjective(a: seq<string>, b: seq<string>)
    requires forall s :: s in a ==> Component(s)
    requires forall s :: s in b ==> Component(s)
    requires ShardInput(a) == ShardInput(b)
    ensures a == b
  {
    if a == [] || b == [] {
      JoinNonEmpty(a);
      JoinNonEmpty(b);
    } else {
      SplitJoin(a, '/');
      SplitJoin(b, '/');
    }
  }

  lemma JoinNonEmpty(a: seq<string>)
    requires forall s :: s in a ==> Component(s)
    ensures ShardInput(a) == "" <==> a == []
  {
    if a != [] {
      assert Component(a[0]);
    }
  }
}
