/** internal/search/sort.go: sort values of a document and their order. Strings are compared rune by
    rune, which is proved to be the byte order of their UTF-8 form. */
module SearchSort {
  import opened Json
  import opened SearchPath
  import opened SearchEvaluate

  /** The Missing / Null / Known states of a sort field. */
  datatype SortValue = Missing | Absent | Known(v: Json)

  function Rank(v: SortValue): int {
    match v
    case Missing => 2
    case Absent => 1
    case Known(_) => 0
  }

  function SortValueOf(spec: SortSpec, doc: Doc): SortValue {
    if spec.field == "/!" then
      Known(if "!" in doc && doc["!"].Str? then doc["!"] else Str(""))
    else match FieldValue(doc, spec.field)
      case None => Missing
      case Some(Null) => Absent
      case Some(v) => Known(v)
  }

  function ComputeSortValues(def: Definition, doc: Doc): (vals: seq<SortValue>)
    ensures |vals| == |def.sort|
  {
    seq(|def.sort|, i requires 0 <= i < |def.sort| => SortValueOf(def.sort[i], doc))
  }

  /** The stored form: missing and null both become JSON null. */
  function ToStored(vals: seq<SortValue>): (key: seq<Json>)
    ensures |key| == |vals|
  {
    seq(|vals|, i requires 0 <= i < |vals| => if vals[i].Known? then vals[i].v else Null)
  }

  /** The candidate a remote server rebuilds from the stored form. */
  function FromStored(key: seq<Json>): (vals: seq<SortValue>)
    ensures |vals| == |key|
  {
    seq(|key|, i requires 0 <= i < |key| => if key[i] == Null then Absent else Known(key[i]))
  }

  predicate NoMissing(vals: seq<SortValue>) {
    forall i :: 0 <= i < |vals| ==> vals[i] != Missing
  }

  /** A null is never taken for a known value; sort values computed from a document are all like that. */
  predicate NullsAbsent(vals: seq<SortValue>) {
    forall i :: 0 <= i < |vals| ==> vals[i] != Known(Null)
  }

  /** No known value comes after a missing one. */
  predicate Placeable(vals: seq<SortValue>) {
    forall i, j :: 0 <= i < j < |vals| && vals[i] == Missing ==> !vals[j].Known?
  }

  /** A remote server compares with the same candidate as the local one if and only if nothing is missing. */
  lemma StoredRoundTripIff(vals: seq<SortValue>)
    requires NullsAbsent(vals)
    ensures FromStored(ToStored(vals)) == vals <==> NoMissing(vals)
  {
    var back := FromStored(ToStored(vals));
    if i :| 0 <= i < |vals| && vals[i] == Missing {
      assert back[i] == Absent;
    }
  }

  lemma ComputedNullsAbsent(def: Definition, doc: Doc)
    ensures NullsAbsent(ComputeSortValues(def, doc))
  {
  }

  /** What a remote server rebuilds holds nothing missing. */
  lemma RebuiltPlaceable(key: seq<Json>)
    ensures NoMissing(FromStored(key)) && NullsAbsent(FromStored(key)) && Placeable(FromStored(key))
    ensures ToStored(FromStored(key)) == key
  {
  }

  function CompareStrings(a: string, b: string): int {
    if a == [] || b == [] then (if a != [] then 1 else if b != [] then -1 else 0)
    else if a[0] != b[0] then (if a[0] < b[0] then -1 else 1)
    else CompareStrings(a[1..], b[1..])
  }

  function CompareBytes(a: seq<Byte>, b: seq<Byte>): int {
    if a == [] || b == [] then (if a != [] then 1 else if b != [] then -1 else 0)
    else if a[0] != b[0] then (if a[0] < b[0] then -1 else 1)
    else CompareBytes(a[1..], b[1..])
  }

  /** The first byte in which the encodings of two runes differ. */
  function FirstByte(c: char, d: char): nat {
    var n, m := c as int, d as int;
    if |Utf8(c)| != |Utf8(d)| || |Utf8(c)| == 1 then 0
    else if |Utf8(c)| == 2 then (if n / 64 != m / 64 then 0 else 1)
    else if |Utf8(c)| == 3 then (if n / 4096 != m / 4096 then 0 else if n / 64 != m / 64 then 1 else 2)
    else if n / 262144 != m / 262144 then 0 else if n / 4096 != m / 4096 then 1 else if n / 64 != m / 64 then 2 else 3
  }

  /** The smaller rune has the smaller byte there. */
  lemma SmallerRune(c: char, d: char)
    requires c < d
    ensures
      var i := FirstByte(c, d);
      i < |Utf8(c)| && i < |Utf8(d)| && Utf8(c)[..i] == Utf8(d)[..i] && Utf8(c)[i] < Utf8(d)[i]
  {
    var n, m := c as int, d as int;
    Base64(n);
    Base64(m);
    if |Utf8(c)| == |Utf8(d)| > 1 {
      DigitOrder(n, m, n / 64, m / 64);
      if |Utf8(c)| > 2 && n / 64 != m / 64 {
        DigitOrder(n / 64, m / 64, n / 4096, m / 4096);
        if |Utf8(c)| > 3 && n / 4096 != m / 4096 {
          DigitOrder(n / 4096, m / 4096, n / 262144, m / 262144);
        }
      }
      SameLength(c, d);
    } else {
      FirstBytes(c, d);
    }
  }

  /** One-byte runes, and runes of different lengths, differ in their first byte. */
  lemma FirstBytes(c: char, d: char)
    requires c < d && (|Utf8(c)| != |Utf8(d)| || |Utf8(c)| == 1)
    ensures Utf8(c)[0] < Utf8(d)[0]
  {
  }

  /** Order in base 64. */
  lemma DigitOrder(n: nat, m: nat, a: nat, b: nat)
    requires n < m && n == 64 * a + n % 64 && m == 64 * b + m % 64
    ensures a < b || (a == b && n % 64 < m % 64)
  {
  }

  /** Runes of one length, given the order of their digits. */
  lemma SameLength(c: char, d: char)
    requires |Utf8(c)| == |Utf8(d)| > 1
    requires
      var n, m, len := c as int, d as int, |Utf8(c)|;
      && (n / 64 < m / 64 || (n / 64 == m / 64 && n % 64 < m % 64))
      && (len > 2 && n / 64 != m / 64 ==>
            n / 4096 < m / 4096 || (n / 4096 == m / 4096 && n / 64 % 64 < m / 64 % 64))
      && (len > 3 && n / 64 != m / 64 && n / 4096 != m / 4096 ==>
            n / 262144 < m / 262144 || (n / 262144 == m / 262144 && n / 4096 % 64 < m / 4096 % 64))
      && (n / 64 == m / 64 ==> n / 4096 == m / 4096) && (n / 4096 == m / 4096 ==> n / 262144 == m / 262144)
    ensures
      var i := FirstByte(c, d);
      i < |Utf8(c)| && Utf8(c)[..i] == Utf8(d)[..i] && Utf8(c)[i] < Utf8(d)[i]
  {
  }

  lemma {:induction false} CompareAfter(p: seq<Byte>, x: seq<Byte>, y: seq<Byte>)
    ensures CompareBytes(p + x, p + y) == CompareBytes(x, y)
  {
    if p == [] {
      assert p + x == x && p + y == y;
    } else {
      CompareAfter(p[1..], x, y);
      assert (p + x)[1..] == p[1..] + x && (p + y)[1..] == p[1..] + y;
    }
  }

  lemma CompareRunes(c: char, d: char, x: seq<Byte>, y: seq<Byte>)
    requires c < d
    ensures CompareBytes(Utf8(c) + x, Utf8(d) + y) == -1 && CompareBytes(Utf8(d) + y, Utf8(c) + x) == 1
  {
    SmallerRune(c, d);
    var i := FirstByte(c, d);
    var p, a, b := Utf8(c)[..i], Utf8(c)[i..] + x, Utf8(d)[i..] + y;
    assert Utf8(c) + x == p + a && Utf8(d) + y == p + b;
    CompareAfter(p, a, b);
    CompareAfter(p, b, a);
  }

  /** Comparing runes is comparing the bytes of the UTF-8 form. */
  lemma {:induction false} RuneOrderIsByteOrder(s: string, t: string)
    ensures CompareStrings(s, t) == CompareBytes(Utf8All(s), Utf8All(t))
  {
    if s != [] && t != [] {
      if s[0] == t[0] {
        RuneOrderIsByteOrder(s[1..], t[1..]);
        CompareAfter(Utf8(s[0]), Utf8All(s[1..]), Utf8All(t[1..]));
      } else if s[0] < t[0] {
        CompareRunes(s[0], t[0], Utf8All(s[1..]), Utf8All(t[1..]));
      } else {
        CompareRunes(t[0], s[0], Utf8All(t[1..]), Utf8All(s[1..]));
      }
    }
  }

  function CompareReals(a: real, b: real): int {
    if a < b then -1 else if a > b then 1 else 0
  }

  /** A stored value of another kind counts as "", false or 0. */
  function CompareKnown(a: Json, b: Json): int {
    match a
    case Str(s) => CompareStrings(s, if b.Str? then b.s else "")
    case Bool(x) =>
      var y := b.Bool? && b.b;
      if x == y then 0 else if !x then -1 else 1
    case Num(x) => CompareReals(x, if b.Num? then b.n else 0.0)
    case _ => 0
  }

  function CompareOne(cand: SortValue, stored: Json, desc: bool): int {
    var storedRank := if stored == Null then 1 else 0;
    if Rank(cand) != storedRank then Rank(cand) - storedRank
    else if cand.Known? then (if desc then -CompareKnown(cand.v, stored) else CompareKnown(cand.v, stored))
    else 0
  }

  function CompareStored(cand: seq<SortValue>, stored: seq<Json>, desc: seq<bool>): int
    requires |desc| >= |cand|
  {
    if cand == [] || stored == [] then |cand| - |stored|
    else
      var c := CompareOne(cand[0], stored[0], desc[0]);
      if c != 0 then c else CompareStored(cand[1..], stored[1..], desc[1..])
  }

  /** The index loop of the source. */
  method CompareStoredSort(cand: seq<SortValue>, stored: seq<Json>, desc: seq<bool>) returns (r: int)
    requires |desc| >= |cand|
    ensures r == CompareStored(cand, stored, desc)
  {
    var n := if |stored| < |cand| then |stored| else |cand|;
    for i := 0 to n
      invariant CompareStored(cand[i..], stored[i..], desc[i..]) == CompareStored(cand, stored, desc)
    {
      var c := CompareOne(cand[i], stored[i], desc[i]);
      if c != 0 {
        return c;
      }
      assert cand[i..][1..] == cand[i + 1..] && stored[i..][1..] == stored[i + 1..] && desc[i..][1..] == desc[i + 1..];
    }
    return |cand| - |stored|;
  }

  // ----- a total preorder on the keys of one sort kind

  datatype Kind = KindString | KindBoolean | KindNumber | KindOther

  function KindOf(v: Json): Kind {
    match v
    case Str(_) => KindString
    case Bool(_) => KindBoolean
    case Num(_) => KindNumber
    case _ => KindOther
  }

  /** Position by position, the key is null or of the given kind. */
  predicate Typed(kinds: seq<Kind>, key: seq<Json>) {
    && |key| == |kinds|
    && forall i :: 0 <= i < |key| ==> key[i] == Null || KindOf(key[i]) == kinds[i]
  }

  function CompareKeys(a: seq<Json>, b: seq<Json>, desc: seq<bool>): int
    requires |desc| >= |a|
  {
    CompareStored(FromStored(a), b, desc)
  }

  lemma {:induction false} StringsFlip(a: string, b: string)
    ensures CompareStrings(a, b) == -CompareStrings(b, a)
    ensures CompareStrings(a, b) == 0 <==> a == b
  {
    if a != [] && b != [] && a[0] == b[0] {
      StringsFlip(a[1..], b[1..]);
      assert a == [a[0]] + a[1..] && b == [b[0]] + b[1..];
    }
  }

  lemma {:induction false} StringsTrans(a: string, b: string, c: string)
    requires CompareStrings(a, b) <= 0 && CompareStrings(b, c) <= 0
    ensures CompareStrings(a, c) <= 0
  {
    if a != [] && b != [] && c != [] && a[0] == b[0] == c[0] {
      StringsTrans(a[1..], b[1..], c[1..]);
    }
  }

  function One(a: Json, b: Json, desc: bool): int {
    CompareOne(if a == Null then Absent else Known(a), b, desc)
  }

  predicate SameKind(k: Kind, a: Json) { a == Null || KindOf(a) == k }

  lemma OneFlip(k: Kind, a: Json, b: Json, desc: bool)
    requires SameKind(k, a) && SameKind(k, b)
    ensures One(a, b, desc) == -One(b, a, desc)
  {
    if a.Str? && b.Str? {
      StringsFlip(a.s, b.s);
    }
  }

  lemma OneTrans(k: Kind, a: Json, b: Json, c: Json, desc: bool)
    requires SameKind(k, a) && SameKind(k, b) && SameKind(k, c)
    requires One(a, b, desc) <= 0 && One(b, c, desc) <= 0
    ensures One(a, c, desc) <= 0
    ensures One(a, b, desc) < 0 || One(b, c, desc) < 0 ==> One(a, c, desc) < 0
  {
    if k == KindString && a.Str? && b.Str? && c.Str? {
      StringsFlip(a.s, b.s);
      StringsFlip(b.s, c.s);
      StringsFlip(a.s, c.s);
      if desc {
        StringsTrans(c.s, b.s, a.s);
      } else {
        StringsTrans(a.s, b.s, c.s);
      }
    }
  }

  lemma KeysStep(a: seq<Json>, b: seq<Json>, desc: seq<bool>)
    requires |desc| >= |a| == |b| > 0
    ensures CompareKeys(a, b, desc) ==
      var c := One(a[0], b[0], desc[0]); if c != 0 then c else CompareKeys(a[1..], b[1..], desc[1..])
  {
    assert FromStored(a)[1..] == FromStored(a[1..]);
  }

  /** Any two keys compare one way or the other, and consistently. */
  lemma {:induction false} KeysFlip(kinds: seq<Kind>, a: seq<Json>, b: seq<Json>, desc: seq<bool>)
    requires Typed(kinds, a) && Typed(kinds, b) && |desc| >= |kinds|
    ensures CompareKeys(a, b, desc) == -CompareKeys(b, a, desc)
  {
    if kinds != [] {
      KeysStep(a, b, desc);
      KeysStep(b, a, desc);
      OneFlip(kinds[0], a[0], b[0], desc[0]);
      KeysFlip(kinds[1..], a[1..], b[1..], desc[1..]);
    }
  }

  lemma {:induction false} KeysTrans(kinds: seq<Kind>, a: seq<Json>, b: seq<Json>, c: seq<Json>, desc: seq<bool>)
    requires Typed(kinds, a) && Typed(kinds, b) && Typed(kinds, c) && |desc| >= |kinds|
    requires CompareKeys(a, b, desc) <= 0 && CompareKeys(b, c, desc) <= 0
    ensures CompareKeys(a, c, desc) <= 0
    ensures CompareKeys(a, b, desc) < 0 || CompareKeys(b, c, desc) < 0 ==> CompareKeys(a, c, desc) < 0
  {
    if kinds != [] {
      KeysStep(a, b, desc);
      KeysStep(b, c, desc);
      KeysStep(a, c, desc);
      OneTrans(kinds[0], a[0], b[0], c[0], desc[0]);
      if One(a[0], b[0], desc[0]) == 0 && One(b[0], c[0], desc[0]) == 0 {
        OneFlip(kinds[0], a[0], b[0], desc[0]);
        OneFlip(kinds[0], b[0], c[0], desc[0]);
        OneFlip(kinds[0], a[0], c[0], desc[0]);
        OneTrans(kinds[0], c[0], b[0], a[0], desc[0]);
        KeysTrans(kinds[1..], a[1..], b[1..], c[1..], desc[1..]);
      }
    }
  }

  /** Nulls come after known values whatever the direction. */
  lemma NullsLast(kinds: seq<Kind>, a: seq<Json>, b: seq<Json>, desc: seq<bool>, i: nat)
    requires Typed(kinds, a) && Typed(kinds, b) && |desc| >= |kinds| && i < |kinds|
    requires a[..i] == b[..i] && a[i] != Null && b[i] == Null
    ensures CompareKeys(a, b, desc) < 0
    decreases i
  {
    KeysStep(a, b, desc);
    if i > 0 {
      assert a[0] == a[..i][0] && b[0] == b[..i][0];
      assert a[1..][..i - 1] == a[..i][1..] && b[1..][..i - 1] == b[..i][1..];
      OneFlip(kinds[0], a[0], b[0], desc[0]);
      NullsLast(kinds[1..], a[1..], b[1..], desc[1..], i - 1);
    }
  }

  /** Equal keys of strings are the same strings: with the id as last sort field no two documents tie. */
  lemma {:induction false} TiesShareStrings(kinds: seq<Kind>, a: seq<Json>, b: seq<Json>, desc: seq<bool>, i: nat)
    requires Typed(kinds, a) && Typed(kinds, b) && |desc| >= |kinds| && i < |kinds|
    requires CompareKeys(a, b, desc) == 0 && a[i].Str? && b[i].Str?
    ensures a[i] == b[i]
    decreases i
  {
    KeysStep(a, b, desc);
    if i == 0 {
      StringsFlip(a[0].s, b[0].s);
    } else {
      assert a[i] == a[1..][i - 1] && b[i] == b[1..][i - 1];
      TiesShareStrings(kinds[1..], a[1..], b[1..], desc[1..], i - 1);
    }
  }

  // ----- what the order is, without comparison results

  /** The strings first differ at i, and the first is smaller there. */
  predicate SmallerAt(a: string, b: string, i: int) {
    0 <= i < |a| && i < |b| && a[..i] == b[..i] && a[i] < b[i]
  }

  /** A proper prefix, or smaller where the strings first differ. */
  ghost predicate Lexically(a: string, b: string) {
    a < b || exists i :: SmallerAt(a, b, i)
  }

  /** The natural order of two values of one kind: strings lexically, false before true, numbers by size. */
  ghost predicate Less(a: Json, b: Json) {
    || (a.Str? && b.Str? && Lexically(a.s, b.s))
    || (a.Bool? && b.Bool? && !a.b && b.b)
    || (a.Num? && b.Num? && a.n < b.n)
  }

  /** Null comes last; known values come in natural order, or in reverse when descending. */
  ghost predicate Precedes(a: Json, b: Json, desc: bool) {
    a != Null && (b == Null || if desc then Less(b, a) else Less(a, b))
  }

  ghost predicate Level(a: Json, b: Json, desc: bool) {
    !Precedes(a, b, desc) && !Precedes(b, a, desc)
  }

  /** The first position at which the keys are not level decides. */
  ghost predicate KeyPrecedes(a: seq<Json>, b: seq<Json>, desc: seq<bool>)
    requires |a| == |b| <= |desc|
  {
    exists i :: 0 <= i < |a| && Precedes(a[i], b[i], desc[i]) && forall j :: 0 <= j < i ==> Level(a[j], b[j], desc[j])
  }

  lemma {:induction false} StringsLess(a: string, b: string)
    ensures CompareStrings(a, b) < 0 <==> Lexically(a, b)
  {
    if a != [] && b != [] {
      if a[0] == b[0] {
        StringsLess(a[1..], b[1..]);
        LexicallyStep(a, b);
      } else {
        FirstDiffers(a, b);
      }
    }
  }

  lemma FirstDiffers(a: string, b: string)
    requires a != [] && b != [] && a[0] != b[0]
    ensures Lexically(a, b) <==> a[0] < b[0]
  {
    assert a[..0] == b[..0];
    assert a[0] < b[0] ==> SmallerAt(a, b, 0);
    if i :| SmallerAt(a, b, i) {
      assert i > 0 ==> a[..i][0] == b[..i][0];
    }
  }

  lemma LexicallyStep(a: string, b: string)
    requires a != [] && b != [] && a[0] == b[0]
    ensures Lexically(a, b) <==> Lexically(a[1..], b[1..])
  {
    assert a == [a[0]] + a[1..] && b == [b[0]] + b[1..];
    if i :| SmallerAt(a, b, i) {
      SmallerInTail(a, b, i);
    }
    if i :| SmallerAt(a[1..], b[1..], i) {
      SmallerInWhole(a, b, i);
    }
  }

  lemma SmallerInTail(a: string, b: string, i: int)
    requires a != [] && b != [] && a[0] == b[0] && SmallerAt(a, b, i)
    ensures SmallerAt(a[1..], b[1..], i - 1)
  {
    assert a[1..][..i - 1] == a[..i][1..] && b[1..][..i - 1] == b[..i][1..];
  }

  lemma SmallerInWhole(a: string, b: string, i: int)
    requires a != [] && b != [] && a[0] == b[0] && SmallerAt(a[1..], b[1..], i)
    ensures SmallerAt(a, b, i + 1)
  {
    assert a[..i + 1] == [a[0]] + a[1..][..i] && b[..i + 1] == [b[0]] + b[1..][..i];
  }

  lemma OneIsPrecedes(k: Kind, a: Json, b: Json, desc: bool)
    requires SameKind(k, a) && SameKind(k, b)
    ensures One(a, b, desc) < 0 <==> Precedes(a, b, desc)
    ensures One(a, b, desc) == 0 <==> Level(a, b, desc)
  {
    OneFlip(k, a, b, desc);
    if a.Str? && b.Str? {
      StringsLess(a.s, b.s);
      StringsLess(b.s, a.s);
      StringsFlip(a.s, b.s);
    }
  }

  /** The comparison is that order: negative exactly when the first key comes first. */
  lemma {:induction false} CompareIsOrder(kinds: seq<Kind>, a: seq<Json>, b: seq<Json>, desc: seq<bool>)
    requires Typed(kinds, a) && Typed(kinds, b) && |desc| >= |kinds|
    ensures CompareKeys(a, b, desc) < 0 <==> KeyPrecedes(a, b, desc)
  {
    if kinds != [] {
      KeysStep(a, b, desc);
      OneIsPrecedes(kinds[0], a[0], b[0], desc[0]);
      CompareIsOrder(kinds[1..], a[1..], b[1..], desc[1..]);
      KeyPrecedesStep(a, b, desc);
    }
  }

  lemma KeyPrecedesStep(a: seq<Json>, b: seq<Json>, desc: seq<bool>)
    requires 0 < |a| == |b| <= |desc|
    ensures KeyPrecedes(a, b, desc) <==>
      Precedes(a[0], b[0], desc[0]) || (Level(a[0], b[0], desc[0]) && KeyPrecedes(a[1..], b[1..], desc[1..]))
  {
    var x, y, d := a[1..], b[1..], desc[1..];
    if i :| 0 < i < |a| && Precedes(a[i], b[i], desc[i]) && forall j :: 0 <= j < i ==> Level(a[j], b[j], desc[j]) {
      assert Precedes(x[i - 1], y[i - 1], d[i - 1]);
      assert forall j :: 0 <= j < i - 1 ==> x[j] == a[j + 1] && y[j] == b[j + 1] && d[j] == desc[j + 1];
    }
    if Level(a[0], b[0], desc[0]) && KeyPrecedes(x, y, d) {
      var k :| 0 <= k < |x| && Precedes(x[k], y[k], d[k]) && forall j :: 0 <= j < k ==> Level(x[j], y[j], d[j]);
      assert Precedes(a[k + 1], b[k + 1], desc[k + 1]);
      forall j | 0 <= j < k + 1
        ensures Level(a[j], b[j], desc[j])
      {
        assert j > 0 ==> Level(x[j - 1], y[j - 1], d[j - 1]);
      }
    }
  }

  // ----- the order of documents, read from their fields

  function DocumentId(doc: Doc): string {
    if "!" in doc && doc["!"].Str? then doc["!"].s else ""
  }

  /** The value a document shows in a sort field: its id for "/!", else the field unless absent or null. */
  function Shown(spec: SortSpec, doc: Doc): Option<Json> {
    if spec.field == "/!" then Some(Str(DocumentId(doc)))
    else if FieldValue(doc, spec.field) == Some(Null) then None
    else FieldValue(doc, spec.field)
  }

  /** In this field the first document comes before the second: it shows a value and the other shows none, or
      a larger one (a smaller one when descending). */
  ghost predicate FieldPrecedes(spec: SortSpec, a: Doc, b: Doc) {
    Shown(spec, a).Some? &&
    (Shown(spec, b).None? ||
     if spec.desc then Less(Shown(spec, b).value, Shown(spec, a).value)
     else Less(Shown(spec, a).value, Shown(spec, b).value))
  }

  ghost predicate FieldLevel(spec: SortSpec, a: Doc, b: Doc) {
    !FieldPrecedes(spec, a, b) && !FieldPrecedes(spec, b, a)
  }

  /** Field i is the first in which the documents are not level, and the first document precedes there. */
  ghost predicate PrecedesIn(sort: seq<SortSpec>, a: Doc, b: Doc, i: int) {
    0 <= i < |sort| && FieldPrecedes(sort[i], a, b) && forall j :: 0 <= j < i ==> FieldLevel(sort[j], a, b)
  }

  /** The first document comes before the second, or they are level in every sort field. */
  ghost predicate NotAfter(sort: seq<SortSpec>, a: Doc, b: Doc) {
    (exists i :: PrecedesIn(sort, a, b, i)) || forall j :: 0 <= j < |sort| ==> FieldLevel(sort[j], a, b)
  }

  lemma StoredShows(spec: SortSpec, doc: Doc)
    ensures
      var v := SortValueOf(spec, doc);
      (if v.Known? then v.v else Null) == match Shown(spec, doc) case Some(x) => x case None => Null
    ensures Shown(spec, doc) != Some(Null)
  {
  }

  lemma FieldIsKey(spec: SortSpec, a: Doc, b: Doc, x: Json, y: Json)
    requires x == match Shown(spec, a) case Some(v) => v case None => Null
    requires y == match Shown(spec, b) case Some(v) => v case None => Null
    ensures FieldPrecedes(spec, a, b) <==> Precedes(x, y, spec.desc)
    ensures FieldPrecedes(spec, b, a) <==> Precedes(y, x, spec.desc)
  {
    StoredShows(spec, a);
    StoredShows(spec, b);
  }

  lemma {:induction false} KeysAreLevel(kinds: seq<Kind>, a: seq<Json>, b: seq<Json>, desc: seq<bool>)
    requires Typed(kinds, a) && Typed(kinds, b) && |desc| >= |kinds|
    ensures CompareKeys(a, b, desc) == 0 <==> forall i :: 0 <= i < |a| ==> Level(a[i], b[i], desc[i])
  {
    if kinds != [] {
      KeysStep(a, b, desc);
      OneIsPrecedes(kinds[0], a[0], b[0], desc[0]);
      KeysAreLevel(kinds[1..], a[1..], b[1..], desc[1..]);
      LevelStep(a, b, desc);
    }
  }

  lemma LevelStep(a: seq<Json>, b: seq<Json>, desc: seq<bool>)
    requires 0 < |a| == |b| <= |desc|
    ensures (forall i :: 0 <= i < |a| ==> Level(a[i], b[i], desc[i])) <==>
      Level(a[0], b[0], desc[0]) && forall i :: 0 <= i < |a| - 1 ==> Level(a[1..][i], b[1..][i], desc[1..][i])
  {
    forall i | 0 <= i < |a| - 1
      ensures Level(a[1..][i], b[1..][i], desc[1..][i]) <==> Level(a[i + 1], b[i + 1], desc[i + 1])
    {
    }
    forall i | 0 < i < |a|
      ensures Level(a[1..][i - 1], b[1..][i - 1], desc[1..][i - 1]) <==> Level(a[i], b[i], desc[i])
    {
    }
  }

  function Directions(def: Definition): (desc: seq<bool>)
    ensures |desc| == |def.sort|
  {
    seq(|def.sort|, i requires 0 <= i < |def.sort| => def.sort[i].desc)
  }

  /** Comparing stored keys is that order of the documents. */
  lemma KeyOrderIsDocumentOrder(kinds: seq<Kind>, def: Definition, a: Doc, b: Doc)
    requires Typed(kinds, ToStored(ComputeSortValues(def, a))) && Typed(kinds, ToStored(ComputeSortValues(def, b)))
    ensures CompareKeys(ToStored(ComputeSortValues(def, a)), ToStored(ComputeSortValues(def, b)), Directions(def)) <= 0
      <==> NotAfter(def.sort, a, b)
  {
    var x, y, desc := ToStored(ComputeSortValues(def, a)), ToStored(ComputeSortValues(def, b)), Directions(def);
    forall i | 0 <= i < |def.sort|
      ensures FieldPrecedes(def.sort[i], a, b) <==> Precedes(x[i], y[i], desc[i])
      ensures FieldLevel(def.sort[i], a, b) <==> Level(x[i], y[i], desc[i])
    {
      StoredShows(def.sort[i], a);
      StoredShows(def.sort[i], b);
      FieldIsKey(def.sort[i], a, b, x[i], y[i]);
    }
    CompareIsOrder(kinds, x, y, desc);
    KeysAreLevel(kinds, x, y, desc);
    if i :| PrecedesIn(def.sort, a, b, i) {
      assert Precedes(x[i], y[i], desc[i]);
    }
    if i :| 0 <= i < |x| && Precedes(x[i], y[i], desc[i]) && forall j :: 0 <= j < i ==> Level(x[j], y[j], desc[j]) {
      assert PrecedesIn(def.sort, a, b, i);
    }
  }

  // ----- candidates with missing values

  /** A key of nulls comes before no other key. */
  lemma {:induction false} NullTail(kinds: seq<Kind>, a: seq<Json>, b: seq<Json>, desc: seq<bool>)
    requires Typed(kinds, a) && Typed(kinds, b) && |desc| >= |kinds|
    requires forall i :: 0 <= i < |a| ==> a[i] == Null
    ensures CompareKeys(a, b, desc) >= 0
  {
    if kinds != [] {
      KeysStep(a, b, desc);
      NullTail(kinds[1..], a[1..], b[1..], desc[1..]);
    }
  }

  lemma CandidateStep(vals: seq<SortValue>, b: seq<Json>, desc: seq<bool>)
    requires |desc| >= |vals| == |b| > 0 && vals[0] != Missing && vals[0] != Known(Null)
    ensures ToStored(vals)[1..] == ToStored(vals[1..])
    ensures CompareStored(vals, b, desc) ==
      var c := One(ToStored(vals)[0], b[0], desc[0]); if c != 0 then c else CompareStored(vals[1..], b[1..], desc[1..])
  {
  }

  /** With no known value after a missing one, a candidate is placed as its stored form would be. */
  lemma {:induction false} PlacedAsStored(kinds: seq<Kind>, vals: seq<SortValue>, b: seq<Json>, desc: seq<bool>)
    requires Typed(kinds, ToStored(vals)) && Typed(kinds, b) && |desc| >= |kinds|
    requires NullsAbsent(vals) && Placeable(vals)
    ensures CompareStored(vals, b, desc) < 0 <==> CompareKeys(ToStored(vals), b, desc) < 0
  {
    if kinds != [] {
      if vals[0] == Missing {
        NullTail(kinds, ToStored(vals), b, desc);
      } else {
        KeysStep(ToStored(vals), b, desc);
        CandidateStep(vals, b, desc);
        PlacedAsStored(kinds[1..], vals[1..], b[1..], desc[1..]);
      }
    }
  }

  lemma OneSame(k: Kind, a: Json, desc: bool)
    requires SameKind(k, a)
    ensures One(a, a, desc) == 0
  {
    if a.Str? {
      StringsFlip(a.s, a.s);
    }
  }

  /** A key that is null where a candidate has a known value after a missing one: by the stored forms it
      comes after the candidate, but the candidate is placed after it. */
  lemma {:induction false} Misplaced(kinds: seq<Kind>, vals: seq<SortValue>, desc: seq<bool>, i: nat, j: nat)
    requires Typed(kinds, ToStored(vals)) && |desc| >= |kinds| && NullsAbsent(vals)
    requires i < j < |vals| && vals[i] == Missing && vals[j].Known?
    ensures
      var key := ToStored(vals);
      var b := key[j := Null];
      Typed(kinds, b) && CompareStored(vals, b, desc) > 0 && CompareKeys(b, key, desc) > 0
    decreases j
  {
    var key := ToStored(vals);
    var b := key[j := Null];
    KeysStep(b, key, desc);
    OneSame(kinds[0], key[0], desc[0]);
    assert b[1..] == key[1..][j - 1 := Null] && key[1..] == ToStored(vals[1..]);
    if vals[0] == Missing {
      NullAfterKnown(kinds, key, desc, j);
    } else {
      CandidateStep(vals, b, desc);
      Misplaced(kinds[1..], vals[1..], desc[1..], i - 1, j - 1);
    }
  }

  /** A known value replaced by null moves the key back. */
  lemma NullAfterKnown(kinds: seq<Kind>, key: seq<Json>, desc: seq<bool>, j: nat)
    requires Typed(kinds, key) && |desc| >= |kinds| && j < |key| && key[j] != Null
    ensures Typed(kinds, key[j := Null]) && CompareKeys(key[j := Null], key, desc) > 0
  {
    var b := key[j := Null];
    assert b[..j] == key[..j];
    NullsLast(kinds, key, b, desc, j);
    KeysFlip(kinds, key, b, desc);
  }
}
