/** internal/shard/shard.go, internal/config/load.go and routing.go: the shard map, its validation,
    and who serves a slot. CRC32 is not modelled; a slot is a number below 256. */
module ShardMap {
  import opened Json

  type Slot = n: int | 0 <= n < 256

  datatype Range = Range(start: Slot, end: Slot)

  datatype Assignment = Assignment(sot: string, readers: seq<string>, proxies: seq<string>)

  type Body = map<string, Assignment>

  predicate Contains(r: Range, slot: Slot) {
    r.start <= slot <= r.end
  }

  // ----- range names such as "00-7F" or "7A"

  predicate IsSpace(c: char) {
    var n := c as int;
    9 <= n <= 13 || n in {0x20, 0x85, 0xA0, 0x1680, 0x2028, 0x2029, 0x202F, 0x205F, 0x3000} || 0x2000 <= n <= 0x200A
  }

  function TrimSpace(s: string): string {
    if s == [] then s
    else if IsSpace(s[0]) then TrimSpace(s[1..])
    else if IsSpace(s[|s| - 1]) then TrimSpace(s[..|s| - 1])
    else s
  }

  function HexValue(c: char): Option<int> {
    if IsDigit(c) then Some(c as int - '0' as int)
    else if 'A' <= c <= 'F' then Some(c as int - 'A' as int + 10)
    else if 'a' <= c <= 'f' then Some(c as int - 'a' as int + 10)
    else None
  }

  function ParseSlot(text: string): Option<Slot> {
    var raw := TrimSpace(text);
    if |raw| == 1 && HexValue(raw[0]).Some? then Some(HexValue(raw[0]).value)
    else if |raw| == 2 && HexValue(raw[0]).Some? && HexValue(raw[1]).Some?
      then Some(16 * HexValue(raw[0]).value + HexValue(raw[1]).value)
    else None
  }

  function ParseRange(text: string): Option<Range> {
    var raw := TrimSpace(text);
    var parts := Split(raw, '-');
    if |parts| == 1 then
      (match ParseSlot(raw)
       case Some(slot) => Some(Range(slot, slot))
       case None => None)
    else if |parts| != 2 then None
    else match (ParseSlot(parts[0]), ParseSlot(parts[1]))
      case (Some(a), Some(b)) => if a <= b then Some(Range(a, b)) else None
      case _ => None
  }

  function HexChar(n: int): char
    requires 0 <= n < 16
  {
    if n < 10 then '0' + n as char else 'A' + (n - 10) as char
  }

  /** The two-digit name of a slot. */
  function SlotText(slot: Slot): string {
    [HexChar(slot / 16), HexChar(slot % 16)]
  }

  lemma SlotRoundTrip(slot: Slot)
    ensures ParseSlot(SlotText(slot)) == Some(slot)
  {
  }

  lemma SingleSlot(slot: Slot)
    ensures ParseRange(SlotText(slot)) == Some(Range(slot, slot))
  {
    SlotRoundTrip(slot);
    SplitFree(SlotText(slot), '-');
  }

  lemma TwoSlots(a: string, b: string, start: Slot, end: Slot)
    requires a == SlotText(start) && b == SlotText(end)
    ensures Split(a + "-" + b, '-') == [a, b] && ParseSlot(a) == Some(start) && ParseSlot(b) == Some(end)
  {
    SlotRoundTrip(start);
    SlotRoundTrip(end);
    SplitFree(b, '-');
    SplitPrefix(a, b, '-');
  }

  /** A range name means its two slots; one whose slots are in the wrong order is refused. */
  lemma RangeRoundTrip(start: Slot, end: Slot)
    ensures ParseRange(SlotText(start)) == Some(Range(start, start))
    ensures ParseRange(SlotText(start) + "-" + SlotText(end)) == if start <= end then Some(Range(start, end)) else None
  {
    SingleSlot(start);
    var text := SlotText(start) + "-" + SlotText(end);
    assert TrimSpace(text) == text;
    TwoSlots(SlotText(start), SlotText(end), start, end);
  }

  /** A hex digit in either case. */
  predicate DigitIs(c: char, v: int) {
    0 <= v < 16 && (c == "0123456789ABCDEF"[v] || c == "0123456789abcdef"[v])
  }

  lemma HexValueIff(c: char)
    ensures forall v :: HexValue(c) == Some(v) <==> DigitIs(c, v)
  {
  }

  predicate AllSpace(s: string) {
    forall i :: 0 <= i < |s| ==> IsSpace(s[i])
  }

  predicate Tight(s: string) {
    s != [] && !IsSpace(s[0]) && !IsSpace(s[|s| - 1])
  }

  /** Spaces around a text do not matter. */
  lemma {:induction false} TrimIgnores(left: string, raw: string, right: string)
    requires AllSpace(left) && AllSpace(right) && Tight(raw)
    ensures TrimSpace(left + raw + right) == raw
    decreases |left| + |right|
  {
    var s := left + raw + right;
    if left != [] {
      assert s[0] == left[0] && s[1..] == left[1..] + raw + right;
      TrimIgnores(left[1..], raw, right);
    } else if right != [] {
      var n := |right| - 1;
      assert s[|s| - 1] == right[n] && s[..|s| - 1] == left + raw + right[..n] && s[0] == raw[0];
      TrimIgnores(left, raw, right[..n]);
    } else {
      assert s == raw;
    }
  }

  /** A slot is one or two hex digits, in either case and with spaces around them. */
  lemma SlotReads(left: string, raw: string, right: string, slot: Slot)
    requires AllSpace(left) && AllSpace(right) && Tight(raw)
    ensures ParseSlot(left + raw + right) == Some(slot) <==>
      || (|raw| == 1 && DigitIs(raw[0], slot))
      || (|raw| == 2 && exists a, b :: DigitIs(raw[0], a) && DigitIs(raw[1], b) && slot == 16 * a + b)
  {
    TrimIgnores(left, raw, right);
    HexValueIff(raw[0]);
    if |raw| == 2 {
      HexValueIff(raw[1]);
    }
  }

  /** A range without a hyphen is one slot, with spaces around it. */
  lemma SlotRangeReads(left: string, raw: string, right: string)
    requires AllSpace(left) && AllSpace(right) && Tight(raw) && '-' !in raw
    ensures ParseRange(left + raw + right) ==
      match ParseSlot(raw) case Some(slot) => Some(Range(slot, slot)) case None => None
  {
    TrimIgnores(left, raw, right);
    SplitFree(raw, '-');
  }

  /** A range with one hyphen is two slots in order, with spaces around them. */
  lemma RangeReads(left: string, a: string, b: string, right: string)
    requires AllSpace(left) && AllSpace(right) && '-' !in a && '-' !in b && Tight(a + ['-'] + b)
    ensures
      var r := ParseRange(left + (a + ['-'] + b) + right);
      && (r.Some? <==> ParseSlot(a).Some? && ParseSlot(b).Some? && ParseSlot(a).value <= ParseSlot(b).value)
      && (r.Some? ==> Some(r.value.start) == ParseSlot(a) && Some(r.value.end) == ParseSlot(b))
  {
    TrimIgnores(left, a + ['-'] + b, right);
    SplitPrefix(a, b, '-');
    SplitFree(b, '-');
  }

  // ----- validation

  predicate Covered(ranges: seq<Range>, slot: Slot) {
    exists i :: 0 <= i < |ranges| && Contains(ranges[i], slot)
  }

  predicate Disjoint(ranges: seq<Range>) {
    forall i, j, slot: Slot :: 0 <= i < j < |ranges| && Contains(ranges[i], slot) ==> !Contains(ranges[j], slot)
  }

  /** The marking loop over the 256 slots. */
  method ValidateFullCoverage(ranges: seq<Range>) returns (ok: bool)
    ensures ok <==> Disjoint(ranges) && forall slot: Slot :: Covered(ranges, slot)
  {
    var covered := new bool[256](_ => false);
    for k := 0 to |ranges|
      invariant Disjoint(ranges[..k])
      invariant forall s: Slot :: covered[s] <==> Covered(ranges[..k], s)
    {
      var r := ranges[k];
      var i: int := r.start;
      while i <= r.end
        invariant r.start <= i && (i == r.start || i <= r.end + 1)
        invariant Disjoint(ranges[..k])
        invariant forall s: Slot :: covered[s] <==> Covered(ranges[..k], s) || r.start <= s < i
        invariant forall s: Slot :: r.start <= s < i ==> !Covered(ranges[..k], s)
      {
        if covered[i] {
          var j :| 0 <= j < k && Contains(ranges[..k][j], i);
          assert Contains(ranges[j], i) && Contains(ranges[k], i);
          return false;
        }
        covered[i] := true;
        i := i + 1;
      }
      assert forall s: Slot :: Contains(r, s) <==> r.start <= s < i;
      CoveredStep(ranges, k);
    }
    assert ranges[..|ranges|] == ranges;
    for i := 0 to 256
      invariant forall s: Slot :: s < i ==> covered[s]
      invariant forall s: Slot :: covered[s] <==> Covered(ranges, s)
    {
      if !covered[i] {
        return false;
      }
    }
    return true;
  }

  lemma CoveredStep(ranges: seq<Range>, k: nat)
    requires k < |ranges| && Disjoint(ranges[..k])
    requires forall s: Slot :: Contains(ranges[k], s) ==> !Covered(ranges[..k], s)
    ensures Disjoint(ranges[..k + 1])
    ensures forall s: Slot :: Covered(ranges[..k + 1], s) <==> Covered(ranges[..k], s) || Contains(ranges[k], s)
  {
    var old', now := ranges[..k], ranges[..k + 1];
    assert now == old' + [ranges[k]];
    forall s: Slot
      ensures Covered(now, s) <==> Covered(old', s) || Contains(ranges[k], s)
    {
      if Contains(ranges[k], s) {
        assert Contains(now[k], s);
      }
      if Covered(old', s) {
        var i :| 0 <= i < |old'| && Contains(old'[i], s);
        assert Contains(now[i], s);
      }
    }
    forall i, j, s: Slot | 0 <= i < j < |now| && Contains(now[i], s)
      ensures !Contains(now[j], s)
    {
      assert Contains(old'[i], s);
      assert Covered(old', s);
    }
  }

  predicate Serves(body: Body, name: string, slot: Slot) {
    name in body && ParseRange(name).Some? && Contains(ParseRange(name).value, slot)
  }

  predicate KnownMembers(a: Assignment, servers: set<string>) {
    && a.sot != "" && a.sot in servers
    && (forall n :: n in a.readers ==> n in servers)
    && (forall n :: n in a.proxies ==> n in servers)
  }

  ghost predicate Served(body: Body, slot: Slot) {
    exists name :: Serves(body, name, slot)
  }

  /** No slot lies in two ranges. */
  ghost predicate Single(body: Body) {
    forall slot: Slot, a, b :: Serves(body, a, slot) && Serves(body, b, slot) ==> a == b
  }

  predicate Good(body: Body, servers: set<string>, name: string) {
    name in body && ParseRange(name).Some? && KnownMembers(body[name], servers)
  }

  /** What validation accepts: well-named ranges of known servers, each slot in exactly one range. */
  ghost predicate Accepted(body: Body, servers: set<string>) {
    && (forall name :: name in body ==> Good(body, servers, name))
    && (forall slot: Slot :: Served(body, slot))
    && Single(body)
  }

  /** The ranges gathered from the map in its iteration order. */
  /** An entry of an accepted map: its name is a range, its source of truth is a known server with a name, and
      its readers and proxies are known servers. */
  lemma GoodIff(body: Body, servers: set<string>, name: string)
    ensures Good(body, servers, name) <==>
      && name in body && ParseRange(name).Some?
      && body[name].sot != "" && body[name].sot in servers
      && forall n :: n in body[name].readers + body[name].proxies ==> n in servers
  {
    if name in body {
      assert forall n :: n in body[name].readers + body[name].proxies <==>
        n in body[name].readers || n in body[name].proxies;
    }
  }

  predicate Gathered(body: Body, order: seq<string>, ranges: seq<Range>) {
    && |order| == |ranges|
    && (forall i, j :: 0 <= i < j < |order| ==> order[i] != order[j])
    && (forall i :: 0 <= i < |order| ==> order[i] in body && ParseRange(order[i]) == Some(ranges[i]))
  }

  /** Validation reads the map in any order and accepts exactly the maps above. */
  method ValidateShardMapBody(body: Body, servers: set<string>) returns (ok: bool)
    ensures ok <==> Accepted(body, servers)
  {
    var todo := body.Keys;
    var ranges: seq<Range> := [];
    ghost var order: seq<string> := [];
    var clean := true;
    while todo != {}
      invariant todo <= body.Keys
      invariant Gathered(body, order, ranges)
      invariant forall i :: 0 <= i < |order| ==> order[i] !in todo
      invariant clean <==> forall name :: name in body && name !in todo ==> Good(body, servers, name)
      invariant forall name :: name in body && name !in todo && ParseRange(name).Some? ==> name in order
      decreases |todo|
    {
      var name :| name in todo;
      todo := todo - {name};
      var r := ParseRange(name);
      if r.Some? {
        ranges := ranges + [r.value];
        order := order + [name];
      }
      clean := clean && Good(body, servers, name);
    }
    var full := ValidateFullCoverage(ranges);
    if clean {
      GatheredCoverage(body, order, ranges);
    }
    return clean && full;
  }

  lemma GatheredCoverage(body: Body, order: seq<string>, ranges: seq<Range>)
    requires Gathered(body, order, ranges) && forall name :: name in body ==> name in order
    ensures forall slot: Slot :: Covered(ranges, slot) <==> Served(body, slot)
    ensures Disjoint(ranges) <==> Single(body)
  {
    forall slot: Slot
      ensures Covered(ranges, slot) <==> Served(body, slot)
    {
      GatheredServes(body, order, ranges, slot);
    }
    GatheredSingle(body, order, ranges);
  }

  lemma GatheredServes(body: Body, order: seq<string>, ranges: seq<Range>, slot: Slot)
    requires Gathered(body, order, ranges) && forall name :: name in body ==> name in order
    ensures Covered(ranges, slot) <==> Served(body, slot)
  {
    if Covered(ranges, slot) {
      var i :| 0 <= i < |ranges| && Contains(ranges[i], slot);
      assert Serves(body, order[i], slot);
    }
    if Served(body, slot) {
      var name :| Serves(body, name, slot);
      var i :| 0 <= i < |order| && order[i] == name;
      assert Contains(ranges[i], slot);
    }
  }

  lemma ServedOnce(body: Body, order: seq<string>, ranges: seq<Range>, slot: Slot, a: string, b: string)
    requires Gathered(body, order, ranges) && a in order && b in order
    requires Disjoint(ranges) && Serves(body, a, slot) && Serves(body, b, slot)
    ensures a == b
  {
    var i :| 0 <= i < |order| && order[i] == a;
    var j :| 0 <= j < |order| && order[j] == b;
    assert Contains(ranges[i], slot) && Contains(ranges[j], slot);
  }

  lemma GatheredSingle(body: Body, order: seq<string>, ranges: seq<Range>)
    requires Gathered(body, order, ranges) && forall name :: name in body ==> name in order
    ensures Disjoint(ranges) <==> Single(body)
  {
    if Disjoint(ranges) {
      forall slot: Slot, a, b | Serves(body, a, slot) && Serves(body, b, slot)
        ensures a == b
      {
        ServedOnce(body, order, ranges, slot, a, b);
      }
    } else {
      var i, j, slot: Slot :| 0 <= i < j < |ranges| && Contains(ranges[i], slot) && Contains(ranges[j], slot);
      assert Serves(body, order[i], slot) && Serves(body, order[j], slot);
    }
  }

  // ----- lookup and members

  /** The one assignment that covers a slot. */
  ghost function AssignmentOf(body: Body, slot: Slot): Assignment
    requires Served(body, slot)
  {
    var name :| Serves(body, name, slot);
    body[name]
  }

  /** The lookup loop, over any iteration order of the map. On an accepted map every order gives
      the same assignment; on any map an answer covers the slot and a miss means nothing does. */
  method SlotAssignment(body: Body, slot: Slot) returns (r: Option<Assignment>)
    ensures r.None? <==> forall name :: !Serves(body, name, slot)
    ensures r.Some? ==> exists name :: Serves(body, name, slot) && r.value == body[name]
    ensures forall servers :: Accepted(body, servers) ==> r == Some(AssignmentOf(body, slot))
  {
    var todo := body.Keys;
    while todo != {}
      invariant todo <= body.Keys
      invariant forall name :: name in body.Keys - todo ==> !Serves(body, name, slot)
      decreases |todo|
    {
      var name :| name in todo;
      todo := todo - {name};
      if Serves(body, name, slot) {
        return Some(body[name]);
      }
    }
    return None;
  }

  function SetOf(names: seq<string>): set<string> {
    set n | n in names
  }

  /** Distinct non-empty names in order of first appearance. */
  predicate Distinct(names: seq<string>) {
    && (forall i, j :: 0 <= i < j < |names| ==> names[i] != names[j])
    && "" !in names
  }

  /** Servers that must hold a search bucket of this assignment. */
  function SearchTargets(a: Assignment): set<string> {
    ({a.sot} + SetOf(a.readers) + SetOf(a.proxies)) - {""}
  }

  /** Every name of the groups. */
  function Names(groups: seq<seq<string>>): set<string> {
    set g, n | g in groups && n in g :: n
  }

  lemma NamesStep(groups: seq<seq<string>>, g: nat)
    requires g < |groups|
    ensures Names(groups[..g + 1]) == Names(groups[..g]) + SetOf(groups[g])
  {
    assert groups[..g + 1] == groups[..g] + [groups[g]];
  }

  /** One group: names not seen yet are appended in order, empty ones skipped. */
  method AppendUnseen(out0: seq<string>, group: seq<string>) returns (out: seq<string>)
    requires Distinct(out0)
    ensures Distinct(out) && out0 <= out && SetOf(out) == SetOf(out0) + (SetOf(group) - {""})
  {
    out := out0;
    for i := 0 to |group|
      invariant Distinct(out) && out0 <= out && SetOf(out) == SetOf(out0) + (SetOf(group[..i]) - {""})
    {
      var name := group[i];
      assert SetOf(group[..i + 1]) == SetOf(group[..i]) + {name};
      if name != "" && name !in SetOf(out) {
        assert SetOf(out + [name]) == SetOf(out) + {name};
        out := out + [name];
      }
    }
    assert group[..|group|] == group;
  }

  method DedupOrdered(first: string, groups: seq<seq<string>>) returns (out: seq<string>)
    ensures Distinct(out) && (first != "" ==> out != [] && out[0] == first)
    ensures SetOf(out) == ({first} + Names(groups)) - {""}
  {
    out := if first != "" then [first] else [];
    for g := 0 to |groups|
      invariant Distinct(out) && (first != "" ==> out != [] && out[0] == first)
      invariant SetOf(out) == ({first} + Names(groups[..g])) - {""}
    {
      NamesStep(groups, g);
      out := AppendUnseen(out, groups[g]);
    }
    assert groups[..|groups|] == groups;
  }

  /** searchShardTargets of the source. */
  method ComputeSearchTargets(a: Assignment) returns (targets: seq<string>)
    ensures Distinct(targets) && SetOf(targets) == SearchTargets(a)
  {
    targets := DedupOrdered(a.sot, [a.readers, a.proxies]);
    assert Names([a.readers, a.proxies]) == SetOf(a.readers) + SetOf(a.proxies);
  }

  /** Read and proxy members a write must be pushed to, leaving out the writer itself. */
  function PushTargets(self: string, a: Assignment): set<string> {
    SetOf(a.readers) + SetOf(a.proxies) - {"", self}
  }

  method TargetsForAssignment(self: string, a: Assignment) returns (targets: seq<string>)
    ensures Distinct(targets) && SetOf(targets) == PushTargets(self, a)
  {
    var seen: set<string> := {};
    targets := [];
    var names := a.readers + a.proxies;
    for i := 0 to |names|
      invariant Distinct(targets) && seen == SetOf(targets) == SetOf(names[..i]) - {"", self}
    {
      var name := names[i];
      assert SetOf(names[..i + 1]) == SetOf(names[..i]) + {name};
      if name != "" && name != self && name !in seen {
        seen := seen + {name};
        targets := targets + [name];
      }
    }
    assert names[..|names|] == names;
    assert SetOf(names) == SetOf(a.readers) + SetOf(a.proxies);
  }

  predicate MayWrite(server: string, a: Assignment) { a.sot == server }

  predicate MayRead(server: string, a: Assignment) { server in a.readers }

  predicate MaySearch(server: string, a: Assignment) {
    a.sot == server || server in a.readers || server in a.proxies
  }
}
