/** The names that carry identities through the file system: change-queue entries
    (internal/fsstore/documents.go), cached references (internal/agents/cache/projection.go) and
    pending attachment writes (internal/replication/file_workitem.go). */
module Names {
  import opened Json
  import opened SearchPath

  // ----- names joined by a double underscore

  /** strings.SplitN(s, "__", 2), when it finds the separator. */
  function Cut(s: string): Option<(string, string)> {
    if |s| < 2 then None
    else if s[0] == '_' && s[1] == '_' then Some(([], s[2..]))
    else match Cut(s[1..])
      case None => None
      case Some((head, tail)) => Some(([s[0]] + head, tail))
  }

  /** No double underscore, not even across the separator that follows. */
  predicate Plain(name: string) {
    (forall i :: 0 <= i < |name| - 1 ==> !(name[i] == '_' && name[i + 1] == '_')) &&
      (name != [] ==> name[|name| - 1] != '_')
  }

  lemma {:induction false} CutIff(name: string, rest: string)
    ensures Cut(name + "__" + rest) == Some((name, rest)) <==> Plain(name)
  {
    var whole := name + "__" + rest;
    if name == [] {
      assert whole[2..] == rest;
    } else {
      var x, more := name[0], name[1..];
      assert whole[1..] == more + "__" + rest;
      assert name == [x] + more;
      if x == '_' && whole[1] == '_' {
        assert !Plain(name);
      } else {
        CutIff(more, rest);
        PlainStep(x, more);
      }
    }
  }

  lemma PlainStep(x: char, more: string)
    requires !(x == '_' && (more == [] || more[0] == '_'))
    ensures Plain([x] + more) <==> Plain(more)
  {
    var name := [x] + more;
    assert forall i :: 0 <= i < |more| ==> more[i] == name[i + 1];
    if Plain(more) {
      forall i | 0 <= i < |name| - 1
        ensures !(name[i] == '_' && name[i + 1] == '_')
      {
        assert i > 0 ==> !(more[i - 1] == '_' && more[i - 1 + 1] == '_');
      }
    }
    if Plain(name) {
      forall i | 0 <= i < |more| - 1
        ensures !(more[i] == '_' && more[i + 1] == '_')
      {
        assert !(name[i + 1] == '_' && name[i + 1 + 1] == '_');
      }
    }
  }

  const REF_PREFIX := "@@__"

  function EncodeRef(collection: string, id: string): string {
    REF_PREFIX + collection + "__" + id
  }

  function ParseRef(s: string): Option<(string, string)> {
    if !(REF_PREFIX <= s) then None
    else match Cut(s[|REF_PREFIX|..])
      case None => None
      case Some((collection, id)) => if collection == "" || id == "" then None else Some((collection, id))
  }

  /** A reference parses back to its collection and id exactly for these collections. */
  lemma RefRoundTripIff(collection: string, id: string)
    ensures ParseRef(EncodeRef(collection, id)) == Some((collection, id)) <==>
      Plain(collection) && collection != "" && id != ""
  {
    assert EncodeRef(collection, id)[|REF_PREFIX|..] == collection + "__" + id;
    CutIff(collection, id);
  }

  datatype Extension = Queue | Taken

  function Suffix(ext: Extension): string {
    match ext case Queue => ".queue" case Taken => ".taken"
  }

  function QueueName(change: string, collection: string, id: string, ext: Extension): string {
    change + "__" + (collection + "__" + id) + Suffix(ext)
  }

  predicate EndsWith(s: string, suffix: string) {
    |suffix| <= |s| && s[|s| - |suffix|..] == suffix
  }

  function ParseQueueName(name: string): Option<(string, string, string, Extension)> {
    if EndsWith(name, ".queue") then SplitQueueName(name[..|name| - 6], Queue)
    else if EndsWith(name, ".taken") then SplitQueueName(name[..|name| - 6], Taken)
    else None
  }

  /** strings.SplitN(base, "__", 3), when it finds both separators. */
  function SplitQueueName(base: string, ext: Extension): Option<(string, string, string, Extension)> {
    match Cut(base)
    case None => None
    case Some((change, rest)) =>
      match Cut(rest)
      case None => None
      case Some((collection, id)) => Some((change, collection, id, ext))
  }

  lemma SuffixStripped(base: string, ext: Extension)
    ensures ParseQueueName(base + Suffix(ext)) == SplitQueueName(base, ext)
  {
    var name := base + Suffix(ext);
    assert name[..|name| - 6] == base && name[|name| - 6..] == Suffix(ext);
    assert ".queue"[1] != ".taken"[1];
  }

  /** A queue entry's name parses back exactly when neither the verb nor the collection hides a separator. */
  lemma QueueRoundTripIff(change: string, collection: string, id: string, ext: Extension)
    ensures ParseQueueName(QueueName(change, collection, id, ext)) == Some((change, collection, id, ext)) <==>
      Plain(change) && Plain(collection)
  {
    var rest := collection + "__" + id;
    SuffixStripped(change + "__" + rest, ext);
    CutIff(change, rest);
    CutIff(collection, id);
    if !Plain(change) {
      CutShorter(change, rest);
    }
  }

  /** The first separator is never found after the one that was written. */
  lemma {:induction false} CutShorter(name: string, rest: string)
    ensures var r := Cut(name + "__" + rest); r.Some? && (r.value.0 == name ==> r.value.1 == rest)
    decreases |name|
  {
    var whole := name + "__" + rest;
    if name == [] {
      assert whole[2..] == rest;
    } else {
      assert whole[1..] == name[1..] + "__" + rest;
      CutShorter(name[1..], rest);
      assert name == [name[0]] + name[1..];
    }
  }

  // ----- pending attachment writes

  const MAX_ID_BYTES := 249
  const MAX_FILE_NAME_BYTES := 255

  predicate IdChar(c: char) {
    'A' <= c <= 'Z' || 'a' <= c <= 'z' || IsDigit(c) || c == '_' || c == '-' || c == '.'
  }

  predicate SafeId(id: string) {
    id != "" && id != "null" && id[0] != '.' && |id| <= MAX_ID_BYTES && forall i :: 0 <= i < |id| ==> IdChar(id[i])
  }

  predicate SafeFileName(name: string) {
    && name != "" && name[0] != '.' && |Utf8All(name)| <= MAX_FILE_NAME_BYTES
    && forall i :: 0 <= i < |name| ==>
      name[i] != '/' && name[i] != '\\' && name[i] >= 0x20 as char && name[i] != 0x7f as char
  }

  /** Safe ids, spelled out: 1 to 249 letters, digits, underscores, hyphens and dots, no dot first, not "null". */
  lemma SafeIdIff(id: string)
    ensures SafeId(id) <==>
      && 1 <= |id| <= 249 && id != "null" && !("." <= id)
      && forall c :: c in id ==>
           var n := c as int;
           0x41 <= n <= 0x5A || 0x61 <= n <= 0x7A || 0x30 <= n <= 0x39 || n == 0x5F || n == 0x2D || n == 0x2E
  {
    assert forall i :: 0 <= i < |id| ==> id[i] in id;
  }

  /** Safe file names, spelled out: 1 to 255 bytes of UTF-8, no dot first, no slash, backslash or control character. */
  lemma SafeFileNameIff(name: string)
    ensures SafeFileName(name) <==>
      && name != "" && |Utf8All(name)| <= 255 && !("." <= name)
      && forall c :: c in name ==> c as int >= 32 && c as int != 127 && c as int != 0x2F && c as int != 0x5C
  {
    assert forall i :: 0 <= i < |name| ==> name[i] in name;
  }

  /** The names as they stand on disk and on the wire. */
  lemma NamesAre(a: string, b: string, c: string)
    ensures EncodeRef(a, b) == "@@__" + a + "__" + b
    ensures QueueName(a, b, c, Queue) == a + "__" + b + "__" + c + ".queue"
    ensures QueueName(a, b, c, Taken) == a + "__" + b + "__" + c + ".taken"
    ensures PendingName(a, b, c) == a + "." + b + "." + c + ".json"
    ensures WorkItemId(a, b, c) == a + "-" + b + "-" + c
  {
    assert a + "__" + (b + "__" + c) == a + "__" + b + "__" + c;
    assert a + "." + (b + "." + c) + ".json" == a + "." + b + "." + c + ".json";
    assert a + "-" + (b + "-" + c) == a + "-" + b + "-" + c;
  }

  predicate SplitsAt(s: string, sep: char, i: int) {
    0 <= i < |s| && s[i] == sep && SafeId(s[..i]) && SafeFileName(s[i + 1..])
  }

  /** The largest number below `n` with a property. */
  function LastWhere(p: int -> bool, n: nat): (r: Option<nat>)
    ensures r.Some? ==> r.value < n
  {
    if n == 0 then None
    else if p(n - 1) then Some(n - 1)
    else LastWhere(p, n - 1)
  }

  ghost predicate IsLastWhere(p: int -> bool, n: nat, r: Option<nat>) {
    && (r.Some? ==> p(r.value))
    && forall i :: 0 <= i < n && p(i) ==> r.Some? && i <= r.value
  }

  lemma {:induction false} LastWhereIsLast(p: int -> bool, n: nat)
    ensures IsLastWhere(p, n, LastWhere(p, n))
  {
    if n > 0 && !p(n - 1) {
      LastWhereIsLast(p, n - 1);
    }
  }

  function Splitting(s: string, sep: char): int -> bool {
    i => SplitsAt(s, sep, i)
  }

  /** The last place below `n` where `s` splits into a safe id and a safe file name. */
  function LastSplit(s: string, sep: char, n: nat): (r: Option<nat>)
    ensures r.Some? ==> r.value < n
  {
    LastWhere(Splitting(s, sep), n)
  }

  lemma LastSplitStep(s: string, sep: char, i: nat)
    ensures LastSplit(s, sep, i + 1) == if SplitsAt(s, sep, i) then Some(i) else LastSplit(s, sep, i)
  {
    assert Splitting(s, sep)(i) == SplitsAt(s, sep, i);
  }

  lemma LastSplitIsLast(s: string, sep: char, n: nat)
    ensures SplitIsLast(s, sep, n, LastSplit(s, sep, n))
  {
    LastWhereIsLast(Splitting(s, sep), n);
    assert forall i :: Splitting(s, sep)(i) == SplitsAt(s, sep, i);
  }

  /** The split is one, and none below `n` comes after it. */
  ghost predicate SplitIsLast(s: string, sep: char, n: nat, r: Option<nat>) {
    && (r.Some? ==> SplitsAt(s, sep, r.value))
    && forall i :: 0 <= i < n && SplitsAt(s, sep, i) ==> r.Some? && i <= r.value
  }

  function Halves(s: string, at: Option<nat>): Option<(string, string)>
    requires at.Some? ==> at.value < |s|
  {
    if at.Some? then Some((s[..at.value], s[at.value + 1..])) else None
  }

  function Joined(id: string, sep: char, file: string): string {
    id + [sep] + file
  }

  function Framed(target: string, stem: string): string {
    target + "." + stem + ".json"
  }

  function PendingName(target: string, id: string, file: string): string {
    Framed(target, Joined(id, '.', file))
  }

  function ParsePendingName(name: string, target: string): Option<(string, string)> {
    if !(target + "." <= name) || !EndsWith(name, ".json") || |name| < |target| + 6 then None
    else
      var rest := name[|target| + 1..|name| - 5];
      Halves(rest, LastSplit(rest, '.', |rest|))
  }

  /** The source's loop runs down over the dots and stops at the first safe split. */
  method ParsePendingFileWriteName(name: string, target: string) returns (r: Option<(string, string)>)
    ensures r == ParsePendingName(name, target)
  {
    if !(target + "." <= name) || !EndsWith(name, ".json") || |name| < |target| + 6 {
      return None;
    }
    var rest := name[|target| + 1..|name| - 5];
    var i := |rest|;
    while i > 0
      invariant 0 <= i <= |rest| && LastSplit(rest, '.', |rest|) == LastSplit(rest, '.', i)
    {
      i := i - 1;
      LastSplitStep(rest, '.', i);
      if SplitsAt(rest, '.', i) {
        return Some((rest[..i], rest[i + 1..]));
      }
    }
    return None;
  }

  function WorkItemId(server: string, id: string, file: string): string {
    server + "-" + Joined(id, '-', file)
  }

  function ParseWorkItemId(item: string, server: string): Option<(string, string)> {
    if !(server + "-" <= item) then None
    else
      var rest := item[|server| + 1..];
      Halves(rest, LastSplit(rest, '-', |rest|))
  }

  /** The source's loop runs up over the hyphens and keeps the longest safe id. */
  method ParseFileWorkItemID(item: string, server: string) returns (r: Option<(string, string)>)
    ensures r == ParseWorkItemId(item, server)
  {
    if !(server + "-" <= item) {
      return None;
    }
    var rest := item[|server| + 1..];
    r := None;
    for i := 0 to |rest|
      invariant r == Halves(rest, LastSplit(rest, '-', i))
    {
      LastSplitStep(rest, '-', i);
      if SplitsAt(rest, '-', i) {
        if r.None? || |rest[..i]| > |r.value.0| {
          r := Some((rest[..i], rest[i + 1..]));
        }
      }
    }
  }

  /** The pending file a listed work item leads to. */
  function Reached(target: string, id: string, file: string): Option<string> {
    match ParsePendingName(PendingName(target, id, file), target)
    case None => None
    case Some((listedId, listedFile)) =>
      match ParseWorkItemId(WorkItemId(target, listedId, listedFile), target)
      case None => None
      case Some((parsedId, parsedFile)) => Some(PendingName(target, parsedId, parsedFile))
  }

  lemma FramedParses(target: string, stem: string)
    ensures ParsePendingName(Framed(target, stem), target) == Halves(stem, LastSplit(stem, '.', |stem|))
  {
    StemOf(target, stem);
    SuffixOf5(target, stem, ".json");
  }

  lemma StemOf(target: string, stem: string)
    ensures
      var name := Framed(target, stem);
      |name| == |target| + 1 + |stem| + 5 && name[|target| + 1..|name| - 5] == stem
    ensures target + "." <= Framed(target, stem)
  {
    assert Framed(target, stem) == target + "." + (stem + ".json");
  }

  lemma SuffixOf5(target: string, stem: string, ext: string)
    requires ext == ".json"
    ensures EndsWith(Framed(target, stem), ext)
  {
    var name := Framed(target, stem);
    assert name[|name| - 5..] == ext;
  }

  lemma ItemParses(server: string, stem: string)
    ensures ParseWorkItemId(server + "-" + stem, server) == Halves(stem, LastSplit(stem, '-', |stem|))
  {
    assert (server + "-" + stem)[|server| + 1..] == stem;
  }

  lemma JoinedSplits(id: string, sep: char, file: string)
    ensures var s := Joined(id, sep, file); s[..|id|] == id && s[|id|] == sep && s[|id| + 1..] == file
  {
  }

  lemma HalvesJoin(s: string, sep: char, k: nat)
    requires k < |s| && s[k] == sep
    ensures Joined(s[..k], sep, s[k + 1..]) == s
  {
  }

  /** Listing never loses a pending file: some safe split of the same name is found, with an id at least as long. */
  lemma ListedSplit(target: string, id: string, file: string)
    requires SafeId(id) && SafeFileName(file)
    ensures
      var r := ParsePendingName(PendingName(target, id, file), target);
      && r.Some? && SafeId(r.value.0) && SafeFileName(r.value.1)
      && Joined(r.value.0, '.', r.value.1) == Joined(id, '.', file) && |id| <= |r.value.0|
  {
    var stem := Joined(id, '.', file);
    FramedParses(target, stem);
    JoinedSplits(id, '.', file);
    assert SplitsAt(stem, '.', |id|);
    LastSplitIsLast(stem, '.', |stem|);
    HalvesJoin(stem, '.', LastSplit(stem, '.', |stem|).value);
  }

  /** Some later hyphen, inside the file name, splits the work item as well. */
  predicate Ambiguous(id: string, file: string) {
    LaterSplit(Joined(id, '-', file), |id|)
  }

  predicate LaterSplit(s: string, n: nat) {
    exists i :: n < i < |s| && SplitsAt(s, '-', i)
  }

  lemma ParsedSplit(target: string, id: string, file: string)
    requires SafeId(id) && SafeFileName(file)
    ensures
      var r := ParseWorkItemId(WorkItemId(target, id, file), target);
      && r.Some? && Joined(r.value.0, '-', r.value.1) == Joined(id, '-', file)
      && (if Ambiguous(id, file) then |r.value.0| > |id| else r.value == (id, file))
  {
    var stem := Joined(id, '-', file);
    ItemParses(target, stem);
    JoinedSplits(id, '-', file);
    LastSplitIsLast(stem, '-', |stem|);
    LastOfJoined(stem, id, file, LastSplit(stem, '-', |stem|));
  }

  lemma LastOfJoined(stem: string, id: string, file: string, at: Option<nat>)
    requires SafeId(id) && SafeFileName(file) && stem == Joined(id, '-', file) && SplitIsLast(stem, '-', |stem|, at)
    ensures at.Some? && |id| <= at.value < |stem| && Joined(stem[..at.value], '-', stem[at.value + 1..]) == stem
    ensures if LaterSplit(stem, |id|) then at.value > |id| else at.value == |id|
  {
    JoinedSplits(id, '-', file);
    assert SplitsAt(stem, '-', |id|);
    HalvesJoin(stem, '-', at.value);
  }

  lemma FramedInjective(target: string, a: string, b: string)
    requires Framed(target, a) == Framed(target, b)
    ensures a == b
  {
    StemOf(target, a);
    StemOf(target, b);
  }

  /** The same text joined at two places differs at the earlier one. */
  lemma JoinedDiffer(id: string, file: string, longer: string, rest: string)
    requires |id| < |longer| && Joined(longer, '-', rest) == Joined(id, '-', file)
    ensures Joined(longer, '.', rest) != Joined(id, '.', file)
  {
    assert longer[|id|] == Joined(longer, '-', rest)[|id|] == '-';
    assert Joined(longer, '.', rest)[|id|] == '-' && Joined(id, '.', file)[|id|] == '.';
  }

  lemma ParsedNameIff(target: string, id: string, file: string)
    requires SafeId(id) && SafeFileName(file)
    ensures
      var r := ParseWorkItemId(WorkItemId(target, id, file), target);
      r.Some? && (PendingName(target, r.value.0, r.value.1) == PendingName(target, id, file) <==> !Ambiguous(id, file))
  {
    ParsedSplit(target, id, file);
    var (id2, file2) := ParseWorkItemId(WorkItemId(target, id, file), target).value;
    if Ambiguous(id, file) {
      JoinedDiffer(id, file, id2, file2);
      if PendingName(target, id2, file2) == PendingName(target, id, file) {
        FramedInjective(target, Joined(id2, '.', file2), Joined(id, '.', file));
      }
    }
  }

  /** A listed work item leads back to its pending file if and only if the listed split has no hyphen
      at which it could be split again. */
  lemma ReachedIff(target: string, id: string, file: string)
    requires SafeId(id) && SafeFileName(file)
    ensures
      var listed := ParsePendingName(PendingName(target, id, file), target);
      listed.Some? && (Reached(target, id, file) == Some(PendingName(target, id, file)) <==>
        !Ambiguous(listed.value.0, listed.value.1))
  {
    ListedSplit(target, id, file);
    var listed := ParsePendingName(PendingName(target, id, file), target).value;
    ParsedNameIff(target, listed.0, listed.1);
  }

  /** In particular whenever the file name has no hyphen, even if the split that is found differs from the original. */
  lemma HyphenFreeIsReached(target: string, id: string, file: string)
    requires SafeId(id) && SafeFileName(file) && '-' !in file
    ensures Reached(target, id, file) == Some(PendingName(target, id, file))
  {
    ReachedIff(target, id, file);
    ListedSplit(target, id, file);
    var (id1, file1) := ParsePendingName(PendingName(target, id, file), target).value;
    SuffixOf(id1, file1, id, file);
    NoLaterSplit(id1, file1);
  }

  lemma SuffixOf(id1: string, file1: string, id: string, file: string)
    requires Joined(id1, '.', file1) == Joined(id, '.', file) && |id| <= |id1| && '-' !in file
    ensures '-' !in file1
  {
    forall k | 0 <= k < |file1|
      ensures file1[k] != '-'
    {
      assert file1[k] == Joined(id1, '.', file1)[|id1| + 1 + k] == file[|id1| + k - |id|];
    }
  }

  lemma NoLaterSplit(id: string, file: string)
    requires '-' !in file
    ensures !Ambiguous(id, file)
  {
    var s := Joined(id, '-', file);
    forall i | |id| < i < |s|
      ensures !SplitsAt(s, '-', i)
    {
      assert s[i] == file[i - |id| - 1];
    }
  }

  /** With a hyphen it can fail: a pending write of "p-q" for a document is listed as one of "q" for another. */
  lemma HyphenMisleads(target: string, id: string, p: string, q: string)
    requires SafeId(id) && SafeFileName(Joined(p, '-', q)) && SafeId(Joined(id, '-', p)) && SafeFileName(q)
    requires '.' !in p && '.' !in q
    ensures Reached(target, id, Joined(p, '-', q)) != Some(PendingName(target, id, Joined(p, '-', q)))
  {
    var file := Joined(p, '-', q);
    ReachedIff(target, id, file);
    ListedSplit(target, id, file);
    var (id1, file1) := ParsePendingName(PendingName(target, id, file), target).value;
    OneDot(id1, file1, id, file);
    HyphenIsAmbiguous(id, p, q);
  }

  lemma HyphenIsAmbiguous(id: string, p: string, q: string)
    requires SafeId(Joined(id, '-', p)) && SafeFileName(q)
    ensures Ambiguous(id, Joined(p, '-', q))
  {
    var s, other := Joined(id, '-', Joined(p, '-', q)), Joined(id, '-', p);
    assert s == Joined(other, '-', q);
    JoinedSplits(other, '-', q);
    assert SplitsAt(s, '-', |other|);
  }

  lemma OneDot(id1: string, file1: string, id: string, file: string)
    requires Joined(id1, '.', file1) == Joined(id, '.', file) && |id| <= |id1| && '.' !in file
    ensures id1 == id && file1 == file
  {
    JoinedSplits(id1, '.', file1);
    JoinedSplits(id, '.', file);
  }

  /** For example "b-c" for document "a". */
  lemma HyphenMisleadsExample(target: string, id: string, file: string)
    requires id == "a" && file == "b-c"
    ensures Reached(target, id, file) != Some(PendingName(target, id, file))
  {
    var p, q := "b", "c";
    assert file == Joined(p, '-', q) && Joined(id, '-', p) == "a-b";
    ShortUtf8(file);
    ShortUtf8(q);
    HyphenMisleads(target, id, p, q);
  }

  lemma {:induction false} ShortUtf8(s: string)
    ensures |Utf8All(s)| <= 4 * |s|
  {
    if s != [] {
      ShortUtf8(s[1..]);
    }
  }
}
