/** internal/fsstore/files.go: attachments of one document, committed and deleted under a journal, with
    a crash possible between any two file operations. A blob is represented by its SHA-256; the manifest
    file, sorted by name with one line per name, by a map from name to entry. */
module Attachments {
  import opened Json

  datatype Entry = Entry(name: string, contentType: string, size: nat, hash: string, version: string, op: string)

  datatype Action = CreateFile | UpdateFile | DeleteFile

  datatype Phase = Staged | BlobCommitted | Done

  datatype Journal = Journal(action: Action, entry: Entry, staged: Option<string>, phase: Phase)

  /** Final blobs by name, the manifest, journals by operation id, and staged uploads by path. */
  datatype Files = Files(blobs: map<string, string>, manifest: map<string, Entry>, journals: map<string, Journal>,
    staged: map<string, string>)

  /** Every listed attachment has a blob with the recorded hash. */
  predicate Consistent(s: Files) {
    forall n :: n in s.manifest ==> n in s.blobs && s.blobs[n] == s.manifest[n].hash
  }

  const COMMIT_STEPS := 6
  const DELETE_STEPS := 5

  function CommitJournal(s: Files, entry: Entry, path: string): Journal {
    Journal(if entry.name in s.manifest then UpdateFile else CreateFile, entry, Some(path), Staged)
  }

  /** The files after the first `n` steps of a commit that started in `s`. */
  function CommitUpTo(s: Files, entry: Entry, path: string, n: nat): Files
    requires path in s.staged && n <= COMMIT_STEPS
  {
    if n == 0 then s
    else
      var t := CommitUpTo(s, entry, path, n - 1);
      var j := CommitJournal(s, entry, path);
      match n
      case 1 => t.(journals := t.journals[entry.op := j])
      case 2 => t.(blobs := t.blobs[entry.name := s.staged[path]], staged := t.staged - {path})
      case 3 => t.(journals := t.journals[entry.op := j.(staged := None, phase := BlobCommitted)])
      case 4 => t.(manifest := t.manifest[entry.name := entry])
      case 5 => t.(journals := t.journals[entry.op := j.(staged := None, phase := Done)])
      case _ => t.(journals := t.journals - {entry.op})
  }

  /** The files after the first `n` steps of a delete. */
  function DeleteUpTo(s: Files, entry: Entry, n: nat): Files
    requires n <= DELETE_STEPS
  {
    if n == 0 then s
    else
      var t := DeleteUpTo(s, entry, n - 1);
      var j := Journal(DeleteFile, entry, None, Staged);
      match n
      case 1 => t.(journals := t.journals[entry.op := j])
      case 2 => t.(blobs := t.blobs - {entry.name})
      case 3 => t.(journals := t.journals[entry.op := j.(phase := BlobCommitted)])
      case 4 => t.(manifest := t.manifest - {entry.name})
      case _ => t.(journals := t.journals - {entry.op})
  }

  /** Recovery first drops staged uploads, then finishes or rolls back each journal. */
  function Finish(s: Files, j: Journal): Files {
    match j.phase
    case Done => s
    case BlobCommitted =>
      if j.action == DeleteFile then s.(manifest := s.manifest - {j.entry.name})
      else s.(manifest := s.manifest[j.entry.name := j.entry])
    case Staged => if j.staged.Some? then s.(staged := s.staged - {j.staged.value}) else s
  }

  function RecoverOne(s: Files, op: string): Files
    requires op in s.journals
  {
    var t := Finish(s, s.journals[op]);
    t.(journals := t.journals - {op})
  }

  /** The journals in directory order; one that is already gone is skipped. */
  function RecoverJournals(s: Files, order: seq<string>): Files
    decreases |order|
  {
    if order == [] then s
    else RecoverJournals(if order[0] in s.journals then RecoverOne(s, order[0]) else s, order[1..])
  }

  function Recovered(s: Files, order: seq<string>): Files {
    RecoverJournals(s.(staged := map[]), order)
  }

  /** The file operations themselves; a commit or delete stops after `crash` of them. */
  class AttachmentFiles {
    var blobs: map<string, string>
    var manifest: map<string, Entry>
    var journals: map<string, Journal>
    var staged: map<string, string>

    ghost function View(): Files
      reads this
    {
      Files(blobs, manifest, journals, staged)
    }

    constructor ()
      ensures View() == Files(map[], map[], map[], map[])
    {
      blobs, manifest, journals, staged := map[], map[], map[], map[];
    }

    method CommitStagedBinary(entry: Entry, path: string, crash: nat)
      requires path in staged && crash <= COMMIT_STEPS
      modifies this
      ensures View() == CommitUpTo(old(View()), entry, path, crash)
    {
      var j := Journal(CreateFile, entry, Some(path), Staged);
      if entry.name in manifest {
        j := j.(action := UpdateFile);
      }
      if crash == 0 { return; }
      journals := journals[entry.op := j];
      assert View() == CommitUpTo(old(View()), entry, path, 1);
      if crash == 1 { return; }
      blobs := blobs[entry.name := staged[path]];
      staged := staged - {path};
      assert View() == CommitUpTo(old(View()), entry, path, 2);
      if crash == 2 { return; }
      j := j.(phase := BlobCommitted, staged := None);
      journals := journals[entry.op := j];
      assert View() == CommitUpTo(old(View()), entry, path, 3);
      if crash == 3 { return; }
      manifest := manifest[entry.name := entry];
      assert View() == CommitUpTo(old(View()), entry, path, 4);
      if crash == 4 { return; }
      journals := journals[entry.op := j.(phase := Done)];
      assert View() == CommitUpTo(old(View()), entry, path, 5);
      if crash == 5 { return; }
      journals := journals - {entry.op};
    }

    method CommitFileDelete(entry: Entry, crash: nat)
      requires crash <= DELETE_STEPS
      modifies this
      ensures View() == DeleteUpTo(old(View()), entry, crash)
    {
      var j := Journal(DeleteFile, entry, None, Staged);
      if crash == 0 { return; }
      journals := journals[entry.op := j];
      assert View() == DeleteUpTo(old(View()), entry, 1);
      if crash == 1 { return; }
      blobs := blobs - {entry.name};
      assert View() == DeleteUpTo(old(View()), entry, 2);
      if crash == 2 { return; }
      journals := journals[entry.op := j.(phase := BlobCommitted)];
      assert View() == DeleteUpTo(old(View()), entry, 3);
      if crash == 3 { return; }
      manifest := manifest - {entry.name};
      assert View() == DeleteUpTo(old(View()), entry, 4);
      if crash == 4 { return; }
      journals := journals - {entry.op};
    }

    method RecoverEntry(op: string)
      requires op in journals
      modifies this
      ensures View() == RecoverOne(old(View()), op)
    {
      var j := journals[op];
      match j.phase {
        case Done =>
        case BlobCommitted =>
          if j.action == DeleteFile {
            manifest := manifest - {j.entry.name};
          } else {
            manifest := manifest[j.entry.name := j.entry];
          }
        case Staged =>
          if j.staged.Some? {
            staged := staged - {j.staged.value};
          }
      }
      journals := journals - {op};
    }

    method RecoverFileOps(order: seq<string>)
      modifies this
      ensures View() == Recovered(old(View()), order)
    {
      staged := map[];
      ghost var start := View();
      for i := 0 to |order|
        invariant RecoverJournals(View(), order[i..]) == RecoverJournals(start, order)
      {
        assert order[i..][0] == order[i] && order[i..][1..] == order[i + 1..];
        if order[i] in journals {
          RecoverEntry(order[i]);
        }
      }
    }
  }

  // ----- crash at any point, then recovery

  /** Nothing is in flight. */
  predicate Settled(s: Files) {
    s.journals == map[] && s.staged == map[]
  }

  predicate Lists(order: seq<string>, journals: map<string, Journal>) {
    forall op :: op in journals ==> op in order
  }

  /** Recovery ends with nothing in flight, from any state and for any directory order. */
  lemma {:induction false} RecoverySettles(s: Files, order: seq<string>)
    requires Lists(order, s.journals) && s.staged == map[]
    ensures Settled(RecoverJournals(s, order))
    decreases |order|
  {
    if order == [] {
      assert s.journals.Keys == {};
    } else {
      var t := if order[0] in s.journals then RecoverOne(s, order[0]) else s;
      assert order == [order[0]] + order[1..];
      assert t.staged == map[];
      RecoverySettles(t, order[1..]);
    }
  }

  lemma {:induction false} NothingToRecover(s: Files, order: seq<string>)
    requires s.journals == map[]
    ensures RecoverJournals(s, order) == s
  {
    if order != [] {
      NothingToRecover(s, order[1..]);
    }
  }

  /** Recovering again changes nothing. */
  lemma RecoveredTwice(s: Files, order: seq<string>, again: seq<string>)
    requires Lists(order, s.journals)
    ensures Recovered(Recovered(s, order), again) == Recovered(s, order)
  {
    RecoverySettles(s.(staged := map[]), order);
    NothingToRecover(Recovered(s, order), again);
  }

  /** Recovery stopped after some of its operations: while staged files are dropped, or with `done`
      journals recovered and the next one perhaps finished but not yet cleared. */
  datatype CrashPoint = Dropping(left: set<string>) | Recovering(done: nat, finished: bool)

  function RecoveredUpTo(s: Files, order: seq<string>, at: CrashPoint): Files
    requires at.Recovering? ==> at.done <= |order|
  {
    match at
    case Dropping(left) => s.(staged := map path | path in s.staged && path in left :: s.staged[path])
    case Recovering(done, finished) =>
      var t := RecoverJournals(s.(staged := map[]), order[..done]);
      if finished && done < |order| && order[done] in t.journals then Finish(t, t.journals[order[done]]) else t
  }

  /** A crash after any number of recovery operations is made good by recovering again. */
  lemma RecoveryRestarts(s: Files, order: seq<string>, at: CrashPoint)
    requires at.Recovering? ==> at.done <= |order|
    ensures Recovered(RecoveredUpTo(s, order, at), order) == Recovered(s, order)
  {
    if at.Recovering? {
      var start := s.(staged := map[]);
      var t := RecoverJournals(start, order[..at.done]);
      RecoveredGone(start, order[..at.done]);
      SplitRecovery(start, order, at.done);
      var u := RecoveredUpTo(s, order, at);
      if u != t {
        FinishTwice(t, t.journals[order[at.done]]);
      }
      SkipGone(u, order, at.done);
      SameRest(t, u, order[at.done..]);
      assert u.(staged := map[]) == u;
    }
  }

  /** Recovering a list is recovering its front and then the rest. */
  lemma {:induction false} SplitRecovery(s: Files, order: seq<string>, k: nat)
    requires k <= |order|
    ensures RecoverJournals(s, order) == RecoverJournals(RecoverJournals(s, order[..k]), order[k..])
    decreases |order|
  {
    if k > 0 {
      var t := if order[0] in s.journals then RecoverOne(s, order[0]) else s;
      assert order[..k][1..] == order[1..][..k - 1] && order[1..][k - 1..] == order[k..];
      SplitRecovery(t, order[1..], k - 1);
    } else {
      assert order[..0] == [] && order[0..] == order;
    }
  }

  /** The journals of a recovered list are gone, no others are, and staged files stay dropped. */
  lemma {:induction false} RecoveredGone(s: Files, order: seq<string>)
    requires s.staged == map[]
    ensures
      var t := RecoverJournals(s, order);
      t.staged == map[] && forall op :: op in t.journals <==> op in s.journals && op !in order
    decreases |order|
  {
    if order != [] {
      var t := if order[0] in s.journals then RecoverOne(s, order[0]) else s;
      if order[0] in s.journals {
        FinishTwice(s, s.journals[order[0]]);
      }
      assert order == [order[0]] + order[1..];
      assert t.staged == map[];
      RecoveredGone(t, order[1..]);
    }
  }

  /** Journals that are gone are skipped. */
  lemma {:induction false} SkipGone(s: Files, order: seq<string>, k: nat)
    requires k <= |order| && forall i :: 0 <= i < k ==> order[i] !in s.journals
    ensures RecoverJournals(s, order) == RecoverJournals(s, order[k..])
    decreases k
  {
    if k > 0 {
      assert order[1..][k - 1..] == order[k..];
      SkipGone(s, order[1..], k - 1);
    } else {
      assert order[0..] == order;
    }
  }

  /** A journal that was already finished gives the same when it is recovered. */
  lemma SameRest(t: Files, u: Files, order: seq<string>)
    requires u == t || (order != [] && order[0] in t.journals && u == Finish(t, t.journals[order[0]]))
    ensures RecoverJournals(u, order) == RecoverJournals(t, order)
  {
    if u != t {
      FinishTwice(t, t.journals[order[0]]);
    }
  }

  lemma FinishTwice(s: Files, j: Journal)
    ensures Finish(Finish(s, j), j) == Finish(s, j) && Finish(s, j).journals == s.journals
  {
    var t := Finish(s, j);
    if j.phase.BlobCommitted? {
      assert Finish(t, j).manifest == t.manifest;
    } else if j.phase.Staged? {
      assert Finish(t, j).staged == t.staged;
    }
  }

  /** With one journal the directory order does not matter. */
  lemma {:induction false} RecoverSingle(s: Files, order: seq<string>, op: string)
    requires s.journals.Keys == {op} && op in order
    ensures RecoverJournals(s, order) == RecoverOne(s, op)
  {
    if order[0] == op {
      var t := RecoverOne(s, op);
      assert t.journals.Keys == {};
      assert t.journals == map[];
      NothingToRecover(t, order[1..]);
    } else {
      assert order == [order[0]] + order[1..];
      RecoverSingle(s, order[1..], op);
    }
  }

  /** The state that an interrupted commit recovers to, for every crash point. */
  lemma CommitRecovers(s: Files, entry: Entry, path: string, n: nat, order: seq<string>)
    requires s.journals == map[] && path in s.staged && n <= COMMIT_STEPS
    requires Lists(order, CommitUpTo(s, entry, path, n).journals)
    ensures Recovered(CommitUpTo(s, entry, path, n), order) ==
      Files(if n < 2 then s.blobs else s.blobs[entry.name := s.staged[path]],
            if n < 3 then s.manifest else s.manifest[entry.name := entry],
            map[], map[])
  {
    CommitStates(s, entry, path, n);
    var t := CommitUpTo(s, entry, path, n).(staged := map[]);
    if 1 <= n <= 5 {
      RecoverSingle(t, order, entry.op);
      assert t.journals - {entry.op} == map[];
    } else {
      assert t.journals == map[];
      NothingToRecover(t, order);
    }
  }

  /** While a commit is under way its journal names the operation, whether the file was listed, and how far it is:
      the staged file until the blob is in place, then that the blob is committed, then that all is done. */
  lemma JournalWhile(s: Files, entry: Entry, path: string, n: nat)
    requires s.journals == map[] && path in s.staged && 1 <= n <= 5
    ensures
      var t := CommitUpTo(s, entry, path, n);
      && t.journals.Keys == {entry.op}
      && var j := t.journals[entry.op];
         && j.entry == entry && j.action == (if entry.name in s.manifest then UpdateFile else CreateFile)
         && j.staged == (if n < 3 then Some(path) else None)
         && j.phase == (if n < 3 then Staged else if n < 5 then BlobCommitted else Done)
    ensures (path in CommitUpTo(s, entry, path, n).staged) <==> n == 1
  {
    CommitStates(s, entry, path, n);
    StagedWhile(s, entry, path, n);
  }

  lemma StagedWhile(s: Files, entry: Entry, path: string, n: nat)
    requires path in s.staged && n <= COMMIT_STEPS
    ensures CommitUpTo(s, entry, path, n).staged == if n < 2 then s.staged else s.staged - {path}
  {
    if n > 0 {
      StagedWhile(s, entry, path, n - 1);
    }
  }

  /** The steps of a commit, unrolled. */
  lemma CommitStates(s: Files, entry: Entry, path: string, n: nat)
    requires s.journals == map[] && path in s.staged && n <= COMMIT_STEPS
    ensures
      var t := CommitUpTo(s, entry, path, n);
      var j := CommitJournal(s, entry, path);
      && t.blobs == (if n < 2 then s.blobs else s.blobs[entry.name := s.staged[path]])
      && t.manifest == (if n < 4 then s.manifest else s.manifest[entry.name := entry])
      && t.journals == (if n == 0 || n == 6 then map[] else
           map[entry.op := if n < 3 then j else j.(staged := None, phase := if n < 5 then BlobCommitted else Done)])
  {
    if n > 0 {
      CommitStates(s, entry, path, n - 1);
    }
  }

  lemma DeleteStates(s: Files, entry: Entry, n: nat)
    requires s.journals == map[] && n <= DELETE_STEPS
    ensures
      var t := DeleteUpTo(s, entry, n);
      && t.blobs == (if n < 2 then s.blobs else s.blobs - {entry.name})
      && t.manifest == (if n < 4 then s.manifest else s.manifest - {entry.name})
      && t.journals == (if n == 0 || n == 5 then map[] else
           map[entry.op := Journal(DeleteFile, entry, None, if n < 3 then Staged else BlobCommitted)])
  {
    if n > 0 {
      DeleteStates(s, entry, n - 1);
    }
  }

  lemma DeleteRecovers(s: Files, entry: Entry, n: nat, order: seq<string>)
    requires s.journals == map[] && n <= DELETE_STEPS
    requires Lists(order, DeleteUpTo(s, entry, n).journals)
    ensures Recovered(DeleteUpTo(s, entry, n), order) ==
      Files(if n < 2 then s.blobs else s.blobs - {entry.name},
            if n < 3 then s.manifest else s.manifest - {entry.name},
            map[], map[])
  {
    DeleteStates(s, entry, n);
    var t := DeleteUpTo(s, entry, n).(staged := map[]);
    if 1 <= n <= 4 {
      RecoverSingle(t, order, entry.op);
      assert t.journals - {entry.op} == map[];
    } else {
      assert t.journals == map[];
      NothingToRecover(t, order);
    }
  }

  // ----- operations on a document, each cut at any point and then recovered

  /** An upload of bytes with hash `entry.hash`, or a delete; `cut` steps happen before the crash. */
  datatype Attempt = Upload(entry: Entry, cut: nat) | Erase(entry: Entry, cut: nat)

  predicate InRange(a: Attempt) {
    a.cut <= if a.Upload? then COMMIT_STEPS else DELETE_STEPS
  }

  /** Stages, commits up to the cut, and recovers, from a state with nothing in flight. */
  function After(s: Files, a: Attempt, path: string): Files
    requires InRange(a)
  {
    match a
    case Upload(entry, cut) =>
      Recovered(CommitUpTo(s.(staged := s.staged[path := entry.hash]), entry, path, cut), [entry.op])
    case Erase(entry, cut) => Recovered(DeleteUpTo(s, entry, cut), [entry.op])
  }

  /** The operation's change to the manifest. */
  function Applied(m: map<string, Entry>, a: Attempt): map<string, Entry> {
    if a.Upload? then m[a.entry.name := a.entry] else m - {a.entry.name}
  }

  /** The cut falls between the blob's rename or removal and the journal write that commits it, on a
      listed attachment whose bytes this changes. */
  predicate Exposed(s: Files, a: Attempt) {
    a.cut == 2 && a.entry.name in s.manifest && (a.Upload? ==> s.manifest[a.entry.name].hash != a.entry.hash)
  }

  /** All or nothing for the manifest, nothing left in flight, and other names untouched. */
  lemma AttemptOutcome(s: Files, a: Attempt, path: string)
    requires Settled(s) && InRange(a)
    ensures
      var r := After(s, a, path);
      && Settled(r)
      && r.manifest == (if a.cut < 3 then s.manifest else Applied(s.manifest, a))
      && (forall n :: n != a.entry.name ==>
        Get(r.blobs, n) == Get(s.blobs, n) && Get(r.manifest, n) == Get(s.manifest, n))
  {
    match a
    case Upload(entry, cut) =>
      var t := s.(staged := s.staged[path := entry.hash]);
      CommitStates(t, entry, path, cut);
      CommitRecovers(t, entry, path, cut, [entry.op]);
    case Erase(entry, cut) =>
      DeleteStates(s, entry, cut);
      DeleteRecovers(s, entry, cut, [entry.op]);
  }

  /** The manifest keeps matching the blobs if and only if the attempt is not exposed. */
  lemma ConsistentIff(s: Files, a: Attempt, path: string)
    requires Settled(s) && InRange(a) && Consistent(s)
    ensures Consistent(After(s, a, path)) <==> !Exposed(s, a)
  {
    if a.Upload? {
      UploadConsistentIff(s, a.entry, a.cut, path);
    } else {
      EraseConsistentIff(s, a.entry, a.cut, path);
    }
  }

  lemma UploadConsistentIff(s: Files, entry: Entry, cut: nat, path: string)
    requires Settled(s) && cut <= COMMIT_STEPS && Consistent(s)
    ensures Consistent(After(s, Upload(entry, cut), path)) <==> !Exposed(s, Upload(entry, cut))
  {
    var t := s.(staged := s.staged[path := entry.hash]);
    CommitStates(t, entry, path, cut);
    CommitRecovers(t, entry, path, cut, [entry.op]);
    assert entry.name in After(s, Upload(entry, cut), path).manifest || cut < 3;
  }

  lemma EraseConsistentIff(s: Files, entry: Entry, cut: nat, path: string)
    requires Settled(s) && cut <= DELETE_STEPS && Consistent(s)
    ensures Consistent(After(s, Erase(entry, cut), path)) <==> !Exposed(s, Erase(entry, cut))
  {
    DeleteStates(s, entry, cut);
    DeleteRecovers(s, entry, cut, [entry.op]);
    var r := After(s, Erase(entry, cut), path);
    assert Exposed(s, Erase(entry, cut)) ==> entry.name in r.manifest && entry.name !in r.blobs;
  }

  function AfterAll(s: Files, attempts: seq<Attempt>, path: string): Files
    requires forall i :: 0 <= i < |attempts| ==> InRange(attempts[i])
  {
    if attempts == [] then s
    else After(AfterAll(s, attempts[..|attempts| - 1], path), attempts[|attempts| - 1], path)
  }

  /** The manifest a run should leave: the attempts cut after their commit point, in order. */
  function Committed(m: map<string, Entry>, attempts: seq<Attempt>): map<string, Entry> {
    if attempts == [] then m
    else
      var before := Committed(m, attempts[..|attempts| - 1]);
      var a := attempts[|attempts| - 1];
      if a.cut < 3 then before else Applied(before, a)
  }

  /** No attempt of the run was cut in the window. */
  ghost predicate NeverExposed(s: Files, attempts: seq<Attempt>, path: string)
    requires forall i :: 0 <= i < |attempts| ==> InRange(attempts[i])
  {
    forall i :: 0 <= i < |attempts| ==> !Exposed(AfterAll(s, attempts[..i], path), attempts[i])
  }

  /** Over every run of crashed and completed operations the manifest is exactly the committed ones,
      and it matches the blobs as long as no attempt of the run was exposed. */
  lemma RunOutcome(s: Files, attempts: seq<Attempt>, path: string)
    requires Settled(s) && forall i :: 0 <= i < |attempts| ==> InRange(attempts[i])
    ensures Settled(AfterAll(s, attempts, path))
    ensures AfterAll(s, attempts, path).manifest == Committed(s.manifest, attempts)
    ensures Consistent(s) && NeverExposed(s, attempts, path) ==> Consistent(AfterAll(s, attempts, path))
  {
    RunCommits(s, attempts, path);
    if Consistent(s) && NeverExposed(s, attempts, path) {
      RunConsistent(s, attempts, path);
    }
  }

  lemma {:induction false} RunCommits(s: Files, attempts: seq<Attempt>, path: string)
    requires Settled(s) && forall i :: 0 <= i < |attempts| ==> InRange(attempts[i])
    ensures Settled(AfterAll(s, attempts, path))
    ensures AfterAll(s, attempts, path).manifest == Committed(s.manifest, attempts)
  {
    if attempts != [] {
      var n := |attempts| - 1;
      RunCommits(s, attempts[..n], path);
      AttemptOutcome(AfterAll(s, attempts[..n], path), attempts[n], path);
    }
  }

  lemma {:induction false} RunConsistent(s: Files, attempts: seq<Attempt>, path: string)
    requires Settled(s) && forall i :: 0 <= i < |attempts| ==> InRange(attempts[i])
    requires Consistent(s) && NeverExposed(s, attempts, path)
    ensures Consistent(AfterAll(s, attempts, path))
  {
    if attempts != [] {
      var n := |attempts| - 1;
      var init := attempts[..n];
      forall i | 0 <= i < n
        ensures !Exposed(AfterAll(s, init[..i], path), init[i])
      {
        assert init[..i] == attempts[..i];
      }
      RunConsistent(s, init, path);
      RunCommits(s, init, path);
      ConsistentIff(AfterAll(s, init, path), attempts[n], path);
    }
  }

  /** The failure at a concrete input: an update of "f" cut after its blob was renamed into place. */
  lemma CutUpdateLeavesMismatch(s: Files, was: Entry, now: Entry, path: string)
    requires was == Entry("f", "text", 1, "h1", "v1", "o1") && now == Entry("f", "text", 1, "h2", "v2", "o2")
    requires s == Files(map["f" := "h1"], map["f" := was], map[], map[])
    ensures Settled(s) && Consistent(s)
    ensures var t := After(s, Upload(now, 2), path); t.manifest == map["f" := was] && !Consistent(t)
  {
    assert "h1"[1] != "h2"[1];
    ConsistentIff(s, Upload(now, 2), path);
    AttemptOutcome(s, Upload(now, 2), path);
  }
}
