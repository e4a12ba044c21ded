/** internal/replication/push.go and resume.go: one push per target in any completion order, pending
    files for those that did not acknowledge, and resuming an operation until every target has. */
module Push {
  import opened ShardMap

  datatype State = Received | Validated | CommittedLocal | Replicating | Replicated | Failed

  /** The durable record of an operation: its targets and who has acknowledged so far. */
  datatype Operation = Operation(state: State, targets: seq<string>, acknowledged: seq<string>)

  /** A pending file: for which target, of which document. */
  datatype Pending = Pending(target: string, id: string)

  predicate NoRepeats(names: seq<string>) {
    forall i, j :: 0 <= i < j < |names| ==> names[i] != names[j]
  }

  /** The targets without an acknowledgement, in order. */
  function Remaining(targets: seq<string>, acknowledged: seq<string>): (r: seq<string>)
    ensures forall t :: t in r <==> t in targets && t !in acknowledged
    ensures NoRepeats(targets) ==> NoRepeats(r)
  {
    if targets == [] then []
    else
      var rest := Remaining(targets[..|targets| - 1], acknowledged);
      var last := targets[|targets| - 1];
      if last in acknowledged then rest else rest + [last]
  }

  predicate AllAcknowledged(op: Operation) {
    forall t :: t in op.targets ==> t in op.acknowledged
  }

  /** One attempt: it pushes to exactly the targets still missing, adds acknowledgements only from
      those, and ends in `replicated` exactly when every target has acknowledged. */
  ghost predicate Attempt(pre: Operation, targets: seq<string>, pushed: seq<string>, post: Operation) {
    && post.targets == targets
    && pushed == Remaining(targets, pre.acknowledged)
    && pre.acknowledged <= post.acknowledged
    && (forall t :: t in post.acknowledged[|pre.acknowledged|..] ==> t in pushed)
    && (post.state == Replicated <==> AllAcknowledged(post))
  }

  class Coordinator<Item(==)> {
    var pending: map<Pending, Item>
    var op: Operation

    constructor (op: Operation)
      ensures this.op == op && pending == map[]
    {
      this.op, pending := op, map[];
    }

    /** Pushes complete one by one in any order. Every target ends up acknowledged or unacknowledged,
        and exactly the unacknowledged ones get their pending file overwritten with the item. */
    method ReplicateDocumentWrite(id: string, item: Item, targets: seq<string>)
      returns (acknowledged: seq<string>, unacknowledged: seq<string>)
      modifies this`pending
      ensures multiset(acknowledged) + multiset(unacknowledged) == multiset(targets)
      ensures forall p :: p in pending <==> p in old(pending) || (p.id == id && p.target in unacknowledged)
      ensures forall p :: p in pending ==>
        pending[p] == if p.id == id && p.target in unacknowledged then item else old(pending)[p]
    {
      acknowledged, unacknowledged := [], [];
      var running := multiset(targets);
      while running != multiset{}
        invariant multiset(acknowledged) + multiset(unacknowledged) + running == multiset(targets)
        invariant forall p :: p in pending <==> p in old(pending) || (p.id == id && p.target in unacknowledged)
        invariant forall p :: p in pending ==>
          pending[p] == if p.id == id && p.target in unacknowledged then item else old(pending)[p]
        decreases |running|
      {
        var target :| target in running;
        running := running - multiset{target};
        var ok := *;
        if ok {
          acknowledged := acknowledged + [target];
        } else {
          unacknowledged := unacknowledged + [target];
          pending := pending[Pending(target, id) := item];
        }
      }
    }

    /** One attempt of an operation, as the resume loop runs it after a restart. */
    method ReplicateOperation(id: string, item: Item, targets: seq<string>) returns (ghost pushed: seq<string>)
      requires NoRepeats(targets)
      modifies this
      ensures Attempt(old(op), targets, pushed, op)
      ensures forall t :: t in targets && t !in op.acknowledged ==>
        Pending(t, id) in pending && pending[Pending(t, id)] == item
    {
      op := op.(targets := targets, state := Replicating);
      var before := op.acknowledged;
      var remaining := FilterTargets(targets, before);
      pushed := remaining;
      if |remaining| == 0 {
        op := op.(state := Replicated);
        return;
      }
      var acked, unacked := ReplicateDocumentWrite(id, item, remaining);
      Partition(acked, unacked, remaining);
      op := op.(acknowledged := before + acked);
      if |unacked| == 0 {
        op := op.(state := Replicated);
      }
      AttemptMade(before, targets, acked, unacked);
    }
  }

  lemma RemainingStep(targets: seq<string>, before: seq<string>, i: nat)
    requires i < |targets|
    ensures Remaining(targets[..i + 1], before) ==
      Remaining(targets[..i], before) + if targets[i] in before then [] else [targets[i]]
  {
    assert targets[..i + 1][..i] == targets[..i];
  }

  /** Targets still to be pushed come in the order of the targets. */
  lemma {:induction false} RemainingInOrder(targets: seq<string>, acknowledged: seq<string>, i: nat, j: nat)
    requires i < j < |Remaining(targets, acknowledged)|
    ensures
      var r := Remaining(targets, acknowledged);
      exists p, q :: 0 <= p < q < |targets| && targets[p] == r[i] && targets[q] == r[j]
  {
    var n := |targets| - 1;
    var init, rest := targets[..n], Remaining(targets[..n], acknowledged);
    if j < |rest| {
      RemainingInOrder(init, acknowledged, i, j);
      var p, q :| 0 <= p < q < |init| && init[p] == rest[i] && init[q] == rest[j];
      assert targets[p] == init[p] && targets[q] == init[q];
    } else {
      assert rest[i] in init;
      var p :| 0 <= p < |init| && init[p] == rest[i];
      assert targets[p] == init[p] && targets[n] == Remaining(targets, acknowledged)[j];
    }
  }

  method FilterTargets(targets: seq<string>, before: seq<string>) returns (remaining: seq<string>)
    ensures remaining == Remaining(targets, before)
  {
    var already := set a | a in before;
    remaining := [];
    for i := 0 to |targets|
      invariant remaining == Remaining(targets[..i], before)
    {
      RemainingStep(targets, before, i);
      if targets[i] !in already {
        remaining := remaining + [targets[i]];
      }
    }
    assert targets[..|targets|] == targets;
  }

  lemma AttemptMade(before: seq<string>, targets: seq<string>, acked: seq<string>, unacked: seq<string>)
    requires forall t :: t in Remaining(targets, before) <==> t in acked || t in unacked
    requires forall t :: !(t in acked && t in unacked)
    ensures (before + acked)[|before|..] == acked
    ensures |unacked| == 0 <==> forall t :: t in targets ==> t in before + acked
    ensures forall t :: t in targets && t !in before + acked ==> t in unacked
  {
    if |unacked| > 0 {
      var t := unacked[0];
      assert t in unacked && t !in acked;
      assert t in Remaining(targets, before);
    }
  }

  /** Distinct targets: the two lists of an outcome partition them. */
  lemma Partition(acked: seq<string>, unacked: seq<string>, targets: seq<string>)
    requires multiset(acked) + multiset(unacked) == multiset(targets) && NoRepeats(targets)
    ensures forall t :: t in targets <==> t in acked || t in unacked
    ensures forall t :: !(t in acked && t in unacked)
  {
    forall t
      ensures t in targets <==> t in acked || t in unacked
      ensures !(t in acked && t in unacked)
    {
      assert t in targets <==> t in multiset(targets);
      assert t in acked <==> t in multiset(acked);
      assert t in unacked <==> t in multiset(unacked);
      CountOne(targets, t);
    }
  }

  lemma CountOne(names: seq<string>, t: string)
    requires NoRepeats(names)
    ensures multiset(names)[t] <= 1
  {
    if names != [] {
      var init, last := names[..|names| - 1], names[|names| - 1];
      CountOne(init, t);
      assert names == init + [last];
      assert last !in init;
    }
  }

  /** A run of attempts, each from the record the previous one left. */
  ghost predicate Attempts(ops: seq<Operation>, targets: seq<seq<string>>, pushed: seq<seq<string>>) {
    && |ops| == |targets| + 1 == |pushed| + 1
    && forall k :: 0 <= k < |targets| ==> Attempt(ops[k], targets[k], pushed[k], ops[k + 1])
  }

  /** Over any run the acknowledged targets only grow, and one that has acknowledged is never pushed again. */
  lemma {:induction false} AcknowledgedForGood(ops: seq<Operation>, targets: seq<seq<string>>,
                                               pushed: seq<seq<string>>, i: nat, j: nat, t: string)
    requires Attempts(ops, targets, pushed) && i <= j < |ops| && t in ops[i].acknowledged
    ensures t in ops[j].acknowledged
    ensures j < |pushed| ==> t !in pushed[j]
    decreases j
  {
    if i < j {
      AcknowledgedForGood(ops, targets, pushed, i, j - 1, t);
      assert Attempt(ops[j - 1], targets[j - 1], pushed[j - 1], ops[j - 1 + 1]);
      var a, b := ops[j - 1].acknowledged, ops[j].acknowledged;
      var k :| 0 <= k < |a| && a[k] == t;
      assert b[k] == t;
    }
    if j < |pushed| {
      assert Attempt(ops[j], targets[j], pushed[j], ops[j + 1]);
    }
  }

  /** An acknowledgement that was not there at the start came from a push of some attempt. */
  lemma {:induction false} AcknowledgedWasPushed(ops: seq<Operation>, targets: seq<seq<string>>,
                                                 pushed: seq<seq<string>>, n: nat, t: string)
    requires Attempts(ops, targets, pushed) && n < |ops| && t in ops[n].acknowledged
    ensures t in ops[0].acknowledged || PushedAndAcknowledged(ops, pushed, n, t)
  {
    if n > 0 && t !in ops[0].acknowledged {
      var k := n - 1;
      assert Attempt(ops[k], targets[k], pushed[k], ops[k + 1]);
      if t in ops[k].acknowledged {
        AcknowledgedWasPushed(ops, targets, pushed, k, t);
      } else {
        var a, b := ops[k].acknowledged, ops[k + 1].acknowledged;
        assert b == a + b[|a|..];
        assert t in b[|a|..];
        assert t in pushed[k] && t in ops[k + 1].acknowledged;
      }
    }
  }

  /** Among the first n attempts, one pushed to the target and got its acknowledgement. */
  ghost predicate PushedAndAcknowledged(ops: seq<Operation>, pushed: seq<seq<string>>, n: nat, t: string)
    requires n <= |pushed| && |ops| == |pushed| + 1
  {
    exists k :: 0 <= k < n && t in pushed[k] && t in ops[k + 1].acknowledged
  }

  /** With fixed targets a run of attempts is replicated exactly when every target had acknowledged at
      the start or acknowledged a push of some attempt, and once replicated it stays so. */
  lemma FinishedIff(ops: seq<Operation>, targets: seq<seq<string>>, pushed: seq<seq<string>>, all: seq<string>)
    requires Attempts(ops, targets, pushed) && |ops| > 1
    requires forall k :: 0 <= k < |targets| ==> targets[k] == all
    ensures ops[|pushed|].state == Replicated <==>
      forall t :: t in all ==> t in ops[0].acknowledged || PushedAndAcknowledged(ops, pushed, |pushed|, t)
    ensures forall i :: 0 < i < |ops| && ops[i].state == Replicated ==> forall j :: i <= j < |ops| ==>
      ops[j].state == Replicated
  {
    var n := |pushed|;
    assert Attempt(ops[n - 1], targets[n - 1], pushed[n - 1], ops[n - 1 + 1]);
    forall t | t in all
      ensures t in ops[n].acknowledged <==> t in ops[0].acknowledged || PushedAndAcknowledged(ops, pushed, n, t)
    {
      AcknowledgedIff(ops, targets, pushed, t);
    }
    forall i, j | 0 < i <= j < |ops| && ops[i].state == Replicated
      ensures ops[j].state == Replicated
    {
      StaysReplicated(ops, targets, pushed, all, i, j);
    }
  }

  lemma AcknowledgedIff(ops: seq<Operation>, targets: seq<seq<string>>, pushed: seq<seq<string>>, t: string)
    requires Attempts(ops, targets, pushed)
    ensures t in ops[|pushed|].acknowledged <==>
      t in ops[0].acknowledged || PushedAndAcknowledged(ops, pushed, |pushed|, t)
  {
    var n := |pushed|;
    if t in ops[n].acknowledged {
      AcknowledgedWasPushed(ops, targets, pushed, n, t);
    }
    if t in ops[0].acknowledged {
      AcknowledgedForGood(ops, targets, pushed, 0, n, t);
    }
    if PushedAndAcknowledged(ops, pushed, n, t) {
      var k :| 0 <= k < n && t in pushed[k] && t in ops[k + 1].acknowledged;
      AcknowledgedForGood(ops, targets, pushed, k + 1, n, t);
    }
  }

  lemma StaysReplicated(ops: seq<Operation>, targets: seq<seq<string>>, pushed: seq<seq<string>>, all: seq<string>,
                        i: nat, j: nat)
    requires Attempts(ops, targets, pushed) && 0 < i <= j < |ops| && ops[i].state == Replicated
    requires forall k :: 0 <= k < |targets| ==> targets[k] == all
    ensures ops[j].state == Replicated
  {
    assert Attempt(ops[i - 1], targets[i - 1], pushed[i - 1], ops[i - 1 + 1]);
    assert Attempt(ops[j - 1], targets[j - 1], pushed[j - 1], ops[j - 1 + 1]);
    forall t | t in all
      ensures t in ops[j].acknowledged
    {
      AcknowledgedForGood(ops, targets, pushed, i, j, t);
    }
  }

  /** A reader or proxy of a slot, other than its writer, has acknowledged every operation of the
      writer that is replicated, and if it had not at the start, some attempt pushed to it. */
  lemma ReadersAreReached(body: Body, servers: set<string>, slot: Slot, writer: string, reader: string,
                          ops: seq<Operation>, targets: seq<seq<string>>, pushed: seq<seq<string>>)
    requires Accepted(body, servers) && MayWrite(writer, AssignmentOf(body, slot))
    requires MayRead(reader, AssignmentOf(body, slot)) || reader in AssignmentOf(body, slot).proxies
    requires reader != writer && reader != ""
    requires Attempts(ops, targets, pushed) && |ops| > 1 && ops[|pushed|].state == Replicated
    requires forall k :: 0 <= k < |targets| ==> SetOf(targets[k]) == PushTargets(writer, AssignmentOf(body, slot))
    ensures reader in ops[|pushed|].acknowledged
    ensures reader in ops[0].acknowledged || PushedAndAcknowledged(ops, pushed, |pushed|, reader)
  {
    var n := |pushed|;
    assert Attempt(ops[n - 1], targets[n - 1], pushed[n - 1], ops[n - 1 + 1]);
    assert reader in SetOf(targets[n - 1]);
    AcknowledgedIff(ops, targets, pushed, reader);
  }
}
