/** internal/search/definition.go and evaluate.go: search definitions, and the buckets a
    document belongs in. The decoded "key" that a bucket file repeats in its header is not modelled. */
module SearchEvaluate {
  import opened Json
  import opened SearchPath

  datatype Op = Equals | In | Exists | Contains | Unsupported(name: string)

  /** `truth` and `sel` are variable names, "" when absent; `value` is Null when absent. */
  datatype Clause = Clause(field: string, op: Op, value: Json, truth: string, sel: string, hideNulls: bool)

  datatype SortSpec = SortSpec(field: string, desc: bool)

  datatype Definition = Definition(clauses: seq<Clause>, sort: seq<SortSpec>)

  const MAX_RUNES := 63

  /** A live-query variable reference such as "$status". */
  predicate IsVariable(v: Json) {
    v.Str? && |v.s| >= 2 && v.s[0] == '$'
  }

  /** ScalarsEqual for the kind of the constant `c`; for a number constant a numeric string also matches. */
  predicate ScalarsEqual(nf: NumberFormat, item: Json, c: Json) {
    match c
    case Num(n) => item == c || (item.Str? && nf.parse(item.s) == Some(n))
    case Arr(_) => false
    case Obj(_) => false
    case _ => item == c
  }

  /** One clause's contribution: whether the document stays in, and the path components it may take. */
  datatype Outcome = Outcome(included: bool, contributes: bool, options: seq<string>)

  const EXCLUDED := Outcome(false, false, [])

  function Single(seg: string): Outcome { Outcome(true, true, [seg]) }

  function EvaluateClause(nf: NumberFormat, c: Clause, doc: Doc): Result<Outcome> {
    var val := FieldValue(doc, c.field);
    match c.op
    case Equals => EvaluateEquals(c, val)
    case In => EvaluateIn(c, val)
    case Exists => Ok(Single(EncodeTruth(val.Some? && !(c.hideNulls && val.value == Null))))
    case Contains => EvaluateContains(nf, c, val)
    case Unsupported(_) => Err
  }

  function EvaluateEquals(c: Clause, val: Option<Json>): Result<Outcome> {
    if IsVariable(c.value) then
      (match val
       case None => Ok(EXCLUDED)
       case Some(Str(s)) => Ok(if |s| > MAX_RUNES then EXCLUDED else Single(EncodeString(s)))
       case Some(Bool(b)) => Ok(Single(EncodeTruth(b)))
       case Some(Null) => Ok(EXCLUDED)
       case Some(_) => Err)
    else if c.value == Null then Ok(Single(EncodeTruth(val == Some(Null))))
    else if !c.value.Str? && !c.value.Bool? then Err
    else
      var matches := val == Some(c.value);
      if c.truth != "" then Ok(Single(EncodeTruth(matches)))
      else Ok(Outcome(matches, false, []))
  }

  function EvaluateIn(c: Clause, val: Option<Json>): Result<Outcome> {
    if !c.value.Arr? then Err
    else match val
      case Some(Str(s)) => Ok(if Str(s) in c.value.items then Single(EncodeString(s)) else EXCLUDED)
      case _ => Ok(EXCLUDED)
  }

  function EvaluateContains(nf: NumberFormat, c: Clause, val: Option<Json>): Result<Outcome> {
    if val.None? || !val.value.Arr? then Ok(EXCLUDED)
    else
      var items := val.value.items;
      if IsVariable(c.value) then
        var options := IndexedComponents(nf, items);
        Ok(if options == [] then EXCLUDED else Outcome(true, true, options))
      else if !IsScalar(c.value) || c.truth == "" then Err
      else Ok(Single(EncodeTruth(exists item :: item in items && ScalarsEqual(nf, item, c.value))))
  }

  /** The component under which an array entry is indexed, if it is: scalars, and strings up to 63 runes. */
  function Indexed(nf: NumberFormat, item: Json): Option<string> {
    if item.Str? && |item.s| > MAX_RUNES then None else EncodeScalar(nf, item)
  }

  /** The distinct components of an array's entries, in order of first appearance. */
  function IndexedComponents(nf: NumberFormat, items: seq<Json>): seq<string> {
    if items == [] then []
    else
      var rest := IndexedComponents(nf, items[..|items| - 1]);
      match Indexed(nf, items[|items| - 1])
      case None => rest
      case Some(seg) => if seg in rest then rest else rest + [seg]
  }

  /** A component is offered exactly when some entry is indexed under it. */
  lemma {:induction false} ComponentsAreItems(nf: NumberFormat, items: seq<Json>, seg: string)
    ensures seg in IndexedComponents(nf, items) <==> exists item :: item in items && Indexed(nf, item) == Some(seg)
  {
    if items != [] {
      var last := items[|items| - 1];
      var init := items[..|items| - 1];
      ComponentsAreItems(nf, init, seg);
      assert items == init + [last];
    }
  }

  /** Components stand in the order in which their first entries do. */
  lemma {:induction false} ComponentsInOrder(nf: NumberFormat, items: seq<Json>, i: nat, j: nat)
    requires i < j < |IndexedComponents(nf, items)|
    ensures
      var r := IndexedComponents(nf, items);
      exists p :: 0 <= p < |items| && Indexed(nf, items[p]) == Some(r[i]) &&
        forall q :: 0 <= q <= p ==> Indexed(nf, items[q]) != Some(r[j])
  {
    var n := |items| - 1;
    var init, r := items[..n], IndexedComponents(nf, items);
    var rest := IndexedComponents(nf, init);
    if j < |rest| {
      ComponentsInOrder(nf, init, i, j);
      var p :| 0 <= p < |init| && Indexed(nf, init[p]) == Some(rest[i]) &&
        forall q :: 0 <= q <= p ==> Indexed(nf, init[q]) != Some(rest[j]);
      assert items[p] == init[p] && forall q :: 0 <= q <= p ==> items[q] == init[q];
    } else {
      ComponentsAreItems(nf, init, rest[i]);
      ComponentsAreItems(nf, init, r[j]);
      var item :| item in init && Indexed(nf, item) == Some(rest[i]);
      var p :| 0 <= p < |init| && init[p] == item;
      assert items[p] == init[p];
      forall q | 0 <= q <= p
        ensures Indexed(nf, items[q]) != Some(r[j])
      {
        assert items[q] == init[q] && init[q] in init;
      }
    }
  }

  /** The loop of the source, with its `seen` set. */
  method CollectComponents(nf: NumberFormat, items: seq<Json>) returns (options: seq<string>)
    ensures options == IndexedComponents(nf, items)
    ensures forall i, j :: 0 <= i < j < |options| ==> options[i] != options[j]
  {
    options := [];
    var seen: set<string> := {};
    for k := 0 to |items|
      invariant options == IndexedComponents(nf, items[..k])
      invariant seen == set s | s in options
      invariant forall i, j :: 0 <= i < j < |options| ==> options[i] != options[j]
    {
      assert items[..k + 1][..k] == items[..k];
      var seg := Indexed(nf, items[k]);
      if seg.Some? && seg.value !in seen {
        seen := seen + {seg.value};
        options := options + [seg.value];
      }
    }
    assert items[..|items|] == items;
  }

  // ----- what a clause makes of a document, said directly

  /** The clause value is written as a dollar sign and a name. */
  ghost predicate NamesVariable(v: Json) {
    v.Str? && exists n :: n != "" && v.s == "$" + n
  }

  lemma VariableIsNamed(v: Json)
    ensures IsVariable(v) <==> NamesVariable(v)
  {
    if IsVariable(v) {
      assert v.s == "$" + v.s[1..];
    }
  }

  /** An array entry is the constant; for a number constant also a string that reads as that number. */
  predicate Equal(nf: NumberFormat, item: Json, constant: Json) {
    item == constant || (constant.Num? && item.Str? && nf.parse(item.s) == Some(constant.n))
  }

  /** Scalars, and strings up to 63 runes. */
  predicate Indexable(v: Json) {
    !v.Arr? && !v.Obj? && (v.Str? ==> |v.s| <= 63)
  }

  function TruthText(b: bool): string {
    if b then "true" else "false"
  }

  /** The clause can be evaluated on this field value. */
  ghost predicate Evaluable(c: Clause, val: Option<Json>) {
    match c.op
    case Equals =>
      if NamesVariable(c.value) then val.Some? ==> val.value.Str? || val.value.Bool? || val.value.Null?
      else c.value.Null? || c.value.Str? || c.value.Bool?
    case In => c.value.Arr?
    case Exists => true
    case Contains =>
      val.Some? && val.value.Arr? && !NamesVariable(c.value) ==> !c.value.Arr? && !c.value.Obj? && c.truth != ""
    case Unsupported(_) => false
  }

  /** The clause keeps a document with this field value. */
  ghost predicate Keeps(c: Clause, val: Option<Json>) {
    match c.op
    case Equals =>
      if NamesVariable(c.value) then val.Some? && (val.value.Bool? || (val.value.Str? && |val.value.s| <= 63))
      else c.value == Null || c.truth != "" || val == Some(c.value)
    case In => val.Some? && val.value.Str? && c.value.Arr? && val.value in c.value.items
    case Contains =>
      val.Some? && val.value.Arr? &&
      (NamesVariable(c.value) ==> exists item :: item in val.value.items && Indexable(item))
    case _ => true
  }

  /** The clause offers this component to a document with this field value. */
  ghost predicate Offers(nf: NumberFormat, c: Clause, val: Option<Json>, seg: string) {
    match c.op
    case Equals =>
      if NamesVariable(c.value) then
        val.Some? && ((val.value.Str? && seg == EncodeString(val.value.s)) ||
          (val.value.Bool? && seg == TruthText(val.value.b)))
      else (c.value == Null || c.truth != "") && seg == TruthText(val == Some(c.value))
    case In => val.Some? && val.value.Str? && seg == EncodeString(val.value.s)
    case Exists => seg == TruthText(val.Some? && !(c.hideNulls && val == Some(Null)))
    case Contains =>
      val.Some? && val.value.Arr? &&
      if NamesVariable(c.value) then
        exists item :: item in val.value.items && Indexable(item) && EncodeScalar(nf, item) == Some(seg)
      else seg == TruthText(exists item :: item in val.value.items && Equal(nf, item, c.value))
    case Unsupported(_) => false
  }

  /** Which documents a clause fails on, keeps, and what it offers to those it keeps. */
  lemma ClauseOutcome(nf: NumberFormat, c: Clause, doc: Doc)
    ensures EvaluateClause(nf, c, doc).Ok? <==> Evaluable(c, FieldValue(doc, c.field))
    ensures EvaluateClause(nf, c, doc).Ok? ==>
      var out, val := EvaluateClause(nf, c, doc).value, FieldValue(doc, c.field);
      && (out.included <==> Keeps(c, val))
      && (out.included ==> forall seg :: seg in out.options <==> Offers(nf, c, val, seg))
      && (out.included ==> (out.contributes <==> exists seg :: Offers(nf, c, val, seg)))
  {
    var val := FieldValue(doc, c.field);
    VariableIsNamed(c.value);
    match c.op
    case Contains =>
      if val.Some? && val.value.Arr? && EvaluateContains(nf, c, val).Ok? {
        ContainsOutcome(nf, c, val.value.items);
      }
    case Exists =>
      assert Offers(nf, c, val, TruthText(val.Some? && !(c.hideNulls && val == Some(Null))));
    case Equals =>
      if EvaluateEquals(c, val).Ok? && EvaluateEquals(c, val).value.options != [] {
        assert Offers(nf, c, val, EvaluateEquals(c, val).value.options[0]);
      }
    case In =>
      if val.Some? && val.value.Str? {
        assert Offers(nf, c, val, EncodeString(val.value.s));
      }
    case Unsupported(_) =>
  }

  lemma ContainsOutcome(nf: NumberFormat, c: Clause, items: seq<Json>)
    requires c.op == Contains && EvaluateContains(nf, c, Some(Arr(items))).Ok?
    ensures
      var out, val := EvaluateContains(nf, c, Some(Arr(items))).value, Some(Arr(items));
      && (out.included <==> Keeps(c, val))
      && (out.included ==> forall seg :: seg in out.options <==> Offers(nf, c, val, seg))
      && (out.included ==> (out.contributes <==> exists seg :: Offers(nf, c, val, seg)))
  {
    var out, val := EvaluateContains(nf, c, Some(Arr(items))).value, Some(Arr(items));
    VariableIsNamed(c.value);
    if IsVariable(c.value) {
      forall seg
        ensures seg in IndexedComponents(nf, items) <==> Offers(nf, c, val, seg)
      {
        ComponentsAreItems(nf, items, seg);
      }
      if item :| item in items && Indexable(item) {
        assert Offers(nf, c, val, EncodeScalar(nf, item).value);
      }
      if out.included {
        assert out.options[0] in IndexedComponents(nf, items);
      }
    } else {
      assert forall item :: ScalarsEqual(nf, item, c.value) <==> Equal(nf, item, c.value);
      assert Offers(nf, c, val, TruthText(exists item :: item in items && Equal(nf, item, c.value)));
    }
  }

  // ----- from clause outcomes to buckets

  datatype Outcomes = Outside | Inside(outs: seq<Outcome>)

  /** Evaluates the clauses left to right, stopping at the first one that fails or excludes the document. */
  function EvaluateClauses(nf: NumberFormat, clauses: seq<Clause>, doc: Doc): (r: Result<Outcomes>)
    ensures r.Ok? && r.value.Inside? ==> |r.value.outs| == |clauses|
  {
    if clauses == [] then Ok(Inside([]))
    else
      match EvaluateClauses(nf, clauses[..|clauses| - 1], doc)
      case Err => Err
      case Ok(Outside) => Ok(Outside)
      case Ok(Inside(outs)) =>
        match EvaluateClause(nf, clauses[|clauses| - 1], doc)
        case Err => Err
        case Ok(out) => Ok(if out.included then Inside(outs + [out]) else Outside)
  }

  /** Every list of components with one option per contributing clause, in clause order. */
  function Expand(outs: seq<Outcome>): seq<seq<string>> {
    if outs == [] then [[]]
    else
      var cur := Expand(outs[..|outs| - 1]);
      var out := outs[|outs| - 1];
      if out.contributes then Cross(cur, out.options) else cur
  }

  function Cross(cur: seq<seq<string>>, options: seq<string>): seq<seq<string>> {
    if cur == [] then []
    else
      var last := cur[|cur| - 1];
      Cross(cur[..|cur| - 1], options) + seq(|options|, k requires 0 <= k < |options| => last + [options[k]])
  }

  /** The cross product said directly: `segs` picks one option of every contributing clause. */
  predicate Picks(segs: seq<string>, outs: seq<Outcome>) {
    if outs == [] then segs == []
    else
      var out := outs[|outs| - 1];
      var init := outs[..|outs| - 1];
      if out.contributes then segs != [] && segs[|segs| - 1] in out.options && Picks(segs[..|segs| - 1], init)
      else Picks(segs, init)
  }

  lemma {:induction false} CrossMembers(cur: seq<seq<string>>, options: seq<string>, segs: seq<string>)
    ensures segs in Cross(cur, options) <==> segs != [] && segs[|segs| - 1] in options && segs[..|segs| - 1] in cur
  {
    if cur != [] {
      var init, last := cur[..|cur| - 1], cur[|cur| - 1];
      CrossMembers(init, options, segs);
      assert cur == init + [last];
      var tail := seq(|options|, k requires 0 <= k < |options| => last + [options[k]]);
      if segs in tail {
        var k :| 0 <= k < |tail| && tail[k] == segs;
        assert segs[..|segs| - 1] == last;
      }
      if segs != [] && segs[|segs| - 1] in options && segs[..|segs| - 1] == last {
        var k :| 0 <= k < |options| && options[k] == segs[|segs| - 1];
        assert tail[k] == segs;
      }
    }
  }

  lemma {:induction false} ExpandIsProduct(outs: seq<Outcome>, segs: seq<string>)
    ensures segs in Expand(outs) <==> Picks(segs, outs)
  {
    if outs != [] {
      var init, out := outs[..|outs| - 1], outs[|outs| - 1];
      if out.contributes {
        CrossMembers(Expand(init), out.options, segs);
        if segs != [] {
          ExpandIsProduct(init, segs[..|segs| - 1]);
        }
      } else {
        ExpandIsProduct(init, segs);
      }
    }
  }

  /** The nested loops of the source, including its early return on a clause with no options. */
  method ExpandBuckets(outs: seq<Outcome>) returns (results: seq<seq<string>>)
    ensures results == Expand(outs)
  {
    var cur: seq<seq<string>> := [[]];
    for i := 0 to |outs|
      invariant cur == Expand(outs[..i])
    {
      var out := outs[i];
      assert outs[..i + 1][..i] == outs[..i];
      if out.contributes {
        if |out.options| == 0 {
          EmptyOptions(outs, i);
          return [];
        }
        var next: seq<seq<string>> := [];
        for p := 0 to |cur|
          invariant next == Cross(cur[..p], out.options)
        {
          assert cur[..p + 1][..p] == cur[..p];
          ghost var before := next;
          for k := 0 to |out.options|
            invariant next == before + seq(k, j requires 0 <= j < k => cur[p] + [out.options[j]])
          {
            next := next + [cur[p] + [out.options[k]]];
          }
        }
        assert cur[..|cur|] == cur;
        cur := next;
      }
    }
    assert outs[..|outs|] == outs;
    return cur;
  }

  lemma EmptyOptions(outs: seq<Outcome>, i: nat)
    requires i < |outs| && outs[i].contributes && outs[i].options == []
    ensures Expand(outs) == []
  {
    if i == |outs| - 1 {
      CrossNone(Expand(outs[..i]));
    } else {
      EmptyOptions(outs[..|outs| - 1], i);
    }
  }

  lemma CrossNone(cur: seq<seq<string>>)
    ensures Cross(cur, []) == []
  {
  }

  /** The buckets of a document under a definition; a missing document has none. */
  function Buckets(nf: NumberFormat, def: Definition, doc: Option<Doc>): Result<seq<seq<string>>> {
    if doc.None? then Ok([])
    else match EvaluateClauses(nf, def.clauses, doc.value)
      case Err => Err
      case Ok(Outside) => Ok([])
      case Ok(Inside(outs)) => Ok(Expand(outs))
  }

  method EvaluateDocument(nf: NumberFormat, def: Definition, doc: Option<Doc>) returns (r: Result<seq<seq<string>>>)
    ensures r == Buckets(nf, def, doc)
  {
    if doc.None? {
      return Ok([]);
    }
    var outcomes := EvaluateAll(nf, def.clauses, doc.value);
    match outcomes {
      case Err => return Err;
      case Ok(Outside) => return Ok([]);
      case Ok(Inside(outs)) =>
        var results := ExpandBuckets(outs);
        return Ok(results);
    }
  }

  /** The clause loop, which stops at the first clause that fails or excludes the document. */
  method EvaluateAll(nf: NumberFormat, clauses: seq<Clause>, doc: Doc) returns (r: Result<Outcomes>)
    ensures r == EvaluateClauses(nf, clauses, doc)
  {
    var outcomes: seq<Outcome> := [];
    for i := 0 to |clauses|
      invariant EvaluateClauses(nf, clauses[..i], doc) == Ok(Inside(outcomes))
    {
      var out := EvaluateClause(nf, clauses[i], doc);
      EvaluatedNext(nf, clauses, i, doc, outcomes, out);
      if out.Err? || !out.value.included {
        StopsEarly(nf, clauses, i + 1, doc);
        return if out.Err? then Err else Ok(Outside);
      }
      outcomes := outcomes + [out.value];
    }
    assert clauses[..|clauses|] == clauses;
    return Ok(Inside(outcomes));
  }

  /** One more clause for a document that is still inside. */
  lemma EvaluatedNext(nf: NumberFormat, clauses: seq<Clause>, i: nat, doc: Doc, outs: seq<Outcome>,
                      out: Result<Outcome>)
    requires i < |clauses| && EvaluateClauses(nf, clauses[..i], doc) == Ok(Inside(outs))
    requires EvaluateClause(nf, clauses[i], doc) == out
    ensures EvaluateClauses(nf, clauses[..i + 1], doc) ==
      if out.Err? then Err else Ok(if out.value.included then Inside(outs + [out.value]) else Outside)
  {
    assert clauses[..i + 1][..i] == clauses[..i];
  }

  lemma StopsEarly(nf: NumberFormat, clauses: seq<Clause>, i: nat, doc: Doc)
    requires i <= |clauses|
    requires var r := EvaluateClauses(nf, clauses[..i], doc); r.Err? || r.value.Outside?
    ensures EvaluateClauses(nf, clauses, doc) == EvaluateClauses(nf, clauses[..i], doc)
  {
    if i < |clauses| {
      assert clauses[..|clauses| - 1][..i] == clauses[..i];
      StopsEarly(nf, clauses[..|clauses| - 1], i, doc);
    } else {
      assert clauses[..i] == clauses;
    }
  }

  /** The clause can be evaluated on the document and keeps it. */
  ghost predicate Passes(c: Clause, doc: Doc) {
    Evaluable(c, FieldValue(doc, c.field)) && Keeps(c, FieldValue(doc, c.field))
  }

  ghost predicate PassesAll(clauses: seq<Clause>, doc: Doc) {
    forall i :: 0 <= i < |clauses| ==> Passes(clauses[i], doc)
  }

  /** The i-th clause fails on the document, which has passed all earlier ones. */
  ghost predicate FailsAt(clauses: seq<Clause>, doc: Doc, i: int) {
    0 <= i < |clauses| && !Evaluable(clauses[i], FieldValue(doc, clauses[i].field)) && PassesAll(clauses[..i], doc)
  }

  ghost predicate Fails(clauses: seq<Clause>, doc: Doc) {
    exists i :: FailsAt(clauses, doc, i)
  }

  lemma PassesStep(clauses: seq<Clause>, doc: Doc)
    requires clauses != []
    ensures PassesAll(clauses, doc) <==>
      PassesAll(clauses[..|clauses| - 1], doc) && Passes(clauses[|clauses| - 1], doc)
  {
    var n := |clauses| - 1;
    assert forall i :: 0 <= i < n ==> clauses[..n][i] == clauses[i];
  }

  lemma FailsBefore(clauses: seq<Clause>, doc: Doc, i: int)
    requires 0 <= i < |clauses| - 1
    ensures FailsAt(clauses[..|clauses| - 1], doc, i) <==> FailsAt(clauses, doc, i)
  {
    var init := clauses[..|clauses| - 1];
    assert init[..i] == clauses[..i] && init[i] == clauses[i];
  }

  lemma FailsStep(clauses: seq<Clause>, doc: Doc)
    requires clauses != []
    ensures Fails(clauses, doc) <==> Fails(clauses[..|clauses| - 1], doc) || FailsAt(clauses, doc, |clauses| - 1)
  {
    if Fails(clauses, doc) {
      FailsEarlier(clauses, doc);
    }
    if Fails(clauses[..|clauses| - 1], doc) {
      FailsStill(clauses, doc);
    }
  }

  lemma FailsEarlier(clauses: seq<Clause>, doc: Doc)
    requires clauses != [] && Fails(clauses, doc)
    ensures Fails(clauses[..|clauses| - 1], doc) || FailsAt(clauses, doc, |clauses| - 1)
  {
    var i :| FailsAt(clauses, doc, i);
    if i < |clauses| - 1 {
      FailsBefore(clauses, doc, i);
    }
  }

  lemma FailsStill(clauses: seq<Clause>, doc: Doc)
    requires clauses != [] && Fails(clauses[..|clauses| - 1], doc)
    ensures Fails(clauses, doc)
  {
    var i :| FailsAt(clauses[..|clauses| - 1], doc, i);
    FailsBefore(clauses, doc, i);
  }

  lemma PassedIsNotFailed(clauses: seq<Clause>, doc: Doc)
    requires PassesAll(clauses, doc)
    ensures !Fails(clauses, doc)
  {
    if i :| FailsAt(clauses, doc, i) {
      assert Passes(clauses[i], doc);
    }
  }

  /** Evaluation fails exactly when a clause fails on a document that has passed all earlier ones, and takes
      the document in exactly when it passes all. */
  lemma {:induction false} EvaluationFailsIff(nf: NumberFormat, clauses: seq<Clause>, doc: Doc)
    ensures EvaluateClauses(nf, clauses, doc).Err? <==> Fails(clauses, doc)
    ensures EvaluateClauses(nf, clauses, doc).Ok? && EvaluateClauses(nf, clauses, doc).value.Inside? <==>
      PassesAll(clauses, doc)
  {
    if clauses != [] {
      var n := |clauses| - 1;
      EvaluationFailsIff(nf, clauses[..n], doc);
      ClauseOutcome(nf, clauses[n], doc);
      FailsStep(clauses, doc);
      PassesStep(clauses, doc);
      if PassesAll(clauses[..n], doc) {
        PassedIsNotFailed(clauses[..n], doc);
      }
    }
  }

  // ----- every bucket path is made of components

  /** Every number inside the document is a float64 value. */
  predicate Floats(nf: NumberFormat, v: Json) {
    match v
    case Num(n) => nf.isFloat(n)
    case Arr(items) => forall item :: item in items ==> Floats(nf, item)
    case Obj(fields) => forall k :: k in fields ==> Floats(nf, fields[k])
    case _ => true
  }

  lemma WalkFloats(nf: NumberFormat, v: Json, segs: seq<string>)
    requires Floats(nf, v)
    ensures Walk(v, segs).Some? ==> Floats(nf, Walk(v, segs).value)
  {
    if segs != [] && Descend(v, segs[0]).Some? {
      WalkFloats(nf, Descend(v, segs[0]).value, segs[1..]);
    }
  }

  lemma IndexedIsComponent(nf: NumberFormat, items: seq<Json>, seg: string)
    requires nf.Valid() && Floats(nf, Arr(items)) && seg in IndexedComponents(nf, items)
    ensures Component(seg)
  {
    ComponentsAreItems(nf, items, seg);
    var item :| item in items && Indexed(nf, item) == Some(seg);
    FirstChar(nf, item);
  }

  lemma OptionsAreComponents(nf: NumberFormat, c: Clause, doc: Doc)
    requires nf.Valid() && Floats(nf, Obj(doc))
    requires EvaluateClause(nf, c, doc).Ok?
    ensures forall seg :: seg in EvaluateClause(nf, c, doc).value.options ==> Component(seg)
  {
    var val := FieldValue(doc, c.field);
    WalkFloats(nf, Obj(doc), FieldPath(c.field));
    forall seg | seg in EvaluateClause(nf, c, doc).value.options
      ensures Component(seg)
    {
      if val.Some? && val.value.Str? {
        FirstChar(nf, val.value);
      }
      if c.op == Contains && val.Some? && val.value.Arr? && IsVariable(c.value) {
        IndexedIsComponent(nf, val.value.items, seg);
      }
    }
  }

  lemma {:induction false} OutcomesAreComponents(nf: NumberFormat, clauses: seq<Clause>, doc: Doc, segs: seq<string>)
    requires nf.Valid() && Floats(nf, Obj(doc))
    requires var r := EvaluateClauses(nf, clauses, doc); r.Ok? && r.value.Inside? && Picks(segs, r.value.outs)
    ensures forall seg :: seg in segs ==> Component(seg)
  {
    if clauses != [] {
      var init, c := clauses[..|clauses| - 1], clauses[|clauses| - 1];
      var outs := EvaluateClauses(nf, init, doc).value.outs;
      var out := EvaluateClause(nf, c, doc).value;
      assert clauses[..|clauses| - 1 + 1] == clauses;
      EvaluatedNext(nf, clauses, |clauses| - 1, doc, outs, Ok(out));
      OptionsAreComponents(nf, c, doc);
      var segs' := PickedBefore(segs, outs, out);
      OutcomesAreComponents(nf, init, doc, segs');
    }
  }

  /** What was picked before the last outcome; the rest is at most one option of it. */
  lemma PickedBefore(segs: seq<string>, outs: seq<Outcome>, out: Outcome) returns (before: seq<string>)
    requires Picks(segs, outs + [out])
    ensures Picks(before, outs)
    ensures forall seg :: seg in segs ==> seg in before || (out.contributes && seg in out.options)
  {
    assert (outs + [out])[..|outs|] == outs;
    before := if out.contributes then segs[..|segs| - 1] else segs;
    assert out.contributes ==> segs == before + [segs[|segs| - 1]];
  }

  /** So no two buckets of a document share a joined path. */
  lemma BucketComponents(nf: NumberFormat, def: Definition, doc: Option<Doc>, segs: seq<string>)
    requires nf.Valid() && (doc.Some? ==> Floats(nf, Obj(doc.value)))
    requires Buckets(nf, def, doc).Ok? && segs in Buckets(nf, def, doc).value
    ensures forall seg :: seg in segs ==> Component(seg)
  {
    var outs := EvaluateClauses(nf, def.clauses, doc.value).value.outs;
    ExpandIsProduct(outs, segs);
    OutcomesAreComponents(nf, def.clauses, doc.value, segs);
  }
}
