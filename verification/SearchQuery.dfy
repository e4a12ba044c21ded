/** internal/search/query.go: the bucket path of a live query, and the theorem that a document
    lies in that bucket exactly when it satisfies the query. */
module SearchQuery {
  import opened Json
  import opened SearchPath
  import opened SearchEvaluate

  type Bindings = map<string, Json>

  function LookupVar(vars: Bindings, name: string): Option<Json> {
    Get(vars, if name != "" && name[0] == '$' then name[1..] else name)
  }

  /** A truth variable must be bound to a boolean. */
  function ResolveTruth(vars: Bindings, name: string): Result<Option<string>> {
    match LookupVar(vars, name)
    case Some(Bool(b)) => Ok(Some(EncodeTruth(b)))
    case _ => Err
  }

  /** The path component a clause contributes to the query, if it contributes one. */
  function ResolveClause(nf: NumberFormat, c: Clause, vars: Bindings): Result<Option<string>> {
    match c.op
    case Equals =>
      if IsVariable(c.value) then
        (match LookupVar(vars, c.value.s)
         case Some(Str(s)) => if |s| > MAX_RUNES then Err else Ok(Some(EncodeString(s)))
         case Some(Bool(b)) => Ok(Some(EncodeTruth(b)))
         case _ => Err)
      else if c.truth != "" then ResolveTruth(vars, c.truth)
      else if c.value == Null then Err
      else Ok(None)
    case In =>
      if c.sel == "" then Err
      else (match LookupVar(vars, c.sel)
        case Some(Str(s)) =>
          if c.value.Arr? && Str(s) in c.value.items then Ok(Some(EncodeString(s))) else Err
        case _ => Err)
    case Exists => if IsVariable(c.value) then ResolveTruth(vars, c.value.s) else Err
    case Contains =>
      if IsVariable(c.value) then
        (match LookupVar(vars, c.value.s)
         case None => Err
         case Some(v) => if Indexed(nf, v).Some? then Ok(Indexed(nf, v)) else Err)
      else if c.truth == "" then Err
      else ResolveTruth(vars, c.truth)
    case Unsupported(_) => Err
  }

  function QueryPath(nf: NumberFormat, clauses: seq<Clause>, vars: Bindings): Result<seq<string>> {
    if clauses == [] then Ok([])
    else match QueryPath(nf, clauses[..|clauses| - 1], vars)
      case Err => Err
      case Ok(segs) =>
        match ResolveClause(nf, clauses[|clauses| - 1], vars)
        case Err => Err
        case Ok(None) => Ok(segs)
        case Ok(Some(seg)) => Ok(segs + [seg])
  }

  method ResolveQueryPath(nf: NumberFormat, def: Definition, vars: Bindings) returns (r: Result<seq<string>>)
    ensures r == QueryPath(nf, def.clauses, vars)
  {
    var segments: seq<string> := [];
    var clauses := def.clauses;
    for i := 0 to |clauses|
      invariant QueryPath(nf, clauses[..i], vars) == Ok(segments)
    {
      var seg := ResolveClause(nf, clauses[i], vars);
      QueryPathStep(nf, clauses, i, vars, segments, seg);
      if seg.Err? {
        QueryPathFails(nf, clauses, i + 1, vars);
        return Err;
      }
      if seg.value.Some? {
        segments := segments + [seg.value.value];
      }
    }
    assert clauses[..|clauses|] == clauses;
    return Ok(segments);
  }

  lemma QueryPathStep(nf: NumberFormat, clauses: seq<Clause>, i: nat, vars: Bindings, segs: seq<string>,
                      seg: Result<Option<string>>)
    requires i < |clauses| && QueryPath(nf, clauses[..i], vars) == Ok(segs) &&
      ResolveClause(nf, clauses[i], vars) == seg
    ensures QueryPath(nf, clauses[..i + 1], vars) ==
      if seg.Err? then Err else Ok(if seg.value.Some? then segs + [seg.value.value] else segs)
  {
    assert clauses[..i + 1][..i] == clauses[..i];
  }

  lemma QueryPathFails(nf: NumberFormat, clauses: seq<Clause>, i: nat, vars: Bindings)
    requires i <= |clauses| && QueryPath(nf, clauses[..i], vars).Err?
    ensures QueryPath(nf, clauses, vars).Err?
  {
    if i < |clauses| {
      assert clauses[..|clauses| - 1][..i] == clauses[..i];
      QueryPathFails(nf, clauses[..|clauses| - 1], i, vars);
    } else {
      assert clauses[..i] == clauses;
    }
  }

  // ----- what a query means, without buckets

  /** The request binds variables without the dollar sign their clauses may write. */
  predicate Spells(name: string, n: string) {
    name == "$" + n || (name == n && !("$" <= n))
  }

  ghost predicate Bound(vars: Bindings, name: string, v: Json) {
    exists n :: Spells(name, n) && n in vars && vars[n] == v
  }

  lemma LookupIsBound(vars: Bindings, name: string, v: Json)
    ensures LookupVar(vars, name) == Some(v) <==> Bound(vars, name, v)
  {
    var n := if name != "" && name[0] == '$' then name[1..] else name;
    assert Spells(name, n);
    assert forall m :: Spells(name, m) ==> m == n;
  }

  ghost predicate TruthIs(vars: Bindings, name: string, b: bool) {
    Bound(vars, name, Bool(b))
  }

  /** Whether the document satisfies one clause under the bindings. */
  ghost predicate Holds(nf: NumberFormat, c: Clause, vars: Bindings, doc: Doc) {
    var val := FieldValue(doc, c.field);
    match c.op
    case Equals =>
      if NamesVariable(c.value) then val.Some? && Bound(vars, c.value.s, val.value)
      else if c.truth != "" then TruthIs(vars, c.truth, val == Some(c.value))
      else val == Some(c.value)
    case In => val.Some? && Bound(vars, c.sel, val.value)
    case Exists => c.value.Str? && TruthIs(vars, c.value.s, val.Some? && !(c.hideNulls && val.value == Null))
    case Contains =>
      val.Some? && val.value.Arr? &&
      var items := val.value.items;
      if NamesVariable(c.value) then exists item :: item in items && Bound(vars, c.value.s, item)
      else TruthIs(vars, c.truth, exists item :: item in items && Equal(nf, item, c.value))
    case Unsupported(_) => false
  }

  ghost predicate Satisfies(nf: NumberFormat, clauses: seq<Clause>, vars: Bindings, doc: Doc) {
    forall c :: c in clauses ==> Holds(nf, c, vars, doc)
  }

  /** An entry of the other kind, string or number, is indexed under the value's component. */
  ghost predicate Impostor(nf: NumberFormat, v: Json, items: seq<Json>) {
    exists item :: item in items && Clashing(item, v) && Indexed(nf, item) == Indexed(nf, v)
  }

  /** For a `contains` variable: the value is an entry, or no entry of the other kind stands in for it. */
  ghost predicate Unambiguous(nf: NumberFormat, c: Clause, vars: Bindings, doc: Doc) {
    var val := FieldValue(doc, c.field);
    c.op == Contains && NamesVariable(c.value) && val.Some? && val.value.Arr? ==>
      forall v :: Bound(vars, c.value.s, v) ==> v in val.value.items || !Impostor(nf, v, val.value.items)
  }

  // ----- which queries resolve, and to what

  /** The component a clause takes from the bindings; None for a clause that takes none. */
  ghost predicate Resolves(nf: NumberFormat, c: Clause, vars: Bindings, seg: Option<string>) {
    match c.op
    case Equals =>
      if NamesVariable(c.value) then
        || (exists s :: Bound(vars, c.value.s, Str(s)) && |s| <= 63 && seg == Some(EncodeString(s)))
        || ResolvesTruth(vars, c.value.s, seg)
      else if c.truth != "" then ResolvesTruth(vars, c.truth, seg)
      else c.value != Null && seg == None
    case In =>
      c.sel != "" && exists s ::
        Bound(vars, c.sel, Str(s)) && c.value.Arr? && Str(s) in c.value.items && seg == Some(EncodeString(s))
    case Exists => NamesVariable(c.value) && ResolvesTruth(vars, c.value.s, seg)
    case Contains =>
      if NamesVariable(c.value) then
        exists v :: Bound(vars, c.value.s, v) && Indexable(v) && seg == EncodeScalar(nf, v)
      else c.truth != "" && ResolvesTruth(vars, c.truth, seg)
    case Unsupported(_) => false
  }

  ghost predicate ResolvesTruth(vars: Bindings, name: string, seg: Option<string>) {
    (Bound(vars, name, Bool(true)) && seg == Some("true")) || (Bound(vars, name, Bool(false)) && seg == Some("false"))
  }

  lemma TruthResolvesIff(vars: Bindings, name: string, seg: Option<string>)
    ensures ResolveTruth(vars, name) == Ok(seg) <==> ResolvesTruth(vars, name, seg)
  {
    LookupIsBound(vars, name, Bool(true));
    LookupIsBound(vars, name, Bool(false));
  }

  /** A clause resolves to a component exactly when the bindings give it that component. */
  lemma ClauseResolvesIff(nf: NumberFormat, c: Clause, vars: Bindings, seg: Option<string>)
    ensures ResolveClause(nf, c, vars) == Ok(seg) <==> Resolves(nf, c, vars, seg)
  {
    match c.op
    case Equals => EqualsResolvesIff(nf, c, vars, seg);
    case In => InResolvesIff(nf, c, vars, seg);
    case Exists =>
      VariableIsNamed(c.value);
      if c.value.Str? {
        TruthResolvesIff(vars, c.value.s, seg);
      }
    case Contains => ContainsResolvesIff(nf, c, vars, seg);
    case Unsupported(_) =>
  }

  lemma EqualsResolvesIff(nf: NumberFormat, c: Clause, vars: Bindings, seg: Option<string>)
    requires c.op == Equals
    ensures ResolveClause(nf, c, vars) == Ok(seg) <==> Resolves(nf, c, vars, seg)
  {
    VariableIsNamed(c.value);
    if IsVariable(c.value) {
      TruthResolvesIff(vars, c.value.s, seg);
      BoundIsLookup(vars, c.value.s);
    } else {
      TruthResolvesIff(vars, c.truth, seg);
    }
  }

  lemma InResolvesIff(nf: NumberFormat, c: Clause, vars: Bindings, seg: Option<string>)
    requires c.op == In
    ensures ResolveClause(nf, c, vars) == Ok(seg) <==> Resolves(nf, c, vars, seg)
  {
    BoundIsLookup(vars, c.sel);
  }

  lemma ContainsResolvesIff(nf: NumberFormat, c: Clause, vars: Bindings, seg: Option<string>)
    requires c.op == Contains
    ensures ResolveClause(nf, c, vars) == Ok(seg) <==> Resolves(nf, c, vars, seg)
  {
    VariableIsNamed(c.value);
    if IsVariable(c.value) {
      BoundIsLookup(vars, c.value.s);
    } else {
      TruthResolvesIff(vars, c.truth, seg);
    }
  }

  lemma BoundIsLookup(vars: Bindings, name: string)
    ensures forall v :: Bound(vars, name, v) <==> LookupVar(vars, name) == Some(v)
  {
    forall v
      ensures Bound(vars, name, v) <==> LookupVar(vars, name) == Some(v)
    {
      LookupIsBound(vars, name, v);
    }
  }

  /** The path holds the components of the clauses that take one, in order. */
  ghost predicate ResolvesTo(nf: NumberFormat, clauses: seq<Clause>, vars: Bindings, path: seq<string>) {
    if clauses == [] then path == []
    else
      var init, c, n := clauses[..|clauses| - 1], clauses[|clauses| - 1], |path| - 1;
      || (Resolves(nf, c, vars, None) && ResolvesTo(nf, init, vars, path))
      || (path != [] && Resolves(nf, c, vars, Some(path[n])) && ResolvesTo(nf, init, vars, path[..n]))
  }

  /** A query resolves exactly when each of its clauses does, and then to their components in order. */
  lemma {:induction false} QueryResolvesIff(nf: NumberFormat, clauses: seq<Clause>, vars: Bindings, path: seq<string>)
    ensures QueryPath(nf, clauses, vars) == Ok(path) <==> ResolvesTo(nf, clauses, vars, path)
  {
    if clauses != [] {
      var init, c, n := clauses[..|clauses| - 1], clauses[|clauses| - 1], |path| - 1;
      QueryResolvesIff(nf, init, vars, path);
      ClauseResolvesIff(nf, c, vars, None);
      if path != [] {
        QueryResolvesIff(nf, init, vars, path[..n]);
        ClauseResolvesIff(nf, c, vars, Some(path[n]));
      }
      PathEnds(QueryPath(nf, init, vars), ResolveClause(nf, c, vars), path);
    }
  }

  /** When one more component makes up the path. */
  lemma PathEnds(before: Result<seq<string>>, seg: Result<Option<string>>, path: seq<string>)
    ensures before.Ok? && seg.Ok? ==>
      ((if seg.value.Some? then before.value + [seg.value.value] else before.value) == path <==>
       || (seg == Ok(None) && before == Ok(path))
       || (path != [] && seg == Ok(Some(path[|path| - 1])) && before == Ok(path[..|path| - 1])))
  {
    if path != [] {
      assert path == path[..|path| - 1] + [path[|path| - 1]];
    }
  }

  /** The bindings give the clause no component, and it cannot do without. */
  ghost predicate Unresolved(nf: NumberFormat, c: Clause, vars: Bindings) {
    forall seg :: !Resolves(nf, c, vars, seg)
  }

  lemma ClauseFailsIff(nf: NumberFormat, c: Clause, vars: Bindings)
    ensures ResolveClause(nf, c, vars).Err? <==> Unresolved(nf, c, vars)
  {
    forall seg
      ensures ResolveClause(nf, c, vars) == Ok(seg) <==> Resolves(nf, c, vars, seg)
    {
      ClauseResolvesIff(nf, c, vars, seg);
    }
    if ResolveClause(nf, c, vars).Ok? {
      assert Resolves(nf, c, vars, ResolveClause(nf, c, vars).value);
    }
  }

  /** A query fails exactly when one of its clauses is unresolved. */
  lemma {:induction false} QueryFailsIff(nf: NumberFormat, clauses: seq<Clause>, vars: Bindings)
    ensures QueryPath(nf, clauses, vars).Err? <==> exists c :: c in clauses && Unresolved(nf, c, vars)
  {
    if clauses != [] {
      var init, last := clauses[..|clauses| - 1], clauses[|clauses| - 1];
      QueryFailsIff(nf, init, vars);
      ClauseFailsIff(nf, last, vars);
      assert clauses == init + [last];
    }
  }

  /** Evaluation and query resolution agree on whether a clause takes a path component. */
  lemma SameSegments(nf: NumberFormat, c: Clause, vars: Bindings, doc: Doc)
    requires EvaluateClause(nf, c, doc).Ok? && EvaluateClause(nf, c, doc).value.included
    requires ResolveClause(nf, c, vars).Ok?
    ensures EvaluateClause(nf, c, doc).value.contributes <==> ResolveClause(nf, c, vars).value.Some?
  {
  }

  /** One clause: it holds exactly when the document is kept and the query's component is on offer. */
  lemma ClauseAgrees(nf: NumberFormat, c: Clause, vars: Bindings, doc: Doc)
    requires nf.Valid() && Floats(nf, Obj(doc)) && FloatBindings(nf, vars)
    requires EvaluateClause(nf, c, doc).Ok? && ResolveClause(nf, c, vars).Ok?
    requires Unambiguous(nf, c, vars, doc)
    ensures
      var out := EvaluateClause(nf, c, doc).value;
      var seg := ResolveClause(nf, c, vars).value;
      Holds(nf, c, vars, doc) <==> out.included && (seg.Some? ==> seg.value in out.options)
  {
    match c.op
    case Equals => EqualsAgrees(nf, c, vars, doc);
    case In => InAgrees(nf, c, vars, doc);
    case Contains => ContainsAgrees(nf, c, vars, doc);
    case Exists => TruthAgrees(vars, c.value.s);
    case Unsupported(_) =>
  }

  lemma TruthAgrees(vars: Bindings, name: string)
    requires ResolveTruth(vars, name).Ok?
    ensures forall b :: TruthIs(vars, name, b) <==> ResolveTruth(vars, name) == Ok(Some(EncodeTruth(b)))
  {
    forall b
      ensures TruthIs(vars, name, b) <==> ResolveTruth(vars, name) == Ok(Some(EncodeTruth(b)))
    {
      LookupIsBound(vars, name, Bool(b));
      assert EncodeTruth(true)[0] != EncodeTruth(false)[0];
    }
  }

  lemma EqualsAgrees(nf: NumberFormat, c: Clause, vars: Bindings, doc: Doc)
    requires nf.Valid() && c.op == Equals && EvaluateClause(nf, c, doc).Ok? && ResolveClause(nf, c, vars).Ok?
    ensures
      var out := EvaluateClause(nf, c, doc).value;
      var seg := ResolveClause(nf, c, vars).value;
      Holds(nf, c, vars, doc) <==> out.included && (seg.Some? ==> seg.value in out.options)
  {
    var val := FieldValue(doc, c.field);
    VariableIsNamed(c.value);
    if IsVariable(c.value) {
      EqualsVariableAgrees(nf, c, vars, val);
      if val.Some? {
        LookupIsBound(vars, c.value.s, val.value);
      }
    } else if c.truth != "" {
      TruthAgrees(vars, c.truth);
    }
  }

  lemma InAgrees(nf: NumberFormat, c: Clause, vars: Bindings, doc: Doc)
    requires nf.Valid() && c.op == In && EvaluateClause(nf, c, doc).Ok? && ResolveClause(nf, c, vars).Ok?
    ensures
      var out := EvaluateClause(nf, c, doc).value;
      var seg := ResolveClause(nf, c, vars).value;
      Holds(nf, c, vars, doc) <==> out.included && (seg.Some? ==> seg.value in out.options)
  {
    var val := FieldValue(doc, c.field);
    if val.Some? && val.value.Str? {
      ScalarsAgree(nf, val.value, LookupVar(vars, c.sel).value);
    }
    if val.Some? {
      LookupIsBound(vars, c.sel, val.value);
    }
  }

  lemma ContainsAgrees(nf: NumberFormat, c: Clause, vars: Bindings, doc: Doc)
    requires nf.Valid() && Floats(nf, Obj(doc)) && FloatBindings(nf, vars)
    requires c.op == Contains && EvaluateClause(nf, c, doc).Ok? && ResolveClause(nf, c, vars).Ok?
    requires Unambiguous(nf, c, vars, doc)
    ensures
      var out := EvaluateClause(nf, c, doc).value;
      var seg := ResolveClause(nf, c, vars).value;
      Holds(nf, c, vars, doc) <==> out.included && (seg.Some? ==> seg.value in out.options)
  {
    var val := FieldValue(doc, c.field);
    WalkFloats(nf, Obj(doc), FieldPath(c.field));
    VariableIsNamed(c.value);
    if val.Some? && val.value.Arr? {
      if IsVariable(c.value) {
        ContainsVariableAgrees(nf, c, vars, val.value.items);
      } else {
        TruthAgrees(vars, c.truth);
        assert forall item :: ScalarsEqual(nf, item, c.value) <==> Equal(nf, item, c.value);
      }
    }
  }

  lemma ContainsVariableAgrees(nf: NumberFormat, c: Clause, vars: Bindings, items: seq<Json>)
    requires nf.Valid() && FloatBindings(nf, vars) && forall item :: item in items ==> FloatOk(nf, item)
    requires c.op == Contains && IsVariable(c.value) && ResolveClause(nf, c, vars).Ok?
    requires forall v :: Bound(vars, c.value.s, v) ==> v in items || !Impostor(nf, v, items)
    ensures (exists item :: item in items && Bound(vars, c.value.s, item)) <==>
      ResolveClause(nf, c, vars).value.Some? && ResolveClause(nf, c, vars).value.value in IndexedComponents(nf, items)
  {
    var v := LookupVar(vars, c.value.s).value;
    LookupIsBound(vars, c.value.s, v);
    OfferedIff(nf, v, items);
    forall item | Bound(vars, c.value.s, item)
      ensures item == v
    {
      LookupIsBound(vars, c.value.s, item);
    }
  }

  ghost predicate FloatBindings(nf: NumberFormat, vars: Bindings) {
    forall k :: k in vars ==> FloatOk(nf, vars[k])
  }

  lemma ScalarsAgree(nf: NumberFormat, a: Json, b: Json)
    requires nf.Valid() && FloatOk(nf, a) && FloatOk(nf, b)
    requires IsScalar(a) && IsScalar(b) && !Clashing(a, b)
    ensures EncodeScalar(nf, a) == EncodeScalar(nf, b) <==> a == b
  {
    if EncodeScalar(nf, a) == EncodeScalar(nf, b) {
      EncodeScalarInjective(nf, a, b);
    }
  }

  lemma EqualsVariableAgrees(nf: NumberFormat, c: Clause, vars: Bindings, val: Option<Json>)
    requires nf.Valid()
    requires IsVariable(c.value) && EvaluateEquals(c, val).Ok?
    requires c.op == Equals && ResolveClause(nf, c, vars).Ok?
    ensures
      var out := EvaluateEquals(c, val).value;
      var seg := ResolveClause(nf, c, vars).value;
      seg.Some? && (val.Some? && val == LookupVar(vars, c.value.s) <==> out.included && seg.value in out.options)
  {
    var v := LookupVar(vars, c.value.s).value;
    if val.Some? && (val.value.Str? || val.value.Bool?) {
      ScalarsAgree(nf, val.value, v);
    }
  }

  /** What an array offers: a value's component is there exactly when the value is an entry or an
      impostor is. */
  lemma OfferedIff(nf: NumberFormat, v: Json, items: seq<Json>)
    requires nf.Valid() && FloatOk(nf, v) && Indexed(nf, v).Some?
    requires forall item :: item in items ==> FloatOk(nf, item)
    ensures Indexed(nf, v).value in IndexedComponents(nf, items) <==> v in items || Impostor(nf, v, items)
  {
    var seg := Indexed(nf, v).value;
    ComponentsAreItems(nf, items, seg);
    if seg in IndexedComponents(nf, items) {
      var item :| item in items && Indexed(nf, item) == Some(seg);
      if !Clashing(item, v) {
        EncodeScalarInjective(nf, item, v);
      }
    }
  }

  /** So the index answers a `contains` variable rightly if and only if it is unambiguous. */
  lemma ContainsAgreesIff(nf: NumberFormat, v: Json, items: seq<Json>)
    requires nf.Valid() && FloatOk(nf, v) && Indexed(nf, v).Some?
    requires forall item :: item in items ==> FloatOk(nf, item)
    ensures (Indexed(nf, v).value in IndexedComponents(nf, items) <==> v in items) <==>
      v in items || !Impostor(nf, v, items)
  {
    OfferedIff(nf, v, items);
  }

  lemma {:induction false} PathAgrees(nf: NumberFormat, clauses: seq<Clause>, vars: Bindings, doc: Doc)
    requires nf.Valid() && Floats(nf, Obj(doc)) && FloatBindings(nf, vars)
    requires EvaluateClauses(nf, clauses, doc).Ok? && QueryPath(nf, clauses, vars).Ok?
    requires forall c :: c in clauses ==> Unambiguous(nf, c, vars, doc)
    ensures
      var r := EvaluateClauses(nf, clauses, doc).value;
      Satisfies(nf, clauses, vars, doc) <==> r.Inside? && Picks(QueryPath(nf, clauses, vars).value, r.outs)
  {
    if clauses != [] {
      var n := |clauses| - 1;
      var init, c := clauses[..n], clauses[n];
      PathAgrees(nf, init, vars, doc);
      SatisfiesStep(nf, clauses, vars, doc);
      var before, segs := EvaluateClauses(nf, init, doc).value, QueryPath(nf, init, vars).value;
      if before.Inside? {
        var out, seg := EvaluateClause(nf, c, doc), ResolveClause(nf, c, vars);
        assert clauses[..n + 1] == clauses;
        EvaluatedNext(nf, clauses, n, doc, before.outs, out);
        QueryPathStep(nf, clauses, n, vars, segs, seg);
        ClauseAgrees(nf, c, vars, doc);
        PicksStep(before.outs, out.value, segs, seg.value, Holds(nf, c, vars, doc), nf, c, vars, doc);
      }
    }
  }

  lemma SatisfiesStep(nf: NumberFormat, clauses: seq<Clause>, vars: Bindings, doc: Doc)
    requires clauses != []
    ensures
      var n := |clauses| - 1;
      Satisfies(nf, clauses, vars, doc) <==> Satisfies(nf, clauses[..n], vars, doc) && Holds(nf, clauses[n], vars, doc)
  {
    var n := |clauses| - 1;
    assert clauses == clauses[..n] + [clauses[n]];
  }

  lemma PicksStep(outs: seq<Outcome>, out: Outcome, segs: seq<string>, seg: Option<string>, holds: bool,
                  nf: NumberFormat, c: Clause, vars: Bindings, doc: Doc)
    requires EvaluateClause(nf, c, doc) == Ok(out) && ResolveClause(nf, c, vars) == Ok(seg)
    requires holds <==> out.included && (seg.Some? ==> seg.value in out.options)
    ensures
      var after := if out.included then Inside(outs + [out]) else Outside;
      var path := if seg.Some? then segs + [seg.value] else segs;
      Picks(segs, outs) && holds <==> after.Inside? && Picks(path, after.outs)
  {
    if out.included {
      SameSegments(nf, c, vars, doc);
      PicksOneMore(segs, outs, out, if seg.Some? then seg.value else "");
    }
  }

  lemma PicksOneMore(segs: seq<string>, outs: seq<Outcome>, out: Outcome, seg: string)
    ensures out.contributes ==> (Picks(segs + [seg], outs + [out]) <==> Picks(segs, outs) && seg in out.options)
    ensures !out.contributes ==> (Picks(segs, outs + [out]) <==> Picks(segs, outs))
  {
    assert (outs + [out])[..|outs|] == outs && (segs + [seg])[..|segs|] == segs;
  }

  /** The bucket a query resolves to holds exactly the documents that satisfy it. No assumption is
      made about the definition: whenever both sides accept it, their paths line up. */
  lemma BucketIsQuery(nf: NumberFormat, def: Definition, vars: Bindings, doc: Doc)
    requires nf.Valid() && Floats(nf, Obj(doc)) && FloatBindings(nf, vars)
    requires Buckets(nf, def, Some(doc)).Ok? && QueryPath(nf, def.clauses, vars).Ok?
    requires forall c :: c in def.clauses ==> Unambiguous(nf, c, vars, doc)
    ensures QueryPath(nf, def.clauses, vars).value in Buckets(nf, def, Some(doc)).value
      <==> Satisfies(nf, def.clauses, vars, doc)
  {
    PathAgrees(nf, def.clauses, vars, doc);
    var r := EvaluateClauses(nf, def.clauses, doc).value;
    if r.Inside? {
      ExpandIsProduct(r.outs, QueryPath(nf, def.clauses, vars).value);
    }
  }

  // ----- where a `contains` binding of the wrong kind goes astray

  /** The array offers the value's bucket exactly when the value is an entry. */
  ghost predicate Exact(nf: NumberFormat, v: Json, items: seq<Json>)
    requires Indexed(nf, v).Some?
  {
    Indexed(nf, v).value in IndexedComponents(nf, items) <==> v in items
  }

  ghost predicate AllOk(nf: NumberFormat, items: seq<Json>) {
    forall item :: item in items ==> FloatOk(nf, item)
  }

  /** Some value of the other kind shares the component. */
  ghost predicate HasDouble(nf: NumberFormat, v: Json) {
    exists w :: FloatOk(nf, w) && Clashing(w, v) && Indexed(nf, w) == Indexed(nf, v)
  }

  /** Searching for a value is right in every array if and only if no value of the other kind shares its component. */
  lemma ExactEverywhereIff(nf: NumberFormat, v: Json)
    requires nf.Valid() && FloatOk(nf, v) && Indexed(nf, v).Some?
    ensures (forall items :: AllOk(nf, items) ==> Exact(nf, v, items)) <==> !HasDouble(nf, v)
  {
    if HasDouble(nf, v) {
      var w :| FloatOk(nf, w) && Clashing(w, v) && Indexed(nf, w) == Indexed(nf, v);
      var items := [w];
      assert w in items && v !in items;
      OfferedIff(nf, v, items);
      assert AllOk(nf, items) && !Exact(nf, v, items);
    } else {
      forall items | AllOk(nf, items)
        ensures Exact(nf, v, items)
      {
        OfferedIff(nf, v, items);
      }
    }
  }

  /** An array of entries of the other kind only. */
  predicate AllOther(v: Json, items: seq<Json>) {
    forall i :: 0 <= i < |items| ==> Clashing(items[i], v)
  }

  lemma OtherIsExactIff(nf: NumberFormat, v: Json, items: seq<Json>)
    requires Indexed(nf, v).Some? && AllOther(v, items)
    ensures Exact(nf, v, items) <==> !Impostor(nf, v, items)
  {
    var seg := Indexed(nf, v).value;
    ComponentsAreItems(nf, items, seg);
    if seg in IndexedComponents(nf, items) {
      var item :| item in items && Indexed(nf, item) == Some(seg);
      assert Clashing(item, v);
    }
  }

  lemma OneImpostor(nf: NumberFormat, v: Json, w: Json)
    requires Indexed(nf, v).Some? && Clashing(w, v) && Indexed(nf, w) == Indexed(nf, v)
    ensures AllOther(v, [w]) && !Exact(nf, v, [w])
  {
    var items := [w];
    assert w in items;
    assert Impostor(nf, v, items);
    OtherIsExactIff(nf, v, items);
  }

  predicate StringUnder(component: string, s: string) {
    |s| <= MAX_RUNES && EncodeString(s) == component
  }

  ghost predicate ClashesWithSomeString(nf: NumberFormat, n: real) {
    exists s :: StringUnder(nf.text(n), s)
  }

  predicate AllStrings(items: seq<Json>) {
    forall i :: 0 <= i < |items| ==> items[i].Str?
  }

  /** Searching an array of strings for a number: right for every such array if and only if the
      number's text is not the hex form of a string (41 is the hex form of "A"). */
  lemma NumberInStringsIff(nf: NumberFormat, n: real)
    ensures (forall items :: AllStrings(items) ==> Exact(nf, Num(n), items)) <==> !ClashesWithSomeString(nf, n)
  {
    if ClashesWithSomeString(nf, n) {
      var s :| StringUnder(nf.text(n), s);
      OneImpostor(nf, Num(n), Str(s));
      assert AllStrings([Str(s)]);
    } else {
      forall items | AllStrings(items)
        ensures Exact(nf, Num(n), items)
      {
        NoStringImpostor(nf, n, items);
        OtherIsExactIff(nf, Num(n), items);
      }
    }
  }

  lemma NoStringImpostor(nf: NumberFormat, n: real, items: seq<Json>)
    requires AllStrings(items) && !ClashesWithSomeString(nf, n)
    ensures !Impostor(nf, Num(n), items)
  {
    forall item | item in items
      ensures Indexed(nf, item) != Some(nf.text(n))
    {
      assert !StringUnder(nf.text(n), item.s);
    }
  }

  ghost predicate ClashesWithSomeNumber(nf: NumberFormat, s: string) {
    exists n :: nf.isFloat(n) && nf.text(n) == EncodeString(s)
  }

  predicate AllNumbers(nf: NumberFormat, items: seq<Json>) {
    forall i :: 0 <= i < |items| ==> items[i].Num? && nf.isFloat(items[i].n)
  }

  /** And the reverse: searching an array of numbers for a string is right for every such array if and
      only if the string's hex form is not the text of a number. */
  lemma StringInNumbersIff(nf: NumberFormat, s: string)
    requires |s| <= MAX_RUNES
    ensures (forall items :: AllNumbers(nf, items) ==> Exact(nf, Str(s), items)) <==> !ClashesWithSomeNumber(nf, s)
  {
    if ClashesWithSomeNumber(nf, s) {
      var n :| nf.isFloat(n) && nf.text(n) == EncodeString(s);
      OneImpostor(nf, Str(s), Num(n));
      assert AllNumbers(nf, [Num(n)]);
    } else {
      forall items | AllNumbers(nf, items)
        ensures Exact(nf, Str(s), items)
      {
        NoNumberImpostor(nf, s, items);
        OtherIsExactIff(nf, Str(s), items);
      }
    }
  }

  lemma NoNumberImpostor(nf: NumberFormat, s: string, items: seq<Json>)
    requires AllNumbers(nf, items) && |s| <= MAX_RUNES && !ClashesWithSomeNumber(nf, s)
    ensures !Impostor(nf, Str(s), items)
  {
    forall item | item in items
      ensures Indexed(nf, item) != Some(EncodeString(s))
    {
      assert nf.text(item.n) != EncodeString(s);
    }
  }

  lemma HexOfA()
    ensures EncodeString("A") == "41"
  {
    assert Utf8('A') == [0x41];
    assert Utf8All("A") == [0x41];
  }

  /** The clash is real: 41 finds documents tagged "A", */
  lemma NumberFindsString(nf: NumberFormat)
    requires nf.text(41.0) == "41"
    ensures nf.text(41.0) in IndexedComponents(nf, [Str("A")])
  {
    HexOfA();
    ComponentsAreItems(nf, [Str("A")], "41");
    assert Str("A") in [Str("A")];
  }

  /** and "A" finds documents tagged 41. */
  lemma StringFindsNumber(nf: NumberFormat)
    requires nf.text(41.0) == "41"
    ensures EncodeString("A") in IndexedComponents(nf, [Num(41.0)])
  {
    HexOfA();
    ComponentsAreItems(nf, [Num(41.0)], "41");
    assert Num(41.0) in [Num(41.0)];
  }
}
