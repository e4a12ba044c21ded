/** internal/engine/engine.go: the create, patch and delete commands on one collection. Each command's
    critical section runs under the engine lock, so any interleaving is some order of commands. */
module Engine {
  import opened Json
  import opened DocumentStore

  /** The current schema marker and the schema check, applied to a document without its metadata. */
  datatype Rules = Rules(marker: string, fits: Doc -> bool)

  /** A JSON Patch: every pointer its operations name, and its effect (None when it does not apply). */
  datatype PatchBody = PatchBody(pointers: seq<string>, apply: Doc -> Option<Doc>)

  datatype Command =
    | CreateCommand(id: string, content: Doc)
    | PatchCommand(id: string, expected: string, marker: string, patch: Option<PatchBody>)
    | DeleteCommand(id: string, expected: string)

  datatype Code = DocumentExists | DocumentNotFound | VersionMismatch | SchemaMismatch | InvalidMetadata
    | IdMismatch | InvalidPatch | InvalidPatchPath | InvalidSchema

  datatype Reply =
    | Refused(code: Code)
    | Created(version: string)
    | PatchedTo(before: string, after: string)
    | DeletedAt(before: string)

  const META: set<string> := {"!", "$", "#"}

  function Text(doc: Doc, key: string): string {
    if key in doc && doc[key].Str? then doc[key].s else ""
  }

  function VersionOf(doc: Doc): string { Text(doc, "#") }

  /** A pointer to database-owned metadata, or into it. */
  predicate Restricted(p: string) {
    |p| >= 2 && p[0] == '/' && (p[1] == '!' || p[1] == '$' || p[1] == '#') && (|p| == 2 || p[2] == '/')
  }

  /** Read as a path, a restricted pointer is one whose first field is metadata. */
  lemma RestrictedIff(p: string)
    requires p != [] && p[0] == '/'
    ensures Restricted(p) <==> FieldPath(p) != [] && FieldPath(p)[0] in META
  {
    var rest := p[1..];
    if rest != [] {
      FirstField(rest);
      var f := Split(rest, '/')[0];
      assert |f| == 1 ==> f == [f[0]];
    }
  }

  /** A path's first field is a one-character name exactly when that character stands alone or before a slash. */
  lemma FirstField(s: string)
    requires s != []
    ensures |Split(s, '/')[0]| == 1 <==> s[0] != '/' && (|s| == 1 || s[1] == '/')
    ensures s[0] != '/' ==> Split(s, '/')[0] != [] && Split(s, '/')[0][0] == s[0]
    ensures s[0] == '/' ==> Split(s, '/')[0] == []
  {
    if s[0] != '/' && |s| > 1 {
      FirstField(s[1..]);
    }
  }

  /** The stored form: id, marker and version written by the engine, the operation id dropped. */
  function Stamped(doc: Doc, id: string, marker: string, version: string): Doc {
    (doc - {"operationId"})["!" := Str(id)]["$" := Str(marker)]["#" := Str(version)]
  }

  function CreateRefusal(rules: Rules, s: Store, c: Command): Option<Code>
    requires c.CreateCommand?
  {
    if Text(c.content, "$") != "" && Text(c.content, "$") != rules.marker then Some(SchemaMismatch)
    else if "#" in c.content then Some(InvalidMetadata)
    else if Text(c.content, "!") != "" && Text(c.content, "!") != c.id then Some(IdMismatch)
    else if !rules.fits(c.content - META - {"operationId", "RFC6902"}) then Some(InvalidSchema)
    else if c.id in s.live then Some(DocumentExists)
    else None
  }

  function PatchRefusal(rules: Rules, s: Store, c: Command): Option<Code>
    requires c.PatchCommand?
  {
    if c.id !in s.live then Some(DocumentNotFound)
    else
      var doc := s.live[c.id];
      if c.expected == "" || c.expected != VersionOf(doc) then Some(VersionMismatch)
      else if c.marker != rules.marker then Some(SchemaMismatch)
      else if Text(doc, "!") != c.id then Some(IdMismatch)
      else if c.patch.None? then Some(InvalidPatch)
      else if exists p :: p in c.patch.value.pointers && Restricted(p) then Some(InvalidPatchPath)
      else match c.patch.value.apply(doc)
        case None => Some(InvalidPatch)
        case Some(patched) => if rules.fits(patched - META - {"operationId"}) then None else Some(InvalidSchema)
  }

  /** One command against the store, given a version id from the generator. */
  function Execute(rules: Rules, s: Store, c: Command, version: string): (Store, Reply) {
    match c
    case CreateCommand(id, content) =>
      (match CreateRefusal(rules, s, c)
       case Some(code) => (s, Refused(code))
       case None => (Written(s, id, Stamped(content, id, rules.marker, version), Create), Created(version)))
    case PatchCommand(id, expected, _, _) =>
      (match PatchRefusal(rules, s, c)
       case Some(code) => (s, Refused(code))
       case None =>
         var patched := c.patch.value.apply(s.live[id]).value;
         (Patched(s, id, Stamped(patched, id, rules.marker, version)), PatchedTo(expected, version)))
    case DeleteCommand(id, expected) =>
      if id !in s.live then (s, Refused(DocumentNotFound))
      else if expected == "" || expected != VersionOf(s.live[id]) then (s, Refused(VersionMismatch))
      else (Deleted(s, id), DeletedAt(expected))
  }

  /** The commands as the engine runs them against its files. */
  class Engine {
    const rules: Rules
    const docs: DocumentFiles

    constructor (rules: Rules, docs: DocumentFiles)
      ensures this.rules == rules && this.docs == docs
    {
      this.rules, this.docs := rules, docs;
    }

    method Create(id: string, content: Doc, version: string) returns (reply: Reply)
      modifies docs
      ensures (docs.View(), reply) == Execute(rules, old(docs.View()), CreateCommand(id, content), version)
    {
      var marker := Text(content, "$");
      if marker != "" && marker != rules.marker {
        return Refused(SchemaMismatch);
      }
      if "#" in content {
        return Refused(InvalidMetadata);
      }
      var bang := Text(content, "!");
      if bang != "" && bang != id {
        return Refused(IdMismatch);
      }
      if !rules.fits(content - META - {"operationId", "RFC6902"}) {
        return Refused(InvalidSchema);
      }
      if id in docs.live {
        return Refused(DocumentExists);
      }
      docs.WriteDocument(id, Stamped(content, id, rules.marker, version));
      docs.EnqueueChange(DocumentStore.Create, id);
      return Created(version);
    }

    method Patch(id: string, expected: string, marker: string, patch: Option<PatchBody>, version: string)
      returns (reply: Reply)
      modifies docs
      ensures (docs.View(), reply) ==
        Execute(rules, old(docs.View()), PatchCommand(id, expected, marker, patch), version)
    {
      if id !in docs.live {
        return Refused(DocumentNotFound);
      }
      var doc := docs.live[id];
      if expected == "" || expected != VersionOf(doc) {
        return Refused(VersionMismatch);
      }
      if marker != rules.marker {
        return Refused(SchemaMismatch);
      }
      if Text(doc, "!") != id {
        return Refused(IdMismatch);
      }
      if patch.None? {
        return Refused(InvalidPatch);
      }
      var pointers := patch.value.pointers;
      for i := 0 to |pointers|
        invariant forall k :: 0 <= k < i ==> !Restricted(pointers[k])
        invariant docs.View() == old(docs.View())
      {
        if Restricted(pointers[i]) {
          return Refused(InvalidPatchPath);
        }
      }
      var patched := patch.value.apply(doc);
      if patched.None? {
        return Refused(InvalidPatch);
      }
      if !rules.fits(patched.value - META - {"operationId"}) {
        return Refused(InvalidSchema);
      }
      var ok := docs.PreservePreviousIfAbsent(id);
      docs.WriteDocument(id, Stamped(patched.value, id, rules.marker, version));
      docs.EnqueueChange(DocumentStore.Patch, id);
      return PatchedTo(expected, version);
    }

    method Delete(id: string, expected: string) returns (reply: Reply)
      modifies docs
      ensures forall version ::
        (docs.View(), reply) == Execute(rules, old(docs.View()), DeleteCommand(id, expected), version)
    {
      if id !in docs.live {
        return Refused(DocumentNotFound);
      }
      if expected == "" || expected != VersionOf(docs.live[id]) {
        return Refused(VersionMismatch);
      }
      var ok := docs.SoftDeleteDocument(id);
      docs.EnqueueChange(DocumentStore.Delete, id);
      return DeletedAt(expected);
    }
  }

  // ----- runs of commands

  datatype Input = Input(command: Command, version: string)

  function StoreAfter(rules: Rules, inputs: seq<Input>): Store {
    if inputs == [] then EMPTY
    else
      var last := inputs[|inputs| - 1];
      Execute(rules, StoreAfter(rules, inputs[..|inputs| - 1]), last.command, last.version).0
  }

  /** The reply to the i-th command of a run. */
  function ReplyAt(rules: Rules, inputs: seq<Input>, i: nat): Reply
    requires i < |inputs|
  {
    Execute(rules, StoreAfter(rules, inputs[..i]), inputs[i].command, inputs[i].version).1
  }

  /** The generator never repeats a version and never returns an empty one. */
  predicate FreshVersions(inputs: seq<Input>) {
    && (forall i :: 0 <= i < |inputs| ==> inputs[i].version != "")
    && (forall i, j :: 0 <= i < j < |inputs| ==> inputs[i].version != inputs[j].version)
  }

  /** The i-th command succeeded as a patch or delete of version `v`. */
  predicate Consumes(rules: Rules, inputs: seq<Input>, i: nat, v: string)
    requires i < |inputs|
  {
    var r := ReplyAt(rules, inputs, i);
    (r.PatchedTo? || r.DeletedAt?) && r.before == v
  }

  ghost predicate Consumed(rules: Rules, inputs: seq<Input>, v: string) {
    exists i :: 0 <= i < |inputs| && Consumes(rules, inputs, i, v)
  }

  predicate Issued(inputs: seq<Input>, v: string) {
    exists i :: 0 <= i < |inputs| && inputs[i].version == v
  }

  /** Stored documents carry their own id and distinct issued versions, none of them consumed yet. */
  ghost predicate Sound(rules: Rules, inputs: seq<Input>) {
    var live := StoreAfter(rules, inputs).live;
    && (forall id :: id in live ==> Text(live[id], "!") == id && VersionOf(live[id]) != "")
    && (forall id :: id in live ==>
      Issued(inputs, VersionOf(live[id])) && !Consumed(rules, inputs, VersionOf(live[id])))
    && (forall id, j :: id in live && j in live && id != j ==> VersionOf(live[id]) != VersionOf(live[j]))
    && (forall v :: Consumed(rules, inputs, v) ==> Issued(inputs, v))
  }

  /** A refused command changes nothing. */
  lemma RefusedChangesNothing(rules: Rules, s: Store, c: Command, version: string)
    requires Execute(rules, s, c, version).1.Refused?
    ensures Execute(rules, s, c, version).0 == s
  {
  }

  lemma Prefix(rules: Rules, inputs: seq<Input>, i: nat)
    requires i < |inputs| - 1
    ensures ReplyAt(rules, inputs[..|inputs| - 1], i) == ReplyAt(rules, inputs, i)
  {
    assert inputs[..|inputs| - 1][..i] == inputs[..i];
  }

  lemma ConsumesPrefix(rules: Rules, inputs: seq<Input>, i: nat, v: string)
    requires i < |inputs| - 1
    ensures Consumes(rules, inputs[..|inputs| - 1], i, v) <==> Consumes(rules, inputs, i, v)
  {
    Prefix(rules, inputs, i);
  }

  lemma ConsumedStep(rules: Rules, inputs: seq<Input>, v: string)
    requires inputs != []
    ensures Consumed(rules, inputs, v) <==>
      Consumed(rules, inputs[..|inputs| - 1], v) || Consumes(rules, inputs, |inputs| - 1, v)
  {
    var init := inputs[..|inputs| - 1];
    forall i: nat | i < |init|
      ensures Consumes(rules, init, i, v) <==> Consumes(rules, inputs, i, v)
    {
      ConsumesPrefix(rules, inputs, i, v);
    }
    if Consumed(rules, inputs, v) && !Consumes(rules, inputs, |init|, v) {
      var i :| 0 <= i < |inputs| && Consumes(rules, inputs, i, v);
      assert Consumes(rules, init, i, v);
    }
  }

  lemma IssuedStep(inputs: seq<Input>, v: string)
    requires inputs != []
    ensures Issued(inputs, v) <==> Issued(inputs[..|inputs| - 1], v) || inputs[|inputs| - 1].version == v
  {
    var init := inputs[..|inputs| - 1];
    assert inputs == init + [inputs[|inputs| - 1]];
    if Issued(init, v) {
      var i :| 0 <= i < |init| && init[i].version == v;
      assert inputs[i].version == v;
    }
  }

  /** A stored document: the engine's id, marker and version, and every other field of its source
      except the operation id. */
  ghost predicate Carries(stored: Doc, source: Doc, id: string, marker: string, version: string) {
    && Get(stored, "!") == Some(Str(id)) && Get(stored, "$") == Some(Str(marker)) &&
      Get(stored, "#") == Some(Str(version))
    && "operationId" !in stored
    && forall k :: k !in META && k != "operationId" ==> Get(stored, k) == Get(source, k)
  }

  /** A patch that may be applied to the document: right marker, and no pointer into metadata. */
  ghost predicate Admitted(rules: Rules, c: Command, doc: Doc) {
    && c.PatchCommand? && c.expected == VersionOf(doc) && c.marker == rules.marker && c.patch.Some?
    && (forall p :: p in c.patch.value.pointers ==> !Restricted(p)) && c.patch.value.apply(doc).Some?
  }

  // ----- when a command succeeds, and why it is refused

  predicate HasText(doc: Doc, key: string, text: string) {
    key in doc && doc[key] == Str(text)
  }

  /** The pointer is a metadata field or leads below one. */
  predicate IntoMeta(p: string) {
    || p == "/!" || p == "/$" || p == "/#"
    || "/!/" <= p || "/$/" <= p || "/#/" <= p
  }

  lemma RestrictedIsIntoMeta(p: string)
    ensures Restricted(p) <==> IntoMeta(p)
  {
    if |p| >= 2 {
      assert p[..2] == [p[0], p[1]];
    }
    if |p| >= 3 {
      assert p[..3] == [p[0], p[1], p[2]];
    }
  }

  /** A create succeeds exactly when its marker is absent, empty or current, it brings no version, its id field
      is absent, empty or the id, its content fits and the id is free; checked in this order. */
  lemma CreateOutcome(rules: Rules, s: Store, c: Command, version: string)
    requires c.CreateCommand?
    ensures
      var r := Execute(rules, s, c, version).1;
      var marked := forall t :: HasText(c.content, "$", t) ==> t == "" || t == rules.marker;
      var bare := marked && "#" !in c.content;
      var own := bare && forall t :: HasText(c.content, "!", t) ==> t == "" || t == c.id;
      var fits := own && rules.fits(c.content - {"!", "$", "#", "operationId", "RFC6902"});
      && (r == Created(version) <==> fits && c.id !in s.live)
      && (r == Refused(SchemaMismatch) <==> !marked)
      && (r == Refused(InvalidMetadata) <==> marked && !bare)
      && (r == Refused(IdMismatch) <==> bare && !own)
      && (r == Refused(InvalidSchema) <==> own && !fits)
      && (r == Refused(DocumentExists) <==> fits && c.id in s.live)
  {
    assert c.content - META - {"operationId", "RFC6902"} == c.content - {"!", "$", "#", "operationId", "RFC6902"};
    TextIs(c.content, "$");
    TextIs(c.content, "!");
  }

  lemma TextIs(doc: Doc, key: string)
    ensures forall t :: HasText(doc, key, t) ==> Text(doc, key) == t
    ensures Text(doc, key) != "" ==> HasText(doc, key, Text(doc, key))
    ensures forall t :: Text(doc, key) == t <==> HasText(doc, key, t) || (t == "" && Text(doc, key) == "")
  {
  }

  /** A patch succeeds exactly when the document is live, at the expected version, the marker is current, the
      document carries its id, there is a patch, none of its pointers leads into metadata, it applies, and the
      result fits; checked in this order. */
  lemma PatchOutcome(rules: Rules, s: Store, c: Command, version: string)
    requires c.PatchCommand?
    ensures
      var r := Execute(rules, s, c, version).1;
      var found := c.id in s.live;
      var current := found && c.expected != "" && HasText(s.live[c.id], "#", c.expected);
      var marked := current && c.marker == rules.marker;
      var own := marked &&
        (HasText(s.live[c.id], "!", c.id) || (c.id == "" && forall t :: HasText(s.live[c.id], "!", t) ==> t == ""));
      var given := own && c.patch.Some?;
      var clear := given && forall p :: p in c.patch.value.pointers ==> !IntoMeta(p);
      var applies := clear && c.patch.value.apply(s.live[c.id]).Some?;
      var fits := applies && rules.fits(c.patch.value.apply(s.live[c.id]).value - {"!", "$", "#", "operationId"});
      && (r == PatchedTo(c.expected, version) <==> fits)
      && (r == Refused(DocumentNotFound) <==> !found)
      && (r == Refused(VersionMismatch) <==> found && !current)
      && (r == Refused(SchemaMismatch) <==> current && !marked)
      && (r == Refused(IdMismatch) <==> marked && !own)
      && (r == Refused(InvalidPatch) <==> (own && !given) || (clear && !applies))
      && (r == Refused(InvalidPatchPath) <==> given && !clear)
      && (r == Refused(InvalidSchema) <==> applies && !fits)
  {
    if c.id in s.live {
      TextIs(s.live[c.id], "#");
      TextIs(s.live[c.id], "!");
    }
    if c.patch.Some? {
      forall p
        ensures Restricted(p) <==> IntoMeta(p)
      {
        RestrictedIsIntoMeta(p);
      }
      if c.id in s.live && c.patch.value.apply(s.live[c.id]).Some? {
        var patched := c.patch.value.apply(s.live[c.id]).value;
        assert patched - META - {"operationId"} == patched - {"!", "$", "#", "operationId"};
      }
    }
  }

  /** A delete succeeds exactly when the document is live and at the expected version. */
  lemma DeleteOutcome(rules: Rules, s: Store, c: Command, version: string)
    requires c.DeleteCommand?
    ensures
      var r := Execute(rules, s, c, version).1;
      var current := c.id in s.live && c.expected != "" && HasText(s.live[c.id], "#", c.expected);
      && (r == DeletedAt(c.expected) <==> current)
      && (r == Refused(DocumentNotFound) <==> c.id !in s.live)
      && (r == Refused(VersionMismatch) <==> c.id in s.live && !current)
  {
    if c.id in s.live {
      TextIs(s.live[c.id], "#");
    }
  }

  /** What a command does to the live documents, read off its reply. */
  lemma Effect(rules: Rules, s: Store, c: Command, version: string)
    ensures
      var (t, r) := Execute(rules, s, c, version);
      match r
      case Refused(_) => t == s
      case Created(v) =>
        && v == version && c.CreateCommand? && c.id !in s.live && c.id in t.live
        && t.live == s.live[c.id := t.live[c.id]]
        && Carries(t.live[c.id], c.content, c.id, rules.marker, version)
      case PatchedTo(b, v) =>
        && v == version && c.id in s.live && Admitted(rules, c, s.live[c.id]) && c.expected == b && c.id in t.live
        && t.live == s.live[c.id := t.live[c.id]]
        && Carries(t.live[c.id], c.patch.value.apply(s.live[c.id]).value, c.id, rules.marker, version)
      case DeletedAt(b) =>
        c.DeleteCommand? && c.id in s.live && VersionOf(s.live[c.id]) == b && t.live == s.live - {c.id}
  {
    var (t, r) := Execute(rules, s, c, version);
    if r.PatchedTo? {
      assert t.live == s.live[c.id := t.live[c.id]];
    }
  }

  /** Every run with fresh versions keeps the store sound. */
  lemma {:induction false} RunIsSound(rules: Rules, inputs: seq<Input>)
    requires FreshVersions(inputs)
    ensures Sound(rules, inputs)
  {
    if inputs != [] {
      var n := |inputs| - 1;
      var init, last := inputs[..n], inputs[n];
      RunIsSound(rules, init);
      var s := StoreAfter(rules, init);
      var t := StoreAfter(rules, inputs);
      Effect(rules, s, last.command, last.version);
      assert ReplyAt(rules, inputs, n) == Execute(rules, s, last.command, last.version).1;
      forall v
        ensures Issued(inputs, v) <==> Issued(init, v) || v == last.version
        ensures Consumed(rules, inputs, v) <==> Consumed(rules, init, v) || Consumes(rules, inputs, n, v)
      {
        IssuedStep(inputs, v);
        ConsumedStep(rules, inputs, v);
      }
      assert !Issued(init, last.version);
      assert forall v :: Consumes(rules, inputs, n, v) ==>
        last.command.id in s.live && v == VersionOf(s.live[last.command.id]);
      StepIsSound(rules, init, inputs, n, s.live, t.live, last.command.id, last.version);
    }
  }

  lemma StepIsSound(rules: Rules, init: seq<Input>, inputs: seq<Input>, n: nat, live: map<string, Doc>,
                    now: map<string, Doc>, id: string, version: string)
    requires Sound(rules, init) && live == StoreAfter(rules, init).live && now == StoreAfter(rules, inputs).live
    requires n == |inputs| - 1 && init == inputs[..n] && version == inputs[n].version != "" && !Issued(init, version)
    requires forall v :: Issued(inputs, v) <==> Issued(init, v) || v == version
    requires forall v :: Consumed(rules, inputs, v) <==> Consumed(rules, init, v) || Consumes(rules, inputs, n, v)
    requires forall v :: Consumes(rules, inputs, n, v) ==>
      id in live && v == VersionOf(live[id]) && (id in now ==> VersionOf(now[id]) == version)
    requires
      || now == live || now == live - {id}
      || (id in now && now == live[id := now[id]] && Text(now[id], "!") == id && VersionOf(now[id]) == version)
    ensures Sound(rules, inputs)
  {
  }

  /** No lost updates: a version is consumed by at most one successful patch or delete. */
  lemma ConsumedOnce(rules: Rules, inputs: seq<Input>, i: nat, j: nat, v: string)
    requires FreshVersions(inputs) && i < j < |inputs|
    requires Consumes(rules, inputs, i, v)
    ensures !Consumes(rules, inputs, j, v)
  {
    var before := inputs[..j];
    assert FreshVersions(before);
    RunIsSound(rules, before);
    assert before[..i] == inputs[..i];
    assert Consumes(rules, before, i, v);
    Effect(rules, StoreAfter(rules, before), inputs[j].command, inputs[j].version);
  }

  /** The fields of a stored document that its schema describes. */
  function Body(doc: Doc): Doc {
    doc - META
  }

  /** A create stores exactly the fields that were checked against the schema if and only if its
      content has no field "RFC6902": that one is left out of the check but not out of the document. */
  lemma CheckedIsStoredIff(rules: Rules, s: Store, c: Command, version: string)
    requires c.CreateCommand? && Execute(rules, s, c, version).1.Created?
    ensures Body(Execute(rules, s, c, version).0.live[c.id]) == c.content - META - {"operationId", "RFC6902"} <==>
      "RFC6902" !in c.content
  {
    var stored := Execute(rules, s, c, version).0.live[c.id];
    var checked := c.content - META - {"operationId", "RFC6902"};
    Effect(rules, s, c, version);
    if "RFC6902" in c.content {
      assert Get(stored, "RFC6902").Some?;
      assert "RFC6902" in Body(stored) && "RFC6902" !in checked;
    } else {
      SameFields(Body(stored), checked);
    }
  }

  /** The failure at a concrete input: a field that was never checked is stored. */
  lemma UncheckedIsStored(c: Command)
    requires c == CreateCommand("x", map["RFC6902" := Null])
    ensures
      var rules := Rules("m", doc => doc == map[]);
      var (t, reply) := Execute(rules, EMPTY, c, "v");
      reply.Created? && "x" in t.live && Body(t.live["x"]) == map["RFC6902" := Null] && !rules.fits(Body(t.live["x"]))
  {
    var rules := Rules("m", doc => doc == map[]);
    assert c.content - META - {"operationId", "RFC6902"} == map[];
    var stored := Stamped(c.content, "x", "m", "v");
    assert Body(stored) == map["RFC6902" := Null];
    assert "RFC6902" in Body(stored);
  }

  lemma SameFields(a: Doc, b: Doc)
    requires forall k :: Get(a, k) == Get(b, k)
    ensures a == b
  {
    assert forall k :: k in a <==> Get(a, k).Some?;
    assert forall k :: k in b <==> Get(b, k).Some?;
    assert forall k :: k in a ==> Get(a, k) == Some(a[k]);
  }

  /** Over every run whose creates carry no such field, every live document fits the schema and has the
      current marker. */
  lemma {:induction false} LiveFits(rules: Rules, inputs: seq<Input>, id: string)
    requires forall i :: 0 <= i < |inputs| && inputs[i].command.CreateCommand? ==>
      "RFC6902" !in inputs[i].command.content
    requires id in StoreAfter(rules, inputs).live
    ensures
      var doc := StoreAfter(rules, inputs).live[id];
      rules.fits(Body(doc)) && Get(doc, "$") == Some(Str(rules.marker))
  {
    var n := |inputs| - 1;
    var s, c, version := StoreAfter(rules, inputs[..n]), inputs[n].command, inputs[n].version;
    var (t, r) := Execute(rules, s, c, version);
    Effect(rules, s, c, version);
    if c.id != id || r.Refused? {
      LiveFits(rules, inputs[..n], id);
    } else if r.Created? {
      CheckedIsStoredIff(rules, s, c, version);
    } else {
      var patched := c.patch.value.apply(s.live[id]).value;
      SameFields(Body(t.live[id]), patched - META - {"operationId"});
    }
  }

  /** The history of one document: its last create with every later successful patch applied in
      turn, or nothing after a delete. Version checks play no part here. */
  function Replay(rules: Rules, inputs: seq<Input>, id: string): Option<Doc> {
    if inputs == [] then None
    else
      var last := inputs[|inputs| - 1];
      var before := Replay(rules, inputs[..|inputs| - 1], id);
      if last.command.id != id then before
      else match (last.command, ReplyAt(rules, inputs, |inputs| - 1))
        case (CreateCommand(_, content), Created(v)) => Some(Stamped(content, id, rules.marker, v))
        case (PatchCommand(_, _, _, Some(patch)), PatchedTo(_, v)) =>
          (match before
           case None => None
           case Some(doc) =>
             match patch.apply(doc)
             case None => None
             case Some(patched) => Some(Stamped(patched, id, rules.marker, v)))
        case (_, DeletedAt(_)) => None
        case _ => before
  }

  /** After every run each live document is the fold of its successful patches over its last create. */
  lemma {:induction false} LiveIsReplay(rules: Rules, inputs: seq<Input>, id: string)
    ensures Get(StoreAfter(rules, inputs).live, id) == Replay(rules, inputs, id)
  {
    if inputs != [] {
      var n := |inputs| - 1;
      LiveIsReplay(rules, inputs[..n], id);
      Effect(rules, StoreAfter(rules, inputs[..n]), inputs[n].command, inputs[n].version);
    }
  }
}
