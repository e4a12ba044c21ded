/** Collection schemas as trees, with the parts of an OJSON schema entry this model uses. */
module Schema {
  import opened Json

  datatype Kind = StringKind | NumberKind | BooleanKind | ArrayKind | ObjectKind | OtherKind

  /** An entry: its name in the parent, kind, flags, default, object children and array items. */
  datatype Schema = Schema(name: string, kind: Kind, required: bool, nullable: bool, default: Option<Json>,
                           children: seq<Schema>, items: Option<Schema>)

  predicate UniqueNames(children: seq<Schema>) {
    forall i, j :: 0 <= i < j < |children| ==> children[i].name != children[j].name
  }

  /** Sibling names are distinct at every depth. */
  predicate WellNamed(s: Schema) {
    && UniqueNames(s.children)
    && (forall i :: 0 <= i < |s.children| ==> WellNamed(s.children[i]))
    && (s.items.Some? ==> WellNamed(s.items.value))
  }

  /** The position of the first child with a name, or the number of children. */
  function FindChild(children: seq<Schema>, name: string): (i: nat)
    ensures i <= |children|
    ensures forall j :: 0 <= j < i ==> children[j].name != name
    ensures i < |children| ==> children[i].name == name
  {
    if children == [] || children[0].name == name then 0 else 1 + FindChild(children[1..], name)
  }

  predicate HasChild(children: seq<Schema>, name: string) {
    FindChild(children, name) < |children|
  }
}
