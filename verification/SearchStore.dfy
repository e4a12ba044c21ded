/** internal/search/store.go: the sorted item list of one bucket file. */
module SearchStore {
  import opened Json
  import opened SearchEvaluate
  import opened SearchSort

  datatype Item = Item(sort: seq<Json>, id: string)

  predicate Unique(items: seq<Item>) {
    forall i, j :: 0 <= i < j < |items| ==> items[i].id != items[j].id
  }

  predicate Sorted(items: seq<Item>, desc: seq<bool>)
    requires forall i :: 0 <= i < |items| ==> |items[i].sort| <= |desc|
  {
    forall i, j :: 0 <= i < j < |items| ==> CompareKeys(items[i].sort, items[j].sort, desc) <= 0
  }

  predicate AllTyped(items: seq<Item>, kinds: seq<Kind>) {
    forall i :: 0 <= i < |items| ==> Typed(kinds, items[i].sort)
  }

  /** A well-kept bucket: one item per id, in sort order. */
  predicate WellKept(items: seq<Item>, kinds: seq<Kind>, desc: seq<bool>) {
    |desc| == |kinds| && Unique(items) && AllTyped(items, kinds) && Sorted(items, desc)
  }

  function Members(items: seq<Item>): set<Item> {
    set it | it in items
  }

  function IdsOf(items: seq<Item>): (ids: seq<string>)
    ensures |ids| == |items|
  {
    seq(|items|, i requires 0 <= i < |items| => items[i].id)
  }

  /** The first position of an id, or the length of the list. */
  function Find(items: seq<Item>, id: string): (i: nat)
    ensures i <= |items|
    ensures forall j :: 0 <= j < i ==> items[j].id != id
    ensures i < |items| ==> items[i].id == id
  {
    if items == [] || items[0].id == id then 0 else 1 + Find(items[1..], id)
  }

  function RemoveItem(items: seq<Item>, id: string): seq<Item> {
    var i := Find(items, id);
    if i == |items| then items else items[..i] + items[i + 1..]
  }

  /** Before the first item the candidate is strictly smaller than, else at the end. */
  function InsertionPoint(items: seq<Item>, vals: seq<SortValue>, desc: seq<bool>): (p: nat)
    requires |desc| >= |vals|
    ensures p <= |items|
    ensures forall j :: 0 <= j < p ==> CompareStored(vals, items[j].sort, desc) >= 0
    ensures p < |items| ==> CompareStored(vals, items[p].sort, desc) < 0
  {
    if items == [] || CompareStored(vals, items[0].sort, desc) < 0 then 0
    else 1 + InsertionPoint(items[1..], vals, desc)
  }

  function InsertItem(items: seq<Item>, id: string, vals: seq<SortValue>, desc: seq<bool>): seq<Item>
    requires |desc| >= |vals|
  {
    var p := InsertionPoint(items, vals, desc);
    items[..p] + [Item(ToStored(vals), id)] + items[p..]
  }

  function UpsertItem(items: seq<Item>, id: string, vals: seq<SortValue>, desc: seq<bool>): seq<Item>
    requires |desc| >= |vals|
  {
    var i := Find(items, id);
    if i < |items| && items[i].sort == ToStored(vals) then items
    else InsertItem(RemoveItem(items, id), id, vals, desc)
  }

  /** The slice-shuffling code of the source. */
  class ResultFile {
    var items: seq<Item>

    constructor (stored: seq<Item>)
      ensures items == stored
    {
      items := stored;
    }

    method IndexOf(id: string) returns (idx: int)
      ensures idx == if Find(items, id) < |items| then Find(items, id) else -1
    {
      for i := 0 to |items|
        invariant forall j :: 0 <= j < i ==> items[j].id != id
      {
        if items[i].id == id {
          return i;
        }
      }
      return -1;
    }

    method Remove(id: string) returns (removed: bool)
      modifies this
      ensures items == RemoveItem(old(items), id)
      ensures removed <==> exists it :: it in old(items) && it.id == id
      ensures !removed ==> items == old(items)
    {
      var idx := IndexOf(id);
      if idx < 0 {
        return false;
      }
      assert items[idx] in items;
      items := items[..idx] + items[idx + 1..];
      return true;
    }

    method Upsert(def: Definition, id: string, vals: seq<SortValue>) returns (changed: bool)
      requires |vals| == |def.sort|
      modifies this
      ensures items == UpsertItem(old(items), id, vals, Directions(def))
      ensures !changed ==> items == old(items)
      ensures Unique(old(items)) ==> (changed <==> Item(ToStored(vals), id) !in old(items))
    {
      var dirs := Directions(def);
      var newSort := ToStored(vals);
      var idx := IndexOf(id);
      if idx >= 0 {
        if items[idx].sort == newSort {
          return false;
        }
        items := items[..idx] + items[idx + 1..];
      }
      var rest := items;
      assert rest == RemoveItem(old(items), id);
      var insertAt := FindInsertAt(rest, vals, dirs);
      items := rest[..insertAt] + [Item(newSort, id)] + rest[insertAt..];
      return true;
    }
  }

  /** The comparison loop of an upsert. */
  method FindInsertAt(rest: seq<Item>, vals: seq<SortValue>, dirs: seq<bool>) returns (insertAt: nat)
    requires |dirs| >= |vals|
    ensures insertAt == InsertionPoint(rest, vals, dirs)
  {
    for i := 0 to |rest|
      invariant forall j :: 0 <= j < i ==> CompareStored(vals, rest[j].sort, dirs) >= 0
    {
      var c := CompareStoredSort(vals, rest[i].sort, dirs);
      if c < 0 {
        return i;
      }
    }
    return |rest|;
  }

  /** The list is the old one without an item of this id, with the new item before the first it sorts before. */
  ghost predicate PlacedAt(items: seq<Item>, item: Item, vals: seq<SortValue>, desc: seq<bool>, now: seq<Item>,
                           rest: seq<Item>, p: int)
    requires |desc| >= |vals|
  {
    && 0 <= p <= |rest| && now == rest[..p] + [item] + rest[p..]
    && (rest == items || exists i :: 0 <= i < |items| && items[i].id == item.id && rest == items[..i] + items[i + 1..])
    && (forall j :: 0 <= j < |rest| ==> rest[j].id != item.id)
    && (forall j :: 0 <= j < p ==> CompareStored(vals, rest[j].sort, desc) >= 0)
    && (p < |rest| ==> CompareStored(vals, rest[p].sort, desc) < 0)
  }

  /** An upsert of an item that is there already changes nothing; any other drops the old item of the id and puts
      the new one before the first item it sorts before. */
  lemma UpsertPlaces(items: seq<Item>, id: string, vals: seq<SortValue>, desc: seq<bool>)
    requires |desc| >= |vals| && Unique(items)
    ensures Item(ToStored(vals), id) in items ==> UpsertItem(items, id, vals, desc) == items
    ensures Item(ToStored(vals), id) !in items ==>
      exists rest, p ::
        PlacedAt(items, Item(ToStored(vals), id), vals, desc, UpsertItem(items, id, vals, desc), rest, p)
  {
    var item, i := Item(ToStored(vals), id), Find(items, id);
    if item in items {
      var k :| 0 <= k < |items| && items[k] == item;
      assert i == k;
    } else {
      var rest := RemoveItem(items, id);
      var p := InsertionPoint(rest, vals, desc);
      if i < |items| {
        assert forall j :: 0 <= j < |rest| ==> rest[j] == if j < i then items[j] else items[j + 1];
      }
      assert PlacedAt(items, item, vals, desc, UpsertItem(items, id, vals, desc), rest, p);
    }
  }

  // ----- what the two mutations do to a well-kept bucket

  /** Everything but the entry of `id`. */
  function Others(items: seq<Item>, id: string): set<Item> {
    set it | it in items && it.id != id
  }

  lemma RemoveMember(items: seq<Item>, id: string, it: Item)
    requires Unique(items)
    ensures it in RemoveItem(items, id) <==> it in items && it.id != id
  {
    var i := Find(items, id);
    var r := RemoveItem(items, id);
    if i < |items| {
      if it in items && it.id != id {
        var k :| 0 <= k < |items| && items[k] == it;
        var j := if k < i then k else k - 1;
        DroppedAt(items, i, j);
        assert r[j] == it;
      }
      if it in r {
        var k :| 0 <= k < |r| && r[k] == it;
        DroppedAt(items, i, k);
        assert it == items[if k < i then k else k + 1];
      }
    }
  }

  lemma RemoveMembers(items: seq<Item>, id: string)
    requires Unique(items)
    ensures Members(RemoveItem(items, id)) == Others(items, id)
  {
    forall it
      ensures it in Members(RemoveItem(items, id)) <==> it in Others(items, id)
    {
      RemoveMember(items, id, it);
    }
  }

  /** Where each remaining item stood before a removal. */
  lemma RemoveAt(items: seq<Item>, id: string, k: nat)
    requires k < |RemoveItem(items, id)|
    ensures var i := if k < Find(items, id) then k else k + 1;
      i < |items| && RemoveItem(items, id)[k] == items[i]
  {
    DroppedAt(items, Find(items, id), k);
  }

  lemma DroppedAt(items: seq<Item>, i: nat, k: nat)
    requires i <= |items| && k < |items|
    ensures i < |items| && k < |items| - 1 ==> (items[..i] + items[i + 1..])[k] == items[if k < i then k else k + 1]
  {
  }

  lemma RemoveKeeps(items: seq<Item>, id: string, kinds: seq<Kind>, desc: seq<bool>)
    requires WellKept(items, kinds, desc)
    ensures WellKept(RemoveItem(items, id), kinds, desc)
  {
    RemoveUnique(items, id);
    var r := RemoveItem(items, id);
    forall k | 0 <= k < |r|
      ensures Typed(kinds, r[k].sort)
    {
      RemoveAt(items, id, k);
    }
    forall j, k | 0 <= j < k < |r|
      ensures CompareKeys(r[j].sort, r[k].sort, desc) <= 0
    {
      RemoveAt(items, id, j);
      RemoveAt(items, id, k);
    }
  }

  lemma RemoveUnique(items: seq<Item>, id: string)
    requires Unique(items)
    ensures Unique(RemoveItem(items, id))
  {
    var r := RemoveItem(items, id);
    forall j, k | 0 <= j < k < |r|
      ensures r[j].id != r[k].id
    {
      RemoveAt(items, id, j);
      RemoveAt(items, id, k);
    }
  }

  /** An upsert replaces the entry of `id` and touches no other, whatever the sort values. */
  lemma UpsertMembers(items: seq<Item>, id: string, vals: seq<SortValue>, desc: seq<bool>)
    requires Unique(items) && |desc| >= |vals|
    ensures Unique(UpsertItem(items, id, vals, desc))
    ensures Members(UpsertItem(items, id, vals, desc)) == Others(items, id) + {Item(ToStored(vals), id)}
  {
    var i := Find(items, id);
    var entry := Item(ToStored(vals), id);
    if i < |items| && items[i].sort == ToStored(vals) {
      assert items[i] == entry;
      assert forall it :: it in items && it.id == id ==> it == entry;
    } else {
      RemoveMembers(items, id);
      RemoveUnique(items, id);
      InsertMembers(RemoveItem(items, id), id, vals, desc);
    }
  }

  lemma InsertMembers(r: seq<Item>, id: string, vals: seq<SortValue>, desc: seq<bool>)
    requires Unique(r) && |desc| >= |vals| && forall it :: it in Members(r) ==> it.id != id
    ensures Unique(InsertItem(r, id, vals, desc))
    ensures Members(InsertItem(r, id, vals, desc)) == Members(r) + {Item(ToStored(vals), id)}
  {
    var p := InsertionPoint(r, vals, desc);
    InsertUnique(r, p, Item(ToStored(vals), id));
    InsertedMembers(r, p, Item(ToStored(vals), id));
  }

  lemma InsertAt(r: seq<Item>, p: nat, entry: Item, k: nat)
    requires p <= |r| && k <= |r|
    ensures (r[..p] + [entry] + r[p..])[k] == if k < p then r[k] else if k == p then entry else r[k - 1]
  {
  }

  lemma InsertUnique(r: seq<Item>, p: nat, entry: Item)
    requires p <= |r| && Unique(r) && forall it :: it in Members(r) ==> it.id != entry.id
    ensures Unique(r[..p] + [entry] + r[p..])
  {
    var u := r[..p] + [entry] + r[p..];
    assert forall k :: 0 <= k < |r| ==> r[k] in Members(r);
    forall j, k | 0 <= j < k < |u|
      ensures u[j].id != u[k].id
    {
      InsertAt(r, p, entry, j);
      InsertAt(r, p, entry, k);
    }
  }

  lemma InsertedMembers(r: seq<Item>, p: nat, entry: Item)
    requires p <= |r|
    ensures Members(r[..p] + [entry] + r[p..]) == Members(r) + {entry}
  {
    var u := r[..p] + [entry] + r[p..];
    assert r == r[..p] + r[p..];
    forall it
      ensures it in Members(u) <==> it in Members(r) + {entry}
    {
      assert it in u <==> it in r[..p] || it == entry || it in r[p..];
    }
  }

  /** With no known value after a missing one, an upsert keeps the bucket in sort order. */
  lemma UpsertKeeps(items: seq<Item>, id: string, vals: seq<SortValue>, kinds: seq<Kind>, desc: seq<bool>)
    requires WellKept(items, kinds, desc)
    requires NullsAbsent(vals) && Placeable(vals) && Typed(kinds, ToStored(vals))
    ensures WellKept(UpsertItem(items, id, vals, desc), kinds, desc)
  {
    UpsertMembers(items, id, vals, desc);
    var i := Find(items, id);
    if !(i < |items| && items[i].sort == ToStored(vals)) {
      RemoveKeeps(items, id, kinds, desc);
      InsertKeeps(RemoveItem(items, id), id, vals, kinds, desc);
    }
  }

  lemma InsertKeeps(r: seq<Item>, id: string, vals: seq<SortValue>, kinds: seq<Kind>, desc: seq<bool>)
    requires |desc| == |kinds| && AllTyped(r, kinds) && Sorted(r, desc)
    requires NullsAbsent(vals) && Placeable(vals) && Typed(kinds, ToStored(vals))
    ensures AllTyped(InsertItem(r, id, vals, desc), kinds) && Sorted(InsertItem(r, id, vals, desc), desc)
  {
    var key := ToStored(vals);
    forall k | 0 <= k < |r|
      ensures CompareStored(vals, r[k].sort, desc) < 0 <==> CompareKeys(key, r[k].sort, desc) < 0
    {
      PlacedAsStored(kinds, vals, r[k].sort, desc);
    }
    var p := InsertionPoint(r, vals, desc);
    var u := InsertItem(r, id, vals, desc);
    forall k | 0 <= k < |u|
      ensures Typed(kinds, u[k].sort)
    {
      InsertAt(r, p, Item(key, id), k);
    }
    forall j, k | 0 <= j < k < |u|
      ensures CompareKeys(u[j].sort, u[k].sort, desc) <= 0
    {
      InsertAt(r, p, Item(key, id), j);
      InsertAt(r, p, Item(key, id), k);
      if k == p {
        KeysFlip(kinds, key, r[j].sort, desc);
      } else if j == p && p < k - 1 {
        KeysTrans(kinds, key, r[p].sort, r[k - 1].sort, desc);
      }
    }
  }

  // ----- runs of mutations

  datatype Mutation = Put(id: string, vals: seq<SortValue>) | Drop(id: string)

  function Mutate(items: seq<Item>, m: Mutation, desc: seq<bool>): seq<Item>
    requires m.Put? ==> |desc| >= |m.vals|
  {
    match m
    case Put(id, vals) => UpsertItem(items, id, vals, desc)
    case Drop(id) => RemoveItem(items, id)
  }

  predicate Admissible(m: Mutation, kinds: seq<Kind>) {
    m.Put? ==> NullsAbsent(m.vals) && Placeable(m.vals) && Typed(kinds, ToStored(m.vals))
  }

  predicate AllAdmissible(ms: seq<Mutation>, kinds: seq<Kind>) {
    forall i :: 0 <= i < |ms| ==> Admissible(ms[i], kinds)
  }

  function Run(ms: seq<Mutation>, kinds: seq<Kind>, desc: seq<bool>): seq<Item>
    requires |desc| == |kinds| && AllAdmissible(ms, kinds)
  {
    if ms == [] then [] else Mutate(Run(ms[..|ms| - 1], kinds, desc), ms[|ms| - 1], desc)
  }

  /** What a run of mutations means: the last sort key put for each id that was not dropped since. */
  function Meaning(ms: seq<Mutation>): map<string, seq<Json>> {
    if ms == [] then map[]
    else
      var before := Meaning(ms[..|ms| - 1]);
      match ms[|ms| - 1]
      case Put(id, vals) => before[id := ToStored(vals)]
      case Drop(id) => before - {id}
  }

  function Entries(m: map<string, seq<Json>>): set<Item> {
    set id | id in m :: Item(m[id], id)
  }

  /** Over every run the file is sorted, has each id once, and holds exactly the run's meaning. */
  lemma {:induction false} RunKeeps(ms: seq<Mutation>, kinds: seq<Kind>, desc: seq<bool>)
    requires |desc| == |kinds| && AllAdmissible(ms, kinds)
    ensures WellKept(Run(ms, kinds, desc), kinds, desc)
    ensures Members(Run(ms, kinds, desc)) == Entries(Meaning(ms))
  {
    if ms != [] {
      var init, last := ms[..|ms| - 1], ms[|ms| - 1];
      RunKeeps(init, kinds, desc);
      var items := Run(init, kinds, desc);
      assert Admissible(last, kinds);
      EntriesOf(items, Meaning(init), last.id);
      match last
      case Put(id, vals) =>
        UpsertMembers(items, id, vals, desc);
        UpsertKeeps(items, id, vals, kinds, desc);
      case Drop(id) =>
        RemoveMembers(items, id);
        RemoveKeeps(items, id, kinds, desc);
    }
  }

  lemma EntriesOf(items: seq<Item>, m: map<string, seq<Json>>, id: string)
    requires Members(items) == Entries(m)
    ensures Others(items, id) == Entries(m - {id})
    ensures forall key :: Entries(m[id := key]) == Others(items, id) + {Item(key, id)}
  {
    forall it
      ensures it in Others(items, id) <==> it.id != id && it.id in m && m[it.id] == it.sort
    {
      assert it in items <==> it in Members(items);
      assert it in Entries(m) <==> it.id in m && m[it.id] == it.sort;
    }
    EntriesOfMap(m - {id});
    forall key
      ensures Entries(m[id := key]) == Others(items, id) + {Item(key, id)}
    {
      EntriesOfMap(m[id := key]);
    }
  }

  lemma EntriesOfMap(m: map<string, seq<Json>>)
    ensures forall it :: it in Entries(m) <==> it.id in m && m[it.id] == it.sort
  {
  }

  /** Keys at distinct ids never tie. */
  ghost predicate Strict(items: seq<Item>, desc: seq<bool>)
    requires forall i :: 0 <= i < |items| ==> |items[i].sort| <= |desc|
  {
    forall i, j :: 0 <= i < |items| && 0 <= j < |items| && items[i].id != items[j].id ==>
      CompareKeys(items[i].sort, items[j].sort, desc) != 0
  }

  /** A well-kept bucket whose keys do not tie is determined by its members. */
  lemma {:induction false} Canonical(a: seq<Item>, b: seq<Item>, kinds: seq<Kind>, desc: seq<bool>)
    requires WellKept(a, kinds, desc) && WellKept(b, kinds, desc)
    requires Members(a) == Members(b) && Strict(a, desc)
    ensures a == b
  {
    if a == [] {
      if b != [] {
        SomeMember(b);
      }
    } else {
      assert a[0] in Members(b);
      assert b != [];
      SameHead(a, b, kinds, desc);
      TailMembers(a);
      TailMembers(b);
      Canonical(a[1..], b[1..], kinds, desc);
      assert a == [a[0]] + a[1..] && b == [b[0]] + b[1..];
    }
  }

  lemma SomeMember(a: seq<Item>)
    requires a != []
    ensures Members(a) != {}
  {
    assert a[0] in Members(a);
  }

  lemma TailMembers(a: seq<Item>)
    requires a != [] && Unique(a)
    ensures Members(a[1..]) == Members(a) - {a[0]}
  {
    assert a == [a[0]] + a[1..];
    assert forall i :: 1 <= i < |a| ==> a[i] != a[0];
  }

  lemma SameHead(a: seq<Item>, b: seq<Item>, kinds: seq<Kind>, desc: seq<bool>)
    requires WellKept(a, kinds, desc) && WellKept(b, kinds, desc) && a != [] && b != []
    requires Members(a) == Members(b) && Strict(a, desc)
    ensures a[0] == b[0]
  {
    assert b[0] in Members(a) && a[0] in Members(b);
    var i :| 0 <= i < |a| && a[i] == b[0];
    var j :| 0 <= j < |b| && b[j] == a[0];
    if i > 0 {
      assert CompareKeys(a[0].sort, b[0].sort, desc) <= 0;
      assert a[0].id != a[i].id && j > 0;
      assert CompareKeys(b[0].sort, a[0].sort, desc) <= 0;
      KeysFlip(kinds, a[0].sort, b[0].sort, desc);
    }
  }

  /** The last sort field is the document id, and each item carries its own id there. */
  predicate EndsInId(items: seq<Item>) {
    forall i :: 0 <= i < |items| ==> items[i].sort != [] && items[i].sort[|items[i].sort| - 1] == Str(items[i].id)
  }

  lemma EndsInIdIsStrict(items: seq<Item>, kinds: seq<Kind>, desc: seq<bool>)
    requires |desc| == |kinds| && AllTyped(items, kinds) && EndsInId(items)
    ensures Strict(items, desc)
  {
    forall i, j | 0 <= i < |items| && 0 <= j < |items| && CompareKeys(items[i].sort, items[j].sort, desc) == 0
      ensures items[i].id == items[j].id
    {
      TiesShareStrings(kinds, items[i].sort, items[j].sort, desc, |kinds| - 1);
    }
  }

  /** When the sort ends in the id, only the meaning of a run matters, not the order of its mutations. */
  lemma OrderDoesNotMatter(ms: seq<Mutation>, ns: seq<Mutation>, kinds: seq<Kind>, desc: seq<bool>)
    requires |desc| == |kinds|
    requires AllAdmissible(ms, kinds) && AllAdmissible(ns, kinds)
    requires forall id :: id in Meaning(ms) ==>
      Meaning(ms)[id] != [] && Meaning(ms)[id][|Meaning(ms)[id]| - 1] == Str(id)
    requires Meaning(ms) == Meaning(ns)
    ensures Run(ms, kinds, desc) == Run(ns, kinds, desc)
  {
    RunKeeps(ms, kinds, desc);
    RunKeeps(ns, kinds, desc);
    var items := Run(ms, kinds, desc);
    forall i | 0 <= i < |items|
      ensures items[i].sort != [] && items[i].sort[|items[i].sort| - 1] == Str(items[i].id)
    {
      assert items[i] in Members(items);
    }
    EndsInIdIsStrict(items, kinds, desc);
    Canonical(items, Run(ns, kinds, desc), kinds, desc);
  }

  // ----- candidates with missing values

  /** Every well-kept bucket stays well kept when the candidate is inserted under a new id. */
  ghost predicate AlwaysKept(vals: seq<SortValue>, kinds: seq<Kind>, desc: seq<bool>)
    requires |desc| >= |vals|
  {
    forall items, id :: WellKept(items, kinds, desc) && Find(items, id) == |items| ==>
      WellKept(UpsertItem(items, id, vals, desc), kinds, desc)
  }

  /** A candidate keeps every well-kept bucket in order if and only if no known value comes after a
      missing one: a missing value is placed after every null but stored as one. */
  lemma OrderKeptIff(vals: seq<SortValue>, kinds: seq<Kind>, desc: seq<bool>)
    requires |desc| == |kinds| && NullsAbsent(vals) && Typed(kinds, ToStored(vals))
    ensures AlwaysKept(vals, kinds, desc) <==> Placeable(vals)
  {
    if Placeable(vals) {
      forall items, id | WellKept(items, kinds, desc) && Find(items, id) == |items|
        ensures WellKept(UpsertItem(items, id, vals, desc), kinds, desc)
      {
        UpsertKeeps(items, id, vals, kinds, desc);
      }
    } else {
      var i, j :| 0 <= i < j < |vals| && vals[i] == Missing && vals[j].Known?;
      OneItemSpoils(vals, kinds, desc, i, j);
    }
  }

  lemma OneItemSpoils(vals: seq<SortValue>, kinds: seq<Kind>, desc: seq<bool>, i: nat, j: nat)
    requires |desc| == |kinds| && NullsAbsent(vals) && Typed(kinds, ToStored(vals))
    requires i < j < |vals| && vals[i] == Missing && vals[j].Known?
    ensures !AlwaysKept(vals, kinds, desc)
  {
    Misplaced(kinds, vals, desc, i, j);
    var first := Item(ToStored(vals)[j := Null], "a");
    var items := [first];
    assert WellKept(items, kinds, desc) && Find(items, "b") == 1;
    var u := UpsertItem(items, "b", vals, desc);
    assert InsertionPoint(items, vals, desc) == 1;
    assert u == [first, Item(ToStored(vals), "b")];
    assert CompareKeys(u[0].sort, u[1].sort, desc) > 0;
  }

  /** The failure is real: a first field missing and a second one known leave a list out of order. */
  lemma MissingSpoilsOrder()
    ensures
      var desc := [false, false];
      var items := [Item([Null, Num(5.0)], "a")];
      var vals := [Missing, Known(Num(1.0))];
      && WellKept(items, [KindNumber, KindNumber], desc)
      && AllTyped(UpsertItem(items, "b", vals, desc), [KindNumber, KindNumber])
      && !Sorted(UpsertItem(items, "b", vals, desc), desc)
  {
    var desc := [false, false];
    var items := [Item([Null, Num(5.0)], "a")];
    var vals := [Missing, Known(Num(1.0))];
    assert CompareOne(vals[0], Null, false) == 1;
    assert CompareStored(vals, items[0].sort, desc) == 1;
    assert ToStored(vals) == [Null, Num(1.0)];
    var u := UpsertItem(items, "b", vals, desc);
    assert u == [items[0], Item([Null, Num(1.0)], "b")];
    KeysStep(u[0].sort, u[1].sort, desc);
    KeysStep(u[0].sort[1..], u[1].sort[1..], desc[1..]);
    assert CompareKeys(u[0].sort, u[1].sort, desc) == 1;
  }
}
