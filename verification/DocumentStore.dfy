/** internal/fsstore/documents.go: the live documents, previous-document dotfiles and change-queue
    markers of one collection. A file is a map entry; a rename or atomic write is one update. */
module DocumentStore {
  import opened Json

  datatype Verb = Create | Patch | Delete

  datatype Marker = Marker(verb: Verb, id: string)

  datatype Store = Store(live: map<string, Doc>, prev: map<string, Doc>, queue: set<Marker>, taken: set<Marker>) {
    predicate Pending(id: string) {
      exists m :: m in queue + taken && m.id == id
    }

    /** The oldest version that distribution has not yet replaced. */
    function Oldest(id: string): Option<Doc> {
      if id in prev then Some(prev[id]) else Get(live, id)
    }
  }

  const EMPTY := Store(map[], map[], {}, {})

  /** Keeps the live version under the dotfile unless an older one is already there. */
  function Preserve(s: Store, id: string): Store
    requires id in s.live
  {
    if id in s.prev then s
    else s.(live := s.live - {id}, prev := s.prev[id := s.live[id]])
  }

  function Written(s: Store, id: string, doc: Doc, verb: Verb): Store {
    s.(live := s.live[id := doc], queue := s.queue + {Marker(verb, id)})
  }

  function Patched(s: Store, id: string, doc: Doc): Store
    requires id in s.live
  {
    Written(Preserve(s, id), id, doc, Patch)
  }

  function SoftDeleted(s: Store, id: string): Store
    requires id in s.live
  {
    if id in s.prev then s.(live := s.live - {id})
    else s.(live := s.live - {id}, prev := s.prev[id := s.live[id]])
  }

  function Deleted(s: Store, id: string): Store
    requires id in s.live
  {
    var t := SoftDeleted(s, id);
    t.(queue := t.queue + {Marker(Delete, id)})
  }

  /** The files themselves, changed one operation at a time. */
  class DocumentFiles {
    var live: map<string, Doc>
    var prev: map<string, Doc>
    var queue: set<Marker>
    var taken: set<Marker>

    ghost function View(): Store
      reads this
    {
      Store(live, prev, queue, taken)
    }

    constructor ()
      ensures View() == EMPTY
    {
      live, prev, queue, taken := map[], map[], {}, {};
    }

    /** Fails only when there is neither a dotfile nor a live document to rename. */
    method PreservePreviousIfAbsent(id: string) returns (ok: bool)
      modifies this
      ensures ok <==> id in old(prev) || id in old(live)
      ensures !ok ==> View() == old(View())
      ensures ok && id in old(live) ==> View() == Preserve(old(View()), id)
      ensures ok && id !in old(live) ==> View() == old(View())
    {
      if id in prev {
        return true;
      }
      if id !in live {
        return false;
      }
      prev := prev[id := live[id]];
      live := live - {id};
      return true;
    }

    method SoftDeleteDocument(id: string) returns (ok: bool)
      modifies this
      ensures ok <==> id in old(live)
      ensures View() == if ok then SoftDeleted(old(View()), id) else old(View())
    {
      if id !in live {
        return false;
      }
      if id !in prev {
        prev := prev[id := live[id]];
      }
      live := live - {id};
      return true;
    }

    method WriteDocument(id: string, doc: Doc)
      modifies this`live
      ensures View() == old(View()).(live := old(live)[id := doc])
    {
      live := live[id := doc];
    }

    method EnqueueChange(verb: Verb, id: string)
      modifies this`queue
      ensures View() == old(View()).(queue := old(queue) + {Marker(verb, id)})
    {
      queue := queue + {Marker(verb, id)};
    }

    method Claim(m: Marker)
      modifies this`queue, this`taken
      ensures View() == old(View()).(queue := old(queue) - {m}, taken := old(taken) + {m})
    {
      queue := queue - {m};
      taken := taken + {m};
    }

    /** Removes the dotfile, which may be gone already. */
    method RemovePrevious(id: string)
      modifies this`prev
      ensures View() == old(View()).(prev := old(prev) - {id})
    {
      prev := prev - {id};
    }

    /** Removes the taken marker, which may be gone already. */
    method RemoveTaken(m: Marker)
      modifies this`taken
      ensures View() == old(View()).(taken := old(taken) - {m})
    {
      taken := taken - {m};
    }
  }
}
