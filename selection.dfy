/** The selection set: the event IDs currently enabled. The window and the
    log reader hold the same object, so a change made by the window is seen
    by the next read. */
module Selection {

  class SelectionSet {
    var ids: set<int>

    /** An empty set, as `set()` creates it. */
    constructor ()
      ensures ids == {}
    {
      ids := {};
    }

    /** set.add: the ID becomes a member; nothing else changes. */
    method Add(id: int)
      modifies this
      ensures ids == old(ids) + {id}
    {
      ids := ids + {id};
    }

    /** set.discard: the ID stops being a member, whether or not it was one; nothing else changes. */
    method Discard(id: int)
      modifies this
      ensures ids == old(ids) - {id}
    {
      ids := ids - {id};
    }
  }
}
