/** Numbering of commands for the ACL bitmaps (src/acl.c). */
module AclIds {
  import opened Ascii
  import opened AclRules
  import opened AclCommands

  class CommandIds {
    var ids: map<string, nat>
    var next: nat

    /** Distinct names have distinct ids; the reserved bit is never given out. */
    ghost predicate Valid()
      reads this
    {
      && next != FUTURE
      && (forall n :: n in ids ==> ids[n] < next && ids[n] != FUTURE)
      && (forall m, n :: m in ids && n in ids && ids[m] == ids[n] ==> m == n)
    }

    constructor ()
      ensures Valid() && ids == map[]
    {
      ids := map[];
      next := 0;
    }

    /** ACLGetCommandID: the id already given to the name, ignoring case, or an
        id never given before; ids already given stay. */
    method Get(name: string) returns (id: nat)
      requires Valid()
      modifies this
      ensures Valid() && id != FUTURE
      ensures Lower(name) in ids && ids[Lower(name)] == id
      ensures forall n :: n in old(ids) ==> n in ids && ids[n] == old(ids)[n]
      ensures ids.Keys == old(ids).Keys + {Lower(name)}
      ensures Lower(name) !in old(ids) ==> id !in old(ids).Values
      ensures old(next) < FUTURE ==> id < FUTURE
    {
      var lower := Lower(name);
      if lower in ids {
        return ids[lower];
      }
      id := next;
      ids := ids[lower := id];
      next := next + 1;
      if next == FUTURE {
        next := next + 1;
      }
    }
  }
}
