/** Numbers handed out again after they are returned: the allocator behind process and thread ids. */
module Ids {
  datatype Pool = Pool(current: nat, recycled: seq<nat>)

  /** Numbers on the free list are distinct and were handed out before. */
  ghost predicate PoolOk(p: Pool) {
    && (forall i | 0 <= i < |p.recycled| :: p.recycled[i] < p.current)
    && (forall i, j | 0 <= i < j < |p.recycled| :: p.recycled[i] != p.recycled[j])
  }

  /** The numbers in use are those handed out and not returned since. */
  ghost predicate InUse(p: Pool, begin: nat, id: nat) {
    begin <= id < p.current && id !in p.recycled
  }

  function Taken(p: Pool): (r: (nat, Pool)) {
    if |p.recycled| > 0 then (p.recycled[|p.recycled| - 1], p.(recycled := p.recycled[..|p.recycled| - 1]))
    else (p.current, p.(current := p.current + 1))
  }

  function Returned(p: Pool, id: nat): Pool {
    p.(recycled := p.recycled + [id])
  }

  /** A number handed out was not in use, is now, and nothing else changes. */
  lemma TakenFresh(p: Pool, begin: nat)
    requires PoolOk(p) && begin <= p.current && forall i | 0 <= i < |p.recycled| :: begin <= p.recycled[i]
    ensures PoolOk(Taken(p).1) && begin <= Taken(p).1.current
    ensures forall i | 0 <= i < |Taken(p).1.recycled| :: begin <= Taken(p).1.recycled[i]
    ensures !InUse(p, begin, Taken(p).0)
    ensures forall id :: InUse(Taken(p).1, begin, id) <==> InUse(p, begin, id) || id == Taken(p).0
  {
    if |p.recycled| > 0 {
      var n := |p.recycled| - 1;
      assert p.recycled == p.recycled[..n] + [p.recycled[n]];
      assert p.recycled[n] in p.recycled;
      forall id ensures InUse(Taken(p).1, begin, id) <==> InUse(p, begin, id) || id == Taken(p).0 {
        if id in p.recycled && id != p.recycled[n] {
          var i :| 0 <= i < |p.recycled| && p.recycled[i] == id;
          assert p.recycled[..n][i] == id;
        }
        if id == p.recycled[n] { assert id !in p.recycled[..n]; }
      }
    }
  }

  /** Returning a number in use ends that use and no other. */
  lemma ReturnedOk(p: Pool, begin: nat, id: nat)
    requires PoolOk(p) && InUse(p, begin, id)
    ensures PoolOk(Returned(p, id))
    ensures forall k :: InUse(Returned(p, id), begin, k) <==> InUse(p, begin, k) && k != id
  {
    assert forall i | 0 <= i < |p.recycled| :: p.recycled[i] in p.recycled;
  }

  class RecycleAllocator {
    var current: nat
    var recycled: seq<nat>

    function View(): Pool
      reads this
    {
      Pool(current, recycled)
    }

    constructor BeginWith(begin: nat)
      ensures View() == Pool(begin, []) && PoolOk(View())
    {
      current := begin;
      recycled := [];
    }

    method Alloc() returns (id: nat)
      requires PoolOk(View())
      modifies this
      ensures (id, View()) == Taken(old(View()))
    {
      if |recycled| > 0 {
        id := recycled[|recycled| - 1];
        recycled := recycled[..|recycled| - 1];
      } else {
        current := current + 1;
        id := current - 1;
      }
    }

    method Dealloc(id: nat)
      requires PoolOk(View()) && id < current && id !in recycled
      modifies this
      ensures View() == Returned(old(View()), id) && PoolOk(View())
    {
      ReturnedOk(View(), 0, id);
      recycled := recycled + [id];
    }
  }
}
