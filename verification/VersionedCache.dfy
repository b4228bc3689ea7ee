/**
 * Versioned of internal/platform/redisx/versioned.go over its two Redis keys per id. Each method is
 * one command, transaction or WATCH/EXEC block.
 */
module VersionedCache {
  import opened Basics

  /** What Redis holds for one id: the value key and the version counter (0: no counter). */
  datatype Slot<V> = Slot(value: Option<V>, ver: int)

  /** INCR and DEL for one id, `times` times over. */
  function Bump<V>(s: Slot<V>, times: nat): Slot<V> {
    if times == 0 then s else Slot(None, s.ver + times)
  }

  /** Put: store the value if the version is still what the reader saw. */
  function PutIf<V>(s: Slot<V>, version: int, val: V): Slot<V> {
    if s.ver == version then s.(value := Some(val)) else s
  }

  /** Either key reaches the end of its time to live. */
  function Lapse<V>(s: Slot<V>, counter: bool): Slot<V> {
    if counter then s.(ver := 0) else s.(value := None)
  }

  class Versioned<V> {
    var values: map<string, V>
    var vers: map<string, int>

    constructor ()
      ensures forall k :: SlotOf(k) == Slot(None, 0)
    {
      values, vers := map[], map[];
    }

    function SlotOf(id: string): Slot<V>
      reads this
    {
      Slot(if id in values then Some(values[id]) else None, if id in vers then vers[id] else 0)
    }

    method Get(id: string) returns (val: Option<V>)
      ensures val == SlotOf(id).value
    {
      val := if id in values then Some(values[id]) else None;
    }

    method Version(id: string) returns (n: int)
      ensures n == SlotOf(id).ver
    {
      n := if id in vers then vers[id] else 0;
    }

    method Put(id: string, version: int, val: V)
      modifies this
      ensures SlotOf(id) == PutIf(old(SlotOf(id)), version, val)
      ensures forall k :: k != id ==> SlotOf(k) == old(SlotOf(k))
    {
      var cur := Version(id);
      if cur != version {
        return;
      }
      values := values[id := val];
    }

    /** One transaction over all the ids; an id given twice is bumped twice. */
    method Invalidate(ids: seq<string>)
      modifies this
      ensures forall k :: SlotOf(k) == Bump(old(SlotOf(k)), multiset(ids)[k])
    {
      for i := 0 to |ids|
        invariant forall k :: SlotOf(k) == Bump(old(SlotOf(k)), multiset(ids[..i])[k])
      {
        assert ids[..i + 1] == ids[..i] + [ids[i]];
        vers := vers[ids[i] := (if ids[i] in vers then vers[ids[i]] else 0) + 1];
        values := values - {ids[i]};
      }
      assert ids[..|ids|] == ids;
    }

    /** What Redis does to one key on its own. */
    method Expire(id: string, counter: bool)
      modifies this
      ensures SlotOf(id) == Lapse(old(SlotOf(id)), counter)
      ensures forall k :: k != id ==> SlotOf(k) == old(SlotOf(k))
    {
      if counter {
        vers := vers - {id};
      } else {
        values := values - {id};
      }
    }
  }
}
