/**
 * The reference store of the httpsession package: a map from session ID
 * to a copy of the record, with lazy expiry. A record whose idle deadline
 * the clock has passed (strictly) is gone for `Load` and not written by
 * `Save`; `DeleteExpired` sweeps such records out. No operation fails.
 */
module Memory {
  import opened Wrappers
  import opened Clock
  import opened Records

  /** `now.After(r.IdleDeadline)` */
  predicate Expired(v: RecordValue, now: Time) {
    After(now, v.idleDeadline)
  }

  /** What `Load(id)` returns at `now`. */
  function LoadFrom(m: map<string, RecordValue>, id: string, now: Time): (r: Option<RecordValue>)
    ensures r.Some? <==> id in m && !Expired(m[id], now)
  {
    if id !in m || Expired(m[id], now) then None else Some(m[id])
  }

  /** The map after `Save(v)` at `now`. */
  function SaveInto(m: map<string, RecordValue>, v: RecordValue, now: Time): (r: map<string, RecordValue>)
    ensures r.Keys == if Expired(v, now) then m.Keys else m.Keys + {v.id}
  {
    if Expired(v, now) then m else m[v.id := v]
  }

  /** The map after `DeleteExpired()` at `now`: exactly the records not yet expired. */
  function Unexpired(m: map<string, RecordValue>, now: Time): (r: map<string, RecordValue>)
    ensures forall id :: id in r <==> id in m && !Expired(m[id], now)
    ensures forall id :: id in r ==> r[id] == m[id]
  {
    map id | id in m && !Expired(m[id], now) :: m[id]
  }

  /** Every record is filed under its own ID. */
  ghost predicate KeysMatch(m: map<string, RecordValue>) {
    forall id :: id in m ==> m[id].id == id
  }

  /** A saved record loads back unchanged while its idle deadline has not passed. */
  lemma SaveThenLoad(m: map<string, RecordValue>, v: RecordValue, saveTime: Time, loadTime: Time)
    requires !Expired(v, saveTime) && !Expired(v, loadTime)
    ensures LoadFrom(SaveInto(m, v, saveTime), v.id, loadTime) == Some(v)
  {
  }

  /** `Save` touches no key but the record's own. */
  lemma SaveKeepsOthers(m: map<string, RecordValue>, v: RecordValue, now: Time, k: string)
    requires k != v.id
    ensures k in SaveInto(m, v, now) <==> k in m
    ensures k in m ==> SaveInto(m, v, now)[k] == m[k]
  {
  }

  /** Saving an already expired record changes nothing, even a stale copy under its ID. */
  lemma ExpiredSaveIsNoop(m: map<string, RecordValue>, v: RecordValue, now: Time)
    requires Expired(v, now)
    ensures SaveInto(m, v, now) == m
  {
  }

  /** Deleting removes just that key, and deleting again (or an absent ID) changes nothing. */
  lemma DeleteIdempotent(m: map<string, RecordValue>, id: string)
    ensures id !in m - {id}
    ensures forall k :: k != id ==> (k in m - {id} <==> k in m)
    ensures (m - {id}) - {id} == m - {id}
    ensures id !in m ==> m - {id} == m
  {
  }

  /** A record whose idle deadline is exactly `now` is still live for `Save`, `Load` and `DeleteExpired`. */
  lemma DeadlineNowIsLive(m: map<string, RecordValue>, v: RecordValue, now: Time)
    requires v.idleDeadline == now
    ensures SaveInto(m, v, now) == m[v.id := v]
    ensures LoadFrom(SaveInto(m, v, now), v.id, now) == Some(v)
    ensures v.id in Unexpired(SaveInto(m, v, now), now)
  {
  }

  /** A sweep changes no `Load` made at the same instant. */
  lemma SweepKeepsLoads(m: map<string, RecordValue>, id: string, now: Time)
    ensures LoadFrom(Unexpired(m, now), id, now) == LoadFrom(m, id, now)
  {
  }

  /** Filing records under their own IDs survives every operation. */
  lemma KeysMatchKept(m: map<string, RecordValue>, v: RecordValue, id: string, now: Time)
    requires KeysMatch(m)
    ensures KeysMatch(SaveInto(m, v, now))
    ensures KeysMatch(m - {id})
    ensures KeysMatch(Unexpired(m, now))
  {
  }

  /** The records `DeleteExpired` has kept or not yet looked at, `pending` being the IDs still to visit. */
  function SweptExcept(m: map<string, RecordValue>, pending: set<string>, now: Time): (r: map<string, RecordValue>)
    ensures forall id :: id in r <==> id in m && (id in pending || !Expired(m[id], now))
    ensures forall id :: id in r ==> r[id] == m[id]
  {
    map id | id in m && (id in pending || !Expired(m[id], now)) :: m[id]
  }

  /** `memoryStore`: the map `m`, changed in place. */
  class MemoryStore {
    var m: map<string, RecordValue>

    /** `newMemoryStore()` */
    constructor ()
      ensures m == map[]
    {
      m := map[];
    }

    method Load(id: string, now: Time) returns (r: Option<RecordValue>, err: Option<Error>)
      ensures r == LoadFrom(m, id, now)
      ensures r.Some? ==> r.value == m[id]
      ensures err == None
    {
      if id !in m || After(now, m[id].idleDeadline) {
        return None, None;
      }
      return Some(m[id]), None;
    }

    method Save(v: RecordValue, now: Time) returns (err: Option<Error>)
      modifies this
      ensures m == SaveInto(old(m), v, now)
      ensures err == None
    {
      if After(now, v.idleDeadline) {
        return None;
      }
      m := m[v.id := v];
      return None;
    }

    method Delete(id: string) returns (err: Option<Error>)
      modifies this
      ensures m == old(m) - {id}
      ensures err == None
    {
      m := m - {id};
      return None;
    }

    /** Visits every key once, deleting the expired records as it goes. */
    method DeleteExpired(now: Time) returns (err: Option<Error>)
      modifies this
      ensures m == Unexpired(old(m), now)
      ensures err == None
    {
      var pending := m.Keys;
      while pending != {}
        invariant pending <= old(m).Keys
        invariant m == SweptExcept(old(m), pending, now)
        decreases pending
      {
        var id :| id in pending;
        if After(now, m[id].idleDeadline) {
          m := m - {id};
        }
        pending := pending - {id};
      }
      assert m == Unexpired(old(m), now);
      return None;
    }
  }
}
