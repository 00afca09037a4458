/**
 * The `Store` interface as the middlewares see it. Its contents behave as
 * the in-memory reference store; a store backed by something else may also
 * fail, and `fails` says which calls return which error. A failing call
 * changes nothing.
 */
module Stores {
  import opened Wrappers
  import opened Clock
  import opened Records
  import opened Memory

  /** A call to the store, as far as its failure can depend on it. */
  datatype StoreCall = LoadCall(id: string) | SaveCall(id: string) | DeleteCall(id: string)

  class Store {
    const mem: MemoryStore
    const fails: StoreCall -> Option<Error>

    constructor (fails: StoreCall -> Option<Error>)
      ensures fresh(mem) && mem.m == map[]
      ensures this.fails == fails
    {
      mem := new MemoryStore();
      this.fails := fails;
    }

    /** `Load(ctx, id)`: the live record, none, or the error. */
    method Load(id: string, now: Time) returns (r: Option<RecordValue>, err: Option<Error>)
      ensures err == fails(LoadCall(id))
      ensures r == if err.Some? then None else LoadFrom(mem.m, id, now)
    {
      err := fails(LoadCall(id));
      if err.Some? {
        return None, err;
      }
      r, err := mem.Load(id, now);
    }

    /** `Save(ctx, r)` */
    method Save(v: RecordValue, now: Time) returns (err: Option<Error>)
      modifies mem
      ensures err == fails(SaveCall(v.id))
      ensures mem.m == if err.Some? then old(mem.m) else SaveInto(old(mem.m), v, now)
    {
      err := fails(SaveCall(v.id));
      if err.Some? {
        return;
      }
      err := mem.Save(v, now);
    }

    /** `Delete(ctx, id)` */
    method Delete(id: string) returns (err: Option<Error>)
      modifies mem
      ensures err == fails(DeleteCall(id))
      ensures mem.m == if err.Some? then old(mem.m) else old(mem.m) - {id}
    {
      err := fails(DeleteCall(id));
      if err.Some? {
        return;
      }
      err := mem.Delete(id);
    }
  }

  /** The store `newMemoryStore()` gives: nothing ever fails. */
  function NeverFails(c: StoreCall): Option<Error> {
    None
  }
}
