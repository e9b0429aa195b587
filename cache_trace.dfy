/**
 * Histories of cache operations. A history is the sequence of Add, Get and
 * Sweep calls a Cache receives from the moment NewCache returns; the lemmas
 * say what a read can observe at the end of any history.
 */
module CacheTrace {
  import opened Wrappers
  import opened PokeCache

  /** One call on the cache and the time at which it ran. */
  datatype Op =
    | AddOp(key: string, val: seq<byte>, at: int)
    | GetOp(key: string, at: int)
    | SweepOp(at: int)

  function Step(m: Entries, expiration: nat, op: Op): Entries
  {
    match op
    case AddOp(k, v, t) => Put(m, k, v, t, expiration)
    case GetOp(k, t) => AfterGet(m, k, t)
    case SweepOp(t) => Swept(m, t)
  }

  /** The map after running `ops`, in order, on a freshly constructed cache. */
  function Run(expiration: nat, ops: seq<Op>): Entries
    decreases |ops|
  {
    if ops == [] then map[] else Step(Run(expiration, ops[..|ops| - 1]), expiration, ops[|ops| - 1])
  }

  /** The entry the most recent Add of `key` in `ops` stored, if there was one. */
  function LastWrite(expiration: nat, ops: seq<Op>, key: string): Option<Entry>
    decreases |ops|
  {
    if ops == [] then None
    else
      var op := ops[|ops| - 1];
      if op.AddOp? && op.key == key then Some(Entry(op.at + expiration, op.val))
      else LastWrite(expiration, ops[..|ops| - 1], key)
  }

  /** All calls of the history ran no later than `now`. */
  predicate AllBy(ops: seq<Op>, now: int)
  {
    forall i :: 0 <= i < |ops| ==> ops[i].at <= now
  }

  /** Whatever the cache holds for `key` is exactly what the most recent Add of `key` stored. */
  lemma {:induction false} RunHoldsLastWrite(expiration: nat, ops: seq<Op>, key: string)
    ensures key in Run(expiration, ops) ==> LastWrite(expiration, ops, key) == Some(Run(expiration, ops)[key])
    decreases |ops|
  {
    if ops != [] {
      RunHoldsLastWrite(expiration, ops[..|ops| - 1], key);
    }
  }

  /** Nothing but staleness removes an entry: a most recent Add that is still live is still held. */
  lemma {:induction false} RunKeepsLiveLastWrite(expiration: nat, ops: seq<Op>, key: string, now: int)
    requires AllBy(ops, now)
    requires LastWrite(expiration, ops, key).Some?
    requires !Expired(LastWrite(expiration, ops, key).value, now)
    ensures key in Run(expiration, ops)
    ensures Run(expiration, ops)[key] == LastWrite(expiration, ops, key).value
    decreases |ops|
  {
    var init, op := ops[..|ops| - 1], ops[|ops| - 1];
    if !(op.AddOp? && op.key == key) {
      assert AllBy(init, now) by {
        forall i | 0 <= i < |init| ensures init[i].at <= now {
          assert init[i] == ops[i];
        }
      }
      assert op.at <= now by { assert op == ops[|ops| - 1]; }
      RunKeepsLiveLastWrite(expiration, init, key, now);
    }
  }

  /**
   * A read at `now`, after every call of the history, hits exactly when the most
   * recent Add of `key` has not expired, and then returns that Add's payload:
   * a hit is never a value other than the latest one stored, nor a stale one.
   */
  lemma HitIsLatestLiveWrite(expiration: nat, ops: seq<Op>, key: string, now: int)
    requires AllBy(ops, now)
    ensures Lookup(Run(expiration, ops), key, now) ==
            match LastWrite(expiration, ops, key)
            case Some(e) => if Expired(e, now) then None else Some(e.val)
            case None => None
  {
    RunHoldsLastWrite(expiration, ops, key);
    if LastWrite(expiration, ops, key).Some? && !Expired(LastWrite(expiration, ops, key).value, now) {
      RunKeepsLiveLastWrite(expiration, ops, key, now);
    }
  }

  /** A sweep strictly after an entry's expiry removes it even if the key is never read again. */
  lemma {:induction false} SweepReclaimsUnread(expiration: nat, ops: seq<Op>, key: string, now: int)
    requires LastWrite(expiration, ops, key).Some?
    requires now > LastWrite(expiration, ops, key).value.expTime
    ensures key !in Run(expiration, ops + [SweepOp(now)])
  {
    assert (ops + [SweepOp(now)])[..|ops|] == ops;
    RunHoldsLastWrite(expiration, ops, key);
  }
}
