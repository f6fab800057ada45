/**
 * String commands: `get`, `set` and the counters `incr` and `decr`, which
 * read a stored string as a decimal integer and store the adjusted number's
 * canonical string.
 */
module StringCommands {
  import opened Wrappers
  import opened Decimal
  import opened Canon
  import opened Keyspace

  /** `get k`: the stored string, none when absent or expired; refused on a non-string record. */
  function Get(st: Store, k: Key, now: int): (r: Result<Option<string>, Error>)
    ensures r == Ok(None) <==> !Exists(st, k, now)
    ensures r.Err? <==> Exists(st, k, now) && !st[k].rec.StrRec?
    ensures r.Err? ==> r.error == WrongType
    ensures r.Ok? && r.value.Some? ==> Exists(st, k, now) && st[k].rec == StrRec(r.value.value)
  {
    if !Exists(st, k, now) then Ok(None)
    else if st[k].rec.StrRec? then Ok(Some(st[k].rec.s))
    else Err(WrongType)
  }

  /**
   * `set k v`: stores the canonical string of `v` under `k`, replacing any
   * record of any kind and clearing its expiry.
   */
  function Set(st: Store, k: Key, v: Input): (r: Store)
    ensures forall now :: Get(r, k, now) == Ok(Some(Str(v)))
    ensures forall now :: Ttl(r, k, now) == -1
    ensures r - {k} == st - {k}
    ensures NoEmptyCollections(st) ==> NoEmptyCollections(r)
  {
    Put(st, k, Entry(StrRec(Str(v)), None))
  }

  /**
   * `incrby k delta`, the counter step behind `incr` and `decr`: an absent
   * key counts as "0"; a stored string must parse as an integer; the sum is
   * stored as its canonical string and the expiry is kept.
   */
  function IncrBy(st: Store, k: Key, delta: int, now: int): (r: Result<Reply<int>, Error>)
    ensures match Get(st, k, now)
            case Err(_) => r == Err(WrongType)
            case Ok(None) => r.Ok? && r.value.value == delta
            case Ok(Some(s)) =>
              if ParseInt(s).Some? then r.Ok? && r.value.value == ParseInt(s).value + delta
              else r == Err(NotAnInteger)
    ensures r.Ok? ==> Get(r.value.store, k, now) == Ok(Some(FromInt(r.value.value)))
    ensures r.Ok? ==> Ttl(r.value.store, k, now) == Ttl(st, k, now)
    ensures r.Ok? ==> r.value.store - {k} == st - {k}
    ensures r.Ok? && NoEmptyCollections(st) ==> NoEmptyCollections(r.value.store)
  {
    match Get(st, k, now)
    case Err(e) => Err(e)
    case Ok(cur) =>
      var current := if cur.Some? then cur.value else "0";
      match ParseInt(current)
      case None => Err(NotAnInteger)
      case Some(n) => Ok(Reply(n + delta, Put(st, k, Entry(StrRec(FromInt(n + delta)), ExpiryOf(st, k, now)))))
  }

  /**
   * `incr k`: add one. An absent key becomes "1"; a stored integer string
   * becomes its successor's canonical string; anything else is refused.
   */
  function Incr(st: Store, k: Key, now: int): (r: Result<Reply<int>, Error>)
    ensures match Get(st, k, now)
            case Err(_) => r == Err(WrongType)
            case Ok(None) => r.Ok? && r.value.value == 1
            case Ok(Some(s)) =>
              if ParseInt(s).Some? then r.Ok? && r.value.value == ParseInt(s).value + 1
              else r == Err(NotAnInteger)
    ensures r.Ok? ==> Get(r.value.store, k, now) == Ok(Some(FromInt(r.value.value)))
    ensures r.Ok? ==> r.value.store - {k} == st - {k}
  {
    IncrBy(st, k, 1, now)
  }

  /**
   * `decr k`: subtract one. An absent key becomes "-1"; a stored integer
   * string becomes its predecessor's canonical string; anything else is
   * refused.
   */
  function Decr(st: Store, k: Key, now: int): (r: Result<Reply<int>, Error>)
    ensures match Get(st, k, now)
            case Err(_) => r == Err(WrongType)
            case Ok(None) => r.Ok? && r.value.value == -1
            case Ok(Some(s)) =>
              if ParseInt(s).Some? then r.Ok? && r.value.value == ParseInt(s).value - 1
              else r == Err(NotAnInteger)
    ensures r.Ok? ==> Get(r.value.store, k, now) == Ok(Some(FromInt(r.value.value)))
    ensures r.Ok? ==> r.value.store - {k} == st - {k}
  {
    IncrBy(st, k, -1, now)
  }

  /** On an absent key `incr` stores "1" and `decr` stores "-1". */
  lemma CountersStartAtZero(st: Store, k: Key, now: int)
    requires !Exists(st, k, now)
    ensures Incr(st, k, now).Ok? && Get(Incr(st, k, now).value.store, k, now) == Ok(Some("1"))
    ensures Decr(st, k, now).Ok? && Get(Decr(st, k, now).value.store, k, now) == Ok(Some("-1"))
  {
    SmallInts();
  }

  /** On a key holding a canonical number, `incrby` rewrites just the string of the live entry. */
  lemma IncrByCanonical(st: Store, k: Key, n: int, delta: int, now: int)
    requires Get(st, k, now) == Ok(Some(FromInt(n)))
    ensures Exists(st, k, now)
    ensures IncrBy(st, k, delta, now) == Ok(Reply(n + delta, st[k := Entry(StrRec(FromInt(n + delta)), st[k].expireAt)]))
  {
    ParseFromInt(n);
  }

  /**
   * `incr` then `decr` on a key holding the canonical string of a number
   * gives back exactly the store it started from.
   */
  lemma IncrThenDecr(st: Store, k: Key, n: int, now: int)
    requires Get(st, k, now) == Ok(Some(FromInt(n)))
    ensures Incr(st, k, now).Ok?
    ensures Decr(Incr(st, k, now).value.store, k, now).Ok?
    ensures Decr(Incr(st, k, now).value.store, k, now).value.store == st
  {
    IncrByInverse(st, k, n, 1, now);
    assert Incr(st, k, now) == IncrBy(st, k, 1, now);
    var st1 := IncrBy(st, k, 1, now).value.store;
    assert Decr(st1, k, now) == IncrBy(st1, k, -1, now);
  }

  /**
   * On a key holding the canonical string of a number, `incrby` by `delta`
   * then by `-delta` gives back exactly the store it started from.
   */
  lemma IncrByInverse(st: Store, k: Key, n: int, delta: int, now: int)
    requires Get(st, k, now) == Ok(Some(FromInt(n)))
    ensures IncrBy(st, k, delta, now).Ok?
    ensures IncrBy(IncrBy(st, k, delta, now).value.store, k, -delta, now).Ok?
    ensures IncrBy(IncrBy(st, k, delta, now).value.store, k, -delta, now).value.store == st
  {
    IncrByCanonical(st, k, n, delta, now);
    var e := st[k].expireAt;
    var st1 := st[k := Entry(StrRec(FromInt(n + delta)), e)];
    StringAfterWrite(st, k, FromInt(n + delta), now);
    IncrByCanonical(st1, k, n + delta, -delta, now);
    StringRestored(st, k, FromInt(n + delta), now);
  }

  /** A string just written over a live entry reads back as the written string. */
  lemma StringAfterWrite(st: Store, k: Key, x: string, now: int)
    requires Exists(st, k, now)
    ensures Get(st[k := Entry(StrRec(x), st[k].expireAt)], k, now) == Ok(Some(x))
  {
  }

  /** Writing a string over a string entry and then writing back the old one leaves the store as it was. */
  lemma StringRestored(st: Store, k: Key, x: string, now: int)
    requires k in st && st[k].rec.StrRec?
    ensures st[k := Entry(StrRec(x), st[k].expireAt)][k := Entry(StrRec(st[k].rec.s), st[k].expireAt)] == st
  {
  }

  /** `incr` then `decr` on any numeric string leaves that number's canonical string. */
  lemma IncrThenDecrNormalizes(st: Store, k: Key, s: string, n: int, now: int)
    requires Get(st, k, now) == Ok(Some(s)) && ParseInt(s) == Some(n)
    ensures Incr(st, k, now).Ok?
    ensures Decr(Incr(st, k, now).value.store, k, now).Ok?
    ensures Get(Decr(Incr(st, k, now).value.store, k, now).value.store, k, now) == Ok(Some(FromInt(n)))
  {
    ParseFromInt(n + 1);
  }
}
