/**
 * The key registry and expiry tracker: one typed record per key, each with
 * an optional absolute expiry instant. Time is an integer `now` supplied by
 * the caller. Expiry is lazy: an entry whose instant has been reached is
 * treated as absent by every command, and a write to its key replaces it.
 */
module Keyspace {
  import opened Wrappers

  type Key = string

  /** The typed payload kept under one key; every element is a canonical string. */
  datatype Record =
    | StrRec(s: string)
    | HashRec(fields: map<string, string>)
    | SetRec(members: set<string>)
    | ListRec(items: seq<string>)

  /** A record and the instant at which it expires, if any. */
  datatype Entry = Entry(rec: Record, expireAt: Option<int>)

  type Store = map<Key, Entry>

  /** Why a command refuses: the key holds another kind of record, or a counter is not a number. */
  datatype Error = WrongType | NotAnInteger

  /** What a command that may write returns: its reply and the store it leaves behind. */
  datatype Reply<+T> = Reply(value: T, store: Store)

  /** An entry is live until its expiry instant. */
  predicate IsLive(e: Entry, now: int) {
    e.expireAt.None? || now < e.expireAt.value
  }

  /** The record a command at `now` sees under `k`: none when absent or expired. */
  function Lookup(st: Store, k: Key, now: int): (r: Option<Record>) {
    if k in st && IsLive(st[k], now) then Some(st[k].rec) else None
  }

  /** The store after lazily dropping `k` if it has expired by `now`. */
  function Evict(st: Store, k: Key, now: int): (r: Store)
    ensures r - {k} == st - {k}
    ensures k in r <==> Lookup(st, k, now).Some?
    ensures k in r ==> r[k] == st[k]
    ensures NoEmptyCollections(st) ==> NoEmptyCollections(r)
  {
    if k in st && !IsLive(st[k], now) then Remove(st, k) else st
  }

  /** `exists k`: whether a live record is stored under `k`. */
  function Exists(st: Store, k: Key, now: int): (b: bool)
    ensures b <==> k in st && IsLive(st[k], now)
  {
    Lookup(st, k, now).Some?
  }

  /** A list, hash or set record holds at least one element. */
  predicate NonEmptyRec(rec: Record) {
    && (rec.ListRec? ==> |rec.items| > 0)
    && (rec.HashRec? ==> |rec.fields| > 0)
    && (rec.SetRec? ==> |rec.members| > 0)
  }

  /** Collections never stay empty: an emptied list, hash or set is removed with its key. */
  predicate NoEmptyCollections(st: Store) {
    forall k | k in st :: NonEmptyRec(st[k].rec)
  }

  /** The expiry a command at `now` sees under `k`: none when the key is absent or expired. */
  function ExpiryOf(st: Store, k: Key, now: int): (r: Option<int>)
    ensures r.Some? ==> Exists(st, k, now) && now < r.value
  {
    if Exists(st, k, now) then st[k].expireAt else None
  }

  /** Stores `e` under `k`, leaving every other key alone. */
  function Put(st: Store, k: Key, e: Entry): (r: Store)
    ensures k in r && r[k] == e
    ensures r - {k} == st - {k}
    ensures NoEmptyCollections(st) && NonEmptyRec(e.rec) ==> NoEmptyCollections(r)
  {
    st[k := e]
  }

  /** Deletes `k`, leaving every other key alone. */
  function Remove(st: Store, k: Key): (r: Store)
    ensures k !in r
    ensures r - {k} == st - {k}
    ensures NoEmptyCollections(st) ==> NoEmptyCollections(r)
  {
    st - {k}
  }

  /** `flushdb`: every record and every expiry is dropped. */
  function FlushDb(st: Store): (r: Store)
    ensures forall k, now :: !Exists(r, k, now)
    ensures NoEmptyCollections(r)
  {
    map[]
  }

  /**
   * `expire k seconds`: a live key expires `seconds` after `now`; an absent
   * or expired key is left absent and the reply is false.
   */
  function Expire(st: Store, k: Key, seconds: int, now: int): (r: Reply<bool>)
    ensures r.value <==> Exists(st, k, now)
    ensures r.value ==> k in r.store && r.store[k] == Entry(st[k].rec, Some(now + seconds))
    ensures !r.value ==> k !in r.store
    ensures r.store - {k} == st - {k}
    ensures NoEmptyCollections(st) ==> NoEmptyCollections(r.store)
  {
    match Lookup(st, k, now)
    case None => Reply(false, Evict(st, k, now))
    case Some(rec) => Reply(true, Put(st, k, Entry(rec, Some(now + seconds))))
  }

  /**
   * `ttl k`: the whole seconds left before a live key expires, or -1 when
   * the key has no expiry and also when it does not exist.
   */
  function Ttl(st: Store, k: Key, now: int): (r: int)
    ensures r == -1 || r > 0
    ensures r > 0 <==> Exists(st, k, now) && st[k].expireAt.Some?
    ensures r > 0 ==> st[k].expireAt == Some(now + r)
  {
    if Exists(st, k, now) && st[k].expireAt.Some? then st[k].expireAt.value - now else -1
  }

  /**
   * After `expire k seconds` at `now`, every later `ttl k` is at most
   * `seconds`: it counts down while the key lives and is -1 once it is gone.
   */
  lemma ExpireThenTtl(st: Store, k: Key, seconds: int, now: int, later: int)
    requires Exists(st, k, now) && now <= later
    ensures 0 <= seconds ==> Ttl(Expire(st, k, seconds, now).store, k, later) <= seconds
    ensures later < now + seconds ==> Ttl(Expire(st, k, seconds, now).store, k, later) == now + seconds - later
    ensures later >= now + seconds ==> !Exists(Expire(st, k, seconds, now).store, k, later)
  {
  }
}
