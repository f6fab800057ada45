/** Hash commands: `hset`, `hget` and the per-field counter `hincrby`. */
module HashCommands {
  import opened Wrappers
  import opened Decimal
  import opened Canon
  import opened Keyspace

  /** The fields a command at `now` sees under `k`: none when the key is absent or not a hash. */
  function HashOf(st: Store, k: Key, now: int): (m: map<string, string>) {
    if Exists(st, k, now) && st[k].rec.HashRec? then st[k].rec.fields else map[]
  }

  /** The key holds a live record of another kind than a hash. */
  predicate NotHash(st: Store, k: Key, now: int) {
    Exists(st, k, now) && !st[k].rec.HashRec?
  }

  /** `hget k field`: the field's stored string, none when the key or the field is absent. */
  function HGet(st: Store, k: Key, field: string, now: int): (r: Result<Option<string>, Error>)
    ensures r.Err? <==> NotHash(st, k, now)
    ensures r.Err? ==> r.error == WrongType
    ensures !Exists(st, k, now) ==> r == Ok(None)
    ensures r.Ok? ==> (r.value.Some? <==> field in HashOf(st, k, now))
    ensures r.Ok? && r.value.Some? ==> r.value.value == HashOf(st, k, now)[field]
  {
    if NotHash(st, k, now) then Err(WrongType)
    else
      var m := HashOf(st, k, now);
      Ok(if field in m then Some(m[field]) else None)
  }

  /**
   * `hset k field v`: stores the canonical string of `v` in the field,
   * creating the hash when the key is absent; replies whether the field is new.
   */
  function HSet(st: Store, k: Key, field: string, v: Input, now: int): (r: Result<Reply<bool>, Error>)
    ensures r.Err? <==> NotHash(st, k, now)
    ensures r.Err? ==> r.error == WrongType
    ensures r.Ok? ==> HashOf(r.value.store, k, now) == HashOf(st, k, now)[field := Str(v)]
    ensures r.Ok? ==> (r.value.value <==> field !in HashOf(st, k, now))
    ensures r.Ok? ==> Ttl(r.value.store, k, now) == Ttl(st, k, now)
    ensures r.Ok? ==> r.value.store - {k} == st - {k}
    ensures r.Ok? && NoEmptyCollections(st) ==> NoEmptyCollections(r.value.store)
  {
    if NotHash(st, k, now) then Err(WrongType)
    else
      var m := HashOf(st, k, now);
      Ok(Reply(field !in m, Put(st, k, Entry(HashRec(m[field := Str(v)]), ExpiryOf(st, k, now)))))
  }

  /**
   * `hincrby k field amount`: an absent key or field counts as "0"; the
   * field's string must parse as an integer; the sum is stored as its
   * canonical string.
   */
  function HIncrBy(st: Store, k: Key, field: string, amount: int, now: int): (r: Result<Reply<int>, Error>)
    ensures match HGet(st, k, field, now)
            case Err(_) => r == Err(WrongType)
            case Ok(None) => r.Ok? && r.value.value == amount
            case Ok(Some(s)) =>
              if ParseInt(s).Some? then r.Ok? && r.value.value == ParseInt(s).value + amount
              else r == Err(NotAnInteger)
    ensures r.Ok? ==> HashOf(r.value.store, k, now) == HashOf(st, k, now)[field := FromInt(r.value.value)]
    ensures r.Ok? ==> Ttl(r.value.store, k, now) == Ttl(st, k, now)
    ensures r.Ok? ==> r.value.store - {k} == st - {k}
    ensures r.Ok? && NoEmptyCollections(st) ==> NoEmptyCollections(r.value.store)
  {
    match HGet(st, k, field, now)
    case Err(e) => Err(e)
    case Ok(cur) =>
      var current := if cur.Some? then cur.value else "0";
      match ParseInt(current)
      case None => Err(NotAnInteger)
      case Some(n) =>
        var m := HashOf(st, k, now);
        Ok(Reply(n + amount, Put(st, k, Entry(HashRec(m[field := FromInt(n + amount)]), ExpiryOf(st, k, now)))))
  }

  /** `hset` then `hget` returns the canonical string of what was set. */
  lemma HSetThenHGet(st: Store, k: Key, field: string, v: Input, now: int)
    requires !NotHash(st, k, now)
    ensures HSet(st, k, field, v, now).Ok?
    ensures HGet(HSet(st, k, field, v, now).value.store, k, field, now) == Ok(Some(Str(v)))
  {
  }

  /** On a field holding a canonical number, `hincrby` rewrites just that field of the live entry. */
  lemma HIncrByCanonical(st: Store, k: Key, field: string, n: int, amount: int, now: int)
    requires HGet(st, k, field, now) == Ok(Some(FromInt(n)))
    ensures Exists(st, k, now) && st[k].rec.HashRec?
    ensures HIncrBy(st, k, field, amount, now)
         == Ok(Reply(n + amount, st[k := Entry(HashRec(st[k].rec.fields[field := FromInt(n + amount)]), st[k].expireAt)]))
  {
    ParseFromInt(n);
  }

  /** `hincrby k field amount` then `hincrby k field -amount` restores a field holding a canonical number. */
  lemma HIncrByInverse(st: Store, k: Key, field: string, n: int, amount: int, now: int)
    requires HGet(st, k, field, now) == Ok(Some(FromInt(n)))
    ensures HIncrBy(st, k, field, amount, now).Ok?
    ensures HIncrBy(HIncrBy(st, k, field, amount, now).value.store, k, field, -amount, now).Ok?
    ensures HIncrBy(HIncrBy(st, k, field, amount, now).value.store, k, field, -amount, now).value.store == st
  {
    HIncrByCanonical(st, k, field, n, amount, now);
    var e := st[k].expireAt;
    var m := st[k].rec.fields;
    var st1 := st[k := Entry(HashRec(m[field := FromInt(n + amount)]), e)];
    FieldAfterWrite(st, k, field, FromInt(n + amount), now);
    HIncrByCanonical(st1, k, field, n + amount, -amount, now);
    FieldRestored(st, k, field, FromInt(n + amount), now);
  }

  /** A field just written on a live hash reads back as the written string. */
  lemma FieldAfterWrite(st: Store, k: Key, field: string, x: string, now: int)
    requires Exists(st, k, now) && st[k].rec.HashRec?
    ensures HGet(st[k := Entry(HashRec(st[k].rec.fields[field := x]), st[k].expireAt)], k, field, now) == Ok(Some(x))
  {
  }

  /** Writing a field and then writing back its old string leaves the store as it was. */
  lemma FieldRestored(st: Store, k: Key, field: string, x: string, now: int)
    requires Exists(st, k, now) && st[k].rec.HashRec? && field in st[k].rec.fields
    ensures var st1 := st[k := Entry(HashRec(st[k].rec.fields[field := x]), st[k].expireAt)];
            st1[k := Entry(HashRec(st1[k].rec.fields[field := st[k].rec.fields[field]]), st1[k].expireAt)] == st
  {
    var m := st[k].rec.fields;
    assert m[field := x][field := m[field]] == m;
  }
}
