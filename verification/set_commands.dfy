/** Set commands: `sadd` and `smembers`. */
module SetCommands {
  import opened Wrappers
  import opened Canon
  import opened Keyspace

  /** The members a command at `now` sees under `k`: none when the key is absent or not a set. */
  function SetOf(st: Store, k: Key, now: int): (m: set<string>) {
    if Exists(st, k, now) && st[k].rec.SetRec? then st[k].rec.members else {}
  }

  /** The key holds a live record of another kind than a set. */
  predicate NotSet(st: Store, k: Key, now: int) {
    Exists(st, k, now) && !st[k].rec.SetRec?
  }

  /** `smembers k`: a copy of the stored strings, empty when the key is absent. */
  function SMembers(st: Store, k: Key, now: int): (r: Result<set<string>, Error>)
    ensures r.Err? <==> NotSet(st, k, now)
    ensures r.Err? ==> r.error == WrongType
    ensures !Exists(st, k, now) ==> r == Ok({})
    ensures r.Ok? && Exists(st, k, now) ==> r.value == st[k].rec.members
  {
    if NotSet(st, k, now) then Err(WrongType) else Ok(SetOf(st, k, now))
  }

  /**
   * `sadd k v`: adds the canonical string of `v`, creating the set when the
   * key is absent; replies whether it was not yet a member.
   */
  function SAdd(st: Store, k: Key, v: Input, now: int): (r: Result<Reply<bool>, Error>)
    ensures r.Err? <==> NotSet(st, k, now)
    ensures r.Err? ==> r.error == WrongType
    ensures r.Ok? ==> SMembers(r.value.store, k, now) == Ok(SetOf(st, k, now) + {Str(v)})
    ensures r.Ok? ==> (r.value.value <==> Str(v) !in SetOf(st, k, now))
    ensures r.Ok? ==> Ttl(r.value.store, k, now) == Ttl(st, k, now)
    ensures r.Ok? ==> r.value.store - {k} == st - {k}
    ensures r.Ok? && NoEmptyCollections(st) ==> NoEmptyCollections(r.value.store)
  {
    if NotSet(st, k, now) then Err(WrongType)
    else
      var m := SetOf(st, k, now);
      Ok(Reply(Str(v) !in m, Put(st, k, Entry(SetRec(m + {Str(v)}), ExpiryOf(st, k, now)))))
  }

  /** `sadd` on an absent key leaves exactly the canonical string of the value. */
  lemma SAddFresh(st: Store, k: Key, v: Input, now: int)
    requires !Exists(st, k, now)
    ensures SAdd(st, k, v, now).Ok?
    ensures SMembers(SAdd(st, k, v, now).value.store, k, now) == Ok({Str(v)})
  {
    assert {} + {Str(v)} == {Str(v)};
  }

  /** Adding the same value twice is the same as adding it once, and the second add replies false. */
  lemma SAddIdempotent(st: Store, k: Key, v: Input, now: int)
    requires SAdd(st, k, v, now).Ok?
    ensures SAdd(SAdd(st, k, v, now).value.store, k, v, now).Ok?
    ensures SAdd(SAdd(st, k, v, now).value.store, k, v, now).value.store == SAdd(st, k, v, now).value.store
    ensures !SAdd(SAdd(st, k, v, now).value.store, k, v, now).value.value
  {
    var st1 := SAdd(st, k, v, now).value.store;
    var m := st1[k].rec.members;
    assert SetOf(st1, k, now) == m && ExpiryOf(st1, k, now) == st1[k].expireAt;
    assert Str(v) in m;
    assert m + {Str(v)} == m;
    assert st1[k := Entry(SetRec(m), st1[k].expireAt)] == st1;
  }
}
