/**
 * The store's own test cases, each run from a freshly flushed store in the
 * order the test issues its commands, with the answers the test expects.
 */
module TestOracles {
  import opened Wrappers
  import opened Decimal
  import opened Canon
  import opened CanonOracles
  import opened Keyspace
  import opened StringCommands
  import opened HashCommands
  import opened SetCommands
  import opened ListCommands

  /** The list the type test stores: `[1, '2']`. */
  const TypesList: Input := List([Int(1), Text("2")])

  /** The dict the type test stores: `{'a': 1, 'b': 'c'}`. */
  const TypesDict: Input := Dict([Pair("a", Int(1)), Pair("b", Text("c"))])

  /**
   * The answers of one round of the type test on value `v` all equal `s`:
   * `get` after `set`, `hget` after `hset` and `smembers` after `sadd`.
   */
  predicate TypesRoundAnswers(st: Store, v: Input, s: string, now: int) {
    var st1 := Set(FlushDb(st), "key", v);
    var h := HSet(st1, "hkey", "item", v, now);
    && Get(st1, "key", now) == Ok(Some(s))
    && h.Ok? && HGet(h.value.store, "hkey", "item", now) == Ok(Some(s))
    && SAdd(h.value.store, "skey", v, now).Ok?
    && SMembers(SAdd(h.value.store, "skey", v, now).value.store, "skey", now) == Ok({s})
  }

  /** One round of the type test: on a flushed store `get` answers none, then every answer is `str(v)`. */
  lemma GetTypesRound(st: Store, v: Input, now: int)
    ensures Get(FlushDb(st), "key", now) == Ok(None)
    ensures TypesRoundAnswers(st, v, Str(v), now)
  {
    var st1 := Set(FlushDb(st), "key", v);
    HSetThenHGet(st1, "hkey", "item", v, now);
    var st2 := HSet(st1, "hkey", "item", v, now).value.store;
    SAddFresh(st2, "skey", v, now);
  }

  /** The type test's bools come back as "True" and "False". */
  lemma GetTypesBools(st: Store, now: int)
    ensures TypesRoundAnswers(st, Bool(true), "True", now)
    ensures TypesRoundAnswers(st, Bool(false), "False", now)
  {
    BoolOracle();
    GetTypesRound(st, Bool(true), now);
    GetTypesRound(st, Bool(false), now);
  }

  /** The type test's list `[1, '2']` comes back as "[1, '2']". */
  lemma GetTypesList(st: Store, now: int)
    ensures TypesRoundAnswers(st, TypesList, "[1, '2']", now)
  {
    ListOracle();
    GetTypesRound(st, TypesList, now);
  }

  /** The type test's dict `{'a': 1, 'b': 'c'}` comes back as "{'a': 1, 'b': 'c'}". */
  lemma GetTypesDict(st: Store, now: int)
    ensures TypesRoundAnswers(st, TypesDict, "{'a': 1, 'b': 'c'}", now)
  {
    DictOracle();
    GetTypesRound(st, TypesDict, now);
  }

  /**
   * One round of the incr test: after `set key v`, `incr key` stores "2";
   * then `hset hkey attr v` and `hincrby hkey attr` store "2" as well.
   */
  lemma IncrOracle(st: Store, v: Input, now: int)
    requires v == Int(1) || v == Text("1")
    ensures var i := Incr(Set(FlushDb(st), "key", v), "key", now);
            && i.Ok?
            && Get(i.value.store, "key", now) == Ok(Some("2"))
            && HSet(i.value.store, "hkey", "attr", v, now).Ok?
            && HIncrBy(HSet(i.value.store, "hkey", "attr", v, now).value.store, "hkey", "attr", 1, now).Ok?
            && HGet(HIncrBy(HSet(i.value.store, "hkey", "attr", v, now).value.store, "hkey", "attr", 1, now).value.store,
                    "hkey", "attr", now) == Ok(Some("2"))
  {
    SmallInts();
    assert ParseInt("1") == Some(1);
    var st2 := Incr(Set(FlushDb(st), "key", v), "key", now).value.store;
    assert "hkey" !in st2;
    HSetThenHGet(st2, "hkey", "attr", v, now);
  }

  /**
   * An int and its decimal text are different values that canonicalize
   * alike, so `set` and `hset` leave the same store for `1` and `'1'`.
   */
  lemma IntAndTextCollide(st: Store, k: Key, field: string, n: int, now: int)
    ensures Int(n) != Text(FromInt(n))
    ensures Str(Int(n)) == Str(Text(FromInt(n)))
    ensures Set(st, k, Int(n)) == Set(st, k, Text(FromInt(n)))
    ensures HSet(st, k, field, Int(n), now) == HSet(st, k, field, Text(FromInt(n)), now)
  {
  }

  /** On absent keys `incr` stores "1", `hincrby` stores "1" and `decr` stores "-1". */
  lemma IncrInitOracle(st: Store, now: int)
    ensures var st0 := FlushDb(st);
            && Incr(st0, "key", now).Ok?
            && Get(Incr(st0, "key", now).value.store, "key", now) == Ok(Some("1"))
    ensures var st1 := Incr(FlushDb(st), "key", now).value.store;
            && HIncrBy(st1, "hkey", "attr", 1, now).Ok?
            && HGet(HIncrBy(st1, "hkey", "attr", 1, now).value.store, "hkey", "attr", now) == Ok(Some("1"))
    ensures var st2 := HIncrBy(Incr(FlushDb(st), "key", now).value.store, "hkey", "attr", 1, now).value.store;
            && Decr(st2, "dkey", now).Ok?
            && Get(Decr(st2, "dkey", now).value.store, "dkey", now) == Ok(Some("-1"))
  {
    var st0 := FlushDb(st);
    CountersStartAtZero(st0, "key", now);
    SmallInts();
    var st2 := HIncrBy(Incr(st0, "key", now).value.store, "hkey", "attr", 1, now).value.store;
    CountersStartAtZero(st2, "dkey", now);
  }

  /** After `expire key 30` every later `ttl key` is at most 30, and a missing key's `ttl` is -1. */
  lemma TtlOracle(st: Store, now: int, later: int)
    requires now <= later
    ensures var st1 := Set(FlushDb(st), "key", Text("key"));
            && Expire(st1, "key", 30, now).value
            && Ttl(Expire(st1, "key", 30, now).store, "key", later) <= 30
            && Ttl(Expire(st1, "key", 30, now).store, "invalid_key", later) == -1
  {
    var st1 := Set(FlushDb(st), "key", Text("key"));
    ExpireThenTtl(st1, "key", 30, now, later);
  }

  /** The values the push/pop test pushes, in order: `'5'`, `5`, `[]` and `{}`. */
  const PushPopValues: seq<Input> := [Text("5"), Int(5), List([]), Dict([])]

  /**
   * The push/pop test: on key `l`, `rpush` of `'5'`, `5`, `[]` and `{}` in
   * turn, each followed by `lpop`, pops "5", "5", "[]" and "{}".
   */
  lemma PushPopOracle(st: Store, now: int)
    ensures var p1 := PushPop(FlushDb(st), PushPopValues[0], now);
            var p2 := PushPop(p1.1, PushPopValues[1], now);
            var p3 := PushPop(p2.1, PushPopValues[2], now);
            var p4 := PushPop(p3.1, PushPopValues[3], now);
            && p1.0 == Some("5") && p2.0 == Some("5") && p3.0 == Some("[]") && p4.0 == Some("{}")
  {
    StrOracles();
  }

  /**
   * One round of the push/pop test: `rpush l v` then `lpop l`, giving the
   * popped string and the store after both; a refused command leaves the
   * store as it was.
   */
  function PushPop(st: Store, v: Input, now: int): (r: (Option<string>, Store))
    ensures !Exists(st, "l", now) ==> r.0 == Some(Str(v))
    ensures "l" !in st ==> r.1 == st
  {
    match RPush(st, "l", v, now)
    case Err(_) => (None, st)
    case Ok(pushed) =>
      match LPop(pushed.store, "l", now)
      case Err(_) => (None, st)
      case Ok(popped) => (popped.value, popped.store)
  }

  /** `llen` is 0 and `exists` false on an absent key, and `llen` is 1 after one `rpush`. */
  lemma LLenOracle(st: Store, now: int)
    ensures var st0 := FlushDb(st);
            && LLen(st0, "key", now) == Ok(0)
            && !Exists(st0, "key", now)
            && LLen(RPush(st0, "key", Text("value"), now).value.store, "key", now) == Ok(1)
  {
  }

  /** The ranges of the range test, on the list `['0', '1', '2']`. */
  lemma WindowOracle()
    ensures Window(["0", "1", "2"], 2, 0) == []
    ensures Window(["0", "1", "2"], 0, 100) == ["0", "1", "2"]
    ensures Window(["0", "1", "2"], 0, 2) == ["0", "1", "2"]
    ensures Window(["0", "1", "2"], 1, 1) == ["1"]
    ensures Window(["0", "1", "2"], 1, -1) == ["1", "2"]
    ensures Window(["0", "1", "2"], 1, -2) == ["1"]
    ensures Window(["0", "1", "2"], -3, -2) == ["0", "1"]
    ensures Window(["0", "1", "2"], -1, -1) == ["2"]
  {
    var xs := ["0", "1", "2"];
    assert xs[0..3] == xs;
  }

  /** `lrange` on an absent key and on the list built by pushing 0, 1 and 2, as the range test asserts. */
  lemma LRangeOracle(st: Store, now: int)
    ensures LRange(FlushDb(st), "key", 0, 100, now) == Ok([])
    ensures !Exists(FlushDb(st), "key", now)
    ensures var l := PushAll(FlushDb(st), "key", [Int(0), Int(1), Int(2)], now);
            && l.Ok?
            && LRange(l.value, "key", 2, 0, now) == Ok([])
            && LRange(l.value, "key", 0, 100, now) == Ok(["0", "1", "2"])
            && LRange(l.value, "key", 0, 2, now) == Ok(["0", "1", "2"])
            && LRange(l.value, "key", 1, 1, now) == Ok(["1"])
            && LRange(l.value, "key", 1, -1, now) == Ok(["1", "2"])
            && LRange(l.value, "key", 1, -2, now) == Ok(["1"])
            && LRange(l.value, "key", -3, -2, now) == Ok(["0", "1"])
            && LRange(l.value, "key", -1, -1, now) == Ok(["2"])
  {
    PushDigits(st, now);
    WindowOracle();
  }

  /** Pushing 0, 1 and 2 onto `key` of a flushed store builds the list `['0', '1', '2']`. */
  lemma PushDigits(st: Store, now: int)
    ensures var l := PushAll(FlushDb(st), "key", [Int(0), Int(1), Int(2)], now);
            && l.Ok? && !NotList(l.value, "key", now) && ListOf(l.value, "key", now) == ["0", "1", "2"]
  {
    var vs: seq<Input> := [Int(0), Int(1), Int(2)];
    PushAllAppends(FlushDb(st), "key", vs, now);
    SmallInts();
    var l := PushAll(FlushDb(st), "key", vs, now).value;
    assert ListOf(l, "key", now) == Strs(vs);
    assert Strs(vs) == ["0", "1", "2"];
  }
}
