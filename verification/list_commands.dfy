/**
 * List commands: `rpush`, `lpop`, `llen` and `lrange`. A list whose last
 * element is popped is deleted, as the emulated server does.
 */
module ListCommands {
  import opened Wrappers
  import opened Seqs
  import opened Canon
  import opened Keyspace

  /** The list a command at `now` sees under `k`: empty when the key is absent or not a list. */
  function ListOf(st: Store, k: Key, now: int): (xs: seq<string>) {
    if Exists(st, k, now) && st[k].rec.ListRec? then st[k].rec.items else []
  }

  /** The key holds a live record of another kind than a list. */
  predicate NotList(st: Store, k: Key, now: int) {
    Exists(st, k, now) && !st[k].rec.ListRec?
  }

  /** A Redis list index: a negative one counts back from the end by adding the length once. */
  function Resolve(i: int, n: nat): (j: int) {
    if i < 0 then i + n else i
  }

  /** Index `i` lies in the inclusive range `[start, stop]` of a list of length `n`. */
  predicate InRange(i: int, start: int, stop: int, n: nat) {
    0 <= i < n && Resolve(start, n) <= i <= Resolve(stop, n)
  }

  /**
   * The reference reading of a range: walk the list from index `i` on and
   * keep every element whose index lies in the range.
   */
  function PickFrom(xs: seq<string>, start: int, stop: int, i: nat): (r: seq<string>)
    requires i <= |xs|
    ensures |r| <= |xs| - i
    decreases |xs| - i
  {
    if i == |xs| then []
    else (if InRange(i, start, stop, |xs|) then [xs[i]] else []) + PickFrom(xs, start, stop, i + 1)
  }

  function Max(a: int, b: int): (m: int) { if a < b then b else a }
  function Min(a: int, b: int): (m: int) { if a < b then a else b }

  /**
   * The elements `lrange` returns: `start` resolved and raised to 0, `stop`
   * resolved and capped at the last index, nothing when they cross.
   */
  function Window(xs: seq<string>, start: int, stop: int): (r: seq<string>)
    ensures |r| <= |xs|
    ensures r == PickFrom(xs, start, stop, 0)
  {
    var lo := Max(Resolve(start, |xs|), 0);
    var hi := Min(Resolve(stop, |xs|) + 1, |xs|);
    PickFromIsSlice(xs, start, stop, 0);
    if lo < hi then xs[lo..hi] else []
  }

  /** From index `i` on, the picked elements are one contiguous slice of the list. */
  lemma {:induction false} PickFromIsSlice(xs: seq<string>, start: int, stop: int, i: nat)
    requires i <= |xs|
    ensures var lo := Max(Max(Resolve(start, |xs|), 0), i);
            var hi := Min(Resolve(stop, |xs|) + 1, |xs|);
            PickFrom(xs, start, stop, i) == if lo < hi then xs[lo..hi] else []
    decreases |xs| - i
  {
    if i < |xs| {
      PickFromIsSlice(xs, start, stop, i + 1);
      var hi := Min(Resolve(stop, |xs|) + 1, |xs|);
      if InRange(i, start, stop, |xs|) && i + 1 < hi {
        assert [xs[i]] + xs[i + 1..hi] == xs[i..hi];
      }
    }
  }

  /** What `lrange` returns is a contiguous run of the list, no longer than it. */
  lemma WindowIsContiguous(xs: seq<string>, start: int, stop: int)
    ensures exists lo, hi :: 0 <= lo <= hi <= |xs| && Window(xs, start, stop) == xs[lo..hi]
  {
    var lo := Max(Resolve(start, |xs|), 0);
    var hi := Min(Resolve(stop, |xs|) + 1, |xs|);
    if lo < hi {
      assert Window(xs, start, stop) == xs[lo..hi];
    } else {
      assert Window(xs, start, stop) == xs[0..0];
    }
  }

  /** An element is returned exactly when its index lies in the resolved range. */
  lemma WindowMembers(xs: seq<string>, start: int, stop: int, i: int)
    requires 0 <= i < |xs|
    ensures var lo := Max(Resolve(start, |xs|), 0);
            InRange(i, start, stop, |xs|) <==> 0 <= i - lo < |Window(xs, start, stop)| && Window(xs, start, stop)[i - lo] == xs[i]
  {
  }

  /** `llen k`: the number of elements, 0 when absent; refused on a non-list record. */
  function LLen(st: Store, k: Key, now: int): (r: Result<nat, Error>)
    ensures r.Err? <==> NotList(st, k, now)
    ensures r.Err? ==> r.error == WrongType
    ensures !Exists(st, k, now) ==> r == Ok(0)
    ensures r.Ok? ==> r.value == |ListOf(st, k, now)|
  {
    if NotList(st, k, now) then Err(WrongType) else Ok(|ListOf(st, k, now)|)
  }

  /** `lrange k start stop`: the inclusive range of the list; empty for an absent key. */
  function LRange(st: Store, k: Key, start: int, stop: int, now: int): (r: Result<seq<string>, Error>)
    ensures r.Err? <==> NotList(st, k, now)
    ensures r.Err? ==> r.error == WrongType
    ensures !Exists(st, k, now) ==> r == Ok([])
    ensures r.Ok? ==> |r.value| <= LLen(st, k, now).value
    ensures r.Ok? ==> r.value == PickFrom(ListOf(st, k, now), start, stop, 0)
  {
    if NotList(st, k, now) then Err(WrongType) else Ok(Window(ListOf(st, k, now), start, stop))
  }

  /**
   * `rpush k v`: appends the canonical string of `v`, creating the list when
   * the key is absent; replies with the new length.
   */
  function RPush(st: Store, k: Key, v: Input, now: int): (r: Result<Reply<nat>, Error>)
    ensures r.Err? <==> NotList(st, k, now)
    ensures r.Err? ==> r.error == WrongType
    ensures r.Ok? ==> ListOf(r.value.store, k, now) == ListOf(st, k, now) + [Str(v)]
    ensures r.Ok? ==> r.value.value == |ListOf(r.value.store, k, now)|
    ensures r.Ok? ==> Ttl(r.value.store, k, now) == Ttl(st, k, now)
    ensures r.Ok? ==> r.value.store - {k} == st - {k}
    ensures r.Ok? && NoEmptyCollections(st) ==> NoEmptyCollections(r.value.store)
  {
    if NotList(st, k, now) then Err(WrongType)
    else
      var xs := ListOf(st, k, now) + [Str(v)];
      Ok(Reply(|xs|, Put(st, k, Entry(ListRec(xs), ExpiryOf(st, k, now)))))
  }

  /**
   * `lpop k`: removes and returns the first element, none for an absent key;
   * the key is deleted once its list is empty.
   */
  function LPop(st: Store, k: Key, now: int): (r: Result<Reply<Option<string>>, Error>)
    ensures r.Err? <==> NotList(st, k, now)
    ensures r.Err? ==> r.error == WrongType
    ensures r.Ok? && |ListOf(st, k, now)| > 0 ==> r.value.value == Some(ListOf(st, k, now)[0])
    ensures r.Ok? && |ListOf(st, k, now)| == 0 ==> r.value.value == None
    ensures r.Ok? ==> ListOf(r.value.store, k, now) == if |ListOf(st, k, now)| > 0 then ListOf(st, k, now)[1..] else []
    ensures r.Ok? && |ListOf(st, k, now)| <= 1 ==> k !in r.value.store
    ensures r.Ok? && |ListOf(st, k, now)| > 1 ==> Ttl(r.value.store, k, now) == Ttl(st, k, now)
    ensures r.Ok? ==> r.value.store - {k} == st - {k}
    ensures r.Ok? && NoEmptyCollections(st) ==> NoEmptyCollections(r.value.store)
  {
    if NotList(st, k, now) then Err(WrongType)
    else
      var xs := ListOf(st, k, now);
      if |xs| == 0 then Ok(Reply(None, Remove(st, k)))
      else if |xs| == 1 then Ok(Reply(Some(xs[0]), Remove(st, k)))
      else Ok(Reply(Some(xs[0]), Put(st, k, Entry(ListRec(xs[1..]), ExpiryOf(st, k, now)))))
  }

  /** The canonical strings of a sequence of values, in order. */
  function Strs(vs: seq<Value>): (r: seq<string>)
    ensures |r| == |vs|
  {
    seq(|vs|, i requires 0 <= i < |vs| => Str(vs[i]))
  }

  /** `rpush` of every value in turn. */
  function PushAll(st: Store, k: Key, vs: seq<Input>, now: int): (r: Result<Store, Error>)
    decreases |vs|
  {
    if |vs| == 0 then Ok(st)
    else
      match RPush(st, k, vs[0], now)
      case Err(e) => Err(e)
      case Ok(reply) => PushAll(reply.store, k, vs[1..], now)
  }

  /** Pushing values one by one appends their canonical strings in push order. */
  lemma {:induction false} PushAllAppends(st: Store, k: Key, vs: seq<Input>, now: int)
    requires !NotList(st, k, now)
    ensures PushAll(st, k, vs, now).Ok?
    ensures ListOf(PushAll(st, k, vs, now).value, k, now) == ListOf(st, k, now) + Strs(vs)
    decreases |vs|
  {
    if |vs| > 0 {
      var st1 := RPush(st, k, vs[0], now).value.store;
      assert ListOf(st1, k, now) == ListOf(st, k, now) + [Str(vs[0])];
      assert !NotList(st1, k, now);
      PushAllAppends(st1, k, vs[1..], now);
      assert PushAll(st, k, vs, now) == PushAll(st1, k, vs[1..], now);
      StrsCons(vs);
      AppendAssoc(ListOf(st, k, now), [Str(vs[0])], Strs(vs[1..]));
    }
  }

  /** The canonical strings of a non-empty sequence: the first value's, then the rest's. */
  lemma StrsCons(vs: seq<Value>)
    requires |vs| > 0
    ensures Strs(vs) == [Str(vs[0])] + Strs(vs[1..])
  {
  }

  /**
   * First in, first out: after pushing values onto an absent key, `lpop`
   * returns the first value pushed and leaves the later ones in order.
   */
  lemma FifoOrder(st: Store, k: Key, vs: seq<Input>, now: int)
    requires !Exists(st, k, now) && |vs| > 0
    ensures PushAll(st, k, vs, now).Ok?
    ensures LPop(PushAll(st, k, vs, now).value, k, now).Ok?
    ensures LPop(PushAll(st, k, vs, now).value, k, now).value.value == Some(Str(vs[0]))
    ensures ListOf(LPop(PushAll(st, k, vs, now).value, k, now).value.store, k, now) == Strs(vs[1..])
  {
    PushAllAppends(st, k, vs, now);
    var pushed := PushAll(st, k, vs, now).value;
    assert ListOf(st, k, now) == [];
    assert ListOf(pushed, k, now) == Strs(vs);
    StrsCons(vs);
    PopFront(pushed, k, Str(vs[0]), Strs(vs[1..]), now);
  }

  /** `lpop` of a list returns its head and leaves its tail. */
  lemma PopFront(st: Store, k: Key, x: string, rest: seq<string>, now: int)
    requires !NotList(st, k, now) && ListOf(st, k, now) == [x] + rest
    ensures LPop(st, k, now).Ok?
    ensures LPop(st, k, now).value.value == Some(x)
    ensures ListOf(LPop(st, k, now).value.store, k, now) == rest
  {
    assert ([x] + rest)[1..] == rest;
  }

  /**
   * `rpush` then `lpop` on an absent key returns the pushed value's
   * canonical string and leaves the store as it was, less a lapsed entry.
   */
  lemma RPushThenLPop(st: Store, k: Key, v: Input, now: int)
    requires !Exists(st, k, now)
    ensures RPush(st, k, v, now).Ok?
    ensures LPop(RPush(st, k, v, now).value.store, k, now) == Ok(Reply(Some(Str(v)), st - {k}))
    ensures k !in st ==> LPop(RPush(st, k, v, now).value.store, k, now).value.store == st
  {
    var st1 := RPush(st, k, v, now).value.store;
    assert st1 - {k} == st - {k};
  }

  /** `rpush` grows `llen` by one. */
  lemma RPushGrowsLLen(st: Store, k: Key, v: Input, now: int)
    requires RPush(st, k, v, now).Ok?
    ensures LLen(RPush(st, k, v, now).value.store, k, now) == Ok(LLen(st, k, now).value + 1)
  {
  }
}
