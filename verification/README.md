# mockredis, modelled in Dafny

mockredis is an in-memory stand-in for a Redis client. It keeps one typed
record per key (a string, a hash, a set or a list) and offers a handful of
Redis commands on them. Every value a caller stores is kept as its canonical
string, the text Python's `str()` gives for it. Keys may carry a time to
live.

The behaviour modelled here is the behaviour the store's test suite
asserts. The suite is `mockredis/tests/test_redis.py`. The `MockRedis`
implementation it imports (line 2) is not part of this model. Where the
tests are silent, the model fixes a policy and says so below. For cross-type
use that policy is the Redis server's. The counters do not follow Redis:
they parse a stored string by Python's `int()` rules and count with
unbounded integers, as a Python implementation does.

The model is functional. A store is a `map` from key to `Entry(rec,
expireAt)`. Every command is a pure function of the store, its arguments and
an integer clock `now`. A command that can be refused returns `Result<…,
Error>`; when it writes, its success value is a `Reply<T>`, the reply
paired with the store it leaves. `set` and `flushdb` are never refused and
return the new store itself. `expire` is never refused and returns a
`Reply<bool>`.

A value handed to `set`, `hset`, `sadd` or `rpush` has type `Input`: a
`Value` whose dicts hold each key at most once, at every depth, as a Python
dict must.

| file | module | what it holds |
|---|---|---|
| `wrappers.dfy` | `Wrappers` | `Option` and `Result` |
| `seqs.dfy` | `Seqs` | regrouping of appended sequences |
| `decimal.dfy` | `Decimal` | decimal rendering (`FromInt`) and parsing (`ParseInt`) of integers, with both round trips |
| `canon.dfy` | `Canon` | the input variant `Value` and its canonical string `Str` (Python `str`/`repr`, with `repr`'s quote choice and escapes) |
| `canon_oracles.dfy` | `CanonOracles` | the renderings the tests spell out |
| `repr_parse.dfy` | `ReprParse` | a reader for printed values, used to prove that `repr` loses nothing |
| `keyspace.dfy` | `Keyspace` | records, entries, lazy expiry, `exists`, `flushdb`, `expire`, `ttl` |
| `string_commands.dfy` | `StringCommands` | `get`, `set`, `incr`, `decr` |
| `hash_commands.dfy` | `HashCommands` | `hset`, `hget`, `hincrby` |
| `set_commands.dfy` | `SetCommands` | `sadd`, `smembers` |
| `list_commands.dfy` | `ListCommands` | `rpush`, `lpop`, `llen`, `lrange` |
| `test_oracles.dfy` | `TestOracles` | each test case from a flushed store, its commands chained in the test's order |

Policies the tests leave open, as the model fixes them:

- Cross-type use is refused with `WrongType`, as the Redis server does.
  This covers `get` on a hash, `hget` on a list, `rpush` on a string, and so
  on. A counter whose string does not parse is refused with `NotAnInteger`.
- `set` clears a key's expiry, and `expire` replaces it. A deleted key loses
  its expiry with it; `lpop` deletes a list once its last element goes, and
  `flushdb` deletes every key. A write to a key whose expiry has passed starts
  a fresh record without expiry. Otherwise `incr`, `decr`, `hset`,
  `hincrby`, `sadd`, `rpush` and `lpop` keep the expiry of the live key they
  write.
- `expire` on an absent or expired key replies false and leaves the key
  absent; an entry whose expiry has passed is dropped.
- `ttl` is -1 both for a key without expiry and for a missing key.
- `lpop` deletes the key once its list is empty. `hset`, `sadd` and `rpush`
  never leave an empty collection behind, so no store reachable by commands
  holds one (`NoEmptyCollections`).
- A negative `lrange` index counts back from the end by adding the length
  once. A start still negative after that is raised to 0. A stop past the
  end is capped at the last index, and a stop still negative leaves the
  range empty. This is Redis's rule, and every range in the tests agrees
  with it. Resolving an index "modulo the length" is a different rule. It
  differs from this one only when an index is below minus the length, a
  case the tests do not exercise.
- A counter's string is read as `int()` reads it, restricted to an optional
  `-` and then one or more ASCII digits. Leading zeros are allowed, so
  `007` is 7 and `-0` is 0. The sums are unbounded. "## Left out" lists
  where this differs from both `int()` and Redis.
- `repr` of a text picks double quotes when the text holds a single quote
  and no double quote, and single quotes otherwise. Inside, it escapes the
  chosen quote and the backslash, writes tab, newline and carriage return
  as `\t`, `\n` and `\r`, and writes the other control characters, DEL,
  the C1 controls, the no-break space and the soft hyphen as `\xhh`.

## Model

| member | source | states |
|---|---|---|
| Keyspace.Exists | mockredis/tests/test_redis.py:111-113 | `exists` is true exactly when the key is stored and its expiry instant has not been reached |
| Keyspace.FlushDb | mockredis/tests/test_redis.py:7-9 | after `flushdb` no key exists at any time, and the empty store keeps the no-empty-collection invariant |
| Keyspace.Expire | mockredis/tests/test_redis.py:96-98 | replies true exactly when the key is live; a live key then expires `seconds` after `now` with its record unchanged; a dead key stays absent; no other key changes |
| Keyspace.Ttl | mockredis/tests/test_redis.py:96-101 | `ttl` is -1 or positive; it is positive exactly for a live key with an expiry, and then it is the whole seconds left until that expiry |
| Keyspace.ExpireThenTtl | mockredis/tests/test_redis.py:96-100 | after `expire k seconds`, a later `ttl k` is at most `seconds`; it counts down exactly while the key lives, and the key is gone once the instant is reached |
| StringCommands.Get | mockredis/tests/test_redis.py:11-12 | `get` answers none exactly when the key is not live, refuses exactly a live non-string record, and otherwise returns that record's string |
| StringCommands.Set | mockredis/tests/test_redis.py:17-21 | after `set k v`, `get k` returns `str(v)` at every instant, `ttl k` is -1, and no other key changes |
| StringCommands.IncrBy | mockredis/tests/test_redis.py:67-72 | an absent key counts as 0; a string that parses as `n` becomes `n + delta`; an unparsable string or a non-string record is refused; afterwards `get` returns the new number's canonical string, the expiry is kept and no other key changes |
| StringCommands.Incr | mockredis/tests/test_redis.py:67-72 | `incr` counts an absent key as 0 and a string that parses as `n` as `n`, and stores the successor's canonical string; it refuses an unparsable string or a non-string record; no other key changes |
| StringCommands.Decr | mockredis/tests/test_redis.py:93-94 | `decr` counts an absent key as 0 and a string that parses as `n` as `n`, and stores the predecessor's canonical string; it refuses an unparsable string or a non-string record; no other key changes |
| StringCommands.CountersStartAtZero | mockredis/tests/test_redis.py:87-94 | on an absent key `incr` stores "1" and `decr` stores "-1" |
| StringCommands.IncrByCanonical | mockredis/tests/test_redis.py:67-72 | on a key holding a canonical number, `incrby` rewrites only that key's string and keeps its expiry |
| StringCommands.IncrThenDecr | mockredis/tests/test_redis.py:57-94 | `incr` then `decr` on a key holding a canonical number gives back exactly the starting store |
| StringCommands.IncrByInverse | mockredis/tests/test_redis.py:67-72 | `incrby` by `delta` and then by `-delta` on a key holding a canonical number gives back exactly the starting store |
| StringCommands.IncrThenDecrNormalizes | mockredis/tests/test_redis.py:62-72 | `incr` then `decr` on any numeric string leaves the canonical string of its number |
| HashCommands.HGet | mockredis/tests/test_redis.py:47-49 | `hget` answers a field exactly when the live hash has it, with that field's string; it refuses exactly a live non-hash record; an absent key gives none |
| HashCommands.HSet | mockredis/tests/test_redis.py:47-49 | after `hset`, the hash is the old one with the field set to `str(v)`; the reply says whether the field is new; the expiry is kept and no other key changes |
| HashCommands.HSetThenHGet | mockredis/tests/test_redis.py:47-49 | `hset` then `hget` of the same field returns `str(v)` |
| HashCommands.HIncrBy | mockredis/tests/test_redis.py:74-78 | an absent key or field counts as 0; a field that parses as `n` becomes `n + amount`; other fields, the expiry and other keys are kept; bad input is refused |
| HashCommands.HIncrByCanonical | mockredis/tests/test_redis.py:74-78 | on a field holding a canonical number, `hincrby` rewrites only that field |
| HashCommands.HIncrByInverse | mockredis/tests/test_redis.py:74-78 | `hincrby` by `amount` and then by `-amount` gives back exactly the starting store |
| SetCommands.SMembers | mockredis/tests/test_redis.py:51-53 | `smembers` is the live set's members, empty for an absent key, and refuses exactly a live non-set record |
| SetCommands.SAdd | mockredis/tests/test_redis.py:51-53 | after `sadd`, `smembers` is the old members plus `str(v)`; the reply says whether it was new; the expiry is kept and no other key changes |
| SetCommands.SAddFresh | mockredis/tests/test_redis.py:51-53 | `sadd` on an absent key leaves exactly `{str(v)}` |
| SetCommands.SAddIdempotent | mockredis/tests/test_redis.py:51-53 | a second `sadd` of the same value leaves the store as the first left it and replies false |
| ListCommands.LLen | mockredis/tests/test_redis.py:111-115 | `llen` is the live list's length, 0 for an absent key, and refuses exactly a live non-list record |
| ListCommands.RPush | mockredis/tests/test_redis.py:103-109 | after `rpush`, the list is the old one with `str(v)` appended, the reply is the new length, the expiry is kept and no other key changes |
| ListCommands.LPop | mockredis/tests/test_redis.py:103-109 | `lpop` returns the first element, or none for an empty list, and leaves the rest in order; the key is deleted once at most one element was left; otherwise the expiry is kept |
| ListCommands.RPushThenLPop | mockredis/tests/test_redis.py:103-109 | on an absent key, `rpush` then `lpop` returns `str(v)` and leaves the store it started from, less a lapsed entry under the key |
| ListCommands.RPushGrowsLLen | mockredis/tests/test_redis.py:111-115 | `rpush` grows `llen` by exactly one |
| ListCommands.PushAllAppends | mockredis/tests/test_redis.py:120-123 | pushing values one at a time appends their canonical strings in push order |
| ListCommands.FifoOrder | mockredis/tests/test_redis.py:120-123 | after pushing values onto an absent key, `lpop` returns the first value pushed and leaves the later ones in order |
| ListCommands.Window | mockredis/tests/test_redis.py:117-129 | the range is never longer than the list and equals the reference reading `PickFrom`: exactly the elements whose index lies between the resolved start and stop |
| ListCommands.PickFromIsSlice | mockredis/tests/test_redis.py:117-129 | from any index on, the elements whose index is in range form one slice bounded by the resolved start and stop |
| ListCommands.WindowIsContiguous | mockredis/tests/test_redis.py:117-129 | what `lrange` returns is one contiguous run of the list |
| ListCommands.WindowMembers | mockredis/tests/test_redis.py:122-129 | an element is returned, at its shifted position, exactly when its index lies in the resolved range |
| ListCommands.LRange | mockredis/tests/test_redis.py:117-129 | `lrange` is empty for an absent key, refuses a live non-list record, is no longer than `llen`, and equals the reference reading `PickFrom` of the list |
| Decimal.NatToDigits | mockredis/tests/test_redis.py:103-109 | the rendering of a natural number is a digit run with no superfluous leading zero that denotes that number |
| Decimal.FromInt | mockredis/tests/test_redis.py:103-109 | `str(n)` is a non-empty digit run with no superfluous leading zero denoting the magnitude of `n`, with a `-` in front exactly when `n` is negative |
| Decimal.ParseIntNumerals | mockredis/tests/test_redis.py:62-72 | `int(s) == n` exactly when `s` is the shortest digits of `n`'s magnitude after any number of zeros, with a `-` in front when `n` is negative, none when it is positive, and either when it is 0; every other string is refused |
| Decimal.NumeralParses | mockredis/tests/test_redis.py:62-72 | every numeral, signed or not and with any leading zeros, parses to its magnitude, negated when signed |
| Decimal.ParseFromInt | mockredis/tests/test_redis.py:62-72 | parsing undoes rendering: `int(str(n)) == n`, and the rendering is canonical |
| Decimal.ParseIntCanonical | mockredis/tests/test_redis.py:62-72 | a string parses to `n` and is canonical exactly when it is `str(n)` |
| Decimal.FromIntInjective | mockredis/tests/test_redis.py:62-72 | two integers have the same canonical string exactly when they are equal |
| Canon.Str | mockredis/tests/test_redis.py:41-53 | `str(v)` keeps a text as it is, prints bools as "True"/"False" and ints in decimal, and puts lists in brackets and dicts in braces |
| Canon.Repr | mockredis/tests/test_redis.py:41-53 | `repr(v)`, how each item of a list or dict is printed: bools as "True"/"False", ints as `FromInt` gives them, texts opening with a quote, lists in brackets and dicts in braces; `ParseRepr` reads every such printing back to its value |
| Canon.QuoteFor | mockredis/tests/test_redis.py:41-53 | `repr` encloses a text in a double quote exactly when the text holds a single quote and no double quote, and in a single quote otherwise |
| Canon.EscapeChar | mockredis/tests/test_redis.py:41-53 | inside quote `q`, `repr` writes a character as itself exactly when it is not `q`, the backslash, tab, newline, carriage return or a `\xhh` character; every other writing is two to four characters starting with a backslash |
| Canon.Quote | mockredis/tests/test_redis.py:41-53 | `repr` of a text begins and ends with the quote `repr` picks for it, around the escaped body |
| Canon.QuoteSafe | mockredis/tests/test_redis.py:41-53 | a text of printable ASCII without `'` or `\` prints between single quotes unchanged |
| CanonOracles.BoolOracle | mockredis/tests/test_redis.py:29-31 | `True` and `False` render as "True" and "False" |
| CanonOracles.StrOracles | mockredis/tests/test_redis.py:103-109 | `'5'`, `5`, `[]` and `{}` render as "5", "5", "[]" and "{}" |
| CanonOracles.ListOracle | mockredis/tests/test_redis.py:29-45 | `[1, '2']` renders as "[1, '2']" |
| CanonOracles.DictOracle | mockredis/tests/test_redis.py:29-45 | `{'a': 1, 'b': 'c'}` renders as "{'a': 1, 'b': 'c'}" |
| CanonOracles.QuoteChoiceOracle | mockredis/tests/test_redis.py:41-45 | `["it's"]` renders with the text in double quotes, as Python prints it |
| CanonOracles.BothQuotesOracle | mockredis/tests/test_redis.py:41-45 | a text holding both quotes renders in single quotes with its single quote escaped |
| CanonOracles.EscapeOracle | mockredis/tests/test_redis.py:41-45 | a backslash inside a listed text renders doubled and a newline renders as `\n` |
| ReprParse.ParseTextOf | mockredis/tests/test_redis.py:41-53 | reading back the `repr` of any text, whichever quote it uses and whatever it escapes, gives the text and leaves what followed it |
| ReprParse.ParseRepr | mockredis/tests/test_redis.py:23-27 | reading back any printed value gives the value and leaves what followed it |
| ReprParse.StrDeterminesValue | mockredis/tests/test_redis.py:23-45 | two non-text values have the same canonical string exactly when they are equal |
| TestOracles.GetTypesRound | mockredis/tests/test_redis.py:39-55 | on a flushed store, `get` first answers none; then `set`/`get`, `hset`/`hget` and `sadd`/`smembers`, chained, return `str(v)` and `{str(v)}` |
| TestOracles.GetTypesBools | mockredis/tests/test_redis.py:29-55 | in the type test, `True` and `False` come back from `get`, `hget` and `smembers` as "True" and "False" |
| TestOracles.GetTypesList | mockredis/tests/test_redis.py:29-55 | in the type test, `[1, '2']` comes back from `get`, `hget` and `smembers` as "[1, '2']" |
| TestOracles.GetTypesDict | mockredis/tests/test_redis.py:29-55 | in the type test, `{'a': 1, 'b': 'c'}` comes back from `get`, `hget` and `smembers` as "{'a': 1, 'b': 'c'}" |
| TestOracles.IntAndTextCollide | mockredis/tests/test_redis.py:61-64 | `1` and `'1'` are different values with the same canonical string, so `set` and `hset` leave the same store for either, which is why both rows of the test expect "2" |
| TestOracles.IncrOracle | mockredis/tests/test_redis.py:62-80 | after `set key v` with `v` being `1` or `'1'`, `incr key` stores "2"; on the store it leaves, `hset hkey attr v` then `hincrby hkey attr` stores "2" too |
| TestOracles.IncrInitOracle | mockredis/tests/test_redis.py:82-94 | on absent keys `incr` stores "1", `hincrby` stores "1" and `decr` stores "-1" |
| TestOracles.TtlOracle | mockredis/tests/test_redis.py:96-101 | after `expire key 30`, every later `ttl key` is at most 30, and `ttl invalid_key` is -1 |
| TestOracles.PushPop | mockredis/tests/test_redis.py:106-109 | one `rpush l v` then `lpop l` on a store without `l` pops `str(v)` and gives the store back unchanged |
| TestOracles.PushPopOracle | mockredis/tests/test_redis.py:103-109 | on one store, in turn, `rpush` then `lpop` of `'5'`, `5`, `[]` and `{}` pops "5", "5", "[]" and "{}" |
| TestOracles.LLenOracle | mockredis/tests/test_redis.py:111-115 | `llen` is 0 and `exists` is false on a flushed store, and `llen` is 1 after one `rpush` |
| TestOracles.WindowOracle | mockredis/tests/test_redis.py:122-129 | each range of the range test picks the listed elements of `['0', '1', '2']` |
| TestOracles.PushDigits | mockredis/tests/test_redis.py:120-121 | pushing 0, 1 and 2 onto `key` of a flushed store builds the list `['0', '1', '2']` |
| TestOracles.LRangeOracle | mockredis/tests/test_redis.py:117-129 | `lrange` on an absent key is empty, and on the list built by pushing 0, 1 and 2 it gives each answer the test expects |

## Left out

- Reading or writing the raw backing dictionary (`self.redis.redis`, lines 14, 18 and 21) is whitebox access to the implementation's storage, not a command. The model has no such handle; `Set` followed by `Get` stands for the round trip.
- The wall clock is a parameter `now`, counted in whole seconds. Fractional seconds and time zones are not modelled.
- The network, the wire protocol, persistence and the real Redis client are not modelled.
- Concurrency is not modelled: every command is one step on one store.
- Canon.EscapeChar: writes every character above U+00FF as itself. Python's `repr` also escapes the ones the Unicode database marks non-printable, such as U+2028; the model does not carry that table.
- Dict keys are texts only, and entries are kept in insertion order as a sequence of pairs, as Python 3.7 and later print them.
- Floats, `None`, tuples and other Python types are not part of the input variant.
- Decimal.ParseInt: does not accept surrounding whitespace, a leading `+`, digit-group underscores or decimal digits outside ASCII (such as `٣`, which `int()` reads as 3), all of which Python's `int()` would take.
- Decimal.ParseInt: accepts leading zeros and `-0`, which the Redis server refuses with "value is not an integer"; it follows `int()` there.
- StringCommands.IncrBy: counts with unbounded integers. The Redis server refuses a stored number or a result outside the signed 64-bit range; the model never does.
- HashCommands.HIncrBy: counts with unbounded integers, where the Redis server refuses a field or a result outside the signed 64-bit range.
- Keyspace.ExpireThenTtl: bounds `ttl` by `seconds` only for `seconds >= 0`, because a negative `expire` makes the key expire at once and `ttl` then answers -1, which exceeds such a bound.
- Cross-type use is refused with `WrongType` rather than answered with none. Only `get` could have answered none here, and the error keeps every command consistent with the emulated server.
- `hincrby` takes its amount as an explicit argument; the default amount of one used at lines 75 and 90 is passed as 1.
- Commands the tests do not use (`delete`, `keys`, `srem`, `rpop` and the rest) are not modelled.
