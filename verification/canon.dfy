/**
 * The canonicalizer: every value a caller hands to the store is kept, and
 * later returned, as the string Python's `str()` gives for it. Input values
 * form a closed variant of the kinds the store accepts.
 */
module Canon {
  import opened Decimal

  /** A value a caller may pass to `set`, `hset`, `sadd` or `rpush`. */
  datatype Value =
    | Bool(b: bool)
    | Int(i: int)
    | Text(s: string)
    | List(items: seq<Value>)
    | Dict(entries: seq<Pair>)

  /** One `key: value` entry of a dict, keys being texts, in insertion order. */
  datatype Pair = Pair(key: string, val: Value)

  /**
   * A value Python can build: a dict holds each key once, at every depth.
   * The datatype alone would also admit a dict with a repeated key.
   */
  predicate WellFormed(v: Value)
    decreases v
  {
    match v
    case Bool(_) => true
    case Int(_) => true
    case Text(_) => true
    case List(items) => forall i | 0 <= i < |items| :: WellFormed(items[i])
    case Dict(ps) =>
      (forall i, j | 0 <= i < j < |ps| :: ps[i].key != ps[j].key)
      && forall i | 0 <= i < |ps| :: WellFormed(ps[i].val)
  }

  /** A value a caller can pass to a command: one Python can build. */
  type Input = v: Value | WellFormed(v) witness Bool(false)

  /** A character `repr` prints as itself whichever quote it picks. */
  predicate SafeChar(c: char) {
    ' ' <= c <= '~' && c != '\'' && c != '\\'
  }

  predicate SafeText(s: string) {
    forall i :: 0 <= i < |s| ==> SafeChar(s[i])
  }

  /**
   * The quote `repr` puts around a text: a double quote when the text holds
   * a single quote and no double quote, a single quote otherwise.
   */
  function QuoteFor(s: string): (q: char)
    ensures q == '\'' || q == '"'
    ensures q == '"' <==> '\'' in s && '"' !in s
  {
    if '\'' in s && '"' !in s then '"' else '\''
  }

  /** The lower-case hex digit of a nibble. */
  function HexDigit(d: nat): (c: char)
    requires d < 16
    ensures ('0' <= c <= '9') || ('a' <= c <= 'f')
  {
    if d < 10 then ('0' as int + d) as char else ('a' as int + d - 10) as char
  }

  /**
   * A character `repr` writes as `\xhh`: the control characters other than
   * tab, newline and carriage return, DEL, the C1 controls, the no-break
   * space and the soft hyphen.
   */
  predicate HexEscaped(c: char) {
    ((c as int) < 0x20 && c != '\t' && c != '\n' && c != '\r')
    || (0x7f <= c as int <= 0xa0) || c as int == 0xad
  }

  /** How `repr` writes one character of a text it encloses in quote `q`. */
  function EscapeChar(c: char, q: char): (r: string)
    ensures 1 <= |r| <= 4
    ensures |r| == 1 <==> c != q && c != '\\' && c != '\t' && c != '\n' && c != '\r' && !HexEscaped(c)
    ensures |r| == 1 ==> r == [c]
    ensures |r| > 1 ==> r[0] == '\\'
  {
    if c == q || c == '\\' then ['\\', c]
    else if c == '\t' then "\\t"
    else if c == '\n' then "\\n"
    else if c == '\r' then "\\r"
    else if HexEscaped(c) then ['\\', 'x', HexDigit(c as int / 16), HexDigit(c as int % 16)]
    else [c]
  }

  /** The characters of `s`, each written as `repr` writes it inside quote `q`. */
  function Escape(s: string, q: char): (r: string)
    ensures |r| >= |s|
    decreases |s|
  {
    if |s| == 0 then "" else EscapeChar(s[0], q) + Escape(s[1..], q)
  }

  /** Python's `repr` of a text: quoted, with the quote and backslash escaped. */
  function Quote(s: string): (r: string)
    ensures |r| == |Escape(s, QuoteFor(s))| + 2
    ensures r[0] == QuoteFor(s) && r[|r| - 1] == QuoteFor(s)
  {
    var q := QuoteFor(s);
    [q] + Escape(s, q) + [q]
  }

  /** Python's `repr(v)`: how a value is printed inside a list or a dict. */
  function Repr(v: Value): (r: string)
    ensures |r| > 0
    ensures v.Bool? ==> r == (if v.b then "True" else "False")
    ensures v.Int? ==> r == FromInt(v.i)
    ensures v.Text? ==> r[0] == '\'' || r[0] == '"'
    ensures v.List? ==> r[0] == '[' && r[|r| - 1] == ']'
    ensures v.Dict? ==> r[0] == '{' && r[|r| - 1] == '}'
    decreases v, 1
  {
    match v
    case Bool(b) => if b then "True" else "False"
    case Int(i) => FromInt(i)
    case Text(s) => Quote(s)
    case List(items) => "[" + ReprItems(items) + "]"
    case Dict(ps) => "{" + ReprPairs(ps) + "}"
  }

  /** The reprs of the items, separated by `, `. */
  function ReprItems(items: seq<Value>): (r: string)
    ensures |items| == 0 <==> |r| == 0
    decreases items, 0
  {
    if |items| == 0 then ""
    else if |items| == 1 then Repr(items[0])
    else Repr(items[0]) + ", " + ReprItems(items[1..])
  }

  /** The `key: value` reprs of the entries, separated by `, `. */
  function ReprPairs(ps: seq<Pair>): (r: string)
    ensures |ps| == 0 <==> |r| == 0
    ensures |ps| > 0 ==> r[0] == '\'' || r[0] == '"'
    decreases ps, 0
  {
    if |ps| == 0 then ""
    else if |ps| == 1 then Quote(ps[0].key) + ": " + Repr(ps[0].val)
    else Quote(ps[0].key) + ": " + Repr(ps[0].val) + ", " + ReprPairs(ps[1..])
  }

  /**
   * Python's `str(v)`, the canonical string the store keeps: a text is kept
   * as it is, every other value as its repr.
   */
  function Str(v: Value): (r: string)
    ensures v.Text? ==> r == v.s
    ensures v.Bool? ==> r == (if v.b then "True" else "False")
    ensures v.Int? ==> r == FromInt(v.i)
    ensures v.List? ==> |r| >= 2 && r[0] == '[' && r[|r| - 1] == ']'
    ensures v.Dict? ==> |r| >= 2 && r[0] == '{' && r[|r| - 1] == '}'
  {
    if v.Text? then v.s else Repr(v)
  }

  /** A text of plain printable characters other than `'` and `\` prints between single quotes as it is. */
  lemma QuoteSafe(s: string)
    requires SafeText(s)
    ensures Quote(s) == "'" + s + "'"
  {
    EscapeSafe(s, '\'');
  }

  /** Characters that need no escaping are written as they are. */
  lemma {:induction false} EscapeSafe(s: string, q: char)
    requires SafeText(s) && q == '\''
    ensures Escape(s, q) == s
    decreases |s|
  {
    if |s| > 0 {
      assert SafeChar(s[0]);
      assert SafeText(s[1..]) by {
        forall i | 0 <= i < |s[1..]| ensures SafeChar(s[1..][i]) {
          assert s[1..][i] == s[i + 1];
        }
      }
      EscapeSafe(s[1..], q);
      assert [s[0]] + s[1..] == s;
    }
  }

  /** Two entries print as the first, `, ` and the second. */
  lemma ReprPairsTwo(p: Pair, q: Pair)
    ensures ReprPairs([p, q]) == Quote(p.key) + ": " + Repr(p.val) + ", " + (Quote(q.key) + ": " + Repr(q.val))
  {
    assert [p, q][1..] == [q];
  }
}
