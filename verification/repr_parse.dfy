/**
 * A reader for the strings `Repr` prints, and the proof that it recovers the
 * printed value: the canonical string loses no information about a non-text
 * value.
 */
module ReprParse {
  import opened Wrappers
  import opened Seqs
  import opened Decimal
  import opened Canon

  predicate StartsWith(s: string, p: string) {
    |p| <= |s| && s[..|p|] == p
  }

  /** What may follow a printed value: anything but a further digit. */
  predicate NoDigitAhead(s: string) {
    |s| == 0 || !IsDigit(s[0])
  }

  /** Length of the run of digits at the front of `s`. */
  function DigitRun(s: string): (n: nat)
    ensures n <= |s| && AllDigits(s[..n])
    ensures n < |s| ==> !IsDigit(s[n])
  {
    if |s| > 0 && IsDigit(s[0]) then
      var m := DigitRun(s[1..]);
      assert s[..1 + m] == [s[0]] + s[1..][..m];
      1 + m
    else 0
  }

  predicate IsHexDigit(c: char) {
    ('0' <= c <= '9') || ('a' <= c <= 'f')
  }

  /** The nibble a lower-case hex digit denotes. */
  function HexValue(c: char): (d: nat)
    requires IsHexDigit(c)
    ensures d < 16
  {
    if c <= '9' then c as int - '0' as int else c as int - 'a' as int + 10
  }

  /**
   * Reads the escape after a backslash: `\\`, `\'`, `\"`, `\t`, `\n`, `\r`
   * or `\xhh`, returning the character it stands for and what follows.
   */
  function Unescape(t: string): (r: Option<(char, string)>)
    ensures r.Some? ==> |r.value.1| < |t|
  {
    if |t| == 0 then None
    else if t[0] == '\\' || t[0] == '\'' || t[0] == '"' then Some((t[0], t[1..]))
    else if t[0] == 't' then Some(('\t', t[1..]))
    else if t[0] == 'n' then Some(('\n', t[1..]))
    else if t[0] == 'r' then Some(('\r', t[1..]))
    else if t[0] == 'x' && |t| > 2 && IsHexDigit(t[1]) && IsHexDigit(t[2]) then
      Some(((HexValue(t[1]) * 16 + HexValue(t[2])) as char, t[3..]))
    else None
  }

  /**
   * Reads the body of a text enclosed in quote `q` up to the closing quote,
   * returning the unescaped text and what follows the quote.
   */
  function ReadBody(s: string, q: char): (r: Option<(string, string)>)
    ensures r.Some? ==> |r.value.1| < |s|
    decreases |s|
  {
    if |s| == 0 then None
    else if s[0] == q then Some(("", s[1..]))
    else if s[0] == '\\' then
      match Unescape(s[1..])
      case None => None
      case Some((c, t)) =>
        match ReadBody(t, q)
        case None => None
        case Some((b, u)) => Some(([c] + b, u))
    else
      match ReadBody(s[1..], q)
      case None => None
      case Some((b, u)) => Some(([s[0]] + b, u))
  }

  /** Reads a non-empty run of digits as a natural number. */
  function ParseDigits(t: string): (r: Option<(nat, string)>)
    ensures r.Some? ==> |r.value.1| < |t|
  {
    var n := DigitRun(t);
    if n == 0 then None else Some((DigitsValue(t[..n]), t[n..]))
  }

  /** Reads an optionally negative run of digits. */
  function ParseNumber(s: string): (r: Option<(Value, string)>)
    ensures r.Some? ==> |r.value.1| < |s|
  {
    if |s| > 0 && s[0] == '-' then
      match ParseDigits(s[1..])
      case None => None
      case Some((m, rest)) => Some((Int(-(m as int)), rest))
    else
      match ParseDigits(s)
      case None => None
      case Some((m, rest)) => Some((Int(m), rest))
  }

  /** Reads a text in single or double quotes. */
  function ParseText(s: string): (r: Option<(string, string)>)
    ensures r.Some? ==> |r.value.1| < |s|
  {
    if |s| == 0 || (s[0] != '\'' && s[0] != '"') then None
    else ReadBody(s[1..], s[0])
  }

  /** Reads one printed value from the front of `s`, returning it and what follows. */
  function ParseValue(s: string): (r: Option<(Value, string)>)
    ensures r.Some? ==> |r.value.1| < |s|
    decreases |s|, 1
  {
    if |s| == 0 then None
    else if s[0] == 'T' then (if StartsWith(s, "True") then Some((Bool(true), s[4..])) else None)
    else if s[0] == 'F' then (if StartsWith(s, "False") then Some((Bool(false), s[5..])) else None)
    else if s[0] == '\'' || s[0] == '"' then
      match ParseText(s)
      case None => None
      case Some((t, rest)) => Some((Text(t), rest))
    else if s[0] == '[' then ParseList(s)
    else if s[0] == '{' then ParseDict(s)
    else ParseNumber(s)
  }

  /** Reads a bracketed list, `s` starting with `[`. */
  function ParseList(s: string): (r: Option<(Value, string)>)
    requires |s| > 0
    ensures r.Some? ==> |r.value.1| < |s|
    decreases |s|, 0
  {
    if |s| > 1 && s[1] == ']' then Some((List([]), s[2..]))
    else
      match ParseItems(s[1..])
      case None => None
      case Some((items, rest)) => Some((List(items), rest))
  }

  /** Reads a braced dict, `s` starting with `{`. */
  function ParseDict(s: string): (r: Option<(Value, string)>)
    requires |s| > 0
    ensures r.Some? ==> |r.value.1| < |s|
    decreases |s|, 0
  {
    if |s| > 1 && s[1] == '}' then Some((Dict([]), s[2..]))
    else
      match ParsePairs(s[1..])
      case None => None
      case Some((ps, rest)) => Some((Dict(ps), rest))
  }

  /** Reads `v1, ..., vn]` for n >= 1, returning the items and what follows the bracket. */
  function ParseItems(s: string): (r: Option<(seq<Value>, string)>)
    ensures r.Some? ==> |r.value.1| < |s|
    decreases |s|, 2
  {
    match ParseValue(s)
    case None => None
    case Some((v, t)) =>
      if |t| > 0 && t[0] == ']' then Some(([v], t[1..]))
      else if |t| > 1 && t[0] == ',' && t[1] == ' ' then
        match ParseItems(t[2..])
        case None => None
        case Some((vs, u)) => Some(([v] + vs, u))
      else None
  }

  /** Reads one `'k': v` entry, the key in either quote. */
  function ParseEntry(s: string): (r: Option<(Pair, string)>)
    ensures r.Some? ==> |r.value.1| < |s|
    decreases |s|, 2
  {
    match ParseText(s)
    case None => None
    case Some((k, t)) =>
      if |t| > 1 && t[0] == ':' && t[1] == ' ' then
        match ParseValue(t[2..])
        case None => None
        case Some((v, u)) => Some((Pair(k, v), u))
      else None
  }

  /** Reads `'k1': v1, ..., 'kn': vn}` for n >= 1, returning the entries and what follows the brace. */
  function ParsePairs(s: string): (r: Option<(seq<Pair>, string)>)
    ensures r.Some? ==> |r.value.1| < |s|
    decreases |s|, 3
  {
    match ParseEntry(s)
    case None => None
    case Some((e, u)) =>
      if |u| > 0 && u[0] == '}' then Some(([e], u[1..]))
      else if |u| > 1 && u[0] == ',' && u[1] == ' ' then
        match ParsePairs(u[2..])
        case None => None
        case Some((ps, w)) => Some(([e] + ps, w))
      else None
  }

  lemma {:induction false} DigitRunOf(ds: string, rest: string)
    requires AllDigits(ds) && NoDigitAhead(rest)
    ensures DigitRun(ds + rest) == |ds|
    decreases |ds|
  {
    if |ds| > 0 {
      assert (ds + rest)[1..] == ds[1..] + rest;
      DigitRunOf(ds[1..], rest);
    }
  }

  /** A run of digits followed by a non-digit reads as the number it spells. */
  lemma ParseDigitsOf(ds: string, rest: string)
    requires |ds| > 0 && AllDigits(ds) && NoDigitAhead(rest)
    ensures ParseDigits(ds + rest) == Some((DigitsValue(ds), rest))
  {
    var t := ds + rest;
    DigitRunOf(ds, rest);
    assert t[..|ds|] == ds && t[|ds|..] == rest;
  }

  /** A run of digits with no sign reads as the number it spells. */
  lemma ParseNaturalOf(ds: string, rest: string)
    requires |ds| > 0 && AllDigits(ds) && NoDigitAhead(rest)
    ensures ParseNumber(ds + rest) == Some((Int(DigitsValue(ds)), rest))
  {
    assert IsDigit((ds + rest)[0]);
    ParseDigitsOf(ds, rest);
  }

  /** A minus sign before a run of digits that a non-digit ends reads as the negated number. */
  lemma NegativeOf(s: string, ds: string, rest: string)
    requires |s| > 0 && s[0] == '-' && s[1..] == ds + rest
    requires |ds| > 0 && AllDigits(ds) && NoDigitAhead(rest)
    ensures ParseNumber(s) == Some((Int(-(DigitsValue(ds) as int)), rest))
  {
    ParseDigitsOf(ds, rest);
    NegativeStep(s, DigitsValue(ds), rest);
  }

  /** A minus sign before a readable run of digits negates it. */
  lemma NegativeStep(s: string, m: nat, rest: string)
    requires |s| > 0 && s[0] == '-' && ParseDigits(s[1..]) == Some((m, rest))
    ensures ParseNumber(s) == Some((Int(-(m as int)), rest))
  {
  }

  /** Every integer's rendering reads back as that integer. */
  lemma ParseNumberOf(n: int, rest: string)
    requires NoDigitAhead(rest)
    ensures ParseNumber(FromInt(n) + rest) == Some((Int(n), rest))
  {
    if n < 0 {
      ParseNegativeIntOf(n, rest);
    } else {
      ParseNaturalOf(NatToDigits(n), rest);
    }
  }

  /** A negative integer's rendering reads back as that integer. */
  lemma ParseNegativeIntOf(n: int, rest: string)
    requires n < 0 && NoDigitAhead(rest)
    ensures ParseNumber(FromInt(n) + rest) == Some((Int(n), rest))
  {
    var ds := NatToDigits(-n);
    assert FromInt(n) == "-" + ds;
    DropSign(ds, rest);
    NegativeOf(FromInt(n) + rest, ds, rest);
  }

  /** Dropping the leading minus sign of a signed text. */
  lemma DropSign(ds: string, rest: string)
    ensures ("-" + ds + rest)[0] == '-' && ("-" + ds + rest)[1..] == ds + rest
  {
  }

  /** A hex digit reads back as the nibble it was written for. */
  lemma HexRoundTrip(d: nat)
    requires d < 16
    ensures IsHexDigit(HexDigit(d)) && HexValue(HexDigit(d)) == d
  {
  }

  /** Reading one written character, in front of a readable rest of the body. */
  lemma ReadEscapeChar(c: char, q: char, w: string, b: string, u: string)
    requires q == '\'' || q == '"'
    requires ReadBody(w, q) == Some((b, u))
    ensures ReadBody(EscapeChar(c, q) + w, q) == Some(([c] + b, u))
  {
    var s := EscapeChar(c, q) + w;
    if |EscapeChar(c, q)| == 1 {
      assert s[0] == c && s[1..] == w;
    } else if c == q || c == '\\' || c == '\t' || c == '\n' || c == '\r' {
      assert s[0] == '\\' && s[1..] == EscapeChar(c, q)[1..] + w;
      ReadNamedEscape(c, q, w);
    } else {
      ReadHexEscape(c, q, w);
    }
  }

  /** A two-character escape reads back as the character it stands for. */
  lemma ReadNamedEscape(c: char, q: char, w: string)
    requires q == '\'' || q == '"'
    requires c == q || c == '\\' || c == '\t' || c == '\n' || c == '\r'
    ensures Unescape(EscapeChar(c, q)[1..] + w) == Some((c, w))
  {
    var t := EscapeChar(c, q)[1..] + w;
    assert |EscapeChar(c, q)| == 2;
    assert t[1..] == w;
  }

  /** A `\xhh` escape reads back as the character whose code it spells. */
  lemma ReadHexEscape(c: char, q: char, w: string)
    requires q == '\'' || q == '"'
    requires HexEscaped(c) && c != q && c != '\\' && c != '\t' && c != '\n' && c != '\r'
    ensures (EscapeChar(c, q) + w)[0] == '\\'
    ensures Unescape((EscapeChar(c, q) + w)[1..]) == Some((c, w))
  {
    var hi, lo := c as int / 16, c as int % 16;
    HexRoundTrip(hi);
    HexRoundTrip(lo);
    var t := (EscapeChar(c, q) + w)[1..];
    assert t == ['x', HexDigit(hi), HexDigit(lo)] + w;
    assert t[3..] == w;
  }

  /** The written body of a text, then the closing quote, reads back as the text. */
  lemma {:induction false} ReadEscaped(t: string, q: char, rest: string)
    requires q == '\'' || q == '"'
    ensures ReadBody(Escape(t, q) + ([q] + rest), q) == Some((t, rest))
    decreases |t|
  {
    if |t| == 0 {
      assert Escape(t, q) + ([q] + rest) == [q] + rest;
      assert ([q] + rest)[1..] == rest;
    } else {
      var w := Escape(t[1..], q) + ([q] + rest);
      ReadEscaped(t[1..], q, rest);
      ReadEscapeChar(t[0], q, w, t[1..], rest);
      AppendAssoc(EscapeChar(t[0], q), Escape(t[1..], q), [q] + rest);
      assert [t[0]] + t[1..] == t;
    }
  }

  /** A printed text reads back as the text, whichever quote `repr` chose. */
  lemma ParseTextOf(t: string, rest: string)
    ensures ParseText(Quote(t) + rest) == Some((t, rest))
  {
    var q := QuoteFor(t);
    var s := Quote(t) + rest;
    assert s == [q] + (Escape(t, q) + ([q] + rest));
    ReadEscaped(t, q, rest);
  }

  /**
   * Reading back a printed value gives the value and leaves what followed it,
   * so distinct values have distinct reprs.
   */
  lemma {:induction false} ParseRepr(v: Value, rest: string)
    requires NoDigitAhead(rest)
    ensures ParseValue(Repr(v) + rest) == Some((v, rest))
    decreases v, 1
  {
    match v
    case Bool(b) =>
      ParseBoolOf(b, rest);
    case Int(i) =>
      ParseIntOf(i, rest);
    case Text(t) =>
      ParseTextValueOf(t, rest);
    case List(items) =>
      ParseListValueOf(items, rest);
    case Dict(ps) =>
      ParseDictValueOf(ps, rest);
  }

  lemma ParseBoolOf(b: bool, rest: string)
    ensures ParseValue(Repr(Bool(b)) + rest) == Some((Bool(b), rest))
  {
    var s := Repr(Bool(b)) + rest;
    if b { assert s[..4] == "True"; } else { assert s[..5] == "False"; }
  }

  lemma ParseIntOf(i: int, rest: string)
    requires NoDigitAhead(rest)
    ensures ParseValue(Repr(Int(i)) + rest) == Some((Int(i), rest))
  {
    var s := Repr(Int(i)) + rest;
    assert s[0] == '-' || IsDigit(s[0]);
    ParseNumberOf(i, rest);
  }

  lemma ParseTextValueOf(t: string, rest: string)
    ensures ParseValue(Repr(Text(t)) + rest) == Some((Text(t), rest))
  {
    ParseTextOf(t, rest);
  }

  lemma ParseListValueOf(items: seq<Value>, rest: string)
    ensures ParseValue(Repr(List(items)) + rest) == Some((List(items), rest))
    decreases List(items), 0
  {
    assert (Repr(List(items)) + rest)[0] == '[';
    ParseReprList(items, rest);
  }

  lemma ParseDictValueOf(ps: seq<Pair>, rest: string)
    ensures ParseValue(Repr(Dict(ps)) + rest) == Some((Dict(ps), rest))
    decreases Dict(ps), 0
  {
    assert (Repr(Dict(ps)) + rest)[0] == '{';
    ParseReprDict(ps, rest);
  }

  lemma {:induction false} ParseReprList(items: seq<Value>, rest: string)
    ensures ParseList(Repr(List(items)) + rest) == Some((List(items), rest))
    decreases items, 1
  {
    var s := Repr(List(items)) + rest;
    if |items| == 0 {
      assert s[1] == ']';
    } else {
      ReprItemsHead(items);
      assert s[1] == ReprItems(items)[0];
      assert s[1..] == ReprItems(items) + "]" + rest;
      ParseReprItems(items, rest);
    }
  }

  lemma {:induction false} ParseReprDict(ps: seq<Pair>, rest: string)
    ensures ParseDict(Repr(Dict(ps)) + rest) == Some((Dict(ps), rest))
    decreases ps, 2
  {
    var s := Repr(Dict(ps)) + rest;
    if |ps| == 0 {
      assert s[1] == '}';
    } else {
      assert s[1] == ReprPairs(ps)[0];
      assert s[1..] == ReprPairs(ps) + "}" + rest;
      ParseReprPairs(ps, rest);
    }
  }

  /** A non-empty item list never prints starting with `]`. */
  lemma ReprItemsHead(items: seq<Value>)
    requires |items| > 0
    ensures |ReprItems(items)| > 0 && ReprItems(items)[0] != ']'
  {
    var r := Repr(items[0]);
    assert ReprItems(items)[..|r|] == r;
    match items[0]
    case Bool(b) =>
    case Int(i) => assert r[0] == '-' || IsDigit(r[0]);
    case Text(t) =>
    case List(_) =>
    case Dict(_) =>
  }

  lemma {:induction false} ParseReprItems(items: seq<Value>, rest: string)
    requires |items| > 0
    ensures ParseItems(ReprItems(items) + "]" + rest) == Some((items, rest))
    decreases items, 0
  {
    var x := items[0];
    var s := ReprItems(items) + "]" + rest;
    if |items| == 1 {
      var after := "]" + rest;
      assert s == Repr(x) + after;
      ParseRepr(x, after);
      assert after[0] == ']' && after[1..] == rest;
      assert items == [x];
    } else {
      var more := ReprItems(items[1..]);
      var w := more + "]" + rest;
      ReprItemsCons(items);
      JoinItems(Repr(x), more, rest);
      ParseRepr(x, ", " + w);
      ParseReprItems(items[1..], rest);
      ParseItemsStep(s, x, w, items[1..], rest);
      assert [x] + items[1..] == items;
    }
  }

  /** Printing more than one item puts the first, `, ` and the rest. */
  lemma ReprItemsCons(items: seq<Value>)
    requires |items| > 1
    ensures ReprItems(items) == Repr(items[0]) + ", " + ReprItems(items[1..])
  {
  }

  /** Regrouping the text of an item, a separator and the items after it. */
  lemma JoinItems(h: string, t: string, rest: string)
    ensures h + ", " + t + "]" + rest == h + (", " + (t + "]" + rest))
  {
  }

  /** An item followed by `, ` and a readable list of items reads as one longer list. */
  lemma ParseItemsStep(s: string, x: Value, w: string, xs: seq<Value>, rest: string)
    requires ParseValue(s) == Some((x, ", " + w))
    requires ParseItems(w) == Some((xs, rest))
    ensures ParseItems(s) == Some(([x] + xs, rest))
  {
    assert (", " + w)[2..] == w;
  }

  /** Reading one printed entry stops right before what followed its value. */
  lemma ParseEntryOf(p: Pair, after: string)
    requires NoDigitAhead(after)
    ensures ParseEntry(Quote(p.key) + ": " + Repr(p.val) + after) == Some((p, after))
    decreases p
  {
    var t := ": " + Repr(p.val) + after;
    SplitEntry(Quote(p.key), Repr(p.val), after);
    ParseTextOf(p.key, t);
    ParseRepr(p.val, after);
  }

  /** Regrouping an entry's key, separator, value and what follows it. */
  lemma SplitEntry(key: string, val: string, after: string)
    ensures key + ": " + val + after == key + (": " + val + after)
    ensures var t := ": " + val + after; |t| > 1 && t[0] == ':' && t[1] == ' ' && t[2..] == val + after
  {
  }

  /** Reading a list of entries extends to one more entry in front. */
  lemma ParsePairsCons(p: Pair, tail: seq<Pair>, rest: string)
    requires |tail| > 0
    requires ParsePairs(ReprPairs(tail) + "}" + rest) == Some((tail, rest))
    ensures ParsePairs(ReprPairs([p] + tail) + "}" + rest) == Some(([p] + tail, rest))
    decreases [p] + tail, 0
  {
    var w := ReprPairs(tail) + "}" + rest;
    var h := Quote(p.key) + ": " + Repr(p.val);
    ReprPairsCons(p, tail);
    var s := ReprPairs([p] + tail) + "}" + rest;
    JoinEntries(h, ReprPairs(tail), rest);
    ParseEntryOf(p, ", " + w);
    ParsePairsStep(s, p, w, tail, rest);
  }

  /** A single printed entry before the closing brace reads back as that entry. */
  lemma ParseOnePair(p: Pair, rest: string)
    ensures ParsePairs(ReprPairs([p]) + "}" + rest) == Some(([p], rest))
    decreases [p], 0
  {
    var after := "}" + rest;
    assert ReprPairs([p]) + "}" + rest == Quote(p.key) + ": " + Repr(p.val) + after;
    ParseEntryOf(p, after);
    assert after[0] == '}' && after[1..] == rest;
  }

  /** Regrouping the text of an entry, a separator and the entries after it. */
  lemma JoinEntries(h: string, t: string, rest: string)
    ensures h + ", " + t + "}" + rest == h + (", " + (t + "}" + rest))
  {
  }

  /** Printing one more entry in front puts it and `, ` before the rest. */
  lemma ReprPairsCons(p: Pair, tail: seq<Pair>)
    requires |tail| > 0
    ensures ReprPairs([p] + tail) == Quote(p.key) + ": " + Repr(p.val) + ", " + ReprPairs(tail)
  {
    assert ([p] + tail)[1..] == tail;
  }

  /** An entry followed by `, ` and a readable list of entries reads as one longer list. */
  lemma ParsePairsStep(s: string, e: Pair, w: string, ps: seq<Pair>, rest: string)
    requires ParseEntry(s) == Some((e, ", " + w))
    requires ParsePairs(w) == Some((ps, rest))
    ensures ParsePairs(s) == Some(([e] + ps, rest))
  {
    assert (", " + w)[2..] == w;
  }

  lemma {:induction false} ParseReprPairs(ps: seq<Pair>, rest: string)
    requires |ps| > 0
    ensures ParsePairs(ReprPairs(ps) + "}" + rest) == Some((ps, rest))
    decreases ps, 1
  {
    var p := ps[0];
    if |ps| == 1 {
      assert ps == [p];
      ParseOnePair(p, rest);
    } else {
      ParseReprPairs(ps[1..], rest);
      assert [p] + ps[1..] == ps;
      ParsePairsCons(p, ps[1..], rest);
    }
  }

  /** The canonical string of a non-text value determines the value. */
  lemma StrDeterminesValue(a: Value, b: Value)
    requires !a.Text? && !b.Text?
    ensures Str(a) == Str(b) <==> a == b
  {
    ParseRepr(a, "");
    ParseRepr(b, "");
    assert Repr(a) + "" == Repr(a);
    assert Repr(b) + "" == Repr(b);
  }
}
