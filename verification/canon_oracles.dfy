/**
 * How the canonicalizer renders the concrete values the store's test
 * scenarios use.
 */
module CanonOracles {
  import opened Decimal
  import opened Canon

  /** The bools of the type test render as Python renders them. */
  lemma BoolOracle()
    ensures Str(Bool(true)) == "True"
    ensures Str(Bool(false)) == "False"
  {
  }

  /** The values of the push/pop test render as Python renders them: `'5'` and `5` alike. */
  lemma StrOracles()
    ensures Str(Text("5")) == "5" && Str(Int(5)) == "5"
    ensures Str(List([])) == "[]" && Str(Dict([])) == "{}"
  {
    SmallInts();
  }

  /** A list mixing an int and a text renders with the text quoted: `[1, '2']`. */
  lemma ListOracle()
    ensures Str(List([Int(1), Text("2")])) == "[1, '2']"
  {
    SmallInts();
    QuoteSafe("2");
    assert ReprItems([Int(1), Text("2")]) == "1" + ", " + "'2'";
  }

  /** A dict renders its entries in insertion order: `{'a': 1, 'b': 'c'}`. */
  lemma DictOracle()
    ensures Str(Dict([Pair("a", Int(1)), Pair("b", Text("c"))])) == "{'a': 1, 'b': 'c'}"
  {
    var ps := [Pair("a", Int(1)), Pair("b", Text("c"))];
    DictBody();
    Braced(ps);
    assert "{" + "'a': 1, 'b': 'c'" + "}" == "{'a': 1, 'b': 'c'}";
  }

  /** A dict prints as its entries in braces. */
  lemma Braced(ps: seq<Pair>)
    ensures Str(Dict(ps)) == "{" + ReprPairs(ps) + "}"
  {
  }

  /** The entries of that dict print as `'a': 1, 'b': 'c'`. */
  lemma DictBody()
    ensures ReprPairs([Pair("a", Int(1)), Pair("b", Text("c"))]) == "'a': 1, 'b': 'c'"
  {
    var p, q := Pair("a", Int(1)), Pair("b", Text("c"));
    ReprPairsTwo(p, q);
    SmallInts();
    DictQuotes();
    assert Repr(p.val) == "1" && Repr(q.val) == "'c'";
    DictText(Quote(p.key), Repr(p.val), Quote(q.key), Repr(q.val));
  }

  /** The dict's texts print between single quotes. */
  lemma DictQuotes()
    ensures Quote("a") == "'a'" && Quote("b") == "'b'" && Quote("c") == "'c'"
  {
    QuoteSafe("a");
    QuoteSafe("b");
    QuoteSafe("c");
  }

  /** The pieces of the dict's entries join to its printed body. */
  lemma DictText(a: string, one: string, b: string, c: string)
    requires a == "'a'" && one == "1" && b == "'b'" && c == "'c'"
    ensures a + ": " + one + ", " + (b + ": " + c) == "'a': 1, 'b': 'c'"
  {
  }

  /** A text holding a single quote and no double quote is printed in double quotes: `["it's"]`. */
  lemma QuoteChoiceOracle()
    ensures Str(List([Text("it's")])) == "[\"it's\"]"
  {
    SingletonText("it's");
    ApostropheOnly();
    DoubleQuoted("it's");
    QuotedText();
    assert "[" + ("\"" + "it's" + "\"") + "]" == "[\"it's\"]";
  }

  /** That text holds a single quote and no double quote. */
  lemma ApostropheOnly()
    ensures '\'' in "it's" && '"' !in "it's"
  {
    assert "it's"[2] == '\'';
  }

  /** A text `repr` double-quotes prints as its body between double quotes. */
  lemma DoubleQuoted(s: string)
    requires '\'' in s && '"' !in s
    ensures Quote(s) == "\"" + Escape(s, '"') + "\""
  {
  }

  /** The body of that text needs no escape inside double quotes. */
  lemma QuotedText()
    ensures Escape("it's", '"') == "it's"
  {
    var q := '"';
    assert Escape("s", q) == "s" by { assert "s"[1..] == ""; }
    assert Escape("'s", q) == "'s" by { assert "'s"[1..] == "s"; }
    assert Escape("t's", q) == "t's" by { assert "t's"[1..] == "'s"; }
    assert "it's"[1..] == "t's";
  }

  /** A one-text list prints as the text's repr in brackets. */
  lemma SingletonText(t: string)
    ensures Str(List([Text(t)])) == "[" + Quote(t) + "]"
  {
    assert ReprItems([Text(t)]) == Repr(Text(t));
  }

  /** A text holding both quotes keeps single quotes and escapes its own: `['a\'b"']`. */
  lemma BothQuotesOracle()
    ensures Str(List([Text("a'b\"")])) == "['a\\'b\"']"
  {
    SingletonText("a'b\"");
    assert QuoteFor("a'b\"") == '\'';
    BothQuotedText();
    assert Quote("a'b\"") == "'a\\'b\"'";
  }

  /** The body of that text, written one character at a time. */
  lemma BothQuotedText()
    ensures Escape("a'b\"", '\'') == "a\\'b\""
  {
    var q := '\'';
    assert Escape("\"", q) == "\"" by { assert "\""[1..] == ""; }
    assert Escape("b\"", q) == "b\"" by { assert "b\""[1..] == "\""; }
    assert Escape("'b\"", q) == "\\'b\"" by { assert "'b\""[1..] == "b\""; }
    assert "a'b\""[1..] == "'b\"";
  }

  /** A backslash is doubled and a newline written as `\n`: `['a\\b\n']`. */
  lemma EscapeOracle()
    ensures Str(List([Text("a\\b\n")])) == "['a\\\\b\\n']"
  {
    SingletonText("a\\b\n");
    assert QuoteFor("a\\b\n") == '\'';
    EscapedText();
    assert Quote("a\\b\n") == "'a\\\\b\\n'";
  }

  /** The body of that text, written one character at a time. */
  lemma EscapedText()
    ensures Escape("a\\b\n", '\'') == "a\\\\b\\n"
  {
    var q := '\'';
    assert EscapeChar('\n', q) == "\\n" && EscapeChar('\\', q) == "\\\\";
    assert Escape("\n", q) == "\\n" by { assert "\n"[1..] == ""; }
    assert Escape("b\n", q) == "b\\n" by { assert "b\n"[1..] == "\n"; }
    assert Escape("\\b\n", q) == "\\\\b\\n" by { assert "\\b\n"[1..] == "b\n"; }
    assert "a\\b\n"[1..] == "\\b\n";
  }
}
