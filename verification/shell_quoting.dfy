/** Single-quote escaping of paths in the wrapper script, and the part of
    POSIX `sh` word parsing that decides what a quoted word means.

    The source escapes with the Python literal `"'\''"`. Inside a
    double-quoted Python string `\'` is just `'`, so the literal is three
    single quotes, not the four characters of the shell idiom `'\''`.
    `EscapeAsWritten` is what the code does; `ShellEscape` is the idiom. */
module ShellQuoting {
  import opened Results

  function Count(s: string, c: char): nat {
    if s == [] then 0 else (if s[0] == c then 1 else 0) + Count(s[1..], c)
  }

  /** The text has no `"`. */
  predicate NoDoubleQuote(s: string)
    decreases |s|
  {
    s == [] || (s[0] != '"' && NoDoubleQuote(s[1..]))
  }

  /** `s.replace("'", "'\''")` as Python evaluates it: each `'` becomes `'''`. */
  function EscapeAsWritten(s: string): (r: string)
    ensures |r| == |s| + 2 * Count(s, '\'')
    ensures Count(s, '\'') == 0 ==> r == s
    ensures |s| == 1 ==> r == if s[0] == '\'' then "'''" else s
  {
    if s == [] then []
    else if s[0] == '\'' then "'''" + EscapeAsWritten(s[1..])
    else [s[0]] + EscapeAsWritten(s[1..])
  }

  /** The shell idiom the comment asks for: each `'` becomes `'\''`
      (close the quote, an escaped quote, reopen the quote). */
  function ShellEscape(s: string): (r: string)
    ensures |r| == |s| + 3 * Count(s, '\'')
    ensures Count(s, '\'') == 0 ==> r == s
    ensures |s| == 1 ==> r == if s[0] == '\'' then "'\\''" else s
  {
    if s == [] then []
    else if s[0] == '\'' then "'\\''" + ShellEscape(s[1..])
    else [s[0]] + ShellEscape(s[1..])
  }

  /** The escape works character by character: escaping a concatenation
      escapes each part. With the single-character case above this pins
      down every output. */
  lemma {:induction false} EscapeAsWrittenAppend(a: string, b: string)
    ensures EscapeAsWritten(a + b) == EscapeAsWritten(a) + EscapeAsWritten(b)
    decreases |a|
  {
    if a != [] {
      assert (a + b)[0] == a[0] && (a + b)[1..] == a[1..] + b;
      EscapeAsWrittenAppend(a[1..], b);
    } else {
      assert a + b == b;
    }
  }

  lemma {:induction false} ShellEscapeAppend(a: string, b: string)
    ensures ShellEscape(a + b) == ShellEscape(a) + ShellEscape(b)
    decreases |a|
  {
    if a != [] {
      assert (a + b)[0] == a[0] && (a + b)[1..] == a[1..] + b;
      ShellEscapeAppend(a[1..], b);
    } else {
      assert a + b == b;
    }
  }

  function Prepend(c: char, o: Option<string>): Option<string> {
    match o
    case Some(w) => Some([c] + w)
    case None => None
  }

  function PrependAll(s: string, o: Option<string>): Option<string> {
    match o
    case Some(w) => Some(s + w)
    case None => None
  }

  /** Quote removal of `sh` on one word, outside double quotes: a `'`
      toggles single quoting; outside single quotes a `"` opens double
      quoting and a backslash makes the next character literal; a word that
      ends inside quotes is a syntax error (`None`). */
  function Unquote(w: string, inside: bool): Option<string>
    decreases |w|, 1
  {
    if w == [] then (if inside then None else Some([]))
    else if w[0] == '\'' then Unquote(w[1..], !inside)
    else if !inside && w[0] == '"' then UnquoteDouble(w[1..])
    else if !inside && w[0] == '\\' && |w| >= 2 then Prepend(w[1], Unquote(w[2..], false))
    else Prepend(w[0], Unquote(w[1..], inside))
  }

  /** The characters a backslash escapes inside double quotes. */
  predicate DoubleEscapable(c: char) {
    c == '$' || c == '`' || c == '"' || c == '\\' || c == '\n'
  }

  /** Inside double quotes: `'` is an ordinary character, a backslash
      escapes only `$`, a backquote, `"`, a backslash and a newline, and
      `"` closes the quotes. */
  function UnquoteDouble(w: string): Option<string>
    decreases |w|, 0
  {
    if w == [] then None
    else if w[0] == '"' then Unquote(w[1..], false)
    else if w[0] == '\\' && |w| >= 2 && DoubleEscapable(w[1]) then Prepend(w[1], UnquoteDouble(w[2..]))
    else Prepend(w[0], UnquoteDouble(w[1..]))
  }

  /** Three quotes in a row toggle quoting once. */
  lemma TripleQuote(x: string, inside: bool)
    ensures Unquote("'''" + x, inside) == Unquote(x, !inside)
  {
    var w := "'''" + x;
    assert w[0] == '\'' && w[1..] == "''" + x;
    assert Unquote(w, inside) == Unquote(w[1..], !inside);
    var v := "''" + x;
    assert v[0] == '\'' && v[1..] == "'" + x;
    assert Unquote(v, !inside) == Unquote(v[1..], inside);
    var u := "'" + x;
    assert u[0] == '\'' && u[1..] == x;
  }

  /** Each `'` turns into an odd number of quotes, so for a text without
      `"` the as-written escape changes nothing about how `sh` reads the
      word: it is no escaping. */
  lemma {:induction false} EscapeIsTransparent(s: string, t: string, inside: bool)
    requires NoDoubleQuote(s)
    ensures Unquote(EscapeAsWritten(s) + t, inside) == Unquote(s + t, inside)
    decreases |s|, 1
  {
    if s == [] {
    } else if s[0] == '\'' {
      EscapeQuote(s, t, inside);
    } else if !inside && s[0] == '\\' && |s| >= 2 {
      EscapeBackslash(s, t);
    } else if !inside && s[0] == '\\' {
      assert EscapeAsWritten(s) == s;
    } else {
      EscapePlain(s, t, inside);
    }
  }

  /** A quote: three quotes toggle quoting once, like the one quote. */
  lemma {:induction false} EscapeQuote(s: string, t: string, inside: bool)
    requires s != [] && s[0] == '\'' && NoDoubleQuote(s)
    ensures Unquote(EscapeAsWritten(s) + t, inside) == Unquote(s + t, inside)
    decreases |s|, 0
  {
    QuoteEscaped(s, t, inside);
    QuoteRaw(s, t, inside);
    EscapeIsTransparent(s[1..], t, !inside);
  }

  lemma QuoteEscaped(s: string, t: string, inside: bool)
    requires s != [] && s[0] == '\''
    ensures Unquote(EscapeAsWritten(s) + t, inside) == Unquote(EscapeAsWritten(s[1..]) + t, !inside)
  {
    var tail := EscapeAsWritten(s[1..]);
    assert EscapeAsWritten(s) + t == "'''" + (tail + t);
    TripleQuote(tail + t, inside);
  }

  lemma QuoteRaw(s: string, t: string, inside: bool)
    requires s != [] && s[0] == '\''
    ensures Unquote(s + t, inside) == Unquote(s[1..] + t, !inside)
  {
    assert s + t == "'" + (s[1..] + t);
    QuoteStep(s[1..] + t, inside);
  }

  /** Any other character is taken as it is on both sides. */
  lemma {:induction false} EscapePlain(s: string, t: string, inside: bool)
    requires s != [] && s[0] != '\'' && NoDoubleQuote(s)
    requires !inside ==> s[0] != '\\'
    ensures Unquote(EscapeAsWritten(s) + t, inside) == Unquote(s + t, inside)
    decreases |s|, 0
  {
    PlainEscaped(s, t, inside);
    PlainRaw(s, t, inside);
    EscapeIsTransparent(s[1..], t, inside);
  }

  lemma PlainEscaped(s: string, t: string, inside: bool)
    requires s != [] && s[0] != '\'' && s[0] != '"'
    requires !inside ==> s[0] != '\\'
    ensures Unquote(EscapeAsWritten(s) + t, inside) == Prepend(s[0], Unquote(EscapeAsWritten(s[1..]) + t, inside))
  {
    var tail := EscapeAsWritten(s[1..]);
    assert EscapeAsWritten(s) + t == [s[0]] + (tail + t);
    PlainStep(s[0], tail + t, inside);
  }

  lemma PlainRaw(s: string, t: string, inside: bool)
    requires s != [] && s[0] != '\'' && s[0] != '"'
    requires !inside ==> s[0] != '\\'
    ensures Unquote(s + t, inside) == Prepend(s[0], Unquote(s[1..] + t, inside))
  {
    assert s + t == [s[0]] + (s[1..] + t);
    PlainStep(s[0], s[1..] + t, inside);
  }

  /** A `'` toggles single quoting. */
  lemma QuoteStep(x: string, inside: bool)
    ensures Unquote("'" + x, inside) == Unquote(x, !inside)
  {
    assert ("'" + x)[1..] == x;
  }

  /** Any other character, outside double quotes, is taken as it is. */
  lemma PlainStep(c: char, x: string, inside: bool)
    requires c != '\'' && c != '"'
    requires !inside ==> c != '\\'
    ensures Unquote([c] + x, inside) == Prepend(c, Unquote(x, inside))
  {
    assert ([c] + x)[0] == c && ([c] + x)[1..] == x;
  }

  /** The backslash case: outside quotes a backslash takes the next
      character literally, and an escaped `'` is still three quotes of
      which the first is taken literally and the other two cancel. */
  lemma {:induction false} EscapeBackslash(s: string, t: string)
    requires |s| >= 2 && s[0] == '\\' && NoDoubleQuote(s)
    ensures Unquote(EscapeAsWritten(s) + t, false) == Unquote(s + t, false)
    decreases |s|, 0
  {
    BackslashRaw(s, t);
    BackslashEscaped(s, t);
    assert s[1..][1..] == s[2..];
    EscapeIsTransparent(s[2..], t, false);
  }

  lemma BackslashRaw(s: string, t: string)
    requires |s| >= 2 && s[0] == '\\'
    ensures Unquote(s + t, false) == Prepend(s[1], Unquote(s[2..] + t, false))
  {
    assert s + t == "\\" + [s[1]] + (s[2..] + t);
    BackslashStep(s[1], s[2..] + t);
  }

  lemma BackslashEscaped(s: string, t: string)
    requires |s| >= 2 && s[0] == '\\'
    ensures Unquote(EscapeAsWritten(s) + t, false) == Prepend(s[1], Unquote(EscapeAsWritten(s[2..]) + t, false))
  {
    var c := s[1];
    var rtail := EscapeAsWritten(s[2..]);
    assert s[1..][0] == c && s[1..][1..] == s[2..];
    if c == '\'' {
      assert EscapeAsWritten(s) + t == "\\" + [c] + ("''" + (rtail + t));
      BackslashStep(c, "''" + (rtail + t));
      DoubleQuote(rtail + t, false);
    } else {
      assert EscapeAsWritten(s) + t == "\\" + [c] + (rtail + t);
      BackslashStep(c, rtail + t);
    }
  }

  /** Outside quotes a backslash takes the next character literally. */
  lemma BackslashStep(c: char, x: string)
    ensures Unquote("\\" + [c] + x, false) == Prepend(c, Unquote(x, false))
  {
    var w := "\\" + [c] + x;
    assert w[0] == '\\' && w[1] == c && w[2..] == x;
  }

  /** Two quotes in a row cancel. */
  lemma DoubleQuote(x: string, inside: bool)
    ensures Unquote("''" + x, inside) == Unquote(x, inside)
  {
    var v := "''" + x;
    assert v[0] == '\'' && v[1..] == "'" + x;
    assert Unquote(v, inside) == Unquote(v[1..], !inside);
    var u := "'" + x;
    assert u[0] == '\'' && u[1..] == x;
  }

  /** A single-quoted, as-written-escaped word without `"` reads exactly
      like the same word with no escaping at all. */
  lemma AsWrittenQuotedWord(s: string)
    requires NoDoubleQuote(s)
    ensures Unquote("'" + EscapeAsWritten(s) + "'", false) == Unquote("'" + s + "'", false)
  {
    assert ("'" + EscapeAsWritten(s) + "'")[1..] == EscapeAsWritten(s) + "'";
    assert ("'" + s + "'")[1..] == s + "'";
    EscapeIsTransparent(s, "'", true);
  }

  /** The input that shows it: the directory `a'b` is written `'a'''b'`,
      which leaves `sh` inside an unterminated quote. */
  lemma AsWrittenEscapeBreaksQuote()
    ensures Unquote("'" + EscapeAsWritten("a'b") + "'", false) == None
  {
    AsWrittenQuotedWord("a'b");
    var w := "'" + "a'b" + "'";
    assert w[1..] == "a'b'";
    assert "a'b'"[1..] == "'b'";
    assert "'b'"[1..] == "b'";
    assert "b'"[1..] == "'";
    assert "'"[1..] == "";
  }

  /** With a `"` in the text the as-written escape is not even transparent:
      inside double quotes the three quotes are read literally. The
      directory `'"'"'` unescaped reads as `'`, escaped as written as `'''`. */
  lemma AsWrittenDoubleQuoteExample()
    ensures Unquote("'" + "'\"'\"'" + "'", false) == Some("'")
    ensures Unquote("'" + EscapeAsWritten("'\"'\"'") + "'", false) == Some("'''")
  {
    UnescapedDoubleQuoteWord();
    EscapedDoubleQuotePath();
    EscapedDoubleQuoteWord("'" + "'''\"'''\"'''" + "'");
  }

  lemma EscapedDoubleQuotePath()
    ensures EscapeAsWritten("'\"'\"'") == "'''\"'''\"'''"
  {
  }

  /** Outside quotes, `"` opens double quoting. */
  lemma OpenDouble(x: string)
    ensures Unquote("\"" + x, false) == UnquoteDouble(x)
  {
    assert ("\"" + x)[1..] == x;
  }

  /** Inside double quotes, `"` closes them. */
  lemma CloseDouble(x: string)
    ensures UnquoteDouble("\"" + x) == Unquote(x, false)
  {
    assert ("\"" + x)[1..] == x;
  }

  /** Inside double quotes, `'` is an ordinary character. */
  lemma QuoteInDouble(x: string)
    ensures UnquoteDouble("'" + x) == Prepend('\'', UnquoteDouble(x))
  {
    assert ("'" + x)[1..] == x;
  }

  /** `''"'"''`: an empty quote, then `'` between double quotes, then
      another empty quote. */
  lemma UnescapedDoubleQuoteWord()
    ensures Unquote("'" + "'\"'\"'" + "'", false) == Some("'")
  {
    var q2 := "''";
    DoubleQuote("", false);
    assert q2 == "''" + "";
    CloseDouble(q2);
    QuoteInDouble("\"" + q2);
    assert ['\''] + [] == "'";
    OpenDouble("'" + ("\"" + q2));
    var d := "\"" + ("'" + ("\"" + q2));
    DoubleQuote(d, false);
    assert "'" + "'\"'\"'" + "'" == "''" + d;
  }

  /** `''''"'''"''''`: four quotes cancel, three quotes between double
      quotes are literal, four quotes cancel. The word is a parameter so
      that the reader is unfolded only step by step. */
  lemma EscapedDoubleQuoteWord(w: string)
    requires w == "''''\"'''\"''''"
    ensures Unquote(w, false) == Some("'''")
  {
    assert w == "''" + w[2..] && w[2..] == "''" + w[4..];
    DoubleQuotedQuotes(w[4..]);
    DoubleQuote(w[4..], false);
    DoubleQuote(w[2..], false);
  }

  /** `"'''"''''`: the three quotes between the double quotes. */
  lemma DoubleQuotedQuotes(g: string)
    requires g == "\"'''\"''''"
    ensures Unquote(g, false) == Some("'''")
  {
    var q4 := "''''";
    assert Unquote(q4, false) == Some([]) by {
      DoubleQuote("''", false);
      DoubleQuote("", false);
      assert q4 == "''" + "''" && "''" == "''" + "";
    }
    CloseDouble(q4);
    var x1 := "\"" + q4;
    QuoteInDouble(x1);
    QuoteInDouble("'" + x1);
    QuoteInDouble("'" + ("'" + x1));
    assert ['\''] + [] == "'" && ['\''] + "'" == "''" && ['\''] + "''" == "'''";
    var x2 := "'" + ("'" + ("'" + x1));
    OpenDouble(x2);
    assert g == "\"" + x2;
  }

  /** Inside quotes, `'\''` closes the quote, takes a literal `'` and
      reopens the quote. */
  lemma QuoteEscapeStep(rest: string)
    ensures Unquote("'\\''" + rest, true) == Prepend('\'', Unquote(rest, true))
  {
    var w := "'\\''" + rest;
    assert w[0] == '\'' && w[1..] == "\\''" + rest;
    assert Unquote(w, true) == Unquote(w[1..], false);
    var v := "\\''" + rest;
    assert v[0] == '\\' && v[1] == '\'' && v[2..] == "'" + rest;
    assert Unquote(v, false) == Prepend('\'', Unquote(v[2..], false));
    var u := "'" + rest;
    assert u[0] == '\'' && u[1..] == rest;
  }

  lemma PrependCons(c: char, s: string, o: Option<string>)
    ensures Prepend(c, PrependAll(s, o)) == PrependAll([c] + s, o)
  {
    match o
    case Some(u) => assert [c] + (s + u) == [c] + s + u;
    case None =>
  }

  /** The intended escape round-trips through `sh`: the word means `s`. */
  lemma {:induction false} ShellEscapeInside(s: string, t: string)
    ensures Unquote(ShellEscape(s) + "'" + t, true) == PrependAll(s, Unquote(t, false))
    decreases |s|
  {
    var w := ShellEscape(s) + "'" + t;
    if s == [] {
      assert w == "'" + t;
      assert w[1..] == t;
      match Unquote(t, false)
      case Some(u) =>
        assert s + u == u;
      case None =>
    } else {
      var rest := ShellEscape(s[1..]) + "'" + t;
      ShellEscapeInside(s[1..], t);
      assert s == [s[0]] + s[1..];
      PrependCons(s[0], s[1..], Unquote(t, false));
      if s[0] == '\'' {
        assert w == "'\\''" + rest;
        QuoteEscapeStep(rest);
      } else {
        assert w == [s[0]] + rest;
        assert w[1..] == rest;
      }
    }
  }

  lemma ShellEscapeRoundTrip(s: string)
    ensures Unquote("'" + ShellEscape(s) + "'", false) == Some(s)
  {
    var w := "'" + ShellEscape(s) + "'";
    assert w[1..] == ShellEscape(s) + "'" + "";
    ShellEscapeInside(s, "");
    assert s + "" == s;
  }
}
