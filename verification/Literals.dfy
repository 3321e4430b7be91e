/**
 Quoted arguments inside the interpolated text. A lexer reads the text from its first byte; an
 argument is safe when what it is written as is exactly one literal of that text.
 */
module Literals {
  import opened Decimal
  import opened Escaping
  import opened Interpolation
  import opened Strings
  import opened TimeLiteral
  import opened Wrappers

  // ---------------------------------------------------------------- the lexer

  /** Closing: just after a quote that ends the literal, unless another quote follows. */
  datatype LexState = Outside | Inside | Hidden | Closing

  function Next(st: LexState, c: char, mode: Lexing): LexState {
    match st
    case Outside => if c == '\'' then Inside else Outside
    case Inside =>
      if c == '\'' then Closing
      else if c == '\\' && mode == BackslashEscapes then Hidden
      else Inside
    case Hidden => Inside
    case Closing => if c == '\'' then Inside else Outside
  }

  function LexFrom(st: LexState, text: string, mode: Lexing): LexState
    decreases |text|
  {
    if text == "" then st else LexFrom(Next(st, text[0], mode), text[1..], mode)
  }

  /** A literal of the whole text: it opens outside every other, and closes at its last byte. */
  predicate IsLiteral(text: string, start: nat, length: nat, mode: Lexing) {
    && 2 <= length && start + length <= |text| && text[start] == '\''
    && LexFrom(Outside, text[..start], mode) == Outside
    && ClosingQuote(text[start + 1..], mode) == Some(length - 2)
  }

  predicate StartsWithQuote(text: string) {
    text != "" && text[0] == '\''
  }

  lemma {:induction false} LexAppend(st: LexState, a: string, b: string, mode: Lexing)
    ensures LexFrom(st, a + b, mode) == LexFrom(LexFrom(st, a, mode), b, mode)
    decreases |a|
  {
    if a == "" {
      assert a + b == b;
    } else {
      assert (a + b)[1..] == a[1..] + b;
      LexAppend(Next(st, a[0], mode), a[1..], b, mode);
    }
  }

  lemma LexTwo(st: LexState, a: char, b: char, mode: Lexing)
    ensures LexFrom(st, [a, b], mode) == Next(Next(st, a, mode), b, mode)
  {
    assert [a, b][1..] == [b] && [b][1..] == "";
    assert LexFrom(Next(st, a, mode), [b], mode) == Next(Next(st, a, mode), b, mode);
  }

  lemma LexOne(st: LexState, a: char, mode: Lexing)
    ensures LexFrom(st, [a], mode) == Next(st, a, mode)
  {
    assert [a][1..] == "";
  }

  /** Escaped bytes stay inside the literal they are in. */
  lemma {:induction false} EscapedStaysInside(v: string, mode: Lexing)
    ensures LexFrom(Inside, Escape(v), mode) == Inside
  {
    if v != "" {
      EscapedStaysInside(v[1..], mode);
      LexAppend(Inside, EscapeByte(v[0]), Escape(v[1..]), mode);
      if Special(v[0]) {
        LexTwo(Inside, Lead(v[0]), Code(v[0]), mode);
      } else {
        LexOne(Inside, v[0], mode);
      }
    }
  }

  lemma AfterLiteral(v: string, mode: Lexing)
    ensures LexFrom(Outside, Quoted(v), mode) == Closing
  {
    EscapedStaysInside(v, mode);
    LexOne(Outside, '\'', mode);
    LexAppend(Outside, "'", Escape(v), mode);
    LexOne(Inside, '\'', mode);
    LexAppend(Outside, "'" + Escape(v), "'", mode);
  }

  /** A quoted text is one literal exactly when it opens outside others and no quote follows. */
  lemma LiteralAt(text: string, p: string, v: string, r: string, mode: Lexing)
    requires text == p + Quoted(v) + r
    ensures IsLiteral(text, |p|, |Quoted(v)|, mode)
            <==> LexFrom(Outside, p, mode) == Outside && !StartsWithQuote(r)
  {
    assert text[..|p|] == p && text[|p|] == '\'';
    assert text[|p| + 1..] == Escape(v) + "'" + r;
    LiteralIsSelfDelimiting(v, r, mode);
  }

  // ---------------------------------------------------------------- one argument

  /**
   A string argument is exactly one literal of the final text if and only if the text before it
   ends outside every literal, and not just behind one, and the text after it begins with no quote.
   */
  lemma StringArgumentStaysALiteral(before: string, after: string, s: seq<string>, v: string, t: seq<string>,
                                    mode: Lexing)
    requires Count(before, '?') == |s| && Count(after, '?') == |t|
    ensures Count(before + ("?" + after), '?') == |s + ([Quoted(v)] + t)|
    ensures var text := Substitute(before + ("?" + after), s + ([Quoted(v)] + t));
      IsLiteral(text, |Substitute(before, s)|, |Quoted(v)|, mode)
      <==> LexFrom(Outside, Substitute(before, s), mode) == Outside && !StartsWithQuote(Substitute(after, t))
  {
    SubstituteAt(before, after, s, Quoted(v), t);
    LiteralAt(Substitute(before + ("?" + after), s + ([Quoted(v)] + t)), Substitute(before, s), v,
              Substitute(after, t), mode);
  }

  /** Whether the rest of a query, with what is written for its arguments, begins with a quote. */
  predicate QuoteFollows(query: string, args: seq<Value>)
    requires Count(query, '?') == |args|
  {
    query != "" && (query[0] == '\'' || (query[0] == '?' && (args[0].Str? || args[0].Time?)))
  }

  // ---------------------------------------------------------------- what arguments are written as

  /** Arguments written with quotes. */
  predicate IsQuoted(a: Value) {
    a.Str? || a.Time? || a.Bytes?
  }

  const BINARY := "_binary"

  /** What stands before the quote. */
  function Marker(a: Value): string {
    if a.Bytes? then BINARY else ""
  }

  /** Text no lexer stops at. */
  predicate Plain(text: string) {
    text != "" && forall c | c in text :: c != '\'' && c != '\\'
  }

  /** Floats are written with neither quotes nor backslashes. */
  ghost predicate WritesNumbers(ff: FloatFormat) {
    forall bits: nat :: Plain(ff(bits))
  }

  lemma {:induction false} EscapeNothing(v: string)
    requires forall i | 0 <= i < |v| :: !Special(v[i])
    ensures Escape(v) == v
  {
    if v != "" {
      EscapeNothing(v[1..]);
      assert v == [v[0]] + v[1..];
    }
  }

  /** A quoted argument is a marker and a quoted text; any other argument is plain. */
  lemma Shape(ff: FloatFormat, tables: Tables, a: Value, text: string) returns (v: string)
    requires tables.Correct() && WritesNumbers(ff) && Render(ff, tables, a) == Text(text)
    ensures if IsQuoted(a) then text == Marker(a) + Quoted(v) else Plain(text)
  {
    v := "";
    match a
    case Nil => NullIsPlain();
    case Int64(i) => ItoaIsPlain(i);
    case UInt64(u) => ItoaIsPlain(u);
    case Float64(bits) =>
    case Bool(b) =>
    case Time(t) => if t == 0 { v := ZeroShape(); } else { v := TimeShape(tables, t); }
    case Bytes(b) => v := b; assert "_binary'" + Escape(b) + "'" == BINARY + Quoted(b);
    case Str(s) => v := s; assert "" + Quoted(s) == Quoted(s);
  }

  lemma NullIsPlain()
    ensures Plain("NULL")
  {
  }

  lemma ItoaIsPlain(n: int)
    ensures Plain(Itoa(n))
  {
    DigitsRead(Abs(n));
  }

  lemma TimeShape(tables: Tables, t: int) returns (v: string)
    requires tables.Correct() && YearInTables(t)
    ensures TimeText(tables, t) == Quoted(v)
  {
    TimeIsQuoted(tables, t);
    v := UnquotedTime(TimeText(tables, t));
  }

  lemma ZeroShape() returns (v: string)
    ensures ZERO_LITERAL == Quoted(v)
  {
    v := "0000-00-00";
    ZeroDigits();
    assert "'0000-00-00'" == "'" + v + "'";
  }

  lemma ZeroDigits()
    ensures Escape("0000-00-00") == "0000-00-00"
  {
    var v := "0000-00-00";
    assert forall i | 0 <= i < |v| :: v[i] == '0' || v[i] == '-';
    EscapeNothing(v);
  }

  lemma UnquotedTime(text: string) returns (v: string)
    requires |text| >= 2 && text[0] == '\'' && text[|text| - 1] == '\''
    requires forall i | 1 <= i < |text| - 1 :: TimeByte(text[i])
    ensures text == Quoted(v)
  {
    v := text[1..|text| - 1];
    forall i | 0 <= i < |v| ensures !Special(v[i]) { assert TimeByte(text[i + 1]); }
    EscapeNothing(v);
    assert text == "'" + v + "'";
  }

  // ---------------------------------------------------------------- all arguments

  /** The state after plain text. */
  function Past(st: LexState): LexState {
    match st
    case Outside => Outside
    case Closing => Outside
    case Inside => Inside
    case Hidden => Inside
  }

  /**
   Reads the query and the kinds of its arguments, never their contents: every placeholder of a
   quoted argument stands outside the literals, and no quote touches what is written there.
   */
  predicate WellPlaced(st: LexState, query: string, args: seq<Value>, mode: Lexing)
    requires Count(query, '?') == |args|
    decreases |query|
  {
    if query == "" then true
    else if query[0] != '?' then WellPlaced(Next(st, query[0], mode), query[1..], args, mode)
    else if IsQuoted(args[0]) then
      && Opens(st, args[0])
      && !QuoteFollows(query[1..], args[1..])
      && WellPlaced(Closing, query[1..], args[1..], mode)
    else WellPlaced(Past(st), query[1..], args[1..], mode)
  }

  /** What argument `a` is written as, from position `from` on and after its marker, is one literal of `text`. */
  predicate ArgIsLiteral(text: string, from: nat, a: Value, written: string, mode: Lexing) {
    var marker := |Marker(a)|;
    marker <= |written| && IsLiteral(text, from + marker, |written| - marker, mode)
  }

  /**
   Every quoted argument is one literal of the whole text. Going along the query, `p` is the
   text that has been passed, so the whole text stays the same.
   */
  predicate AllLiterals(p: string, query: string, args: seq<Value>, texts: seq<string>, mode: Lexing)
    requires Count(query, '?') == |texts| == |args|
    decreases |query|
  {
    if query == "" then true
    else if query[0] != '?' then AllLiterals(p + [query[0]], query[1..], args, texts, mode)
    else
      && (IsQuoted(args[0]) ==> ArgIsLiteral(p + Substitute(query, texts), |p|, args[0], texts[0], mode))
      && AllLiterals(p + texts[0], query[1..], args[1..], texts[1..], mode)
  }

  lemma {:induction false} PlainIsPassed(st: LexState, text: string, mode: Lexing)
    requires Plain(text)
    ensures LexFrom(st, text, mode) == Past(st)
    decreases |text|
  {
    assert text[0] in text;
    if |text| > 1 {
      var rest := text[1..];
      assert forall c | c in rest :: c in text;
      PlainIsPassed(Next(st, text[0], mode), rest, mode);
    } else {
      assert text == [text[0]];
      LexOne(st, text[0], mode);
    }
  }

  /** The marker leaves a lexer outside, or takes it there. */
  lemma AfterMarker(p: string, a: Value, mode: Lexing)
    ensures var st := LexFrom(Outside, p, mode);
      LexFrom(Outside, p + Marker(a), mode) == if a.Bytes? then Past(st) else st
  {
    LexAppend(Outside, p, Marker(a), mode);
    if a.Bytes? {
      assert forall c | c in BINARY :: c != '\'' && c != '\\';
      PlainIsPassed(LexFrom(Outside, p, mode), BINARY, mode);
    } else {
      assert p + Marker(a) == p;
    }
  }

  /** Whether a quoted argument can open where the lexer is. */
  predicate Opens(st: LexState, a: Value) {
    st == Outside || (st == Closing && a.Bytes?)
  }

  /** A quoted argument is a literal exactly when it can open, and no quote follows it. */
  lemma FirstArgument(text: string, p: string, a: Value, v: string, r: string, mode: Lexing)
    requires text == p + (Marker(a) + Quoted(v)) + r
    ensures ArgIsLiteral(text, |p|, a, Marker(a) + Quoted(v), mode)
            <==> Opens(LexFrom(Outside, p, mode), a) && !StartsWithQuote(r)
  {
    assert text == p + Marker(a) + Quoted(v) + r;
    AfterMarker(p, a, mode);
    LiteralAt(text, p + Marker(a), v, r, mode);
  }

  lemma AfterFirstArgument(p: string, a: Value, v: string, mode: Lexing)
    requires Opens(LexFrom(Outside, p, mode), a)
    ensures LexFrom(Outside, p + (Marker(a) + Quoted(v)), mode) == Closing
  {
    var front := p + Marker(a);
    assert p + (Marker(a) + Quoted(v)) == front + Quoted(v);
    AfterMarker(p, a, mode);
    AfterLiteral(v, mode);
    LexAppend(Outside, front, Quoted(v), mode);
  }

  /** The rest of the text begins with a quote exactly when the rest of the query says so. */
  lemma QuoteFollowsExactly(ff: FloatFormat, tables: Tables, query: string, args: seq<Value>, texts: seq<string>)
    requires tables.Correct() && WritesNumbers(ff) && Count(query, '?') == |args| && AreTexts(ff, tables, args, texts)
    ensures StartsWithQuote(Substitute(query, texts)) <==> QuoteFollows(query, args)
  {
    if query != "" && query[0] == '?' {
      var v := Shape(ff, tables, args[0], texts[0]);
      assert Substitute(query, texts)[0] == texts[0][0];
      if !IsQuoted(args[0]) { assert texts[0][0] in texts[0]; }
    }
  }

  /** From any point of the text on, all quoted arguments are literals exactly when well placed. */
  lemma {:induction false} PlacementIsExact(ff: FloatFormat, tables: Tables, p: string, query: string,
                                            args: seq<Value>, texts: seq<string>, mode: Lexing)
    requires tables.Correct() && WritesNumbers(ff) && Count(query, '?') == |args| && AreTexts(ff, tables, args, texts)
    ensures WellPlaced(LexFrom(Outside, p, mode), query, args, mode) <==> AllLiterals(p, query, args, texts, mode)
    decreases |query|
  {
    if query == "" {
    } else if query[0] != '?' {
      LexAppend(Outside, p, [query[0]], mode);
      LexOne(LexFrom(Outside, p, mode), query[0], mode);
      PlacementIsExact(ff, tables, p + [query[0]], query[1..], args, texts, mode);
    } else {
      assert AreTexts(ff, tables, args[1..], texts[1..]);
      PlacementIsExact(ff, tables, p + texts[0], query[1..], args[1..], texts[1..], mode);
      var v := Shape(ff, tables, args[0], texts[0]);
      if IsQuoted(args[0]) {
        QuotedStep(ff, tables, p, query, args, texts, v, mode);
        if Opens(LexFrom(Outside, p, mode), args[0]) { AfterFirstArgument(p, args[0], v, mode); }
      } else {
        LexAppend(Outside, p, texts[0], mode);
        PlainIsPassed(LexFrom(Outside, p, mode), texts[0], mode);
      }
    }
  }

  lemma QuotedStep(ff: FloatFormat, tables: Tables, p: string, query: string, args: seq<Value>, texts: seq<string>,
                   v: string, mode: Lexing)
    requires tables.Correct() && WritesNumbers(ff) && Count(query, '?') == |args| && AreTexts(ff, tables, args, texts)
    requires query != "" && query[0] == '?' && texts[0] == Marker(args[0]) + Quoted(v)
    ensures ArgIsLiteral(p + Substitute(query, texts), |p|, args[0], texts[0], mode)
            <==> Opens(LexFrom(Outside, p, mode), args[0]) && !QuoteFollows(query[1..], args[1..])
  {
    var rest := Substitute(query[1..], texts[1..]);
    QuoteFollowsExactly(ff, tables, query[1..], args[1..], texts[1..]);
    assert p + Substitute(query, texts) == p + (Marker(args[0]) + Quoted(v)) + rest;
    FirstArgument(p + Substitute(query, texts), p, args[0], v, rest, mode);
  }

  /**
   Interpolation is faithful to the quoting of the query: whether every string, time and byte
   argument is exactly one literal of the final text depends on the query and the kinds of the
   arguments alone, and WellPlaced decides it. No content of an argument can change the answer.
   */
  lemma QuotedArgumentsAreLiterals(ff: FloatFormat, tables: Tables, query: string, args: seq<Value>, mode: Lexing)
      returns (texts: seq<string>)
    requires tables.Correct() && WritesNumbers(ff) && Count(query, '?') == |args|
    requires Interpolated(ff, tables, [], query, args).Ok?
    ensures AreTexts(ff, tables, args, texts)
    ensures Interpolated(ff, tables, [], query, args) == Ok(Substitute(query, texts))
    ensures WellPlaced(Outside, query, args, mode) <==> AllLiterals("", query, args, texts, mode)
  {
    texts := SuccessRenders(ff, tables, [], query, args);
    InterpolatedExactly(ff, tables, query, args, texts);
    PlacementIsExact(ff, tables, "", query, args, texts, mode);
  }

  // ---------------------------------------------------------------- placements that fail

  /** A placeholder inside a literal lets the argument out of it, whatever the argument. */
  lemma PlaceholderInsideALiteral(v: string, mode: Lexing)
    ensures Count("'a?b'", '?') == 1 && !WellPlaced(Outside, "'a?b'", [Str(v)], mode)
    ensures Substitute("'a?b'", [Quoted(v)]) == "'a'" + Escape(v) + "'b'"
    ensures LexFrom(Outside, "'a'", mode) == Closing
  {
    InsideIsNotWellPlaced(v, mode);
    InsideText(v);
    OneLiteral(mode);
  }

  lemma InsideIsNotWellPlaced(v: string, mode: Lexing)
    ensures Count("'a?b'", '?') == 1 && !WellPlaced(Outside, "'a?b'", [Str(v)], mode)
  {
    assert "'a?b'"[1..] == "a?b'" && "a?b'"[1..] == "?b'" && "?b'"[1..] == "b'" && "b'"[1..] == "'" && "'"[1..] == "";
  }

  lemma InsideText(v: string)
    ensures Count("'a?b'", '?') == 1 && Substitute("'a?b'", [Quoted(v)]) == "'a'" + Escape(v) + "'b'"
  {
    NoPlaceholder("'a");
    NoPlaceholder("b'");
    SubstituteAt("'a", "b'", [], Quoted(v), []);
    assert "'a" + ("?" + "b'") == "'a?b'" && [] + ([Quoted(v)] + []) == [Quoted(v)];
    assert "'a" + Quoted(v) + "b'" == "'a'" + Escape(v) + "'b'";
  }

  lemma {:induction false} NoPlaceholder(query: string)
    requires forall i | 0 <= i < |query| :: query[i] != '?'
    ensures Count(query, '?') == 0 && Substitute(query, []) == query
  {
    if query != "" { NoPlaceholder(query[1..]); }
  }

  lemma OneLiteral(mode: Lexing)
    ensures LexFrom(Outside, "'a'", mode) == Closing
  {
    assert "'a'"[1..] == ['a', '\''];
    LexTwo(Inside, 'a', '\'', mode);
  }

  /** A placeholder just behind a literal goes on with it. */
  lemma PlaceholderBehindALiteral(v: string, mode: Lexing)
    ensures Count("'x'?", '?') == 1 && !WellPlaced(Outside, "'x'?", [Str(v)], mode)
  {
    assert "'x'?"[1..] == "x'?" && "x'?"[1..] == "'?" && "'?"[1..] == "?" && "?"[1..] == "";
  }

  /** Two string arguments in adjacent placeholders run together into one literal. */
  lemma AdjacentStringsRunTogether(a: string, b: string, mode: Lexing)
    ensures Count("??", '?') == 2 && !WellPlaced(Outside, "??", [Str(a), Str(b)], mode)
    ensures Substitute("??", [Quoted(a), Quoted(b)]) == "'" + Escape(a) + "''" + Escape(b) + "'"
    ensures ClosingQuote(Escape(a) + "''" + Escape(b) + "'", mode) == Some(|Escape(a)| + 2 + |Escape(b)|)
  {
    assert "??"[1..] == "?" && "?"[1..] == "" && [Str(a), Str(b)][1..] == [Str(b)];
    assert Substitute("?", [Quoted(b)]) == Quoted(b);
    assert Substitute("??", [Quoted(a), Quoted(b)]) == Quoted(a) + Quoted(b);
    RunTogether(a, b, mode);
  }

  lemma RunTogether(a: string, b: string, mode: Lexing)
    ensures ClosingQuote(Escape(a) + "''" + Escape(b) + "'", mode) == Some(|Escape(a)| + 2 + |Escape(b)|)
  {
    var rest := Escape(b) + "'";
    assert Escape(a) + "''" + Escape(b) + "'" == Escape(a) + ("''" + rest);
    SkipEscaped(a, "''" + rest, mode);
    assert ("''" + rest)[2..] == rest;
    assert Escape(b) + "'" + [] == rest;
    LiteralIsSelfDelimiting(b, [], mode);
  }
}
