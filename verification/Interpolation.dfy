/**
 Putting argument values into a query: interpolateParams, which writes them into the text, and
 buildExecutionParams, which renders the same values as separate parameters.
 */
module Interpolation {
  import opened Calendar
  import opened Decimal
  import opened Escaping
  import opened Strings
  import opened TimeLiteral
  import opened Wrappers

  const MAX_QUERY_STRING_LENGTH: nat := 262144

  /** A driver.Value. A float is its bit pattern, a time an instant; Other is any other type. */
  datatype Value =
    | Nil
    | Int64(i: int)
    | UInt64(u: nat)
    | Float64(bits: nat)
    | Bool(b: bool)
    | Time(t: int)
    | Bytes(v: string)
    | Str(s: string)
    | Other

  /** strconv.FormatFloat is outside this model; all that is used is that it writes something. */
  type FloatFormat = nat -> string

  ghost predicate WritesSomething(ff: FloatFormat) {
    forall bits: nat :: ff(bits) != ""
  }

  /** A rendering, an error for an unknown type, or an out-of-range table index. */
  datatype Rendering = Text(text: string) | Unknown | TableIndexPanic

  /** The text one argument contributes to the query. */
  function Render(ff: FloatFormat, tables: Tables, a: Value): Rendering
    requires tables.Correct()
  {
    match a
    case Nil => Text("NULL")
    case Int64(i) => Text(Itoa(i))
    case UInt64(u) => Text(Itoa(u))
    case Float64(bits) => Text(ff(bits))
    case Bool(b) => Text(if b then "1" else "0")
    case Time(t) =>
      if t == 0 then Text(ZERO_LITERAL)
      else if YearInTables(t) then Text(TimeText(tables, t))
      else TableIndexPanic
    case Bytes(v) => Text("_binary'" + Escape(v) + "'")
    case Str(s) => Text("'" + Escape(s) + "'")
    case Other => Unknown
  }

  /** The text buildExecutionParams makes of one argument; None for an unknown type. */
  function Param(ff: FloatFormat, a: Value): Option<string> {
    match a
    case Nil => Some("NULL")
    case Int64(i) => Some(Itoa(i))
    case UInt64(u) => Some(Itoa(u))
    case Float64(bits) => Some(ff(bits))
    case Bool(b) => Some(if b then "1" else "0")
    case Time(t) =>
      Some(if t == 0 then ZERO_LITERAL
           else LayoutLiteral(DateOf(DayOf(Rounded(t))), ClockOf(Rounded(t))))
    case Bytes(v) => Some(v)
    case Str(s) => Some(s)
    case Other => None
  }

  function Params(ff: FloatFormat, args: seq<Value>): Option<seq<string>> {
    if args == [] then Some([])
    else
      match (Params(ff, args[..|args|-1]), Param(ff, args[|args|-1]))
      case (Some(front), Some(p)) => Some(front + [p])
      case _ => None
  }

  /** The query with its placeholders replaced, first to last, by `texts`. */
  function Substitute(query: string, texts: seq<string>): string
    requires Count(query, '?') == |texts|
  {
    if query == [] then []
    else if query[0] == '?' then texts[0] + Substitute(query[1..], texts[1..])
    else [query[0]] + Substitute(query[1..], texts)
  }

  datatype Outcome = Ok(text: string) | InvalidQuery | UnknownType | BufferOverflow | Panic

  /** Is the buffer too long to go on? Tested after every argument but NULL. */
  predicate TooLong(n: nat) {
    n + 4 > 10 * MAX_QUERY_STRING_LENGTH
  }

  /** interpolateParams from the point where `done` is written and `query` and `args` are left. */
  function Interpolated(ff: FloatFormat, tables: Tables, done: string, query: string, args: seq<Value>): Outcome
    requires tables.Correct() && Count(query, '?') == |args|
    decreases |query|
  {
    if query == [] then Ok(done)
    else if query[0] != '?' then Interpolated(ff, tables, done + [query[0]], query[1..], args)
    else
      match Render(ff, tables, args[0])
      case Unknown => UnknownType
      case TableIndexPanic => Panic
      case Text(s) =>
        if !args[0].Nil? && TooLong(|done + s|) then BufferOverflow
        else Interpolated(ff, tables, done + s, query[1..], args[1..])
  }

  // ---------------------------------------------------------------- the loop

  /** Text without placeholders is copied. */
  lemma {:induction false} CopyPlain(ff: FloatFormat, tables: Tables, done: string, plain: string, rest: string,
                                     args: seq<Value>)
    requires tables.Correct() && '?' !in plain && Count(rest, '?') == |args|
    ensures Count(plain + rest, '?') == |args|
    ensures Interpolated(ff, tables, done, plain + rest, args) == Interpolated(ff, tables, done + plain, rest, args)
    decreases |plain|
  {
    CountAppend(plain, rest, '?');
    CountNone(plain, '?');
    if plain == [] {
      assert plain + rest == rest && done + plain == done;
    } else {
      assert (plain + rest)[1..] == plain[1..] + rest;
      assert (done + [plain[0]]) + plain[1..] == done + plain;
      CopyPlain(ff, tables, done + [plain[0]], plain[1..], rest, args);
    }
  }

  /** Copying up to the first placeholder leaves the step that consumes it and one argument. */
  lemma TakePlaceholder(ff: FloatFormat, tables: Tables, done: string, query: string, args: seq<Value>, q: nat)
    requires tables.Correct() && Count(query, '?') == |args|
    requires q < |query| && query[q] == '?' && '?' !in query[..q]
    ensures |args| > 0 && Count(query[q + 1..], '?') == |args| - 1
    ensures Interpolated(ff, tables, done, query, args) == Consume(ff, tables, done + query[..q], query[q + 1..], args)
  {
    var rest := query[q..];
    assert query == query[..q] + rest && rest[1..] == query[q + 1..];
    CountAppend(query[..q], rest, '?');
    CountNone(query[..q], '?');
    CopyPlain(ff, tables, done, query[..q], rest, args);
  }

  function Consume(ff: FloatFormat, tables: Tables, done: string, rest: string, args: seq<Value>): Outcome
    requires tables.Correct() && |args| > 0 && Count(rest, '?') == |args| - 1
  {
    match Render(ff, tables, args[0])
    case Unknown => UnknownType
    case TableIndexPanic => Panic
    case Text(s) =>
      if !args[0].Nil? && TooLong(|done + s|) then BufferOverflow
      else Interpolated(ff, tables, done + s, rest, args[1..])
  }

  lemma NoPlaceholderLeft(ff: FloatFormat, tables: Tables, done: string, query: string, args: seq<Value>)
    requires tables.Correct() && Count(query, '?') == |args| && '?' !in query
    ensures Interpolated(ff, tables, done, query, args) == Ok(done + query)
  {
    CountNone(query, '?');
    assert query + [] == query;
    CopyPlain(ff, tables, done, query, [], args);
  }

  /** What became of one argument. */
  datatype Appended = Added | UnknownArgument | IndexPanic

  /** The type switch: appends what one argument is written as. */
  method AppendArg(ff: FloatFormat, tables: Tables, buf: Slice, a: Value) returns (r: Slice, o: Appended)
    requires buf.Valid() && tables.Correct()
    modifies buf.arr
    ensures r.Valid() && (r.arr == buf.arr || fresh(r.arr))
    ensures match Render(ff, tables, a)
            case Text(text) => o == Added && r.Text() == old(buf.Text()) + text
            case Unknown => o == UnknownArgument
            case TableIndexPanic => o == IndexPanic
  {
    r, o := buf, Added;
    match a {
      case Nil => r := Append(buf, "NULL");
      case Int64(i) => r := Append(buf, Itoa(i));
      case UInt64(u) => r := Append(buf, Itoa(u));
      case Float64(bits) => r := Append(buf, ff(bits));
      case Bool(b) => r := Append(buf, if b then "1" else "0");
      case Time(t) =>
        if t == 0 {
          r := Append(buf, ZERO_LITERAL);
        } else {
          IndexesInRange(tables, t);
          var panicked;
          r, panicked := AppendTime(tables, buf, t);
          if panicked { o := IndexPanic; }
        }
      case Bytes(v) => r := AppendQuoted(buf, "_binary'", v);
      case Str(s) => r := AppendQuoted(buf, "'", s);
      case Other => o := UnknownArgument;
    }
  }

  lemma Regroup(a: string, b: string, c: string)
    ensures a + b + c == a + (b + c)
  {
  }

  method AppendQuoted(buf: Slice, open: string, v: string) returns (r: Slice)
    requires buf.Valid()
    modifies buf.arr
    ensures r.Valid() && (r.arr == buf.arr || fresh(r.arr))
    ensures r.Text() == old(buf.Text()) + (open + Escape(v) + "'")
  {
    r := Append(buf, open);
    r := EscapeBytesBackslash(r, v);
    r := Append(r, "'");
  }

  /** Date and clock looked up in the digit tables, then the fraction if there is one, then the quote. */
  method AppendTime(tables: Tables, buf: Slice, t: int) returns (r: Slice, panicked: bool)
    requires buf.Valid()
    modifies buf.arr
    ensures r.Valid() && (r.arr == buf.arr || fresh(r.arr))
    ensures var front, back := LookedUpFront(tables, t), LookedUpBack(tables, MicroOf(t));
      && (panicked <==> front.None? || back.None?)
      && (!panicked ==> r.Text() == old(buf.Text()) + (front.value + back.value))
  {
    var front := LookedUpFront(tables, t);
    if front.None? { return buf, true; }
    ghost var text := buf.Text();
    r := Append(buf, front.value);
    r, panicked := AppendBack(tables, r, MicroOf(t));
    if !panicked { Regroup(text, front.value, LookedUpBack(tables, MicroOf(t)).value); }
  }

  /** The fraction if there is one, then the closing quote. */
  method AppendBack(tables: Tables, buf: Slice, micro: int) returns (r: Slice, panicked: bool)
    requires buf.Valid()
    modifies buf.arr
    ensures r.Valid() && (r.arr == buf.arr || fresh(r.arr))
    ensures panicked <==> LookedUpBack(tables, micro).None?
    ensures !panicked ==> r.Text() == old(buf.Text()) + LookedUpBack(tables, micro).value
  {
    r := buf;
    if micro != 0 {
      var fraction := LookedUpFraction(tables, micro);
      if fraction.None? { return r, true; }
      r := Append(r, fraction.value);
    }
    r := Append(r, "'");
    return r, false;
  }

  /** interpolateParams with its index and argument cursors. */
  method InterpolateParams(ff: FloatFormat, tables: Tables, query: string, args: seq<Value>) returns (r: Outcome)
    requires tables.Correct()
    ensures r == if Count(query, '?') != |args| then InvalidQuery else Interpolated(ff, tables, [], query, args)
  {
    if Count(query, '?') != |args| { return InvalidQuery; }
    var bytes := new char[MAX_QUERY_STRING_LENGTH];
    var buf := Slice(bytes, 0);
    var argPos := 0;
    var i := 0;
    assert query[0..] == query && args[0..] == args;
    while i < |query|
      invariant i <= |query| && argPos <= |args| && buf.Valid() && fresh(buf.arr)
      invariant Count(query[i..], '?') == |args[argPos..]|
      invariant Interpolated(ff, tables, [], query, args)
                == Interpolated(ff, tables, buf.Text(), query[i..], args[argPos..])
    {
      ghost var text, left, values := buf.Text(), query[i..], args[argPos..];
      var q := IndexByte(query[i..], '?');
      if q == -1 {
        NoPlaceholderLeft(ff, tables, text, left, values);
        buf := Append(buf, query[i..]);
        break;
      }
      TakePlaceholder(ff, tables, text, left, values, q);
      assert left[..q] == query[i..i+q] && left[q + 1..] == query[i+q+1..];
      assert values[0] == args[argPos] && values[1..] == args[argPos+1..];
      buf := Append(buf, query[i..i+q]);
      i := i + q;
      var arg := args[argPos];
      argPos := argPos + 1;
      var appended;
      buf, appended := AppendArg(ff, tables, buf, arg);
      if appended == UnknownArgument { return UnknownType; }
      if appended == IndexPanic { return Panic; }
      if !arg.Nil? && TooLong(buf.len) { return BufferOverflow; }
      i := i + 1;
    }
    return Ok(buf.arr[..buf.len]);
  }

  method BuildExecutionParams(ff: FloatFormat, args: seq<Value>) returns (r: Option<seq<string>>)
    ensures r == Params(ff, args)
  {
    var params: seq<string> := [];
    for k := 0 to |args|
      invariant Params(ff, args[..k]) == Some(params)
    {
      assert args[..k+1][..k] == args[..k];
      var p := Param(ff, args[k]);
      if p.None? {
        ParamsPrefix(ff, args, k + 1);
        return None;
      }
      params := params + [p.value];
    }
    assert args[..|args|] == args;
    return Some(params);
  }

  lemma {:induction false} ParamsPrefix(ff: FloatFormat, args: seq<Value>, k: nat)
    requires k <= |args| && Params(ff, args[..k]).None?
    ensures Params(ff, args).None?
    decreases |args|
  {
    if k < |args| {
      assert args[..|args|-1][..k] == args[..k];
      ParamsPrefix(ff, args[..|args|-1], k);
    } else {
      assert args[..k] == args;
    }
  }

  // ---------------------------------------------------------------- what the loop computes

  /** `texts` are the renderings of `args`, one for one. */
  predicate AreTexts(ff: FloatFormat, tables: Tables, args: seq<Value>, texts: seq<string>)
    requires tables.Correct()
  {
    |texts| == |args| && forall k | 0 <= k < |args| :: Render(ff, tables, args[k]) == Text(texts[k])
  }

  /** The length of the substituted text up to the end of argument k. */
  function LengthThrough(query: string, texts: seq<string>, k: nat): nat
    requires Count(query, '?') == |texts| && k < |texts|
    decreases |query|
  {
    if query[0] != '?' then 1 + LengthThrough(query[1..], texts, k)
    else if k == 0 then |texts[0]|
    else |texts[0]| + LengthThrough(query[1..], texts[1..], k - 1)
  }

  /** No argument but NULL ends where the buffer has become too long. */
  predicate Fits(query: string, args: seq<Value>, texts: seq<string>, start: nat)
    requires Count(query, '?') == |texts| == |args|
  {
    forall k | 0 <= k < |args| && !args[k].Nil? :: !TooLong(start + LengthThrough(query, texts, k))
  }

  /** With every argument renderable, the outcome is the substituted text or an overflow. */
  lemma {:induction false} InterpolatedText(ff: FloatFormat, tables: Tables, done: string, query: string,
                                            args: seq<Value>, texts: seq<string>)
    requires tables.Correct() && Count(query, '?') == |args| && AreTexts(ff, tables, args, texts)
    ensures var r := Interpolated(ff, tables, done, query, args);
      r == Ok(done + Substitute(query, texts)) || r == BufferOverflow
    decreases |query|
  {
    if query == [] {
      assert done + [] == done;
    } else if query[0] != '?' {
      var c, rest := [query[0]], Substitute(query[1..], texts);
      InterpolatedText(ff, tables, done + c, query[1..], args, texts);
      assert done + (c + rest) == (done + c) + rest;
    } else {
      var s, rest := texts[0], Substitute(query[1..], texts[1..]);
      assert Render(ff, tables, args[0]) == Text(s);
      InterpolatedText(ff, tables, done + s, query[1..], args[1..], texts[1..]);
      assert done + (s + rest) == (done + s) + rest;
    }
  }

  lemma {:induction false} OverflowExactly(ff: FloatFormat, tables: Tables, done: string, query: string,
                                           args: seq<Value>, texts: seq<string>)
    requires tables.Correct() && Count(query, '?') == |args| && AreTexts(ff, tables, args, texts)
    ensures Interpolated(ff, tables, done, query, args).Ok? <==> Fits(query, args, texts, |done|)
    decreases |query|
  {
    if query == [] {
    } else if query[0] != '?' {
      OverflowExactly(ff, tables, done + [query[0]], query[1..], args, texts);
      FitsPlain(query, args, texts, |done|);
    } else {
      assert Render(ff, tables, args[0]) == Text(texts[0]);
      OverflowExactly(ff, tables, done + texts[0], query[1..], args[1..], texts[1..]);
      FitsFirst(query, args, texts, |done|);
    }
  }

  /**
   The loop succeeds exactly when every argument renders and none but NULL ends in a buffer
   that has become too long; the result is the query with each placeholder replaced, in
   order, by its own argument.
   */
  lemma InterpolatedExactly(ff: FloatFormat, tables: Tables, query: string, args: seq<Value>, texts: seq<string>)
    requires tables.Correct() && Count(query, '?') == |args| && AreTexts(ff, tables, args, texts)
    ensures Interpolated(ff, tables, [], query, args)
            == if Fits(query, args, texts, 0) then Ok(Substitute(query, texts)) else BufferOverflow
  {
    InterpolatedText(ff, tables, [], query, args, texts);
    OverflowExactly(ff, tables, [], query, args, texts);
    assert [] + Substitute(query, texts) == Substitute(query, texts);
  }

  lemma FitsPlain(query: string, args: seq<Value>, texts: seq<string>, start: nat)
    requires query != [] && query[0] != '?' && Count(query, '?') == |texts| == |args|
    ensures Fits(query, args, texts, start) <==> Fits(query[1..], args, texts, start + 1)
  {
    forall k | 0 <= k < |args|
      ensures start + LengthThrough(query, texts, k) == start + 1 + LengthThrough(query[1..], texts, k)
    {
    }
  }

  lemma FitsFirst(query: string, args: seq<Value>, texts: seq<string>, start: nat)
    requires query != [] && query[0] == '?' && Count(query, '?') == |texts| == |args|
    ensures Fits(query, args, texts, start) <==>
      (args[0].Nil? || !TooLong(start + |texts[0]|))
      && Fits(query[1..], args[1..], texts[1..], start + |texts[0]|)
  {
    var rest := start + |texts[0]|;
    assert LengthThrough(query, texts, 0) == |texts[0]|;
    forall k | 1 <= k < |args|
      ensures start + LengthThrough(query, texts, k) == rest + LengthThrough(query[1..], texts[1..], k - 1)
    {
    }
    if Fits(query, args, texts, start) {
      forall k | 0 <= k < |args[1..]| && !args[1..][k].Nil?
        ensures !TooLong(rest + LengthThrough(query[1..], texts[1..], k))
      {
        assert !TooLong(start + LengthThrough(query, texts, k + 1));
      }
    }
    if (args[0].Nil? || !TooLong(rest)) && Fits(query[1..], args[1..], texts[1..], rest) {
      forall k | 0 <= k < |args| && !args[k].Nil? ensures !TooLong(start + LengthThrough(query, texts, k)) {
        if k > 0 { assert args[k] == args[1..][k - 1]; }
      }
    }
  }

  /** A success has rendered every argument. */
  lemma {:induction false} SuccessRenders(ff: FloatFormat, tables: Tables, done: string, query: string,
                                          args: seq<Value>) returns (texts: seq<string>)
    requires tables.Correct() && Count(query, '?') == |args|
    requires Interpolated(ff, tables, done, query, args).Ok?
    ensures AreTexts(ff, tables, args, texts)
    decreases |query|
  {
    if query == [] {
      texts := [];
    } else if query[0] != '?' {
      texts := SuccessRenders(ff, tables, done + [query[0]], query[1..], args);
    } else {
      var first := Render(ff, tables, args[0]).text;
      var rest := SuccessRenders(ff, tables, done + first, query[1..], args[1..]);
      texts := [first] + rest;
      forall k | 0 <= k < |args| ensures Render(ff, tables, args[k]) == Text(texts[k]) {
        if k > 0 { assert args[k] == args[1..][k - 1]; }
      }
    }
  }

  /**
   The size guard is only consulted after arguments other than NULL, so NULLs and the text
   after the last argument escape it; this is how far the result can get all the same.
   */
  lemma {:induction false} LengthBound(ff: FloatFormat, tables: Tables, done: string, query: string, args: seq<Value>)
    requires tables.Correct() && Count(query, '?') == |args|
    ensures var r := Interpolated(ff, tables, done, query, args);
      var top := 10 * MAX_QUERY_STRING_LENGTH - 4;
      r.Ok? ==> |r.text| <= (if |done| > top then |done| else top) + |query| + 3 * |args|
    decreases |query|
  {
    if query != [] {
      if query[0] != '?' {
        LengthBound(ff, tables, done + [query[0]], query[1..], args);
      } else if Render(ff, tables, args[0]).Text? {
        LengthBound(ff, tables, done + Render(ff, tables, args[0]).text, query[1..], args[1..]);
      }
    }
  }

  lemma InterpolatedLengthBound(ff: FloatFormat, tables: Tables, query: string, args: seq<Value>)
    requires tables.Correct() && Count(query, '?') == |args|
    ensures var r := Interpolated(ff, tables, [], query, args);
      r.Ok? ==> |r.text| <= 10 * MAX_QUERY_STRING_LENGTH - 4 + |query| + 3 * |args|
  {
    LengthBound(ff, tables, [], query, args);
  }

  lemma {:induction false} DigitsNotEmpty(n: int)
    ensures Itoa(n) != ""
  {
    DigitsRead(Abs(n));
  }

  /** Every argument is written as at least one byte, so the text never gets shorter. */
  lemma {:induction false} NeverShorter(ff: FloatFormat, tables: Tables, done: string, query: string,
                                        args: seq<Value>)
    requires tables.Correct() && WritesSomething(ff) && Count(query, '?') == |args|
    ensures var r := Interpolated(ff, tables, done, query, args);
      r.Ok? ==> |r.text| >= |done| + |query|
    decreases |query|
  {
    if query != [] {
      if query[0] != '?' {
        NeverShorter(ff, tables, done + [query[0]], query[1..], args);
      } else if Render(ff, tables, args[0]).Text? {
        RenderedNotEmpty(ff, tables, args[0]);
        NeverShorter(ff, tables, done + Render(ff, tables, args[0]).text, query[1..], args[1..]);
      }
    }
  }

  lemma RenderedNotEmpty(ff: FloatFormat, tables: Tables, a: Value)
    requires tables.Correct() && WritesSomething(ff)
    ensures Render(ff, tables, a).Text? ==> Render(ff, tables, a).text != ""
  {
    match a
    case Int64(i) => DigitsNotEmpty(i);
    case UInt64(u) => DigitsNotEmpty(u);
    case Time(t) =>
      if YearInTables(t) { TimeIsQuoted(tables, t); }
    case _ =>
  }

  // ---------------------------------------------------------------- literals inside the text

  lemma {:induction false} SubstituteAppend(a: string, b: string, s: seq<string>, t: seq<string>)
    requires Count(a, '?') == |s| && Count(b, '?') == |t|
    ensures Count(a + b, '?') == |s + t|
    ensures Substitute(a + b, s + t) == Substitute(a, s) + Substitute(b, t)
    decreases |a|
  {
    CountAppend(a, b, '?');
    if a == [] {
      assert a + b == b && s + t == t;
    } else {
      var whole, texts := a + b, s + t;
      assert whole[0] == a[0] && whole[1..] == a[1..] + b;
      if a[0] == '?' {
        assert texts[0] == s[0] && texts[1..] == s[1..] + t;
        SubstituteAppend(a[1..], b, s[1..], t);
        assert Substitute(whole, texts) == texts[0] + Substitute(whole[1..], texts[1..]);
      } else {
        SubstituteAppend(a[1..], b, s, t);
        assert Substitute(whole, texts) == [whole[0]] + Substitute(whole[1..], texts);
      }
    }
  }

  function Quoted(v: string): string {
    "'" + Escape(v) + "'"
  }

  /** The argument for one placeholder stands between the texts made of what is around it. */
  lemma SubstituteAt(before: string, after: string, s: seq<string>, text: string, t: seq<string>)
    requires Count(before, '?') == |s| && Count(after, '?') == |t|
    ensures Count(before + ("?" + after), '?') == |s + ([text] + t)|
    ensures Substitute(before + ("?" + after), s + ([text] + t)) == Substitute(before, s) + text + Substitute(after, t)
  {
    assert ("?" + after)[1..] == after && ([text] + t)[1..] == t;
    SubstituteAppend(before, "?" + after, s, [text] + t);
  }

  /** Arguments that are not quoted: what each is written as says what it was. */
  predicate WrittenAs(ff: FloatFormat, a: Value, text: string) {
    match a
    case Nil => text == "NULL"
    case Bool(b) => text == if b then "1" else "0"
    case Int64(i) => IsInt64(i) ==> Atoi(text) == i
    case UInt64(u) => AllDigits(text) && Number(text) == u
    case Float64(bits) => text == ff(bits)
    case Time(t) => t == 0 ==> text == "'0000-00-00'"
    case _ => true
  }

  /** In a query with one placeholder, the argument stands between what is around it. */
  lemma OneArgument(ff: FloatFormat, tables: Tables, before: string, after: string, a: Value)
    requires tables.Correct() && '?' !in before && '?' !in after
    ensures Count(before + ("?" + after), '?') == 1
    ensures var r := Interpolated(ff, tables, [], before + ("?" + after), [a]);
      r.Ok? ==> exists text :: r.text == before + text + after && WrittenAs(ff, a, text)
  {
    CountNone(before, '?');
    CountNone(after, '?');
    assert [] + ([a] + []) == [a];
    SubstituteAt(before, after, [], "", []);
    if Interpolated(ff, tables, [], before + ("?" + after), [a]).Ok? {
      var texts := SuccessRenders(ff, tables, [], before + ("?" + after), [a]);
      var text := texts[0];
      assert Render(ff, tables, [a][0]) == Text(text);
      InterpolatedExactly(ff, tables, before + ("?" + after), [a], texts);
      SubstituteAt(before, after, [], text, []);
      assert [] + ([text] + []) == texts;
      NothingToSubstitute(before);
      NothingToSubstitute(after);
      RenderedAsWritten(ff, tables, a);
    }
  }

  lemma RenderedAsWritten(ff: FloatFormat, tables: Tables, a: Value)
    requires tables.Correct() && Render(ff, tables, a).Text?
    ensures WrittenAs(ff, a, Render(ff, tables, a).text)
  {
    match a
    case Int64(i) => if IsInt64(i) { AtoiItoa(i); }
    case UInt64(u) => DigitsRead(u);
    case _ =>
  }

  lemma {:induction false} NothingToSubstitute(query: string)
    requires Count(query, '?') == 0
    ensures Substitute(query, []) == query
  {
    if query != [] { NothingToSubstitute(query[1..]); }
  }

  // ---------------------------------------------------------------- the two renderers agree

  /** What a caller does to an argument before passing it as an execution parameter. */
  function Formatted(a: Value): Value {
    match a
    case Str(s) => Str("'" + Escape(s) + "'")
    case Bytes(v) => Bytes("_binary'" + Escape(v) + "'")
    case _ => a
  }

  function AllFormatted(args: seq<Value>): seq<Value> {
    seq(|args|, k requires 0 <= k < |args| => Formatted(args[k]))
  }

  /** One argument: whenever it can be interpolated, the parameter is the same text. */
  lemma ParamIsRendering(ff: FloatFormat, tables: Tables, a: Value)
    requires tables.Correct() && Render(ff, tables, a).Text?
    ensures Param(ff, Formatted(a)) == Some(Render(ff, tables, a).text)
  {
    if a.Time? && a.t != 0 {
      InstantRoundTrip(Rounded(a.t));
      LayoutIsTable(tables, DateOf(DayOf(Rounded(a.t))), ClockOf(Rounded(a.t)));
    }
  }

  lemma {:induction false} ParamsElementwise(ff: FloatFormat, args: seq<Value>, texts: seq<string>)
    requires |texts| == |args| && forall k | 0 <= k < |args| :: Param(ff, args[k]) == Some(texts[k])
    ensures Params(ff, args) == Some(texts)
  {
    if args != [] {
      ParamsElementwise(ff, args[..|args|-1], texts[..|texts|-1]);
      assert texts == texts[..|texts|-1] + [texts[|texts|-1]];
    }
  }

  /**
   When interpolation succeeds, so does building parameters from the formatted arguments, and
   the interpolated text is the query with its placeholders replaced by those parameters.
   */
  lemma RenderersAgree(ff: FloatFormat, tables: Tables, query: string, args: seq<Value>)
    requires tables.Correct() && Count(query, '?') == |args|
    requires Interpolated(ff, tables, [], query, args).Ok?
    ensures var params := Params(ff, AllFormatted(args));
      && params.Some? && |params.value| == |args|
      && Interpolated(ff, tables, [], query, args) == Ok(Substitute(query, params.value))
  {
    var texts := SuccessRenders(ff, tables, [], query, args);
    InterpolatedExactly(ff, tables, query, args, texts);
    forall k | 0 <= k < |args| ensures Param(ff, AllFormatted(args)[k]) == Some(texts[k]) {
      ParamIsRendering(ff, tables, args[k]);
    }
    ParamsElementwise(ff, AllFormatted(args), texts);
    assert [] + Substitute(query, texts) == Substitute(query, texts);
  }

  /**
   Outside the table years the two part company: an index of the first leaves its tables, which
   is a panic, while the other still writes a literal. The condition is exact.
   */
  lemma TimesOutsideTheTables(ff: FloatFormat, tables: Tables, t: int)
    requires tables.Correct() && t != 0
    ensures LookedUpTime(tables, t).None? <==> !(0 <= DateOf(DayOf(Rounded(t))).year <= 9999)
    ensures Render(ff, tables, Time(t)).TableIndexPanic? <==> LookedUpTime(tables, t).None?
    ensures Param(ff, Time(t)).Some?
  {
    IndexesInRange(tables, t);
  }

  /** The first instant of the year 10000 is such a time. */
  lemma FirstTimeOutsideTheTables(tables: Tables)
    requires tables.Correct()
    ensures LookedUpTime(tables, 3_652_059 * SECONDS_PER_DAY * NANOS_PER_SECOND).None?
  {
    var late := 3_652_059 * SECONDS_PER_DAY * NANOS_PER_SECOND;
    assert DayOf(Rounded(late)) == 3_652_059;
    assert YearAndDay(3_652_059).0 == 10_000;
    IndexesInRange(tables, late);
  }
}
