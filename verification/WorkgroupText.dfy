/** The text of a workgroup configuration: a recursive printer that omits what is unset. */
module WorkgroupText {
  import opened Decimal
  import opened Strings
  import opened Wrappers

  /** The types a configuration is made of; Text, Number, Flag and Record are held by pointer. */
  datatype Type = Text | Enumeration | Number | Flag | Record(fields: seq<Field>)
  datatype Field = Field(name: string, exported: bool, typ: Type)

  datatype Value = Nil | Str(text: string) | Num(n: int) | Truth(b: bool) | Rec(values: seq<Value>)

  predicate HasType(v: Value, t: Type)
    decreases t
  {
    match t
    case Text => v.Nil? || v.Str?
    case Enumeration => v.Str?
    case Number => v.Nil? || v.Num?
    case Flag => v.Nil? || v.Truth?
    case Record(fields) =>
      v.Nil? || (v.Rec? && |v.values| == |fields|
                 && forall k | 0 <= k < |fields| :: HasType(v.values[k], fields[k].typ))
  }

  /** What Go guarantees of a struct type: distinct identifiers as names. */
  predicate WellNamed(t: Type)
    decreases t
  {
    t.Record? ==>
      && (forall k | 0 <= k < |t.fields| :: ':' !in t.fields[k].name && WellNamed(t.fields[k].typ))
      && (forall j, k | 0 <= j < k < |t.fields| :: t.fields[j].name != t.fields[k].name)
  }

  /** Nil pointers and empty enumeration values count as unset. */
  predicate Unset(v: Value, t: Type) {
    v.Nil? || (t.Enumeration? && v == Str(""))
  }

  /** Equal as far as exported fields go, at every depth. */
  predicate SamePopulated(t: Type, v: Value, w: Value)
    decreases t
  {
    if t.Record? && v.Rec? && w.Rec? && |v.values| == |w.values| == |t.fields| then
      forall k | 0 <= k < |t.fields| && t.fields[k].exported ::
        SamePopulated(t.fields[k].typ, v.values[k], w.values[k])
    else v == w
  }

  /** A way of quoting: its literals are told apart, and each ends at its only closing quote. */
  ghost predicate Quoting(quote: string -> string) {
    && (forall s :: quote(s) != "" && quote(s)[0] == '"' && AfterQuote(quote(s)[1..]) == Some(""))
    && (forall s, t | quote(s) == quote(t) :: s == t)
  }

  /** What follows the closing quote when a backslash hides the byte after it. */
  function AfterQuote(s: string): Option<string> {
    if s == "" then None
    else if s[0] == '"' then Some(s[1..])
    else if s[0] != '\\' then AfterQuote(s[1..])
    else if |s| == 1 then None
    else AfterQuote(s[2..])
  }

  // ---------------------------------------------------------------- the text

  function Spaces(n: nat): string {
    seq(n, i => ' ')
  }

  function Start(name: string, indent: nat, first: bool): string {
    (if first then "" else ",\n") + Spaces(indent + 2) + name + ": "
  }

  function Ending(indent: nat): string {
    "\n" + Spaces(indent) + "}"
  }

  function TruthText(b: bool): string {
    if b then "true" else "false"
  }

  function Print(quote: string -> string, t: Type, v: Value, indent: nat): string
    requires HasType(v, t) && !v.Nil?
    decreases t, |if t.Record? then t.fields else []| + 1
  {
    match v
    case Str(s) => quote(s)
    case Num(n) => Itoa(n)
    case Truth(b) => TruthText(b)
    case Rec(_) => "{\n" + Fields(quote, t, v, 0, indent, true) + Ending(indent)
  }

  /** The fields from k on; `first` says that none has been written yet. */
  function Fields(quote: string -> string, t: Type, v: Value, k: nat, indent: nat, first: bool): string
    requires HasType(v, t) && v.Rec? && k <= |t.fields|
    decreases t, |t.fields| - k
  {
    if k == |t.fields| then ""
    else if Written(t, v, k) then
      Start(t.fields[k].name, indent, first)
      + Print(quote, t.fields[k].typ, v.values[k], indent + 2)
      + Fields(quote, t, v, k + 1, indent, false)
    else Fields(quote, t, v, k + 1, indent, first)
  }

  predicate Written(t: Type, v: Value, k: nat)
    requires HasType(v, t) && v.Rec? && k < |t.fields|
  {
    t.fields[k].exported && !Unset(v.values[k], t.fields[k].typ)
  }

  /** The text kept for a configuration, with the fixed text for a nil one. */
  function ConfigText(quote: string -> string, t: Type, c: Value): string
    requires t.Record? && HasType(c, t)
  {
    if c.Nil? then "{\n\n}" else Print(quote, t, c, 0)
  }

  // ---------------------------------------------------------------- the printer

  class Builder {
    var text: string

    constructor ()
      ensures text == ""
    {
      text := "";
    }

    method WriteString(s: string)
      modifies this
      ensures text == old(text) + s
    {
      text := text + s;
    }
  }

  lemma Regroup(a: string, b: string, c: string, d: string)
    ensures a + b + c + d == a + (b + c + d)
  {
  }

  /** What comes before a field: a separator unless it is the first, the indentation and the name. */
  method WriteStart(name: string, indent: nat, first: bool, buf: Builder)
    modifies buf
    ensures buf.text == old(buf.text) + Start(name, indent, first)
  {
    if !first { buf.WriteString(",\n"); }
    buf.WriteString(Spaces(indent + 2));
    buf.WriteString(name);
    buf.WriteString(": ");
  }

  method Prettify(quote: string -> string, t: Type, v: Value, indent: nat, buf: Builder)
    requires HasType(v, t) && !v.Nil?
    modifies buf
    ensures buf.text == old(buf.text) + Print(quote, t, v, indent)
    decreases t
  {
    match v
    case Str(s) => buf.WriteString(quote(s));
    case Num(n) => buf.WriteString(Itoa(n));
    case Truth(b) => buf.WriteString(TruthText(b));
    case Rec(values) =>
      buf.WriteString("{\n");
      var first := true;
      for k := 0 to |values|
        invariant buf.text + Fields(quote, t, v, k, indent, first)
                  == old(buf.text) + "{\n" + Fields(quote, t, v, 0, indent, true)
      {
        if !t.fields[k].exported || Unset(values[k], t.fields[k].typ) { continue; }
        Regroup(buf.text, Start(t.fields[k].name, indent, first),
                Print(quote, t.fields[k].typ, values[k], indent + 2), Fields(quote, t, v, k + 1, indent, false));
        WriteStart(t.fields[k].name, indent, first, buf);
        Prettify(quote, t.fields[k].typ, values[k], indent + 2, buf);
        first := false;
      }
      assert buf.text + "" == buf.text;
      Regroup(old(buf.text), "{\n", Fields(quote, t, v, 0, indent, true), Ending(indent));
      buf.WriteString("\n");
      buf.WriteString(Spaces(indent));
      buf.WriteString("}");
  }

  method WgConfigString(quote: string -> string, t: Type, c: Value) returns (r: string)
    requires t.Record? && HasType(c, t)
    ensures r == ConfigText(quote, t, c)
  {
    if c.Nil? { return "{\n\n}"; }
    var buf := new Builder();
    Prettify(quote, t, c, 0, buf);
    return buf.text;
  }

  // ---------------------------------------------------------------- unambiguity

  lemma {:induction false} AfterQuoteExtends(s: string, x: string)
    requires AfterQuote(s).Some?
    ensures AfterQuote(s + x) == Some(AfterQuote(s).value + x)
  {
    if s[0] == '"' {
      assert (s + x)[1..] == s[1..] + x;
    } else if s[0] != '\\' {
      assert (s + x)[1..] == s[1..] + x;
      AfterQuoteExtends(s[1..], x);
    } else {
      assert (s + x)[2..] == s[2..] + x;
      AfterQuoteExtends(s[2..], x);
    }
  }

  /** A quoted text says where it ends, whatever follows it. */
  lemma QuotePrefixFree(quote: string -> string, s: string, t: string, x: string, y: string)
    requires Quoting(quote) && quote(s) + x == quote(t) + y
    ensures s == t && x == y
  {
    QuotedTail(quote, s, x);
    QuotedTail(quote, t, y);
    assert quote(s) == (quote(s) + x)[..|quote(s) + x| - |x|];
    assert quote(t) == (quote(t) + y)[..|quote(t) + y| - |y|];
  }

  lemma QuotedTail(quote: string -> string, s: string, x: string)
    requires Quoting(quote)
    ensures AfterQuote((quote(s) + x)[1..]) == Some(x)
  {
    assert (quote(s) + x)[1..] == quote(s)[1..] + x;
    AfterQuoteExtends(quote(s)[1..], x);
    assert "" + x == x;
  }

  predicate NoDigitFirst(x: string) {
    x == "" || !IsDigit(x[0])
  }

  lemma TruthPrefixFree(b: bool, c: bool, x: string, y: string)
    requires TruthText(b) + x == TruthText(c) + y
    ensures b == c && x == y
  {
    assert (TruthText(b) + x)[0] == TruthText(b)[0];
    assert (TruthText(c) + y)[0] == TruthText(c)[0];
    Cancel(TruthText(b), x, y);
  }

  lemma Cancel(a: string, x: string, y: string)
    ensures a + x == a + y <==> x == y
  {
    assert x == (a + x)[|a|..] && y == (a + y)[|a|..];
  }

  /** What stands between a written value and the end of its record, and what follows. */
  function Rest(quote: string -> string, t: Type, v: Value, k: nat, indent: nat, first: bool, x: string): string
    requires HasType(v, t) && v.Rec? && k <= |t.fields|
  {
    Fields(quote, t, v, k, indent, first) + Ending(indent) + x
  }

  lemma RestOfWritten(quote: string -> string, t: Type, v: Value, k: nat, indent: nat, first: bool, x: string)
    requires HasType(v, t) && v.Rec? && k < |t.fields| && Written(t, v, k)
    ensures Rest(quote, t, v, k, indent, first, x)
            == Start(t.fields[k].name, indent, first)
               + (Print(quote, t.fields[k].typ, v.values[k], indent + 2) + Rest(quote, t, v, k + 1, indent, false, x))
  {
  }

  /** The first byte tells whether another field follows. */
  lemma {:induction false} RestStart(quote: string -> string, t: Type, v: Value, k: nat, indent: nat,
                                     first: bool, x: string)
    requires HasType(v, t) && v.Rec? && k <= |t.fields|
    ensures var r := Rest(quote, t, v, k, indent, first, x);
      && r != ""
      && (r[0] == '\n' || r[0] == (if first then ' ' else ','))
      && ((forall i | k <= i < |t.fields| :: !Written(t, v, i)) ==> r == Ending(indent) + x)
    decreases |t.fields| - k
  {
    if k < |t.fields| {
      if Written(t, v, k) {
        RestOfWritten(quote, t, v, k, indent, first, x);
      } else {
        RestStart(quote, t, v, k + 1, indent, first, x);
      }
    } else {
      assert Rest(quote, t, v, k, indent, first, x) == Ending(indent) + x;
    }
  }

  lemma StartClash(a: string, b: string, indent: nat, first: bool, x: string, y: string)
    requires ':' !in a && ':' !in b
    requires Start(a, indent, first) + x == Start(b, indent, first) + y
    ensures a == b
  {
    var lead := (if first then "" else ",\n") + Spaces(indent + 2);
    assert Start(a, indent, first) + x == lead + (a + (": " + x));
    assert Start(b, indent, first) + y == lead + (b + (": " + y));
    Cancel(lead, a + (": " + x), b + (": " + y));
    var whole := a + (": " + x);
    assert whole[|a|] == ':' && whole[|b|] == ':';
    assert forall i | 0 <= i < |a| :: whole[i] == a[i] != ':';
    assert forall i | 0 <= i < |b| :: whole[i] == b[i] != ':';
    assert a == whole[..|a|] && b == whole[..|b|];
  }

  /** A later field never reads like an earlier one. */
  lemma {:induction false} NoSuchField(quote: string -> string, t: Type, v: Value, k: nat, name: string,
                                       indent: nat, first: bool, x: string, y: string)
    requires HasType(v, t) && v.Rec? && k <= |t.fields| && WellNamed(t)
    requires ':' !in name && forall i | k <= i < |t.fields| :: t.fields[i].name != name
    ensures Rest(quote, t, v, k, indent, first, x) != Start(name, indent, first) + y
    decreases |t.fields| - k
  {
    if k == |t.fields| {
      RestStart(quote, t, v, k, indent, first, x);
      assert (Start(name, indent, first) + y)[0] == if first then ' ' else ',';
    } else if Written(t, v, k) {
      RestOfWritten(quote, t, v, k, indent, first, x);
      if Rest(quote, t, v, k, indent, first, x) == Start(name, indent, first) + y {
        StartClash(t.fields[k].name, name, indent, first,
                   Print(quote, t.fields[k].typ, v.values[k], indent + 2) + Rest(quote, t, v, k + 1, indent, false, x),
                   y);
      }
    } else {
      NoSuchField(quote, t, v, k + 1, name, indent, first, x, y);
    }
  }

  predicate SameFrom(t: Type, v: Value, w: Value, k: nat)
    requires HasType(v, t) && HasType(w, t) && v.Rec? && w.Rec? && k <= |t.fields|
  {
    forall i | k <= i < |t.fields| && t.fields[i].exported :: SamePopulated(t.fields[i].typ, v.values[i], w.values[i])
  }

  lemma RecordText(quote: string -> string, t: Type, v: Value, indent: nat, x: string)
    requires HasType(v, t) && v.Rec?
    ensures Print(quote, t, v, indent) + x == "{\n" + Rest(quote, t, v, 0, indent, true, x)
  {
  }

  /** Equal text before texts that begin with no digit means equal values and equal texts. */
  lemma {:induction false} PrintUnambiguous(quote: string -> string, t: Type, v: Value, w: Value, indent: nat,
      x: string, y: string)
    requires Quoting(quote) && WellNamed(t) && NoDigitFirst(x) && NoDigitFirst(y)
    requires HasType(v, t) && HasType(w, t) && !v.Nil? && !w.Nil?
    requires Print(quote, t, v, indent) + x == Print(quote, t, w, indent) + y
    ensures SamePopulated(t, v, w) && x == y
    decreases t, |if t.Record? then t.fields else []| + 1
  {
    match v
    case Str(s) => QuotePrefixFree(quote, s, w.text, x, y);
    case Num(n) => ItoaPrefixFree(n, w.n, x, y);
    case Truth(b) => TruthPrefixFree(b, w.b, x, y);
    case Rec(_) =>
      RecordText(quote, t, v, indent, x);
      RecordText(quote, t, w, indent, y);
      Cancel("{\n", Rest(quote, t, v, 0, indent, true, x), Rest(quote, t, w, 0, indent, true, y));
      FieldsUnambiguous(quote, t, v, w, 0, indent, true, x, y);
  }

  lemma {:induction false} FieldsUnambiguous(quote: string -> string, t: Type, v: Value, w: Value, k: nat,
      indent: nat, first: bool, x: string, y: string)
    requires Quoting(quote) && WellNamed(t) && NoDigitFirst(x) && NoDigitFirst(y)
    requires HasType(v, t) && HasType(w, t) && v.Rec? && w.Rec? && k <= |t.fields|
    requires Rest(quote, t, v, k, indent, first, x) == Rest(quote, t, w, k, indent, first, y)
    ensures SameFrom(t, v, w, k) && x == y
    decreases t, |t.fields| - k
  {
    if k == |t.fields| {
      assert Rest(quote, t, v, k, indent, first, x) == Ending(indent) + x;
      assert Rest(quote, t, w, k, indent, first, y) == Ending(indent) + y;
      Cancel(Ending(indent), x, y);
    } else if Written(t, v, k) && Written(t, w, k) {
      BothWritten(quote, t, v, w, k, indent, first, x, y);
    } else if Written(t, v, k) {
      RestOfWritten(quote, t, v, k, indent, first, x);
      NoSuchField(quote, t, w, k + 1, t.fields[k].name, indent, first, y,
                  Print(quote, t.fields[k].typ, v.values[k], indent + 2) + Rest(quote, t, v, k + 1, indent, false, x));
      assert false;
    } else if Written(t, w, k) {
      RestOfWritten(quote, t, w, k, indent, first, y);
      NoSuchField(quote, t, v, k + 1, t.fields[k].name, indent, first, x,
                  Print(quote, t.fields[k].typ, w.values[k], indent + 2) + Rest(quote, t, w, k + 1, indent, false, y));
      assert false;
    } else {
      FieldsUnambiguous(quote, t, v, w, k + 1, indent, first, x, y);
      if t.fields[k].exported { assert v.values[k] == w.values[k]; }
    }
  }

  lemma {:induction false} BothWritten(quote: string -> string, t: Type, v: Value, w: Value, k: nat,
                                       indent: nat, first: bool, x: string, y: string)
    requires Quoting(quote) && WellNamed(t) && NoDigitFirst(x) && NoDigitFirst(y)
    requires HasType(v, t) && HasType(w, t) && v.Rec? && w.Rec? && k < |t.fields|
    requires Written(t, v, k) && Written(t, w, k)
    requires Rest(quote, t, v, k, indent, first, x) == Rest(quote, t, w, k, indent, first, y)
    ensures SameFrom(t, v, w, k) && x == y
    decreases t, |t.fields| - k, 0
  {
    var typ := t.fields[k].typ;
    var restV, restW := Rest(quote, t, v, k + 1, indent, false, x), Rest(quote, t, w, k + 1, indent, false, y);
    RestOfWritten(quote, t, v, k, indent, first, x);
    RestOfWritten(quote, t, w, k, indent, first, y);
    Cancel(Start(t.fields[k].name, indent, first),
           Print(quote, typ, v.values[k], indent + 2) + restV, Print(quote, typ, w.values[k], indent + 2) + restW);
    RestStart(quote, t, v, k + 1, indent, false, x);
    RestStart(quote, t, w, k + 1, indent, false, y);
    PrintUnambiguous(quote, typ, v.values[k], w.values[k], indent + 2, restV, restW);
    FieldsUnambiguous(quote, t, v, w, k + 1, indent, false, x, y);
  }

  lemma {:induction false} SamePrints(quote: string -> string, t: Type, v: Value, w: Value, indent: nat)
    requires HasType(v, t) && HasType(w, t) && !v.Nil? && !w.Nil? && SamePopulated(t, v, w)
    ensures Print(quote, t, v, indent) == Print(quote, t, w, indent)
    decreases t, |if t.Record? then t.fields else []| + 1
  {
    if v.Rec? { SameFieldsPrint(quote, t, v, w, 0, indent, true); }
  }

  lemma {:induction false} SameFieldsPrint(quote: string -> string, t: Type, v: Value, w: Value, k: nat,
      indent: nat, first: bool)
    requires HasType(v, t) && HasType(w, t) && v.Rec? && w.Rec? && k <= |t.fields| && SameFrom(t, v, w, k)
    ensures Fields(quote, t, v, k, indent, first) == Fields(quote, t, w, k, indent, first)
    decreases t, |t.fields| - k
  {
    if k < |t.fields| {
      if Written(t, v, k) {
        SamePrints(quote, t.fields[k].typ, v.values[k], w.values[k], indent + 2);
        SameFieldsPrint(quote, t, v, w, k + 1, indent, false);
      } else {
        SameFieldsPrint(quote, t, v, w, k + 1, indent, first);
      }
    }
  }

  /** Two configurations have the same text exactly when their populated fields agree. */
  lemma ConfigTextUnambiguous(quote: string -> string, t: Type, v: Value, w: Value)
    requires Quoting(quote) && t.Record? && WellNamed(t)
    requires HasType(v, t) && HasType(w, t) && !v.Nil? && !w.Nil?
    ensures ConfigText(quote, t, v) == ConfigText(quote, t, w) <==> SamePopulated(t, v, w)
  {
    var a, b := Print(quote, t, v, 0), Print(quote, t, w, 0);
    if a == b {
      assert a + "" == b + "";
      PrintUnambiguous(quote, t, v, w, 0, "", "");
    }
    if SamePopulated(t, v, w) { SamePrints(quote, t, v, w, 0); }
  }

  /** A nil configuration reads like one that is there, exactly when the latter has nothing set. */
  lemma NilReadsLikeUnset(quote: string -> string, t: Type, c: Value)
    requires t.Record? && HasType(c, t) && !c.Nil?
    ensures ConfigText(quote, t, c) == ConfigText(quote, t, Nil)
            <==> forall k | 0 <= k < |t.fields| :: !Written(t, c, k)
  {
    var rest := Rest(quote, t, c, 0, 0, true, "");
    assert Print(quote, t, c, 0) == "{\n" + rest;
    assert Ending(0) + "" == "\n}";
    assert "{\n\n}" == "{\n" + "\n}";
    Cancel("{\n", rest, "\n}");
    RestStart(quote, t, c, 0, 0, true, "");
    if k :| 0 <= k < |t.fields| && Written(t, c, k) {
      WrittenStartsWithSpace(quote, t, c, 0, k, 0, "");
    }
  }

  lemma {:induction false} WrittenStartsWithSpace(quote: string -> string, t: Type, v: Value, from: nat,
      k: nat, indent: nat, x: string)
    requires HasType(v, t) && v.Rec? && from <= k < |t.fields| && Written(t, v, k)
    ensures var r := Rest(quote, t, v, from, indent, true, x); r != "" && r[0] == ' '
    decreases k - from
  {
    if Written(t, v, from) {
      RestOfWritten(quote, t, v, from, indent, true, x);
    } else {
      WrittenStartsWithSpace(quote, t, v, from + 1, k, indent, x);
    }
  }

  // ---------------------------------------------------------------- a quoting as assumed

  function HexDigit(k: nat): char
    requires k < 16
  {
    "0123456789abcdef"[k]
  }

  /** The letter that stands for a byte after a backslash. */
  function Letter(c: char): Option<char> {
    if c == '\"' || c == '\\' then Some(c)
    else if c == '\U{7}' then Some('a')
    else if c == '\U{8}' then Some('b')
    else if c == '\U{C}' then Some('f')
    else if c == '\n' then Some('n')
    else if c == '\r' then Some('r')
    else if c == '\t' then Some('t')
    else if c == '\U{B}' then Some('v')
    else None
  }

  /** How strconv.Quote writes an ASCII byte; any other character stands for itself. */
  function QuoteChar(c: char): string {
    if Letter(c).Some? then ['\\', Letter(c).value]
    else if c < ' ' || c == '\U{7F}' then ['\\', 'x', HexDigit(c as int / 16), HexDigit(c as int % 16)]
    else [c]
  }

  function Quote(s: string): string {
    "\"" + FlatMap(QuoteChar, s) + "\""
  }

  lemma {:induction false} QuoteCloses(s: string)
    ensures AfterQuote(FlatMap(QuoteChar, s) + "\"") == Some("")
  {
    if s == "" {
      assert FlatMap(QuoteChar, s) + "\"" == "\"" && "\""[1..] == "";
    } else {
      QuoteCloses(s[1..]);
      var rest := FlatMap(QuoteChar, s[1..]) + "\"";
      assert FlatMap(QuoteChar, s) + "\"" == QuoteChar(s[0]) + rest;
      CharCloses(s[0], rest);
    }
  }

  lemma PlainByte(c: char, rest: string)
    requires c != '"' && c != '\\'
    ensures AfterQuote([c] + rest) == AfterQuote(rest)
  {
    assert ([c] + rest)[1..] == rest;
  }

  lemma HiddenByte(c: char, rest: string)
    ensures AfterQuote(['\\', c] + rest) == AfterQuote(rest)
  {
    assert (['\\', c] + rest)[2..] == rest;
  }

  lemma CharCloses(c: char, rest: string)
    ensures AfterQuote(QuoteChar(c) + rest) == AfterQuote(rest)
  {
    if Letter(c).Some? {
      HiddenByte(Letter(c).value, rest);
    } else if c < ' ' || c == '\U{7F}' {
      HexCloses(HexDigit(c as int / 16), HexDigit(c as int % 16), rest);
    } else {
      PlainByte(c, rest);
    }
  }

  lemma HexCloses(high: char, low: char, rest: string)
    requires high != '"' && high != '\\' && low != '"' && low != '\\'
    ensures AfterQuote(['\\', 'x', high, low] + rest) == AfterQuote(rest)
  {
    HiddenByte('x', [high] + ([low] + rest));
    PlainByte(high, [low] + rest);
    PlainByte(low, rest);
    assert ['\\', 'x', high, low] + rest == ['\\', 'x'] + ([high] + ([low] + rest));
  }

  lemma LettersDiffer(c: char, d: char)
    requires Letter(c).Some? && Letter(d) == Letter(c)
    ensures c == d && Letter(c).value != 'x'
  {
  }

  lemma HexDigitsDiffer(j: nat, k: nat)
    requires j < 16 && k < 16 && HexDigit(j) == HexDigit(k)
    ensures j == k
  {
  }

  /** Different characters are never written alike, nor one as the beginning of the other. */
  lemma CharsDiffer(c: char, d: char)
    requires c != d
    ensures var p, q := QuoteChar(c), QuoteChar(d);
      exists k :: 0 <= k < |p| && k < |q| && p[k] != q[k]
  {
    var p, q := QuoteChar(c), QuoteChar(d);
    if Letter(c).Some? && Letter(d).Some? {
      if Letter(d) == Letter(c) { LettersDiffer(c, d); }
      assert p[1] != q[1];
    } else if |p| == 4 && |q| == 4 {
      if p[2] == q[2] { HexDigitsDiffer(c as int / 16, d as int / 16); }
      if p[3] == q[3] { HexDigitsDiffer(c as int % 16, d as int % 16); }
      assert p[2] != q[2] || p[3] != q[3];
    } else if |p| == 1 || |q| == 1 {
      assert p[0] != q[0];
    } else {
      assert p[1] != q[1];
    }
  }

  lemma DifferentTexts(p: string, q: string, x: string, y: string, k: nat)
    requires k < |p| && k < |q| && p[k] != q[k]
    ensures p + x != q + y
  {
    assert (p + x)[k] == p[k] && (q + y)[k] == q[k];
  }

  /** The way one character is written tells it and the text after it. */
  lemma CharPrefixFree(c: char, d: char, x: string, y: string)
    requires QuoteChar(c) + x == QuoteChar(d) + y
    ensures c == d && x == y
  {
    var p, q := QuoteChar(c), QuoteChar(d);
    if c != d {
      CharsDiffer(c, d);
      var k :| 0 <= k < |p| && k < |q| && p[k] != q[k];
      DifferentTexts(p, q, x, y, k);
    }
    Cancel(p, x, y);
  }

  lemma {:induction false} QuoteInjective(s: string, t: string)
    requires FlatMap(QuoteChar, s) == FlatMap(QuoteChar, t)
    ensures s == t
  {
    if s == "" {
      assert t == "" || FlatMap(QuoteChar, t) != "";
    } else if t != "" {
      CharPrefixFree(s[0], t[0], FlatMap(QuoteChar, s[1..]), FlatMap(QuoteChar, t[1..]));
      QuoteInjective(s[1..], t[1..]);
      assert s == [s[0]] + s[1..] && t == [t[0]] + t[1..];
    }
  }

  /** What the printer relies on is met by Go's own escapes. */
  lemma QuoteIsQuoting()
    ensures Quoting(Quote)
  {
    forall s ensures Quote(s) != "" && Quote(s)[0] == '"' && AfterQuote(Quote(s)[1..]) == Some("") {
      QuoteCloses(s);
      assert Quote(s)[1..] == FlatMap(QuoteChar, s) + "\"";
    }
    forall s, t | Quote(s) == Quote(t) ensures s == t {
      assert FlatMap(QuoteChar, s) == Quote(s)[1..|Quote(s)|-1];
      assert FlatMap(QuoteChar, t) == Quote(t)[1..|Quote(t)|-1];
      QuoteInjective(s, t);
    }
  }

  // ---------------------------------------------------------------- the layout

  /** One entry for every field from k on that is exported and set, in the order of the fields. */
  function Entries(quote: string -> string, t: Type, v: Value, k: nat, indent: nat): seq<string>
    requires HasType(v, t) && v.Rec? && k <= |t.fields|
    decreases |t.fields| - k
  {
    if k == |t.fields| then []
    else
      var rest := Entries(quote, t, v, k + 1, indent);
      var f, x := t.fields[k], v.values[k];
      if !f.exported || x.Nil? || (f.typ.Enumeration? && x == Str("")) then rest
      else [Entry(f.name, Print(quote, f.typ, x, indent + 2), indent)] + rest
  }

  function Entry(name: string, text: string, indent: nat): string {
    Spaces(indent + 2) + name + ": " + text
  }

  function Joined(entries: seq<string>): string {
    if entries == [] then "" else if |entries| == 1 then entries[0] else entries[0] + (",\n" + Joined(entries[1..]))
  }

  /** How entries go on behind another one. */
  function Following(entries: seq<string>): string {
    if entries == [] then "" else ",\n" + Joined(entries)
  }

  lemma JoinedFirst(entry: string, rest: seq<string>)
    ensures Joined([entry] + rest) == entry + Following(rest)
  {
    assert ([entry] + rest)[1..] == rest;
    if rest == [] { assert entry + "" == entry; }
  }

  lemma StartOfEntry(name: string, text: string, indent: nat, rest: string)
    ensures Start(name, indent, true) + text + rest == Entry(name, text, indent) + rest
    ensures Start(name, indent, false) + text + rest == ",\n" + (Entry(name, text, indent) + rest)
  {
  }

  lemma {:induction false} FieldsAreJoined(quote: string -> string, t: Type, v: Value, k: nat, indent: nat)
    requires HasType(v, t) && v.Rec? && k <= |t.fields|
    ensures Fields(quote, t, v, k, indent, true) == Joined(Entries(quote, t, v, k, indent))
    ensures Fields(quote, t, v, k, indent, false) == Following(Entries(quote, t, v, k, indent))
    decreases |t.fields| - k
  {
    if k < |t.fields| {
      FieldsAreJoined(quote, t, v, k + 1, indent);
      if Written(t, v, k) {
        var name, text := t.fields[k].name, Print(quote, t.fields[k].typ, v.values[k], indent + 2);
        var rest := Entries(quote, t, v, k + 1, indent);
        JoinedFirst(Entry(name, text, indent), rest);
        StartOfEntry(name, text, indent, Following(rest));
      }
    }
  }

  /** A record is its entries, one a line and separated by commas, in braces of their own lines. */
  lemma RecordLayout(quote: string -> string, t: Type, v: Value, indent: nat)
    requires HasType(v, t) && v.Rec?
    ensures Print(quote, t, v, indent)
            == "{\n" + Joined(Entries(quote, t, v, 0, indent)) + ("\n" + Spaces(indent) + "}")
  {
    FieldsAreJoined(quote, t, v, 0, indent);
  }

  /** What is no record: flags in words, numbers in decimal, texts quoted. */
  lemma ScalarText(quote: string -> string, t: Type, v: Value, indent: nat)
    requires HasType(v, t) && !v.Nil? && !v.Rec?
    ensures var text := Print(quote, t, v, indent);
      match v
      case Truth(b) => (text == "true" <==> b) && (text == "false" <==> !b)
      case Num(n) => IsInt64(n) ==> Atoi(text) == n
      case Str(s) => text == quote(s)
      case _ => true
  {
    assert "true"[0] != "false"[0];
    if v.Num? && IsInt64(v.n) { AtoiItoa(v.n); }
  }
}
