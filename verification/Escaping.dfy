/**
 Escaping of byte strings for SQL literals. A Go string or []byte is a `string` here, one
 character a byte.
 */
module Escaping {
  import opened Strings
  import opened Wrappers

  /** The bytes that are written as two. */
  predicate Special(c: char) {
    c == '\0' || c == '\n' || c == '\r' || c == '\U{1A}' || c == '\'' || c == '"' || c == '\\'
  }

  function Lead(c: char): char {
    if c == '\'' then '\'' else '\\'
  }

  function Code(c: char): char {
    if c == '\0' then '0'
    else if c == '\n' then 'n'
    else if c == '\r' then 'r'
    else if c == '\U{1A}' then 'Z'
    else c
  }

  /** The bytes escapeBytesBackslash writes for one input byte. */
  function EscapeByte(c: char): string {
    if Special(c) then [Lead(c), Code(c)] else [c]
  }

  function Escape(v: string): string {
    FlatMap(EscapeByte, v)
  }

  lemma {:induction false} EscapeLength(v: string)
    ensures |v| <= |Escape(v)| <= 2 * |v|
  {
    if v != [] { EscapeLength(v[1..]); }
  }

  /** The byte a two-byte escape stands for, if it is one. */
  function Decoded(lead: char, code: char): Option<char> {
    if lead == '\'' then (if code == '\'' then Some('\'') else None)
    else if code == '0' then Some('\0')
    else if code == 'n' then Some('\n')
    else if code == 'r' then Some('\r')
    else if code == 'Z' then Some('\U{1A}')
    else if code == '"' || code == '\\' then Some(code)
    else None
  }

  /** Reads escaped bytes back; None for text no escaping produces. */
  function Unescape(s: string): Option<string> {
    if s == [] then Some([])
    else if s[0] == '\\' || s[0] == '\'' then
      if |s| < 2 then None else Prepend(Decoded(s[0], s[1]), Unescape(s[2..]))
    else Prepend(Some(s[0]), Unescape(s[1..]))
  }

  function Prepend(c: Option<char>, rest: Option<string>): Option<string> {
    if c.None? || rest.None? then None else Some([c.value] + rest.value)
  }

  /** Escaping loses nothing: the decoder recovers every byte string. */
  lemma {:induction false} UnescapeEscape(v: string)
    ensures Unescape(Escape(v)) == Some(v)
  {
    if v != [] {
      UnescapeEscape(v[1..]);
      var c, rest := v[0], Escape(v[1..]);
      assert v == [c] + v[1..];
      if Special(c) {
        assert Escape(v) == [Lead(c), Code(c)] + rest;
        assert Escape(v)[2..] == rest;
      } else {
        assert Escape(v) == [c] + rest;
        assert Escape(v)[1..] == rest;
      }
    }
  }

  /** The two ways a SQL lexer may read the inside of a quoted literal. */
  datatype Lexing = QuoteDoubling | BackslashEscapes

  /** How far after its opening quote a literal is closed; `text` starts after that quote. */
  function ClosingQuote(text: string, mode: Lexing): Option<nat> {
    if text == [] then None
    else if text[0] == '\\' && mode == BackslashEscapes then
      if |text| < 2 then None else Later(2, ClosingQuote(text[2..], mode))
    else if text[0] == '\'' then
      if |text| > 1 && text[1] == '\'' then Later(2, ClosingQuote(text[2..], mode)) else Some(0)
    else Later(1, ClosingQuote(text[1..], mode))
  }

  function Later(n: nat, p: Option<nat>): Option<nat> {
    if p.None? then None else Some(n + p.value)
  }

  /** No lexing stops inside an escaped byte. */
  lemma SkipEscapedByte(c: char, rest: string, mode: Lexing)
    ensures ClosingQuote(EscapeByte(c) + rest, mode) == Later(|EscapeByte(c)|, ClosingQuote(rest, mode))
  {
    if Special(c) {
      var text := [Lead(c), Code(c)] + rest;
      assert text[2..] == rest && text[1..] == [Code(c)] + rest;
      if mode == QuoteDoubling && c != '\'' {
        assert ClosingQuote(text, mode) == Later(1, ClosingQuote([Code(c)] + rest, mode));
        assert ([Code(c)] + rest)[1..] == rest;
      }
    } else {
      assert ([c] + rest)[1..] == rest;
    }
  }

  /** Scanning goes through escaped bytes as a block, whatever follows them. */
  lemma {:induction false} SkipEscaped(v: string, rest: string, mode: Lexing)
    ensures ClosingQuote(Escape(v) + rest, mode) == Later(|Escape(v)|, ClosingQuote(rest, mode))
  {
    if v == [] {
      assert Escape(v) + rest == rest;
    } else {
      SkipEscaped(v[1..], rest, mode);
      assert Escape(v) + rest == EscapeByte(v[0]) + (Escape(v[1..]) + rest);
      SkipEscapedByte(v[0], Escape(v[1..]) + rest, mode);
    }
  }

  /**
   A quoted literal is closed at its own last quote, under either lexing and whatever bytes it
   holds, exactly when the text after it does not go on with a quote.
   */
  lemma LiteralIsSelfDelimiting(v: string, after: string, mode: Lexing)
    ensures ClosingQuote(Escape(v) + "'" + after, mode) == Some(|Escape(v)|)
            <==> (after == [] || after[0] != '\'')
  {
    assert Escape(v) + "'" + after == Escape(v) + ("'" + after);
    SkipEscaped(v, "'" + after, mode);
    if after != [] { assert ("'" + after)[1] == after[0]; }
  }

  // ---------------------------------------------------------------- the writer

  /** A Go byte slice that starts its array: `len` bytes used, capacity `arr.Length`. */
  datatype Slice = Slice(arr: array<char>, len: nat) {
    predicate Valid() {
      len <= arr.Length
    }

    function Text(): string
      requires Valid()
      reads arr
    {
      arr[..len]
    }
  }

  /** Extends the slice by `appendSize` bytes, in place when the capacity allows. */
  method ReserveBuffer(buf: Slice, appendSize: nat) returns (r: Slice)
    requires buf.Valid()
    ensures r.Valid() && r.len == buf.len + appendSize
    ensures if buf.len + appendSize <= buf.arr.Length then r.arr == buf.arr
            else fresh(r.arr) && r.arr.Length == 2 * buf.len + appendSize
    ensures r.arr[..buf.len] == buf.Text()
  {
    var newSize := buf.len + appendSize;
    if buf.arr.Length < newSize {
      var newBuf := new char[buf.len * 2 + appendSize](_ => '\0');
      forall i | 0 <= i < buf.len { newBuf[i] := buf.arr[i]; }
      return Slice(newBuf, newSize);
    }
    return Slice(buf.arr, newSize);
  }

  /** The bytes of `arr` outside [lo, hi) are what they were. */
  twostate predicate OnlyWrites(arr: array<char>, lo: nat, hi: nat)
    reads arr
  {
    forall k | 0 <= k < arr.Length && !(lo <= k < hi) :: arr[k] == old(arr[k])
  }

  /** The switch of the writing loop: one byte escaped at `pos`. */
  method WriteEscaped(arr: array<char>, pos: nat, c: char) returns (next: nat)
    requires pos + 2 <= arr.Length
    modifies arr
    ensures next == pos + |EscapeByte(c)| && next <= pos + 2
    ensures arr[..next] == old(arr[..pos]) + EscapeByte(c)
    ensures OnlyWrites(arr, pos, pos + 2)
  {
    if c == '\0' {
      arr[pos], arr[pos+1] := '\\', '0';
    } else if c == '\n' {
      arr[pos], arr[pos+1] := '\\', 'n';
    } else if c == '\r' {
      arr[pos], arr[pos+1] := '\\', 'r';
    } else if c == '\U{1A}' {
      arr[pos], arr[pos+1] := '\\', 'Z';
    } else if c == '\'' {
      arr[pos], arr[pos+1] := '\'', '\'';
    } else if c == '"' {
      arr[pos], arr[pos+1] := '\\', '"';
    } else if c == '\\' {
      arr[pos], arr[pos+1] := '\\', '\\';
    } else {
      arr[pos] := c;
    }
    next := if Special(c) then pos + 2 else pos + 1;
  }

  /**
   escapeBytesBackslash: the old bytes followed by the escaped ones; nothing outside the
   reserved window is written, and the argument's array is untouched when it is too small.
   */
  method EscapeBytesBackslash(buf: Slice, v: string) returns (r: Slice)
    requires buf.Valid()
    modifies buf.arr
    ensures r.Valid() && r.Text() == old(buf.Text()) + Escape(v)
    ensures r.arr == buf.arr || fresh(r.arr)
    ensures r.arr == buf.arr <==> buf.len + 2 * |v| <= buf.arr.Length
    ensures OnlyWrites(buf.arr, buf.len, buf.len + 2 * |v|)
    ensures r.arr != buf.arr ==> buf.arr[..] == old(buf.arr[..])
  {
    var pos := buf.len;
    var b := ReserveBuffer(buf, |v| * 2);
    for i := 0 to |v|
      invariant |Escape(v[..i])| <= 2 * i && pos == buf.len + |Escape(v[..i])|
      invariant b.arr[..pos] == old(buf.Text()) + Escape(v[..i])
      invariant OnlyWrites(buf.arr, buf.len, buf.len + 2 * |v|)
      invariant b.arr != buf.arr ==> buf.arr[..] == old(buf.arr[..])
    {
      EscapeStep(v, i);
      pos := WriteEscaped(b.arr, pos, v[i]);
    }
    assert v[..|v|] == v;
    return Slice(b.arr, pos);
  }

  /** One turn of the writing loop: what it adds, and that the window has room for it. */
  lemma EscapeStep(v: string, i: nat)
    requires i < |v|
    ensures Escape(v[..i+1]) == Escape(v[..i]) + EscapeByte(v[i])
    ensures |Escape(v[..i+1])| <= 2 * (i + 1)
  {
    assert v[..i+1] == v[..i] + [v[i]];
    FlatMapSnoc(EscapeByte, v[..i], v[i]);
    EscapeLength(v[..i+1]);
  }

  /** Go's append of a string: in place when it fits, otherwise into a larger copy. */
  method Append(buf: Slice, s: string) returns (r: Slice)
    requires buf.Valid()
    modifies buf.arr
    ensures r.Valid() && r.Text() == old(buf.Text()) + s
    ensures r.arr == buf.arr || fresh(r.arr)
    ensures OnlyWrites(buf.arr, buf.len, buf.len + |s|)
  {
    var b := ReserveBuffer(buf, |s|);
    forall i | 0 <= i < |s| { b.arr[buf.len + i] := s[i]; }
    assert b.arr[..buf.len] == old(buf.Text());
    return b;
  }

  /** FormatString: the escaped string between single quotes. */
  method FormatString(v: string) returns (s: string)
    ensures s == "'" + Escape(v) + "'"
  {
    var none := new char[0];
    var escaped := EscapeBytesBackslash(Slice(none, 0), v);
    assert escaped.Text() == Escape(v);
    return "'" + escaped.arr[..escaped.len] + "'";
  }

  /** FormatBytes: the same with the `_binary` introducer. */
  method FormatBytes(v: string) returns (s: string)
    ensures s == "_binary'" + Escape(v) + "'"
  {
    var none := new char[0];
    var buf := Append(Slice(none, 0), "_binary'");
    buf := EscapeBytesBackslash(buf, v);
    buf := Append(buf, "'");
    return buf.arr[..buf.len];
  }
}
