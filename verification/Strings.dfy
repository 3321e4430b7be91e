/** Byte-string helpers shared by the codecs: mapping, counting, splitting and joining. */
module Strings {
  /** The concatenation of f over the bytes of v. */
  function FlatMap(f: char -> string, v: string): string {
    if v == [] then [] else f(v[0]) + FlatMap(f, v[1..])
  }

  lemma {:induction false} FlatMapSnoc(f: char -> string, v: string, c: char)
    ensures FlatMap(f, v + [c]) == FlatMap(f, v) + f(c)
  {
    if v == [] {
      assert FlatMap(f, [c]) == f(c) + FlatMap(f, [c][1..]);
    } else {
      FlatMapSnoc(f, v[1..], c);
      assert (v + [c])[1..] == v[1..] + [c];
    }
  }

  function Count(s: string, c: char): nat {
    if s == [] then 0 else (if s[0] == c then 1 else 0) + Count(s[1..], c)
  }

  lemma {:induction false} CountAppend(s: string, t: string, c: char)
    ensures Count(s + t, c) == Count(s, c) + Count(t, c)
  {
    if s == [] {
      assert s + t == t;
    } else {
      assert (s + t)[1..] == s[1..] + t;
      CountAppend(s[1..], t, c);
    }
  }

  /** strings.IndexByte: the first position of c, or -1. */
  function IndexByte(s: string, c: char): (q: int)
    ensures -1 <= q < |s|
    ensures q >= 0 ==> s[q] == c && c !in s[..q]
    ensures q == -1 ==> c !in s
  {
    if s == [] then -1
    else if s[0] == c then 0
    else
      var q := IndexByte(s[1..], c);
      if q == -1 then -1 else assert s[..q + 1] == [s[0]] + s[1..][..q]; q + 1
  }

  lemma {:induction false} CountNone(s: string, c: char)
    ensures Count(s, c) == 0 <==> c !in s
  {
    if s != [] {
      CountNone(s[1..], c);
      assert s == [s[0]] + s[1..];
    }
  }

  /** strings.Split by one byte. */
  function Split(s: string, c: char): (r: seq<string>)
    ensures |r| >= 1
  {
    if s == [] then [[]]
    else
      var rest := Split(s[1..], c);
      if s[0] == c then [[]] + rest else [[s[0]] + rest[0]] + rest[1..]
  }

  /** Splitting at a separator splits the two sides. */
  lemma {:induction false} SplitAppend(s: string, c: char, t: string)
    ensures Split(s + [c] + t, c) == Split(s, c) + Split(t, c)
  {
    var whole := s + [c] + t;
    if s == [] {
      assert whole[1..] == t;
    } else {
      assert whole[1..] == s[1..] + [c] + t;
      SplitAppend(s[1..], c, t);
    }
  }

  /** Text is one piece, itself, exactly when it holds no separator. */
  lemma {:induction false} SplitWhole(s: string, c: char)
    ensures c !in s ==> Split(s, c) == [s]
    ensures c in s ==> |Split(s, c)| >= 2
  {
    if s != [] {
      SplitWhole(s[1..], c);
      assert s == [s[0]] + s[1..];
    }
  }

  /** No piece holds the separator, nor any byte the text does not hold. */
  lemma {:induction false} PiecesClean(s: string, c: char, k: nat)
    requires k < |Split(s, c)|
    ensures c !in Split(s, c)[k]
    ensures forall x | x in Split(s, c)[k] :: x in s
  {
    if s != [] {
      var rest := Split(s[1..], c);
      PiecesClean(s[1..], c, if s[0] == c && k > 0 then k - 1 else if s[0] == c then 0 else k);
      assert s == [s[0]] + s[1..];
    }
  }

  /** Two pieces are what stands before and after the separator. */
  lemma {:induction false} SplitInTwo(s: string, c: char)
    requires |Split(s, c)| == 2
    ensures s == Split(s, c)[0] + [c] + Split(s, c)[1]
  {
    var r, rest := Split(s, c), Split(s[1..], c);
    assert s == [s[0]] + s[1..];
    if s[0] == c {
      SplitWhole(s[1..], c);
      assert r[0] == [] && r[1] == s[1..];
    } else {
      SplitInTwo(s[1..], c);
      assert r[0] == [s[0]] + rest[0] && r[1] == rest[1];
    }
  }
}
