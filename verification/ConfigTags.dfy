/** The tags a Config keeps as delimited text: workgroup tags and session tags. */
module ConfigTags {
  import opened ServiceLimits
  import opened Strings
  import WorkgroupText
  import opened Wrappers

  datatype Tag = Tag(key: string, value: string)

  /** A key or value without the two delimiters. */
  predicate CleanText(s: string) {
    '|' !in s && '`' !in s
  }

  predicate Clean(t: Tag) {
    CleanText(t.key) && CleanText(t.value)
  }

  /** One tag as it is written. */
  function Piece(t: Tag): string {
    t.key + "`" + t.value
  }

  // ---------------------------------------------------------------- workgroup tags

  /** The "tag" value after SetWorkGroup appended `tags` to `text`. */
  function AppendTags(text: string, tags: seq<Tag>): string {
    if tags == [] then text
    else AppendTags(text, tags[..|tags|-1]) + "|" + Piece(tags[|tags|-1])
  }

  /** One piece read back: its first two backtick-separated parts; None is an index panic. */
  function ParseTag(piece: string): Option<Tag> {
    var parts := Split(piece, '`');
    if |parts| < 2 then None else Some(Tag(parts[0], parts[1]))
  }

  function ParseTags(pieces: seq<string>): Option<seq<Tag>> {
    if pieces == [] then Some([])
    else
      match (ParseTags(pieces[..|pieces|-1]), ParseTag(pieces[|pieces|-1]))
      case (Some(front), Some(t)) => Some(front + [t])
      case _ => None
  }

  /** What GetWorkgroup makes of the "tag" value; its first byte is dropped. */
  function DecodeTags(text: string): Option<seq<Tag>> {
    if text == [] then Some([]) else ParseTags(Split(text[1..], '|'))
  }

  // ---------------------------------------------------------------- session tags

  /** The "sessionTags" value after SetSessionTag. */
  function AppendSessionTag(text: string, t: Tag): string {
    if text == "" then Piece(t) else text + "|" + Piece(t)
  }

  function SessionText(tags: seq<Tag>): string {
    if tags == [] then "" else AppendSessionTag(SessionText(tags[..|tags|-1]), tags[|tags|-1])
  }

  /** One pair put into the map; pieces that are not exactly a pair are skipped. */
  function AddPair(m: map<string, string>, piece: string): map<string, string> {
    var kv := Split(piece, '`');
    if |kv| == 2 then m[kv[0] := kv[1]] else m
  }

  function AddPairs(pieces: seq<string>): map<string, string> {
    if pieces == [] then map[] else AddPair(AddPairs(pieces[..|pieces|-1]), pieces[|pieces|-1])
  }

  function DecodeSession(text: string): map<string, string> {
    AddPairs(Split(text, '|'))
  }

  /** The map in which the last value set for a key wins. */
  function LastWrites(tags: seq<Tag>): map<string, string> {
    if tags == [] then map[] else LastWrites(tags[..|tags|-1])[tags[|tags|-1].key := tags[|tags|-1].value]
  }

  // ---------------------------------------------------------------- the class

  /** `config` is a pointer to a configuration, which may be nil. */
  datatype Workgroup = Workgroup(name: string, tags: Option<seq<Tag>>, config: WorkgroupText.Value)

  /** How configurations are written: the quoting, their type and the default one. */
  datatype Printer = Printer(quote: string -> string, schema: WorkgroupText.Type, default: WorkgroupText.Value) {
    predicate Writes(c: WorkgroupText.Value) {
      && schema.Record? && WorkgroupText.HasType(c, schema)
      && WorkgroupText.HasType(default, schema) && !default.Nil?
    }

    function Filled(c: WorkgroupText.Value): WorkgroupText.Value {
      if c.Nil? then default else c
    }
  }

  /** The loop that appends the tags to the stored text. */
  method WriteTags(stored: string, tags: seq<Tag>) returns (text: string)
    ensures text == AppendTags(stored, tags)
  {
    text := stored;
    for k := 0 to |tags|
      invariant text == AppendTags(stored, tags[..k])
    {
      assert tags[..k+1][..k] == tags[..k];
      text := text + ("|" + tags[k].key + "`" + tags[k].value);
      assert text == AppendTags(stored, tags[..k]) + "|" + Piece(tags[k]);
    }
    assert tags[..|tags|] == tags;
  }

  class Config {
    var values: Values

    /** NewNoOpsConfig: four values are set, and no tags. */
    constructor ()
      ensures values == map["db" := ["default"], "region" := ["us-east-1"],
                            "missingAsEmptyString" := ["true"], "WGRemoteCreation" := ["true"]]
      ensures Get(values, "tag") == TagHistory([]) && Get(values, "sessionTags") == SessionText([])
    {
      values := map[];
      new;
      values := Set(values, "db", "default");
      values := Set(values, "region", "us-east-1");
      values := Set(values, "missingAsEmptyString", "true");
      values := Set(values, "WGRemoteCreation", "true");
    }

    /**
     A nil workgroup is refused; nil tags leave the stored ones alone; and a nil configuration is
     replaced by the default one, in the caller's workgroup too.
     */
    method SetWorkGroup(p: Printer, w: Option<Workgroup>) returns (r: Option<Workgroup>)
      requires w.Some? ==> p.Writes(w.value.config)
      modifies this
      ensures r == if w.None? then None else Some(w.value.(config := p.Filled(w.value.config)))
      ensures w.None? ==> values == old(values)
      ensures w.Some? ==>
        && Get(values, "workgroupName") == w.value.name
        && Get(values, "workgroupConfig") == WorkgroupText.ConfigText(p.quote, p.schema, p.Filled(w.value.config))
        && Get(values, "tag") == AppendTags(old(Get(values, "tag")), w.value.tags.GetOr([]))
        && values - {"workgroupName", "workgroupConfig", "tag"}
           == old(values) - {"workgroupName", "workgroupConfig", "tag"}
    {
      if w.None? { return None; }
      values := Set(values, "workgroupName", w.value.name);
      if w.value.tags.Some? {
        var text := WriteTags(Get(values, "tag"), w.value.tags.value);
        values := Set(values, "tag", text);
      }
      var config := w.value.config;
      if config.Nil? { config := p.default; }
      var configText := WorkgroupText.WgConfigString(p.quote, p.schema, config);
      values := Set(values, "workgroupConfig", configText);
      return Some(w.value.(config := config));
    }

    /** None is the panic on a piece without a backtick; the stored configuration is not read. */
    method GetWorkgroup(p: Printer) returns (r: Option<Workgroup>)
      ensures r == match DecodeTags(Get(values, "tag"))
                   case Some(tags) => Some(Workgroup(Get(values, "workgroupName"), Some(tags), p.default))
                   case None => None
    {
      var text := Get(values, "tag");
      if |text| == 0 { return Some(Workgroup(Get(values, "workgroupName"), Some([]), p.default)); }
      var pieces := Split(text[1..], '|');
      var tags: seq<Tag> := [];
      for k := 0 to |pieces|
        invariant ParseTags(pieces[..k]) == Some(tags)
      {
        assert pieces[..k+1][..k] == pieces[..k];
        var parts := Split(pieces[k], '`');
        if |parts| < 2 {
          ParsePrefix(pieces, k + 1);
          return None;
        }
        tags := tags + [Tag(parts[0], parts[1])];
      }
      assert pieces[..|pieces|] == pieces;
      return Some(Workgroup(Get(values, "workgroupName"), Some(tags), p.default));
    }

    method SetSessionTag(key: string, value: string)
      modifies this
      ensures values == Set(old(values), "sessionTags",
                            AppendSessionTag(Get(old(values), "sessionTags"), Tag(key, value)))
    {
      var text := Get(values, "sessionTags");
      if text == "" {
        text := key + "`" + value;
      } else {
        text := text + ("|" + key + "`" + value);
        assert text == Get(old(values), "sessionTags") + "|" + Piece(Tag(key, value));
      }
      values := Set(values, "sessionTags", text);
    }

    /** None when nothing is stored here or in the environment. */
    method GetSessionTags(fromEnvironment: string) returns (r: Option<map<string, string>>)
      ensures var stored := Get(values, "sessionTags");
        var text := if stored == "" then fromEnvironment else stored;
        r == if text == "" then None else Some(DecodeSession(text))
    {
      var text := Get(values, "sessionTags");
      if text == "" { text := fromEnvironment; }
      if text == "" { return None; }
      var tags := map[];
      var pairs := Split(text, '|');
      for k := 0 to |pairs|
        invariant tags == AddPairs(pairs[..k])
      {
        assert pairs[..k+1][..k] == pairs[..k];
        var kv := Split(pairs[k], '`');
        if |kv| == 2 { tags := tags[kv[0] := kv[1]]; }
      }
      assert pairs[..|pairs|] == pairs;
      return Some(tags);
    }
  }

  lemma {:induction false} ParsePrefix(pieces: seq<string>, k: nat)
    requires k <= |pieces| && ParseTags(pieces[..k]).None?
    ensures ParseTags(pieces).None?
    decreases |pieces|
  {
    if k < |pieces| {
      assert pieces[..|pieces|-1][..k] == pieces[..k];
      ParsePrefix(pieces[..|pieces|-1], k);
    } else {
      assert pieces[..k] == pieces;
    }
  }

  // ---------------------------------------------------------------- workgroup tags round-trip

  /** Histories add up: the tag lists of successive calls are one list. */
  lemma {:induction false} AppendTwice(text: string, a: seq<Tag>, b: seq<Tag>)
    ensures AppendTags(AppendTags(text, a), b) == AppendTags(text, a + b)
    decreases |b|
  {
    if b == [] {
      assert a + b == a;
    } else {
      assert (a + b)[..|a + b|-1] == a + b[..|b|-1];
      AppendTwice(text, a, b[..|b|-1]);
    }
  }

  /** The "tag" value after a history of SetWorkGroup calls on a new Config. */
  function TagHistory(calls: seq<seq<Tag>>): string {
    if calls == [] then "" else AppendTags(TagHistory(calls[..|calls|-1]), calls[|calls|-1])
  }

  function Flatten(calls: seq<seq<Tag>>): seq<Tag> {
    if calls == [] then [] else Flatten(calls[..|calls|-1]) + calls[|calls|-1]
  }

  lemma {:induction false} HistoryIsOneList(calls: seq<seq<Tag>>)
    ensures TagHistory(calls) == AppendTags("", Flatten(calls))
  {
    if calls != [] {
      HistoryIsOneList(calls[..|calls|-1]);
      AppendTwice("", Flatten(calls[..|calls|-1]), calls[|calls|-1]);
    }
  }

  /** The pieces GetWorkgroup splits the text of a list of tags into. */
  function Pieces(tags: seq<Tag>): seq<string>
    requires tags != []
  {
    AppendNotEmpty(tags);
    Split(AppendTags("", tags)[1..], '|')
  }

  lemma AppendNotEmpty(tags: seq<Tag>)
    requires tags != []
    ensures AppendTags("", tags) != ""
  {
  }

  /** Each further tag adds the pieces of its own text. */
  lemma PiecesSnoc(tags: seq<Tag>, t: Tag)
    ensures Pieces(tags + [t]) == (if tags == [] then [] else Pieces(tags)) + Split(Piece(t), '|')
  {
    var text := AppendTags("", tags);
    assert (tags + [t])[..|tags|] == tags;
    assert AppendTags("", tags + [t]) == text + "|" + Piece(t);
    if tags == [] {
      assert (text + "|" + Piece(t))[1..] == Piece(t);
    } else {
      AppendNotEmpty(tags);
      assert (text + "|" + Piece(t))[1..] == text[1..] + "|" + Piece(t);
      SplitAppend(text[1..], '|', Piece(t));
    }
  }

  /** There are at least as many pieces as tags, and as many only if no bar is inside a tag. */
  lemma {:induction false} PieceCount(tags: seq<Tag>)
    requires tags != []
    ensures |Pieces(tags)| >= |tags|
    ensures |Pieces(tags)| == |tags| ==>
              forall k | 0 <= k < |tags| :: '|' !in Piece(tags[k]) && Pieces(tags)[k] == Piece(tags[k])
    ensures (forall k | 0 <= k < |tags| :: '|' !in Piece(tags[k])) ==> |Pieces(tags)| == |tags|
    decreases |tags|
  {
    var front, t := tags[..|tags|-1], tags[|tags|-1];
    assert tags == front + [t];
    PiecesSnoc(front, t);
    SplitWhole(Piece(t), '|');
    if front != [] { PieceCount(front); }
  }

  lemma {:induction false} ParsedLength(pieces: seq<string>)
    ensures ParseTags(pieces).Some? ==> |ParseTags(pieces).value| == |pieces|
  {
    if pieces != [] { ParsedLength(pieces[..|pieces|-1]); }
  }

  lemma {:induction false} ParsedAs(pieces: seq<string>, tags: seq<Tag>)
    requires |tags| == |pieces|
    ensures ParseTags(pieces) == Some(tags) <==> forall k | 0 <= k < |pieces| :: ParseTag(pieces[k]) == Some(tags[k])
  {
    if pieces != [] {
      var n := |pieces| - 1;
      ParsedAs(pieces[..n], tags[..n]);
      assert tags == tags[..n] + [tags[n]];
    }
  }

  /** A written tag is read back exactly when no backtick is inside its key or value. */
  lemma ParsePiece(t: Tag)
    ensures ParseTag(Piece(t)) == Some(t) <==> '`' !in t.key && '`' !in t.value
  {
    SplitAppend(t.key, '`', t.value);
    SplitWhole(t.key, '`');
    SplitWhole(t.value, '`');
    var keys, vals := Split(t.key, '`'), Split(t.value, '`');
    PiecesClean(t.key, '`', 0);
    PiecesClean(t.value, '`', 0);
    if '`' !in t.key {
      assert (keys + vals)[1] == vals[0];
    }
  }

  /**
   After any history of SetWorkGroup calls, GetWorkgroup gives the concatenation of all their
   tag lists, in order, exactly when no key or value holds a delimiter.
   */
  lemma TagsRoundTrip(calls: seq<seq<Tag>>)
    ensures DecodeTags(TagHistory(calls)) == Some(Flatten(calls))
            <==> forall k | 0 <= k < |Flatten(calls)| :: Clean(Flatten(calls)[k])
  {
    var tags := Flatten(calls);
    HistoryIsOneList(calls);
    if tags != [] {
      AppendNotEmpty(tags);
      PieceCount(tags);
      ParsedLength(Pieces(tags));
      if |Pieces(tags)| == |tags| { ParsedAs(Pieces(tags), tags); }
      forall k | 0 <= k < |tags|
        ensures ParseTag(Piece(tags[k])) == Some(tags[k]) <==> '`' !in tags[k].key && '`' !in tags[k].value
      {
        ParsePiece(tags[k]);
      }
    }
  }

  // ---------------------------------------------------------------- workgroup tags that panic

  /** Every piece has a backtick. */
  predicate AllSeparated(pieces: seq<string>) {
    forall k | 0 <= k < |pieces| :: '`' in pieces[k]
  }

  lemma AllSeparatedAppend(a: seq<string>, b: seq<string>)
    ensures AllSeparated(a + b) <==> AllSeparated(a) && AllSeparated(b)
  {
    if AllSeparated(a + b) {
      forall k | 0 <= k < |a| ensures '`' in a[k] { assert (a + b)[k] == a[k]; }
      forall k | 0 <= k < |b| ensures '`' in b[k] { assert (a + b)[|a| + k] == b[k]; }
    }
  }

  lemma {:induction false} ParseFails(pieces: seq<string>)
    ensures ParseTags(pieces).Some? <==> AllSeparated(pieces)
  {
    if pieces != [] {
      var front, last := pieces[..|pieces|-1], pieces[|pieces|-1];
      ParseFails(front);
      SplitWhole(last, '`');
      assert pieces == front + [last];
      AllSeparatedAppend(front, [last]);
    }
  }

  /** Cut at its bars, the written tag has a piece without a backtick. */
  predicate LosesSeparator(t: Tag) {
    !AllSeparated(Split(Piece(t), '|'))
  }

  lemma PiecesOfSnoc(front: seq<Tag>, t: Tag)
    ensures AllSeparated(Pieces(front + [t]))
            <==> (front != [] ==> AllSeparated(Pieces(front))) && !LosesSeparator(t)
  {
    PiecesSnoc(front, t);
    AllSeparatedAppend(if front == [] then [] else Pieces(front), Split(Piece(t), '|'));
  }

  lemma {:induction false} PiecesOfTags(tags: seq<Tag>)
    requires tags != []
    ensures AllSeparated(Pieces(tags)) <==> forall k | 0 <= k < |tags| :: !LosesSeparator(tags[k])
    decreases |tags|
  {
    var front, t := tags[..|tags|-1], tags[|tags|-1];
    PiecesOfSnoc(front, t);
    assert tags == front + [t];
    if front != [] { PiecesOfTags(front); }
  }

  /**
   After any history of SetWorkGroup calls GetWorkgroup panics exactly when some tag, cut at its
   bars, has a piece without a backtick.
   */
  lemma TagsPanicExactly(calls: seq<seq<Tag>>)
    ensures DecodeTags(TagHistory(calls)).None?
            <==> exists k :: 0 <= k < |Flatten(calls)| && LosesSeparator(Flatten(calls)[k])
  {
    var tags := Flatten(calls);
    HistoryIsOneList(calls);
    if tags != [] {
      AppendNotEmpty(tags);
      ParseFails(Pieces(tags));
      PiecesOfTags(tags);
    }
  }

  /** A bar in a key is enough. */
  lemma BarInKeyPanics(value: string)
    ensures DecodeTags(TagHistory([[Tag("a|b", value)]])).None?
  {
    var t, calls := Tag("a|b", value), [[Tag("a|b", value)]];
    SplitAppend("a", '|', "b`" + value);
    SplitWhole("a", '|');
    assert Piece(t) == "a" + ['|'] + ("b`" + value);
    assert Split(Piece(t), '|')[0] == "a" && '`' !in "a";
    assert LosesSeparator(t);
    assert Flatten(calls) == [t] by { assert calls[..0] == []; }
    TagsPanicExactly(calls);
    assert Flatten(calls)[0] == t;
  }

  // ---------------------------------------------------------------- session tags round-trip

  lemma AddPairsAppend(a: seq<string>, piece: string)
    ensures AddPairs(a + [piece]) == AddPair(AddPairs(a), piece)
  {
    assert (a + [piece])[..|a|] == a;
  }

  /** A clean tag is one piece, and the piece is that pair. */
  lemma CleanPiece(t: Tag)
    requires Clean(t)
    ensures Split(Piece(t), '|') == [Piece(t)]
    ensures Split(Piece(t), '`') == [t.key, t.value]
  {
    SplitWhole(Piece(t), '|');
    SplitAppend(t.key, '`', t.value);
    SplitWhole(t.key, '`');
    SplitWhole(t.value, '`');
  }

  lemma SessionSnoc(tags: seq<Tag>, t: Tag)
    requires Clean(t) && (tags != [] ==> SessionText(tags) != "")
    ensures SessionText(tags + [t]) != ""
    ensures DecodeSession(SessionText(tags + [t]))
            == (if tags == [] then map[] else DecodeSession(SessionText(tags)))[t.key := t.value]
  {
    assert (tags + [t])[..|tags|] == tags;
    var text := SessionText(tags);
    CleanPiece(t);
    if tags == [] {
      AddPairsAppend([], Piece(t));
    } else {
      SplitAppend(text, '|', Piece(t));
      AddPairsAppend(Split(text, '|'), Piece(t));
    }
  }

  lemma {:induction false} SessionHistory(tags: seq<Tag>)
    requires forall k | 0 <= k < |tags| :: Clean(tags[k])
    ensures tags != [] ==> SessionText(tags) != "" && DecodeSession(SessionText(tags)) == LastWrites(tags)
    decreases |tags|
  {
    if tags != [] {
      var front, t := tags[..|tags|-1], tags[|tags|-1];
      SessionHistory(front);
      SessionSnoc(front, t);
      assert tags == front + [t];
    }
  }

  /** Whatever the text, decoded keys and values are clean, so nothing else can round-trip. */
  lemma {:induction false} DecodedIsClean(pieces: seq<string>, key: string)
    requires forall k | 0 <= k < |pieces| :: '|' !in pieces[k]
    requires key in AddPairs(pieces)
    ensures CleanText(key) && CleanText(AddPairs(pieces)[key])
    decreases |pieces|
  {
    var front, piece := pieces[..|pieces|-1], pieces[|pieces|-1];
    var kv := Split(piece, '`');
    if |kv| == 2 && kv[0] == key {
      PiecesClean(piece, '`', 0);
      PiecesClean(piece, '`', 1);
    } else {
      DecodedIsClean(front, key);
    }
  }

  /**
   After any non-empty history of SetSessionTag calls with clean keys and values the decoded
   map is the last-write-wins map; and a map with a delimiter in it never comes back.
   */
  lemma SessionTagsRoundTrip(tags: seq<Tag>)
    requires tags != []
    ensures (forall k | 0 <= k < |tags| :: Clean(tags[k])) ==> DecodeSession(SessionText(tags)) == LastWrites(tags)
    ensures DecodeSession(SessionText(tags)) == LastWrites(tags) ==>
              forall key | key in LastWrites(tags) :: CleanText(key) && CleanText(LastWrites(tags)[key])
  {
    if forall k | 0 <= k < |tags| :: Clean(tags[k]) { SessionHistory(tags); }
    var pieces := Split(SessionText(tags), '|');
    forall k | 0 <= k < |pieces| ensures '|' !in pieces[k] { PiecesClean(SessionText(tags), '|', k); }
    forall key | key in AddPairs(pieces) ensures CleanText(key) && CleanText(AddPairs(pieces)[key]) {
      DecodedIsClean(pieces, key);
    }
  }

  /** The map is right after each call of a history exactly when no key or value holds a delimiter. */
  lemma SessionTagsAlwaysRoundTrip(tags: seq<Tag>)
    ensures (forall n | 1 <= n <= |tags| :: RightAfter(tags, n)) <==> forall k | 0 <= k < |tags| :: Clean(tags[k])
  {
    forall n | 1 <= n <= |tags| ensures (forall k | 0 <= k < n :: Clean(tags[k])) ==> RightAfter(tags, n) {
      SessionTagsRoundTrip(tags[..n]);
    }
    forall k | 0 <= k < |tags| && RightAfter(tags, k + 1) ensures Clean(tags[k]) {
      SessionTagsRoundTrip(tags[..k+1]);
      assert tags[..k+1][k] == tags[k];
      assert tags[k].key in LastWrites(tags[..k+1]) && LastWrites(tags[..k+1])[tags[k].key] == tags[k].value;
    }
  }

  /** After the first n calls the decoded map is the last-write-wins map of them. */
  predicate RightAfter(tags: seq<Tag>, n: nat)
    requires n <= |tags|
  {
    DecodeSession(SessionText(tags[..n])) == LastWrites(tags[..n])
  }

  // ---------------------------------------------------------------- pieces that are no pairs

  /** The piece is that key and value around its only backtick. */
  predicate IsPair(piece: string, key: string, value: string) {
    piece == key + "`" + value && '`' !in key && '`' !in value
  }

  lemma PairExactly(piece: string, key: string, value: string)
    ensures IsPair(piece, key, value) <==> Split(piece, '`') == [key, value]
  {
    if IsPair(piece, key, value) {
      SplitAppend(key, '`', value);
      SplitWhole(key, '`');
      SplitWhole(value, '`');
    }
    if Split(piece, '`') == [key, value] {
      SplitInTwo(piece, '`');
      PiecesClean(piece, '`', 0);
      PiecesClean(piece, '`', 1);
    }
  }

  /** The last pair of that key among the pieces has that value. */
  ghost predicate LastPair(pieces: seq<string>, key: string, value: string, k: nat)
    requires k < |pieces|
  {
    IsPair(pieces[k], key, value) && forall j, other | k < j < |pieces| :: !IsPair(pieces[j], key, other)
  }

  /** Whatever the text, a key is decoded to the value of its last pair; pieces that are no pairs count for nothing. */
  lemma {:induction false} DecodedIsLastPair(pieces: seq<string>, key: string)
    ensures key in AddPairs(pieces)
            <==> exists k, value :: 0 <= k < |pieces| && IsPair(pieces[k], key, value)
    ensures key in AddPairs(pieces) ==>
              exists k | 0 <= k < |pieces| :: LastPair(pieces, key, AddPairs(pieces)[key], k)
    decreases |pieces|
  {
    if pieces != [] {
      var n := |pieces| - 1;
      var front, last := pieces[..n], pieces[n];
      var kv := Split(last, '`');
      DecodedIsLastPair(front, key);
      forall value ensures IsPair(last, key, value) <==> kv == [key, value] { PairExactly(last, key, value); }
      if |kv| == 2 && kv[0] == key {
        assert kv == [key, kv[1]];
        assert LastPair(pieces, key, kv[1], n);
      } else if key in AddPairs(front) {
        var k :| 0 <= k < n && LastPair(front, key, AddPairs(front)[key], k);
        assert LastPair(pieces, key, AddPairs(front)[key], k);
      }
    }
  }

  /** Of a workgroup tag only what stands before the second backtick is read back. */
  lemma RestOfTagIsDropped(key: string, value: string, rest: string)
    requires '`' !in key && '`' !in value
    ensures ParseTag(key + "`" + (value + "`" + rest)) == Some(Tag(key, value))
  {
    SplitAppend(key, '`', value + "`" + rest);
    SplitAppend(value, '`', rest);
    SplitWhole(key, '`');
    SplitWhole(value, '`');
  }
}
