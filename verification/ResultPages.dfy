/** Result pages as Athena sends them, and what the first one is made into before it is read. */
module ResultPages {
  import opened Decimal
  import opened Strings
  import opened Wrappers

  datatype Column = Column(name: string, typ: Option<string>)

  /** The metadata pointer may be nil, and so may the column list inside it. */
  datatype Metadata = NoMetadata | NilColumns | Columns(info: seq<Column>)

  /** A cell is a pointer to text. */
  type Row = seq<Option<string>>

  datatype Page = Page(meta: Metadata, rows: seq<Row>, updateCount: Option<int>)

  datatype Reply = CallFailed | NoResultSet | Answered(page: Page)

  datatype Outcome = Fetched | FetchError | Panicked

  // ---------------------------------------------------------------- what becomes of a page

  function Width(page: Page): nat {
    if page.meta.Columns? then |page.meta.info| else 0
  }

  /** The first row has more cells than there are columns. */
  predicate Pads(page: Page) {
    page.meta.Columns? && page.rows != [] && Width(page) < |page.rows[0]|
  }

  /** The first row has one cell for several columns. */
  predicate Splits(page: Page) {
    page.meta.Columns? && page.rows != [] && Width(page) > |page.rows[0]| == 1
  }

  /** No row, one column "rows", and a positive update count. */
  predicate Synthesises(page: Page) {
    && page.meta.Columns? && page.rows == [] && Width(page) == 1
    && page.updateCount.Some? && page.updateCount.value > 0
    && page.meta.info[0].name == "rows"
  }

  function MadeUpColumn(i: nat): Column {
    Column("_col" + Itoa(i), Some("string"))
  }

  function Padded(info: seq<Column>, width: nat): seq<Column> {
    info + seq(if width > |info| then width - |info| else 0, i requires i >= 0 => MadeUpColumn(|info| + i))
  }

  lemma PaddedSnoc(info: seq<Column>, width: nat)
    requires |info| <= width
    ensures Padded(info, width + 1) == Padded(info, width) + [MadeUpColumn(width)]
  {
    var longer, shorter := Padded(info, width + 1), Padded(info, width) + [MadeUpColumn(width)];
    assert |longer| == |shorter| == width + 1;
    forall k | 0 <= k <= width ensures longer[k] == shorter[k] {
    }
  }

  predicate Splittable(row: Row) {
    row != [] && row[0].Some?
  }

  function Trimmed(trim: string -> string, pieces: seq<string>): Row {
    seq(|pieces|, i requires 0 <= i < |pieces| => Some(trim(pieces[i])))
  }

  function SplitRow(trim: string -> string, row: Row, width: nat): Row
    requires Splittable(row)
  {
    var pieces := Split(row[0].value, '\t');
    if |pieces| == width then Trimmed(trim, pieces) else row
  }

  function SplitRows(trim: string -> string, rows: seq<Row>, width: nat): seq<Row>
    requires forall k | 0 <= k < |rows| :: Splittable(rows[k])
  {
    seq(|rows|, k requires 0 <= k < |rows| => SplitRow(trim, rows[k], width))
  }

  /** Go dereferences what may be nil: metadata, and the first cell of every row to be split. */
  predicate Panics(page: Page, first: bool) {
    || (Splits(page) && exists k | 0 <= k < |page.rows| :: !Splittable(page.rows[k]))
    || (first && page.meta.NoMetadata?)
  }

  /** The page once columns and rows fit each other. */
  function Tidy(trim: string -> string, page: Page): Page
    requires Splits(page) ==> forall k | 0 <= k < |page.rows| :: Splittable(page.rows[k])
  {
    if Pads(page) then page.(meta := Columns(Padded(page.meta.info, |page.rows[0]|)))
    else if Splits(page) then page.(rows := SplitRows(trim, page.rows, Width(page)))
    else if Synthesises(page) then page.(rows := [[Some(Itoa(page.updateCount.value))]])
    else page
  }

  predicate NamesColumn(cell: Option<string>, column: Column) {
    cell == Some(column.name)
  }

  predicate HasHeader(page: Page) {
    && page.meta.Columns? && page.rows != [] && |page.rows[0]| == Width(page) > 0
    && forall i | 0 <= i < Width(page) :: NamesColumn(page.rows[0][i], page.meta.info[i])
  }

  /** What is left to read: the header goes only from the first page, and only if a row remains. */
  predicate DropsHeader(page: Page, first: bool) {
    first && HasHeader(page) && |page.rows| > 1
  }

  predicate NothingToRead(page: Page, first: bool) {
    |page.rows| <= if first && HasHeader(page) then 1 else 0
  }

  function Normal(trim: string -> string, page: Page, first: bool): Page
    requires !Panics(page, first)
  {
    var tidy := Tidy(trim, page);
    if DropsHeader(tidy, first) then tidy.(rows := tidy.rows[1..]) else tidy
  }

  // ---------------------------------------------------------------- the code

  /** newRow: one cell per item, in a freshly made slice. */
  method NewRow(colLen: nat, items: seq<string>) returns (r: Row)
    requires colLen <= |items|
    ensures |r| == colLen && forall i | 0 <= i < colLen :: r[i] == Some(items[i])
  {
    var nData := new Option<string>[colLen];
    for i := 0 to colLen
      invariant forall j | 0 <= j < i :: nData[j] == Some(items[j])
    {
      nData[i] := Some(items[i]);
    }
    return nData[..];
  }

  class Pages {
    var output: Option<Page>
    var pageCount: int
    var reachedLastPage: bool

    constructor ()
      ensures output == None && pageCount == -1 && !reachedLastPage
    {
      output, pageCount, reachedLastPage := None, -1, false;
    }

    method FetchNextPage(trim: string -> string, reply: Reply) returns (r: Outcome)
      modifies this
      ensures r == match reply
                   case CallFailed => FetchError
                   case NoResultSet => Panicked
                   case Answered(page) => if Panics(page, old(pageCount) == -1) then Panicked else Fetched
      ensures reply.CallFailed? ==> reachedLastPage && output.None? && pageCount == old(pageCount)
      ensures r.Fetched? ==>
        var first := old(pageCount) == -1;
        && pageCount == old(pageCount) + 1
        && output == Some(Normal(trim, reply.page, first))
        && reachedLastPage == (old(reachedLastPage) || NothingToRead(Tidy(trim, reply.page), first))
    {
      if reply.CallFailed? {
        output, reachedLastPage := None, true;
        return FetchError;
      }
      pageCount := pageCount + 1;
      if reply.NoResultSet? { return Panicked; }
      var page := reply.page;
      var panicked := FitColumnsAndRows(trim, page);
      if panicked { return Panicked; }
      var rowOffset := 0;
      if pageCount == 0 {
        if output.value.meta.NoMetadata? { return Panicked; }
        var header := StartsWithHeader();
        if header { rowOffset := 1; }
      }
      if |output.value.rows| <= rowOffset {
        reachedLastPage := true;
        return Fetched;
      }
      var rows := output.value.rows[rowOffset..];
      if rowOffset == 0 { assert rows == output.value.rows; }
      output := Some(output.value.(rows := rows));
      return Fetched;
    }

    method FitColumnsAndRows(trim: string -> string, page: Page) returns (panicked: bool)
      modifies this`output
      ensures panicked <==> Splits(page) && exists k | 0 <= k < |page.rows| :: !Splittable(page.rows[k])
      ensures !panicked ==> output == Some(Tidy(trim, page))
    {
      output := Some(page);
      panicked := false;
      if page.meta.Columns? {
        var rowLen, colLen := |page.rows|, |page.meta.info|;
        if rowLen > 0 {
          var rowColLen := |page.rows[0]|;
          if colLen < rowColLen {
            PadColumns(page);
          } else if colLen > rowColLen && rowColLen == 1 {
            panicked := SplitCells(trim, page);
          }
        } else if rowLen == 0 && colLen == 1 && page.updateCount.Some? {
          if page.updateCount.value > 0 {
            if page.meta.info[0].name == "rows" {
              var updateCount := Itoa(page.updateCount.value);
              output := Some(page.(rows := page.rows + [[Some(updateCount)]]));
              assert page.rows + [[Some(updateCount)]] == [[Some(updateCount)]];
            }
          }
        }
      }
    }

    method PadColumns(page: Page)
      requires output == Some(page) && Pads(page)
      modifies this`output
      ensures output == Some(page.(meta := Columns(Padded(page.meta.info, |page.rows[0]|))))
    {
      var colLen, rowColLen := |page.meta.info|, |page.rows[0]|;
      assert Padded(page.meta.info, colLen) == page.meta.info;
      for i := 0 to rowColLen - colLen
        invariant output == Some(page.(meta := Columns(Padded(page.meta.info, colLen + i))))
      {
        var colInfo := Column("_col" + Itoa(i + colLen), Some("string"));
        PaddedSnoc(page.meta.info, colLen + i);
        output := Some(output.value.(meta := Columns(output.value.meta.info + [colInfo])));
      }
    }

    method SplitCells(trim: string -> string, page: Page) returns (panicked: bool)
      requires output == Some(page) && Splits(page)
      modifies this`output
      ensures panicked <==> exists k | 0 <= k < |page.rows| :: !Splittable(page.rows[k])
      ensures !panicked ==> output == Some(page.(rows := SplitRows(trim, page.rows, Width(page))))
    {
      var rows, colLen := page.rows, |page.meta.info|;
      for k := 0 to |page.rows|
        invariant |rows| == |page.rows| && output == Some(page.(rows := rows))
        invariant forall j | 0 <= j < k :: Splittable(page.rows[j]) && rows[j] == SplitRow(trim, page.rows[j], colLen)
        invariant forall j | k <= j < |rows| :: rows[j] == page.rows[j]
      {
        if |rows[k]| == 0 || rows[k][0].None? {
          assert !Splittable(page.rows[k]);
          return true;
        }
        var items := Split(rows[k][0].value, '\t');
        if |items| == colLen {
          ghost var pieces := items;
          for i := 0 to |items|
            invariant |items| == |pieces|
            invariant forall j | 0 <= j < i :: items[j] == trim(pieces[j])
            invariant forall j | i <= j < |items| :: items[j] == pieces[j]
          {
            items := items[i := trim(items[i])];
          }
          var row := NewRow(colLen, items);
          assert row == Trimmed(trim, pieces);
          rows := rows[k := row];
          output := Some(output.value.(rows := rows));
        }
      }
      assert rows == SplitRows(trim, page.rows, colLen);
      return false;
    }

    method StartsWithHeader() returns (header: bool)
      requires output.Some? && !output.value.meta.NoMetadata?
      ensures header == HasHeader(output.value)
    {
      var rows := output.value.rows;
      var ci := if output.value.meta.Columns? then output.value.meta.info else [];
      header := false;
      var i := 0;
      if |ci| > 0 && |rows| > 0 && |rows[0]| > 0 && |rows[0]| == |ci| {
        while i < |ci|
          invariant 0 <= i <= |ci|
          invariant forall j | 0 <= j < i :: NamesColumn(rows[0][j], ci[j])
        {
          if rows[0][i].None? { break; }
          if ci[i].name != rows[0][i].value { break; }
          i := i + 1;
        }
        if i == |ci| { header := true; }
      }
    }
  }

  // ---------------------------------------------------------------- columns

  lemma MadeUpNamesDiffer(i: nat, j: nat)
    requires MadeUpColumn(i).name == MadeUpColumn(j).name
    ensures i == j
  {
    assert ("_col" + Itoa(i))[4..] == Itoa(i) && ("_col" + Itoa(j))[4..] == Itoa(j);
    ItoaPrefixFree(i, j, "", "");
  }

  lemma PaddingIsNumbered(info: seq<Column>, width: nat)
    ensures var all := Padded(info, width);
      && (forall i | |info| <= i < |all| :: all[i] == MadeUpColumn(i))
      && (forall i, j | |info| <= i < j < |all| :: all[i] != all[j])
  {
    var all := Padded(info, width);
    forall i, j | |info| <= i < j < |all| ensures all[i] != all[j] {
      if all[i] == all[j] { MadeUpNamesDiffer(i, j); }
    }
  }

  /**
   The columns Athena named stay as they are, in front; the first row gets a column for each
   of its cells; and the columns made up for it are numbered by position, no two alike.
   */
  lemma ColumnsAreKept(trim: string -> string, page: Page, first: bool)
    requires !Panics(page, first) && page.meta.Columns?
    ensures var n := Normal(trim, page, first);
      && n.meta.Columns? && Width(page) <= Width(n) && n.meta.info[..Width(page)] == page.meta.info
      && (page.rows == [] ==> Width(n) == Width(page))
      && (page.rows != [] ==> |Tidy(trim, page).rows[0]| <= Width(n)
                              && (Width(n) == Width(page) || Width(n) == |page.rows[0]|))
      && (forall i | Width(page) <= i < Width(n) :: n.meta.info[i] == Column("_col" + Itoa(i), Some("string")))
      && (forall i, j | Width(page) <= i < j < Width(n) :: n.meta.info[i] != n.meta.info[j])
  {
    if Pads(page) { PaddingIsNumbered(page.meta.info, |page.rows[0]|); }
  }

  // ---------------------------------------------------------------- contents

  /** What is assumed of strings.TrimSpace: it is done after once, and adds no byte. */
  ghost predicate Trimming(trim: string -> string) {
    && (forall s :: trim(trim(s)) == trim(s))
    && (forall s, c | c in trim(s) :: c in s)
  }

  /** The texts in a cell, between tabs and without surrounding space. */
  function CellContent(trim: string -> string, cell: Option<string>): (r: Row)
    ensures r != []
  {
    match cell
    case None => [None]
    case Some(s) => Trimmed(trim, Split(s, '\t'))
  }

  function Content(trim: string -> string, row: Row): Row {
    if row == [] then [] else CellContent(trim, row[0]) + Content(trim, row[1..])
  }

  predicate LosesCells(row: Row, width: nat)
    requires Splittable(row)
  {
    |row| > 1 && |Split(row[0].value, '\t')| == width
  }

  lemma {:induction false} TabFreeContent(trim: string -> string, cells: Row)
    requires Trimming(trim)
    requires forall i | 0 <= i < |cells| ::
               cells[i].Some? && '\t' !in cells[i].value && trim(cells[i].value) == cells[i].value
    ensures Content(trim, cells) == cells
  {
    if cells != [] {
      TabFreeContent(trim, cells[1..]);
      SplitWhole(cells[0].value, '\t');
      assert CellContent(trim, cells[0]) == [cells[0]];
    }
  }

  /** Splitting a row keeps its content exactly when the row has no second cell to forget. */
  lemma SplitRowContent(trim: string -> string, row: Row, width: nat)
    requires Trimming(trim) && Splittable(row)
    ensures Content(trim, SplitRow(trim, row, width)) == Content(trim, row) <==> !LosesCells(row, width)
  {
    var text := row[0].value;
    var pieces := Split(text, '\t');
    if |pieces| == width {
      var cells := Trimmed(trim, pieces);
      forall i | 0 <= i < |cells|
        ensures '\t' !in cells[i].value && trim(cells[i].value) == cells[i].value
      {
        PiecesClean(text, '\t', i);
      }
      TabFreeContent(trim, cells);
      assert Content(trim, row) == cells + Content(trim, row[1..]);
    }
  }

  /**
   Making columns and rows fit loses no text of a page that had rows, exactly when no row
   that is split has more than one cell.
   */
  lemma PageContentKept(trim: string -> string, page: Page)
    requires Trimming(trim) && page.rows != [] && !Panics(page, false)
    ensures |Tidy(trim, page).rows| == |page.rows|
    ensures (forall k | 0 <= k < |page.rows| :: Content(trim, Tidy(trim, page).rows[k]) == Content(trim, page.rows[k]))
            <==> (Splits(page) ==> forall k | 0 <= k < |page.rows| :: !LosesCells(page.rows[k], Width(page)))
  {
    if Splits(page) {
      var rows := Tidy(trim, page).rows;
      forall k | 0 <= k < |rows|
        ensures Content(trim, rows[k]) == Content(trim, page.rows[k]) <==> !LosesCells(page.rows[k], Width(page))
      {
        SplitRowContent(trim, page.rows[k], Width(page));
      }
    }
  }

  /** Such a page exists: one cell in the first row, two in the second, and "c" is gone. */
  lemma RaggedPageLosesCells(trim: string -> string)
    requires Trimming(trim)
    ensures exists page ::
      && !Panics(page, false) && |page.rows| == 2
      && Some("c") in page.rows[1] && Some("c") !in Tidy(trim, page).rows[1]
  {
    var two := [Column("x", None), Column("y", None)];
    var page := Page(Columns(two), [[Some("a\tb")], [Some("a\tb"), Some("c")]], None);
    var pieces := Split("a\tb", '\t');
    SplitAppend("a", '\t', "b");
    SplitWhole("a", '\t');
    SplitWhole("b", '\t');
    assert "a" + ['\t'] + "b" == "a\tb";
    assert pieces == ["a", "b"];
    var row := Trimmed(trim, pieces);
    assert SplitRow(trim, page.rows[1], 2) == row;
    forall i | 0 <= i < 2 ensures row[i] != Some("c") {
      assert 'c' !in pieces[i] && 'c' in "c";
    }
    assert page.rows[1][1] == Some("c");
  }

  // ---------------------------------------------------------------- rows

  /**
   The number of rows changes by the row made of an update count or by the header, never by
   both: a synthesised row is not taken for a header, and no row is left unread with it.
   */
  lemma RowCount(trim: string -> string, page: Page, first: bool)
    requires !Panics(page, first)
    ensures var tidy, n := Tidy(trim, page), Normal(trim, page, first);
      && |n.rows| == |page.rows| + (if Synthesises(page) then 1 else 0) - (if DropsHeader(tidy, first) then 1 else 0)
      && (Synthesises(page) ==> !HasHeader(tidy) && !NothingToRead(tidy, first)
                                && n.rows == [[Some(Itoa(page.updateCount.value))]])
  {
    if Synthesises(page) {
      var n := page.updateCount.value;
      DigitsRead(n);
      assert IsDigit(Itoa(n)[0]) && "rows"[0] == 'r';
      assert !NamesColumn(Some(Itoa(n)), page.meta.info[0]);
    }
  }

  /** The column names as a row. */
  function NameRow(info: seq<Column>): Row {
    seq(|info|, i requires 0 <= i < |info| => Some(info[i].name))
  }

  /** A first page on which the column names come first. */
  predicate NamesComeFirst(page: Page, first: bool) {
    && first && page.meta.Columns? && page.meta.info != []
    && page.rows != [] && page.rows[0] == NameRow(page.meta.info)
  }

  lemma HeaderIsNames(page: Page)
    ensures HasHeader(page) <==> NamesComeFirst(page, true)
  {
    if HasHeader(page) {
      var row, names := page.rows[0], NameRow(page.meta.info);
      forall i | 0 <= i < |row| ensures row[i] == names[i] {
        assert NamesColumn(row[i], page.meta.info[i]);
      }
      assert row == names;
    }
  }

  /**
   Of the rows that fit the columns, what is read are all, in order, but a row of the column
   names at the head of a first page; and there is nothing to read exactly when that leaves none.
   */
  lemma RowsAreKept(trim: string -> string, page: Page, first: bool)
    requires !Panics(page, first)
    ensures var tidy, n := Tidy(trim, page), Normal(trim, page, first);
      && n.meta == tidy.meta && n.updateCount == page.updateCount
      && tidy.rows ==
           (if NamesComeFirst(tidy, first) && |tidy.rows| > 1 then [NameRow(tidy.meta.info)] else []) + n.rows
      && (NothingToRead(tidy, first) <==> |tidy.rows| == if NamesComeFirst(tidy, first) then 1 else 0)
  {
    var tidy := Tidy(trim, page);
    HeaderIsNames(tidy);
    if tidy.rows != [] { assert tidy.rows == [tidy.rows[0]] + tidy.rows[1..]; }
  }

  /** As many pieces as columns, in a page whose first row has one cell for several columns. */
  predicate IsSplit(page: Page, row: Row) {
    && page.meta.Columns? && page.rows != [] && |page.rows[0]| == 1 < |page.meta.info|
    && row != [] && row[0].Some? && |Split(row[0].value, '\t')| == |page.meta.info|
  }

  /** The row in its new form: the trimmed pieces of its first text if it is split, or as it was. */
  predicate NewForm(trim: string -> string, page: Page, row: Row, r: Row) {
    if IsSplit(page, row) then
      |r| == |page.meta.info| && forall i | 0 <= i < |r| :: r[i] == Some(trim(Split(row[0].value, '\t')[i]))
    else r == row
  }

  /** The rows are those of the page from the given one on, each in its new form. */
  predicate RowsFrom(trim: string -> string, page: Page, rows: seq<Row>, dropped: nat) {
    && |rows| + dropped == |page.rows|
    && forall k | 0 <= k < |rows| :: NewForm(trim, page, page.rows[dropped + k], rows[k])
  }

  lemma TidyForms(trim: string -> string, page: Page)
    requires page.rows != [] && !Panics(page, false)
    ensures RowsFrom(trim, page, Tidy(trim, page).rows, 0)
  {
    if Splits(page) {
      forall k | 0 <= k < |page.rows| ensures NewForm(trim, page, page.rows[k], Tidy(trim, page).rows[k]) {
        assert Splittable(page.rows[k]);
      }
    }
  }

  /** Every row left to read is a row of the fetched page, in its order and in its new form; at most one is dropped. */
  lemma RowsComeFromThePage(trim: string -> string, page: Page, first: bool)
    requires page.rows != [] && !Panics(page, first)
    ensures var rows := Normal(trim, page, first).rows;
      RowsFrom(trim, page, rows, 0) || (first && rows != [] && RowsFrom(trim, page, rows, 1))
  {
    TidyForms(trim, page);
    RowsAreSuffix(trim, page, first);
    var rows, kept := Tidy(trim, page).rows, Normal(trim, page, first).rows;
    if kept != rows { FormsOfRest(trim, page, rows, kept); }
  }

  lemma FormsOfRest(trim: string -> string, page: Page, rows: seq<Row>, kept: seq<Row>)
    requires RowsFrom(trim, page, rows, 0) && rows != [] && kept == rows[1..]
    ensures RowsFrom(trim, page, kept, 1)
  {
  }

  lemma RowsAreSuffix(trim: string -> string, page: Page, first: bool)
    requires !Panics(page, first)
    ensures var rows, kept := Tidy(trim, page).rows, Normal(trim, page, first).rows;
      kept == rows || (first && |rows| > 1 && kept == rows[1..])
  {
  }

  /** A page without rows stays without, but for a positive update count under the one column "rows". */
  lemma EmptyPage(trim: string -> string, page: Page, first: bool)
    requires page.rows == [] && !Panics(page, first)
    ensures Normal(trim, page, first).rows
            == if page.meta.Columns? && |page.meta.info| == 1 && page.meta.info[0].name == "rows"
                  && page.updateCount.Some? && page.updateCount.value > 0
               then [[Some(Itoa(page.updateCount.value))]] else []
  {
    if Synthesises(page) { RowCount(trim, page, first); }
  }

  /** A page whose columns and rows have been made to fit is left alone by doing so again. */
  lemma TidyOnce(trim: string -> string, page: Page)
    requires !Panics(page, false) && Trimming(trim)
    ensures var tidy := Tidy(trim, page); !Panics(tidy, false) && Tidy(trim, tidy) == tidy
  {
    var tidy := Tidy(trim, page);
    if Splits(page) && Splits(tidy) {
      forall k | 0 <= k < |page.rows|
        ensures Splittable(tidy.rows[k]) && SplitRow(trim, tidy.rows[k], Width(page)) == tidy.rows[k]
      {
        SplitRowOnce(trim, page.rows[k], Width(page));
      }
      assert SplitRows(trim, tidy.rows, Width(page)) == tidy.rows;
    }
  }

  lemma SplitRowOnce(trim: string -> string, row: Row, width: nat)
    requires Trimming(trim) && Splittable(row) && width > 1
    ensures var r := SplitRow(trim, row, width); Splittable(r) && SplitRow(trim, r, width) == r
  {
    var pieces := Split(row[0].value, '\t');
    if |pieces| == width {
      PiecesClean(row[0].value, '\t', 0);
      SplitWhole(trim(pieces[0]), '\t');
    }
  }
}
