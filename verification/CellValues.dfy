/**
 What the converted cells mean, column type by column type: which texts convert, to what, and
 what can be read back from a destination.
 */
module CellValues {
  import opened Decimal
  import opened RecordConversion
  import opened ServiceLimits
  import opened Strings
  import opened Wrappers

  // ---------------------------------------------------------------- the types by name

  predicate IsTextType(typ: string) {
    || typ == "json" || typ == "char" || typ == "varchar" || typ == "varbinary" || typ == "row"
    || typ == "string" || typ == "binary" || typ == "struct" || typ == "interval year to month"
    || typ == "interval day to second" || typ == "decimal" || typ == "ipaddress" || typ == "array"
    || typ == "map" || typ == "unknown"
  }

  predicate IsTimeType(typ: string) {
    || typ == "date" || typ == "time" || typ == "time with time zone"
    || typ == "timestamp" || typ == "timestamp with time zone"
  }

  predicate IsNumberType(typ: string) {
    || typ == "tinyint" || typ == "smallint" || typ == "integer" || typ == "bigint"
    || typ == "float" || typ == "real" || typ == "double"
  }

  /** Names of the same length as a number type differ from it in some byte. */
  lemma TextTypesAreApart(typ: string)
    requires IsTextType(typ)
    ensures typ in TEXT_TYPES && !IsNumberType(typ)
  {
    assert typ[0] != 't' && typ[0] != 'f';
    assert |typ| == 3 ==> typ[0] == 'r' || typ[0] == 'm';
    assert |typ| == 6 && typ[0] == 'b' ==> typ[2] == 'n';
  }

  lemma TimeTypesAreApart(typ: string)
    requires IsTimeType(typ)
    ensures typ in TIME_TYPES && !IsNumberType(typ) && !IsTextType(typ) && typ != "boolean"
  {
    assert typ[0] == 'd' || typ[0] == 't';
    assert |typ| != 7;
  }

  // ---------------------------------------------------------------- one cell

  /** A column of that type which is not masked. */
  predicate Shows(values: Values, column: Column, typ: string) {
    !Masked(values, column) && column.typ == Some(typ)
  }

  /** A text column hands its text on. */
  lemma TextCell(lib: Lib, values: Values, column: Column, typ: string, field: string)
    requires Shows(values, column, typ) && IsTextType(typ) && field != ""
    ensures CellOf(lib, values, column, field) == Converted(Text(field))
  {
    TextTypesAreApart(typ);
  }

  /** Only the two words are booleans. */
  lemma BooleanCell(lib: Lib, values: Values, column: Column, field: string)
    requires Shows(values, column, "boolean") && field != ""
    ensures var r := CellOf(lib, values, column, field);
      && (r == Converted(Boolean(true)) <==> field == "true")
      && (r == Converted(Boolean(false)) <==> field == "false")
      && (field != "true" && field != "false" ==> r == Failed(BadText("boolean", field)))
  {
    assert "true"[0] != "false"[0] && "boolean" !in TEXT_TYPES;
  }

  /** A float of the width of its type, made of its own text; the library says which texts are floats. */
  lemma FloatCell(lib: Lib, values: Values, column: Column, typ: string, field: string)
    requires Shows(values, column, typ) && (typ == "float" || typ == "real" || typ == "double") && field != ""
    ensures var bits := if typ == "double" then 64 else 32;
      CellOf(lib, values, column, field)
      == if lib.isFloat(bits, field) then Converted(Float(bits, field)) else Failed(BadText(typ, field))
  {
  }

  lemma {:induction false} LastPiece(s: string, c: char)
    requires s != ""
    ensures var pieces := Split(s, c); pieces[|pieces|-1] == "" <==> s[|s|-1] == c
  {
    var rest := Split(s[1..], c);
    if |s| > 1 {
      LastPiece(s[1..], c);
      assert |rest| > 1 ==> Split(s, c)[|Split(s, c)|-1] == rest[|rest|-1];
    }
  }

  /** A time made of its own text; a text that ends in a space panics, whatever the library says of it. */
  lemma TimeCell(lib: Lib, values: Values, column: Column, typ: string, field: string)
    requires Shows(values, column, typ) && IsTimeType(typ) && field != ""
    ensures CellOf(lib, values, column, field)
            == if field[|field|-1] == ' ' then Panicked
               else if lib.isTime(field) then Converted(Time(field)) else Failed(BadText(typ, field))
  {
    TimeTypesAreApart(typ);
    assert CellOf(lib, values, column, field) == ScanTime(lib, typ, field);
    LastPiece(field, ' ');
    SplitWhole(field, ' ');
  }

  /** The text is a decimal number with at most one sign, and this is its value. */
  ghost predicate ReadsAs(field: string, n: int) {
    exists digits :: digits != [] && AllDigits(digits)
      && ((n == Number(digits) && (field == digits || field == "+" + digits))
          || (n == -Number(digits) && field == "-" + digits))
  }

  /** The range of an integer type. */
  predicate InRange(typ: string, n: int) {
    if typ == "tinyint" then -128 <= n <= 127
    else if typ == "smallint" then -32768 <= n <= 32767
    else if typ == "integer" then -2147483648 <= n <= 2147483647
    else typ == "bigint" && IsInt64(n)
  }

  lemma ParsedExactly(field: string, bits: nat, n: int)
    ensures ParseInt(field, bits) == Some(n) <==> ReadsAs(field, n) && Fits(n, bits)
  {
    var signed := field != [] && (field[0] == '-' || field[0] == '+');
    var digits := if signed then field[1..] else field;
    if ParseInt(field, bits) == Some(n) {
      assert field == (if !signed then [] else [field[0]]) + digits;
    }
    if ReadsAs(field, n) {
      var d :| d != [] && AllDigits(d)
        && ((n == Number(d) && (field == d || field == "+" + d)) || (n == -Number(d) && field == "-" + d));
      assert IsDigit(d[0]);
      assert d == digits;
    }
  }

  /** An integer column takes exactly the decimal texts of the numbers in its range, each for its number. */
  lemma IntegerCellExactly(lib: Lib, values: Values, column: Column, typ: string, field: string)
    requires Shows(values, column, typ) && field != ""
    requires typ == "tinyint" || typ == "smallint" || typ == "integer" || typ == "bigint"
    ensures var r := CellOf(lib, values, column, field);
      && (forall n | ReadsAs(field, n) && InRange(typ, n) :: r.Converted? && r.cell == Integer(IntegerBits(typ), n))
      && (r.Converted? ==> exists n | ReadsAs(field, n) :: InRange(typ, n))
      && (!r.Converted? ==> r == Failed(BadText(typ, field)))
  {
    var bits := IntegerBits(typ);
    assert CellOf(lib, values, column, field) == FromText(lib, typ, field);
    forall n | ReadsAs(field, n) && InRange(typ, n) ensures ParseInt(field, bits) == Some(n) {
      ParsedExactly(field, bits, n);
    }
    if ParseInt(field, bits).Some? { ParsedExactly(field, bits, ParseInt(field, bits).value); }
  }

  /** Every other type is refused. */
  lemma OtherTypeCell(lib: Lib, values: Values, column: Column, typ: string, field: string)
    requires Shows(values, column, typ) && field != ""
    requires !IsTextType(typ) && !IsTimeType(typ) && !IsNumberType(typ) && typ != "boolean"
    ensures CellOf(lib, values, column, field) == Failed(UnknownType(typ))
  {
  }

  /** The zero value of a type; types the driver does not know have the empty string. */
  function ZeroOf(typ: string): Cell {
    if typ == "boolean" then Boolean(false)
    else if typ == "float" || typ == "real" || typ == "double" then ZeroFloat
    else if IsNumberType(typ) then GoInt(0)
    else if IsTimeType(typ) then ZeroTime
    else Text("")
  }

  /** An empty field, by the first of the three settings that is on. */
  lemma EmptyFieldCell(lib: Lib, values: Values, column: Column)
    requires !Masked(values, column)
    ensures CellOf(lib, values, column, "")
            == if Get(values, "missingAsNil") == "true" then Converted(Nil)
               else if Get(values, "missingAsEmptyString") == "true" then Converted(Text(""))
               else if Get(values, "missingAsDefault") != "true" then Failed(MissingData(column.name))
               else if column.typ.None? then Panicked
               else Converted(ZeroOf(column.typ.value))
  {
    if column.typ.Some? { ZeroIsDefault(column.typ.value); }
  }

  lemma ZeroIsDefault(typ: string)
    ensures DefaultValue(typ) == ZeroOf(typ)
  {
    if IsTimeType(typ) { TimeTypesAreApart(typ); }
  }

  // ---------------------------------------------------------------- whole records

  /**
   What a record that succeeds has left in the destination: the text of every field of a text
   column, and of every masked column its mask, whatever the field was.
   */
  lemma TextsAreKept(lib: Lib, values: Values, columns: seq<Column>, record: seq<string>, before: seq<Cell>, i: nat)
    requires End(lib, values, columns, record, |before|).None? && i < |record|
    ensures i < |columns| && i < |before|
    ensures var cell := Destination(lib, values, columns, record, before)[i];
      && (Masked(values, columns[i]) ==>
            values["masked_" + columns[i].name] != [] && cell == Text(values["masked_" + columns[i].name][0]))
      && (!Masked(values, columns[i]) && columns[i].typ.Some? && IsTextType(columns[i].typ.value) && record[i] != "" ==>
            cell == Text(record[i]))
  {
    assert At(lib, values, columns, record, |before|, i).Converted?;
    if Shows(values, columns[i], columns[i].typ.GetOr("")) && IsTextType(columns[i].typ.value) && record[i] != "" {
      TextCell(lib, values, columns[i], columns[i].typ.value, record[i]);
    }
  }

  /** The record behind cells of text columns; a missing value was an empty field. */
  function Recovered(cells: seq<Cell>): seq<string> {
    seq(|cells|, i requires 0 <= i < |cells| => if cells[i].Text? then cells[i].s else "")
  }

  /** Text columns without a mask, as many as there are fields, and an empty field only if one is accepted. */
  predicate TextRecord(values: Values, columns: seq<Column>, record: seq<string>) {
    && |record| <= |columns|
    && forall i | 0 <= i < |record| ::
         && !Masked(values, columns[i]) && columns[i].typ.Some? && IsTextType(columns[i].typ.value)
         && (record[i] == "" ==> AcceptsEmpty(values, columns[i]))
  }

  lemma TextRecordCell(lib: Lib, values: Values, columns: seq<Column>, record: seq<string>, room: nat, i: nat)
    requires TextRecord(values, columns, record) && |record| <= room && i < |record|
    ensures var r := At(lib, values, columns, record, room, i);
      r.Converted? && record[i] == if r.cell.Text? then r.cell.s else ""
  {
    var typ := columns[i].typ.value;
    TextTypesAreApart(typ);
    if record[i] == "" {
      EmptyFieldCell(lib, values, columns[i]);
      assert !IsTimeType(typ) && typ != "boolean";
    } else {
      TextCell(lib, values, columns[i], typ, record[i]);
    }
  }

  /** A record of text columns always succeeds and can be read back from its destination. */
  lemma TextRecordsComeBack(lib: Lib, values: Values, columns: seq<Column>, record: seq<string>, before: seq<Cell>)
    requires TextRecord(values, columns, record) && |record| <= |before|
    ensures End(lib, values, columns, record, |before|) == None
    ensures Recovered(Destination(lib, values, columns, record, before)[..|record|]) == record
  {
    forall i | 0 <= i < |record|
      ensures var r := At(lib, values, columns, record, |before|, i);
        r.Converted? && record[i] == if r.cell.Text? then r.cell.s else ""
    {
      TextRecordCell(lib, values, columns, record, |before|, i);
    }
    var stop := Stop(lib, values, columns, record, |before|, 0);
    assert stop == |record|;
    var cells := Destination(lib, values, columns, record, before)[..|record|];
    forall i | 0 <= i < |record| ensures Recovered(cells)[i] == record[i] {
      assert cells[i] == At(lib, values, columns, record, |before|, i).cell;
    }
  }
}
