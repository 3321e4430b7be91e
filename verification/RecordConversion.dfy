/** CSV records turned into destination values: masks, missing values and conversion by column type. */
module RecordConversion {
  import opened Decimal
  import ResultPages
  import opened ServiceLimits
  import opened Strings
  import opened Wrappers

  /** A driver.Value; Float and Time stand for what the library makes of a text. */
  datatype Cell =
    | Nil
    | Text(s: string)
    | Integer(bits: nat, n: int)
    | GoInt(n: int)
    | Boolean(b: bool)
    | Float(bits: nat, text: string)
    | Time(text: string)
    | ZeroFloat
    | ZeroTime

  type Column = ResultPages.Column

  datatype Error = MissingData(column: string) | BadText(typ: string, text: string) | UnknownType(typ: string)

  datatype Outcome = Converted(cell: Cell) | Failed(error: Error) | Panicked

  /** Which texts the library reads as a float of that width, or as a time. */
  datatype Lib = Lib(isFloat: (nat, string) -> bool, isTime: string -> bool)

  /** What conversion depends on besides the columns. */
  datatype Settings = Settings(lib: Lib, values: Values)

  // ---------------------------------------------------------------- one value

  const TEXT_TYPES := {
    "json", "char", "varchar", "varbinary", "row", "string", "binary", "struct",
    "interval year to month", "interval day to second", "decimal", "ipaddress", "array", "map", "unknown"
  }

  const TIME_TYPES := {"date", "time", "time with time zone", "timestamp", "timestamp with time zone"}

  /** The width of an integer type; 0 for other types. */
  function IntegerBits(typ: string): nat {
    if typ == "tinyint" then 8 else if typ == "smallint" then 16
    else if typ == "integer" then 32 else if typ == "bigint" then 64 else 0
  }

  function FloatBits(typ: string): nat {
    if typ == "float" || typ == "real" then 32 else if typ == "double" then 64 else 0
  }

  function HalfRange(bits: nat): int {
    if bits == 8 then 0x80 else if bits == 16 then 0x8000
    else if bits == 32 then 0x8000_0000 else 0x8000_0000_0000_0000
  }

  predicate Fits(n: int, bits: nat) {
    -HalfRange(bits) <= n < HalfRange(bits)
  }

  /** strconv.ParseInt in base 10; None is a syntax or range error. */
  function ParseInt(text: string, bits: nat): Option<int> {
    var signed := text != [] && (text[0] == '-' || text[0] == '+');
    var digits := if signed then text[1..] else text;
    if digits == [] || !AllDigits(digits) then None
    else
      var n := if signed && text[0] == '-' then -Number(digits) else Number(digits);
      if Fits(n, bits) then Some(n) else None
  }

  /** scanTime looks at the first byte after the last space, and there may be none. */
  function ScanTime(lib: Lib, typ: string, text: string): Outcome {
    var parts := Split(text, ' ');
    if |parts| > 1 && parts[|parts|-1] == "" then Panicked
    else if lib.isTime(text) then Converted(Time(text))
    else Failed(BadText(typ, text))
  }

  function FromText(lib: Lib, typ: string, text: string): Outcome {
    if IntegerBits(typ) > 0 then
      match ParseInt(text, IntegerBits(typ))
      case Some(n) => Converted(Integer(IntegerBits(typ), n))
      case None => Failed(BadText(typ, text))
    else if FloatBits(typ) > 0 then
      if lib.isFloat(FloatBits(typ), text) then Converted(Float(FloatBits(typ), text)) else Failed(BadText(typ, text))
    else if typ in TEXT_TYPES then Converted(Text(text))
    else if typ == "boolean" then
      if text == "true" then Converted(Boolean(true))
      else if text == "false" then Converted(Boolean(false))
      else Failed(BadText(typ, text))
    else if typ in TIME_TYPES then ScanTime(lib, typ, text)
    else Failed(UnknownType(typ))
  }

  function DefaultValue(typ: string): Cell {
    if IntegerBits(typ) > 0 then GoInt(0)
    else if typ == "boolean" then Boolean(false)
    else if FloatBits(typ) > 0 then ZeroFloat
    else if typ in TIME_TYPES then ZeroTime
    else Text("")
  }

  predicate Is(values: Values, key: string) {
    Get(values, key) == "true"
  }

  function Missing(values: Values, column: Column): Outcome {
    if Is(values, "missingAsNil") then Converted(Nil)
    else if Is(values, "missingAsEmptyString") then Converted(Text(""))
    else if Is(values, "missingAsDefault") then
      if column.typ.None? then Panicked else Converted(DefaultValue(column.typ.value))
    else Failed(MissingData(column.name))
  }

  predicate Masked(values: Values, column: Column) {
    "masked_" + column.name in values
  }

  /** CheckColumnMasked takes the first value kept; an empty list cannot come from its setter. */
  function MaskOf(values: Values, column: Column): Outcome
    requires Masked(values, column)
  {
    var kept := values["masked_" + column.name];
    if kept == [] then Panicked else Converted(Text(kept[0]))
  }

  /** athenaTypeToGoType; None is a nil pointer. */
  function Convert(lib: Lib, values: Values, column: Column, raw: Option<string>): Outcome {
    if Masked(values, column) then MaskOf(values, column)
    else if raw.None? then Missing(values, column)
    else if column.typ.None? then Panicked
    else FromText(lib, column.typ.value, raw.value)
  }

  // ---------------------------------------------------------------- one record

  /** An empty field is a missing value. */
  function CellOf(lib: Lib, values: Values, column: Column, field: string): Outcome {
    Convert(lib, values, column, if field == "" then None else Some(field))
  }

  /** What position k of the record comes to, with `room` places to write to. */
  function At(lib: Lib, values: Values, columns: seq<Column>, record: seq<string>, room: nat, k: nat): Outcome
    requires k < |record|
  {
    if k >= |columns| then Panicked
    else
      var r := CellOf(lib, values, columns[k], record[k]);
      if r.Converted? && k >= room then Panicked else r
  }

  /** The first position from k on that is not converted, or the record's length. */
  function Stop(lib: Lib, values: Values, columns: seq<Column>, record: seq<string>, room: nat, k: nat): (stop: nat)
    requires k <= |record|
    ensures k <= stop <= |record|
    ensures forall j | k <= j < stop :: At(lib, values, columns, record, room, j).Converted?
    ensures stop < |record| ==> !At(lib, values, columns, record, room, stop).Converted?
    decreases |record| - k
  {
    if k == |record| || !At(lib, values, columns, record, room, k).Converted? then k
    else Stop(lib, values, columns, record, room, k + 1)
  }

  /** None is success. */
  function End(lib: Lib, values: Values, columns: seq<Column>, record: seq<string>, room: nat): Option<Outcome> {
    var stop := Stop(lib, values, columns, record, room, 0);
    if stop == |record| then None else Some(At(lib, values, columns, record, room, stop))
  }

  /** The destination afterwards: what was converted before the stop, and the rest as it was. */
  function Destination(lib: Lib, values: Values, columns: seq<Column>, record: seq<string>,
                       before: seq<Cell>): seq<Cell> {
    var stop := Stop(lib, values, columns, record, |before|, 0);
    seq(|before|, i requires 0 <= i < |before| =>
      if i < stop then At(lib, values, columns, record, |before|, i).cell else before[i])
  }

  /** A position the conversion gets to either converts or is where it stops. */
  lemma StopHere(lib: Lib, values: Values, columns: seq<Column>, record: seq<string>, room: nat, i: nat)
    requires i < |record| && i <= Stop(lib, values, columns, record, room, 0)
    ensures if At(lib, values, columns, record, room, i).Converted? then i < Stop(lib, values, columns, record, room, 0)
            else i == Stop(lib, values, columns, record, room, 0)
                 && End(lib, values, columns, record, room) == Some(At(lib, values, columns, record, room, i))
  {
  }

  method ConvertRecord(lib: Lib, values: Values, columns: seq<Column>, rdata: seq<string>, ret: array<Cell>)
      returns (r: Option<Outcome>)
    modifies ret
    ensures r == End(lib, values, columns, rdata, ret.Length)
    ensures ret[..] == Destination(lib, values, columns, rdata, old(ret[..]))
  {
    ghost var before := ret[..];
    for i := 0 to |rdata|
      invariant i <= Stop(lib, values, columns, rdata, ret.Length, 0)
      invariant forall j | 0 <= j < ret.Length ::
        ret[j] == if j < i then At(lib, values, columns, rdata, ret.Length, j).cell else before[j]
    {
      var v := Some(rdata[i]);
      if rdata[i] == "" { v := None; }
      StopHere(lib, values, columns, rdata, ret.Length, i);
      if i >= |columns| { return Some(Panicked); }
      var value := Convert(lib, values, columns[i], v);
      if !value.Converted? { return Some(value); }
      if i >= ret.Length { return Some(Panicked); }
      ret[i] := value.cell;
    }
    return None;
  }

  // ---------------------------------------------------------------- masking

  /** The records agree wherever the column is not masked. */
  predicate AgreeUnmasked(values: Values, columns: seq<Column>, a: seq<string>, b: seq<string>) {
    |a| == |b| && forall i | 0 <= i < |a| && !(i < |columns| && Masked(values, columns[i])) :: a[i] == b[i]
  }

  lemma {:induction false} SameStop(lib: Lib, values: Values, columns: seq<Column>, a: seq<string>,
                                    b: seq<string>, room: nat, k: nat)
    requires |a| == |b| && k <= |a|
    requires forall i | k <= i < |a| ::
      At(lib, values, columns, a, room, i) == At(lib, values, columns, b, room, i)
    ensures Stop(lib, values, columns, a, room, k) == Stop(lib, values, columns, b, room, k)
    decreases |a| - k
  {
    if k < |a| { SameStop(lib, values, columns, a, b, room, k + 1); }
  }

  /** Nothing about a masked column gets out: neither into the destination nor into the outcome. */
  lemma MaskingDoesNotInterfere(lib: Lib, values: Values, columns: seq<Column>, a: seq<string>, b: seq<string>,
                                before: seq<Cell>)
    requires AgreeUnmasked(values, columns, a, b)
    ensures Destination(lib, values, columns, a, before) == Destination(lib, values, columns, b, before)
    ensures End(lib, values, columns, a, |before|) == End(lib, values, columns, b, |before|)
  {
    forall i | 0 <= i < |a|
      ensures At(lib, values, columns, a, |before|, i) == At(lib, values, columns, b, |before|, i)
    {
    }
    SameStop(lib, values, columns, a, b, |before|, 0);
  }

  /**
   The record succeeds exactly when it has a column and a place for each cell and no cell
   outside the masked columns fails; then every place up to its length has been written,
   the masked ones with their masks.
   */
  lemma SuccessWritesEverything(lib: Lib, values: Values, columns: seq<Column>, record: seq<string>,
                                before: seq<Cell>)
    requires forall i | 0 <= i < |columns| && Masked(values, columns[i]) :: MaskOf(values, columns[i]).Converted?
    ensures End(lib, values, columns, record, |before|).None? <==>
      && |record| <= |columns| && |record| <= |before|
      && forall i | 0 <= i < |record| && !Masked(values, columns[i]) ::
           CellOf(lib, values, columns[i], record[i]).Converted?
    ensures End(lib, values, columns, record, |before|).None? ==>
      && |Destination(lib, values, columns, record, before)| == |before|
      && (forall i | 0 <= i < |record| ::
            && Destination(lib, values, columns, record, before)[i]
               == At(lib, values, columns, record, |before|, i).cell
            && (Masked(values, columns[i]) ==>
                  Destination(lib, values, columns, record, before)[i] == MaskOf(values, columns[i]).cell))
      && Destination(lib, values, columns, record, before)[|record|..] == before[|record|..]
  {
    var stop := Stop(lib, values, columns, record, |before|, 0);
    if stop == |record| && |record| > 0 {
      assert At(lib, values, columns, record, |before|, |record| - 1).Converted?;
    }
    forall i | 0 <= i < |record| && i < |columns| && i < |before|
      ensures At(lib, values, columns, record, |before|, i) == CellOf(lib, values, columns[i], record[i])
    {
    }
  }

  // ---------------------------------------------------------------- missing values

  /** Some setting says what a missing value becomes. */
  predicate SomePolicy(values: Values) {
    Is(values, "missingAsNil") || Is(values, "missingAsEmptyString") || Is(values, "missingAsDefault")
  }

  /** Whether an empty cell of a column becomes a value; the alternatives are an error or a panic. */
  predicate AcceptsEmpty(values: Values, column: Column) {
    if Masked(values, column) then MaskOf(values, column).Converted?
    else SomePolicy(values) && (Is(values, "missingAsNil") || Is(values, "missingAsEmptyString") || column.typ.Some?)
  }

  lemma EmptyCell(lib: Lib, values: Values, columns: seq<Column>, n: nat, room: nat, i: nat)
    requires i < n
    ensures var r := At(lib, values, columns, seq(n, k => ""), room, i);
      && (r.Converted? <==> i < |columns| && i < room && AcceptsEmpty(values, columns[i]))
      && (!r.Converted? ==>
            r == if i < |columns| && !Masked(values, columns[i]) && !SomePolicy(values)
                 then Failed(MissingData(columns[i].name)) else Panicked)
  {
  }

  /**
   A record of empty cells is refused with an error or a panic exactly when some cell has no
   column, no place, or a column that does not accept it; the first such cell decides which.
   */
  lemma EmptyRecord(lib: Lib, values: Values, columns: seq<Column>, n: nat, room: nat)
    ensures var r := End(lib, values, columns, seq(n, k => ""), room);
      && (r.None? <==> n <= |columns| && n <= room && forall i | 0 <= i < n :: AcceptsEmpty(values, columns[i]))
      && (r.Some? ==> exists i | 0 <= i < n :: FirstRefusal(values, columns, n, room, i, r.value))
  {
    var record := seq(n, k => "");
    var stop := Stop(lib, values, columns, record, room, 0);
    forall i | 0 <= i < n
      ensures At(lib, values, columns, record, room, i).Converted?
              <==> i < |columns| && i < room && AcceptsEmpty(values, columns[i])
    {
      EmptyCell(lib, values, columns, n, room, i);
    }
    if stop < n {
      EmptyCell(lib, values, columns, n, room, stop);
      assert FirstRefusal(values, columns, n, room, stop, At(lib, values, columns, record, room, stop));
    } else if n > 0 {
      assert At(lib, values, columns, record, room, n - 1).Converted?;
    }
  }

  /** All cells before i are accepted, and `r` is what refuses cell i. */
  predicate FirstRefusal(values: Values, columns: seq<Column>, n: nat, room: nat, i: nat, r: Outcome)
    requires i < n
  {
    && (forall j | 0 <= j < i :: j < |columns| && j < room && AcceptsEmpty(values, columns[j]))
    && r == if i < |columns| && !Masked(values, columns[i]) && !SomePolicy(values)
            then Failed(MissingData(columns[i].name)) else Panicked
  }

  // ---------------------------------------------------------------- integers

  lemma ParseIntItoa(n: int, bits: nat)
    ensures ParseInt(Itoa(n), bits) == if Fits(n, bits) then Some(n) else None
    ensures Itoa(n) != ""
  {
    DigitsRead(Abs(n));
    if n < 0 {
      assert Itoa(n)[1..] == Digits(-n) && Itoa(n)[0] == '-';
    } else {
      assert IsDigit(Itoa(n)[0]);
    }
  }

  /** The decimal text of n in an integer column is n, exactly when n fits the column's width. */
  lemma IntegerCell(lib: Lib, values: Values, column: Column, n: int)
    requires column.typ.Some? && IntegerBits(column.typ.value) > 0 && !Masked(values, column)
    ensures var bits := IntegerBits(column.typ.value);
      CellOf(lib, values, column, Itoa(n))
      == if Fits(n, bits) then Converted(Integer(bits, n)) else Failed(BadText(column.typ.value, Itoa(n)))
  {
    var text, bits := Itoa(n), IntegerBits(column.typ.value);
    ParseIntItoa(n, bits);
    assert CellOf(lib, values, column, text) == FromText(lib, column.typ.value, text);
  }
}
