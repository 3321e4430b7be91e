/** Query time limits: the override a user may set, its trip through decimal text, and the verdict. */
module ServiceLimits {
  import opened Decimal
  import opened Wrappers

  const DDL_QUERY_TIMEOUT: int := 600 * 60
  const DML_QUERY_TIMEOUT: int := 30 * 60
  const POOL_INTERVAL: int := 3
  const SECOND: int := 1_000_000_000

  /** url.Values: each key holds a list, and Get answers its first entry or the empty string. */
  type Values = map<string, seq<string>>

  function Get(values: Values, key: string): string {
    if key in values && values[key] != [] then values[key][0] else ""
  }

  function Set(values: Values, key: string, value: string): Values {
    values[key := [value]]
  }

  /** The two fields of a ServiceLimitOverride; 0 means not overridden. */
  datatype Limits = Limits(ddl: int, dml: int)

  const NO_OVERRIDE := Limits(0, 0)

  /** What the setters let through. */
  predicate Settable(seconds: int) {
    !(0 <= seconds < POOL_INTERVAL)
  }

  predicate FieldAllowed(n: int) {
    IsInt64(n) && (n == 0 || Settable(n))
  }

  predicate Allowed(l: Limits) {
    FieldAllowed(l.ddl) && FieldAllowed(l.dml)
  }

  function SetDDL(l: Limits, seconds: int): Limits {
    if Settable(seconds) then l.(ddl := seconds) else l
  }

  function SetDML(l: Limits, seconds: int): Limits {
    if Settable(seconds) then l.(dml := seconds) else l
  }

  /** SetServiceLimitOverride on the values of a Config. */
  function Store(values: Values, l: Limits): Values {
    Set(Set(values, "DDLQueryTimeout", Itoa(l.ddl)), "DMLQueryTimeout", Itoa(l.dml))
  }

  /** SetFromValues on a receiver holding `l`. */
  function Load(values: Values, l: Limits): Limits {
    SetDML(SetDDL(l, Atoi(Get(values, "DDLQueryTimeout"))), Atoi(Get(values, "DMLQueryTimeout")))
  }

  class ServiceLimitOverride {
    var ddlQueryTimeout: int
    var dmlQueryTimeout: int

    function Fields(): Limits
      reads this
    {
      Limits(ddlQueryTimeout, dmlQueryTimeout)
    }

    constructor ()
      ensures Fields() == NO_OVERRIDE
    {
      ddlQueryTimeout, dmlQueryTimeout := 0, 0;
    }

    method SetDDLQueryTimeout(seconds: int) returns (ok: bool)
      requires IsInt64(seconds)
      modifies this
      ensures Fields() == SetDDL(old(Fields()), seconds) && ok == (seconds < 0 || seconds >= 3)
      ensures old(Allowed(Fields())) ==> Allowed(Fields())
    {
      if seconds >= 0 && seconds < POOL_INTERVAL { return false; }
      ddlQueryTimeout := seconds;
      return true;
    }

    method SetDMLQueryTimeout(seconds: int) returns (ok: bool)
      requires IsInt64(seconds)
      modifies this
      ensures Fields() == SetDML(old(Fields()), seconds) && ok == (seconds < 0 || seconds >= 3)
      ensures old(Allowed(Fields())) ==> Allowed(Fields())
    {
      if seconds >= 0 && seconds < POOL_INTERVAL { return false; }
      dmlQueryTimeout := seconds;
      return true;
    }

    method GetAsStringMap() returns (m: map<string, string>)
      ensures m == map["DDLQueryTimeout" := Itoa(ddlQueryTimeout), "DMLQueryTimeout" := Itoa(dmlQueryTimeout)]
      ensures forall values: Values, key | key in m :: Get(Store(values, Fields()), key) == m[key]
    {
      m := map[];
      m := m["DDLQueryTimeout" := Itoa(ddlQueryTimeout)];
      m := m["DMLQueryTimeout" := Itoa(dmlQueryTimeout)];
    }

    method SetFromValues(values: Values)
      modifies this
      ensures Fields() == Load(values, old(Fields()))
    {
      var _ := SetDDLQueryTimeout(Atoi(Get(values, "DDLQueryTimeout")));
      var _ := SetDMLQueryTimeout(Atoi(Get(values, "DMLQueryTimeout")));
    }
  }

  // ---------------------------------------------------------------- histories and the round trip

  datatype SetterCall = DDL(seconds: int) | DML(seconds: int)

  /** The fields after a history of setter calls on a new override. */
  function History(calls: seq<SetterCall>): Limits {
    if calls == [] then NO_OVERRIDE
    else
      var l := History(calls[..|calls|-1]);
      match calls[|calls|-1]
      case DDL(s) => SetDDL(l, s)
      case DML(s) => SetDML(l, s)
  }

  lemma {:induction false} HistoriesAreAllowed(calls: seq<SetterCall>)
    requires forall k | 0 <= k < |calls| :: IsInt64(calls[k].seconds)
    ensures Allowed(History(calls))
    ensures var l := History(calls); !(0 < l.ddl < 3) && !(0 < l.dml < 3)
  {
    if calls != [] { HistoriesAreAllowed(calls[..|calls|-1]); }
  }

  /**
   Storing limits in a Config that may hold anything else and reading them back gives the same
   limits exactly when they are limits the setters allow.
   */
  lemma StoreThenLoad(values: Values, l: Limits)
    requires IsInt64(l.ddl) && IsInt64(l.dml)
    ensures Load(Store(values, l), NO_OVERRIDE) == l <==> Allowed(l)
  {
    AtoiItoa(l.ddl);
    AtoiItoa(l.dml);
  }

  // ---------------------------------------------------------------- the verdict

  /** Conversion to a 64-bit Duration, wrapping around. */
  function Wrap64(n: int): int {
    (n + 0x8000_0000_0000_0000) % 0x1_0000_0000_0000_0000 - 0x8000_0000_0000_0000
  }

  /** The limit in seconds that applies to a reported statement type. */
  function Applicable(statementType: string, l: Limits): int {
    var ddl := if l.ddl != 0 then l.ddl else DDL_QUERY_TIMEOUT;
    var dml := if l.dml != 0 then l.dml else DML_QUERY_TIMEOUT;
    if statementType == "DML" || statementType == "UTILITY" then dml else ddl
  }

  /** isQueryTimeOut; `elapsed` is time.Since(start) in nanoseconds. */
  predicate IsQueryTimeOut(elapsed: int, statementType: string, l: Limits) {
    if statementType == "TIMEOUT_NOW" then true
    else
      var limit := Applicable(statementType, l);
      limit >= 0 && elapsed > Wrap64(limit * SECOND)
  }

  /** Stored limits give the same verdicts as the override they came from. */
  lemma SameVerdict(values: Values, calls: seq<SetterCall>, elapsed: int, statementType: string)
    requires forall k | 0 <= k < |calls| :: IsInt64(calls[k].seconds)
    ensures IsQueryTimeOut(elapsed, statementType, Load(Store(values, History(calls)), NO_OVERRIDE))
            <==> IsQueryTimeOut(elapsed, statementType, History(calls))
  {
    HistoriesAreAllowed(calls);
    StoreThenLoad(values, History(calls));
  }

  /** Data statements and utilities; every other statement type counts as a definition. */
  predicate IsData(statementType: string) {
    statementType == "DML" || statementType == "UTILITY"
  }

  /** Without overrides data statements have half an hour and all others ten hours. */
  lemma DefaultLimits(elapsed: int, statementType: string)
    ensures IsQueryTimeOut(elapsed, statementType, NO_OVERRIDE)
            <==> statementType == "TIMEOUT_NOW"
                 || elapsed > (if IsData(statementType) then 1800 else 36000) * SECOND
  {
  }

  /**
   An override is the limit, to the nanosecond, of the statement types it is meant for, a negative
   one is none, and the verdict on all other types stays as it was.
   */
  lemma OverrideReaches(l: Limits, seconds: int, elapsed: int, statementType: string)
    requires Settable(seconds) && seconds <= MAX_SECONDS
    ensures IsQueryTimeOut(elapsed, statementType, SetDML(l, seconds))
            <==> if IsData(statementType) then seconds >= 0 && elapsed > seconds * SECOND
                 else IsQueryTimeOut(elapsed, statementType, l)
    ensures IsQueryTimeOut(elapsed, statementType, SetDDL(l, seconds))
            <==> if statementType == "TIMEOUT_NOW" || IsData(statementType)
                 then IsQueryTimeOut(elapsed, statementType, l)
                 else seconds >= 0 && elapsed > seconds * SECOND
  {
    if seconds >= 0 { assert Wrap64(seconds * SECOND) == seconds * SECOND; }
  }

  /** Values in which no limit is stored leave the receiver alone. */
  lemma NothingStored(values: Values, l: Limits)
    requires Get(values, "DDLQueryTimeout") == "" && Get(values, "DMLQueryTimeout") == ""
    ensures Load(values, l) == l
  {
  }

  const MAX_SECONDS: int := 9_223_372_036

  /** No timeout is reported at an elapsed time within the limit. */
  ghost predicate NeverPremature(limit: int, statementType: string, l: Limits) {
    forall elapsed | 0 <= elapsed <= MAX_INT64 ::
      IsQueryTimeOut(elapsed, statementType, l) ==> elapsed > limit * SECOND
  }

  /**
   Limits are honoured as long as they fit a Duration, and only then: any longer limit wraps
   around and times some query out too early.
   */
  lemma PrematureExactlyOnOverflow(statementType: string, l: Limits)
    requires statementType != "TIMEOUT_NOW" && IsInt64(l.ddl) && IsInt64(l.dml)
    ensures var limit := Applicable(statementType, l);
      NeverPremature(limit, statementType, l) <==> limit <= MAX_SECONDS
  {
    var limit := Applicable(statementType, l);
    if limit > MAX_SECONDS {
      var wrapped := Wrap64(limit * SECOND);
      assert wrapped % 2 == 0 by { EvenAfterWrap(limit * SECOND, limit * 500_000_000); }
      var elapsed := if wrapped < 0 then 0 else wrapped + 1;
      assert IsQueryTimeOut(elapsed, statementType, l) && elapsed <= limit * SECOND;
    }
  }

  lemma EvenAfterWrap(n: int, half: int)
    requires n == 2 * half
    ensures Wrap64(n) % 2 == 0
  {
    var m := n + 0x8000_0000_0000_0000;
    var q := m / 0x1_0000_0000_0000_0000;
    assert m % 0x1_0000_0000_0000_0000 == 2 * (half + 0x4000_0000_0000_0000 - q * 0x8000_0000_0000_0000);
  }
}
