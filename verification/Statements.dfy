/** Prepared statements: made by Prepare, closed by the first run that does not panic or by Close. */
module Statements {
  import opened Interpolation
  import opened Query
  import opened QueryLaw
  import opened RemoteCalls
  import ResultPages
  import opened Strings
  import opened Wrappers

  /** The result of running a statement: ErrBadConn without a call, or the connection's answer. */
  datatype StatementResult = BadConn | Ran(answer: Answer)

  /** What a statement's later life depends on. */
  datatype Life = Life(closed: bool, query: string)

  /** One use of a statement, with what the outside answers to it. */
  datatype Use =
    | ExecIt(settings: Settings, env: Env, args: seq<Value>)
    | QueryIt(settings: Settings, env: Env, args: seq<Value>)
    | CloseIt
    | CountIt

  /** The course a run takes on an open statement; without a connection it is a panic. */
  function RunCourse(lib: Lib, connected: bool, query: string, use: Use): Course
    requires lib.tables.Correct() && (use.ExecIt? || use.QueryIt?)
  {
    if !connected then Course(Crash, [])
    else if use.ExecIt? then ExecCourse(lib, use.settings, use.env, query, use.args)
    else QueryCourse(lib, use.settings, use.env, query, use.args)
  }

  /** The remote calls one use makes. */
  function CallsOf(lib: Lib, connected: bool, life: Life, use: Use): seq<Call>
    requires lib.tables.Correct()
  {
    if life.closed || use.CloseIt? || use.CountIt? then []
    else RunCourse(lib, connected, life.query, use).calls
  }

  /** Close needs a connection and an open statement. */
  function AfterClose(connected: bool, life: Life): Life {
    if connected && !life.closed then Life(true, "") else life
  }

  /** A run closes the statement unless it panics. */
  function After(lib: Lib, connected: bool, life: Life, use: Use): Life
    requires lib.tables.Correct()
  {
    if life.closed || use.CountIt? then life
    else if use.CloseIt? then AfterClose(connected, life)
    else Life(RunCourse(lib, connected, life.query, use).answer != Crash, life.query)
  }

  class Statement {
    const connected: bool          // connection is not nil
    var closed: bool
    var query: string
    var numInput: nat

    /** numInput is the number of placeholders of the current text. */
    predicate Valid()
      reads this
    {
      numInput == Count(query, '?')
    }

    function Now(): Life
      reads this
    {
      Life(closed, query)
    }

    constructor (connected: bool, query: string)
      ensures Valid() && Now() == Life(false, query) && this.connected == connected
    {
      this.connected, this.query, closed, numInput := connected, query, false, Count(query, '?');
    }

    /** Only the first Close of a connected statement that was not run succeeds. */
    method Close() returns (ok: bool)
      requires Valid()
      modifies this
      ensures Valid() && Now() == AfterClose(connected, old(Now()))
      ensures ok == (connected && !old(closed))
      ensures if ok then closed && query == "" && numInput == 0 else Now() == old(Now())
    {
      if !connected || closed { return false; }
      query := "";
      closed := true;
      numInput := 0;
      return true;
    }

    /** Caches the count only when it is not zero; the answer is the count all the same. */
    method NumInput() returns (n: nat)
      requires Valid()
      modifies this`numInput
      ensures Valid() && n == Count(query, '?')
    {
      if numInput == 0 { numInput := Count(query, '?'); }
      return numInput;
    }

    /** A closed statement makes no remote call; an open one runs, and a panic leaves it open. */
    method Exec(lib: Lib, s: Settings, env: Env, args: seq<Value>) returns (r: StatementResult, trace: seq<Call>)
      requires Valid() && Sound(lib)
      modifies this`closed
      ensures Valid() && Now() == After(lib, connected, old(Now()), ExecIt(s, env, args))
      ensures trace == CallsOf(lib, connected, old(Now()), ExecIt(s, env, args))
      ensures r == if old(closed) then BadConn
                   else Ran(RunCourse(lib, connected, query, ExecIt(s, env, args)).answer)
      ensures r.Ran? ==> Lawful(lib, s, env, r.answer, trace)
    {
      NothingCalled(lib, s, env, Crash);
      if closed { return BadConn, []; }
      if !connected { return Ran(Crash), []; }
      var a, affected;
      a, affected, trace := ExecContext(lib, s, env, query, args);
      if a == Crash { return Ran(a), trace; }
      closed := true;
      return Ran(a), trace;
    }

    method Query(lib: Lib, s: Settings, env: Env, args: seq<Value>) returns (r: StatementResult, trace: seq<Call>)
      requires Valid() && Sound(lib)
      modifies this`closed
      ensures Valid() && Now() == After(lib, connected, old(Now()), QueryIt(s, env, args))
      ensures trace == CallsOf(lib, connected, old(Now()), QueryIt(s, env, args))
      ensures r == if old(closed) then BadConn
                   else Ran(RunCourse(lib, connected, query, QueryIt(s, env, args)).answer)
      ensures r.Ran? ==> Lawful(lib, s, env, r.answer, trace)
    {
      NothingCalled(lib, s, env, Crash);
      if closed { return BadConn, []; }
      if !connected { return Ran(Crash), []; }
      var a;
      a, trace := QueryContext(lib, s, env, query, args);
      if a == Crash { return Ran(a), trace; }
      closed := true;
      return Ran(a), trace;
    }
  }

  /** Prepare refuses texts of the wrong length. */
  method Prepare(query: string) returns (stmt: Statement?)
    ensures stmt == null <==> !IsQueryValid(query)
    ensures stmt != null ==>
      fresh(stmt) && stmt.Valid() && stmt.connected && stmt.Now() == Life(false, query)
  {
    if !IsQueryValid(query) { return null; }
    stmt := new Statement(true, query);
  }

  // ---------------------------------------------------------------- a statement over its life

  /** The traces a sequence of uses leaves, one for each. */
  function Traces(lib: Lib, connected: bool, life: Life, uses: seq<Use>): (r: seq<seq<Call>>)
    requires lib.tables.Correct()
    ensures |r| == |uses|
    decreases |uses|
  {
    if uses == [] then []
    else
      [CallsOf(lib, connected, life, uses[0])]
      + Traces(lib, connected, After(lib, connected, life, uses[0]), uses[1..])
  }

  predicate IsRun(use: Use) {
    use.ExecIt? || use.QueryIt?
  }

  /** On an open statement the use makes calls. */
  predicate Calls(lib: Lib, connected: bool, query: string, use: Use)
    requires lib.tables.Correct()
  {
    IsRun(use) && RunCourse(lib, connected, query, use).calls != []
  }

  /** On an open statement the use is a run that ends in a panic. */
  predicate Crashes(lib: Lib, connected: bool, query: string, use: Use)
    requires lib.tables.Correct()
  {
    IsRun(use) && RunCourse(lib, connected, query, use).answer == Crash
  }

  /** The use leaves an open statement open. */
  predicate LeavesOpen(lib: Lib, connected: bool, query: string, use: Use)
    requires lib.tables.Correct()
  {
    use.CountIt? || (use.CloseIt? && !connected) || Crashes(lib, connected, query, use)
  }

  /** A course that calls ends in a panic exactly when the reply to its last call panics. */
  predicate PanicShows(s: Settings, course: Course) {
    course.calls != [] ==> (course.answer == Crash <==> ReplyPanics(s, course.calls[|course.calls|-1]))
  }

  lemma ExecPanicShows(lib: Lib, query: string, s: Settings, env: Env, args: seq<Value>)
    requires lib.tables.Correct()
    ensures PanicShows(s, ExecCourse(lib, s, env, query, args))
  {
    ExecCrash(lib, s, env, query, args);
  }

  lemma QueryPanicShows(lib: Lib, query: string, s: Settings, env: Env, args: seq<Value>)
    requires lib.tables.Correct()
    ensures PanicShows(s, QueryCourse(lib, s, env, query, args))
  {
    QueryCrash(lib, s, env, query, args);
  }

  lemma RunPanicShows(lib: Lib, connected: bool, query: string, use: Use)
    requires lib.tables.Correct() && IsRun(use)
    ensures PanicShows(use.settings, RunCourse(lib, connected, query, use))
  {
    if use.ExecIt? {
      ExecPanicShows(lib, query, use.settings, use.env, use.args);
    } else {
      QueryPanicShows(lib, query, use.settings, use.env, use.args);
    }
  }

  /** A run that makes calls panics exactly when the reply to the last of them does. */
  lemma CrashAfterCalls(lib: Lib, connected: bool, query: string, use: Use)
    requires lib.tables.Correct() && Calls(lib, connected, query, use)
    ensures var calls := RunCourse(lib, connected, query, use).calls;
      Crashes(lib, connected, query, use) <==> ReplyPanics(use.settings, calls[|calls|-1])
  {
    RunPanicShows(lib, connected, query, use);
  }

  /** A use makes calls exactly when all uses before it have left the statement open. */
  lemma {:induction false} CallsExactly(lib: Lib, connected: bool, life: Life, uses: seq<Use>, j: nat)
    requires lib.tables.Correct() && j < |uses|
    ensures Traces(lib, connected, life, uses)[j] != []
            <==> !life.closed && Calls(lib, connected, life.query, uses[j])
                 && forall k | 0 <= k < j :: LeavesOpen(lib, connected, life.query, uses[k])
    decreases j
  {
    if j > 0 {
      var next := After(lib, connected, life, uses[0]);
      CallsExactly(lib, connected, next, uses[1..], j - 1);
      assert !next.closed <==> !life.closed && LeavesOpen(lib, connected, life.query, uses[0]);
      assert !next.closed ==> next.query == life.query;
      assert forall k | 1 <= k < j :: uses[1..][k - 1] == uses[k];
      assert forall k | 0 <= k < j - 1 :: uses[1..][k] == uses[k + 1];
    }
  }

  /**
   Two uses of a statement both make calls exactly when every use before the later one leaves
   the statement open, the earlier one by a panic on the reply to its last call.
   */
  lemma CallsTwiceExactly(lib: Lib, connected: bool, life: Life, uses: seq<Use>, i: nat, j: nat)
    requires lib.tables.Correct() && i < j < |uses|
    ensures var traces := Traces(lib, connected, life, uses);
      traces[i] != [] && traces[j] != []
      <==> && !life.closed
           && Calls(lib, connected, life.query, uses[i]) && Calls(lib, connected, life.query, uses[j])
           && (forall k | 0 <= k < j && k != i :: LeavesOpen(lib, connected, life.query, uses[k]))
           && var calls := RunCourse(lib, connected, life.query, uses[i]).calls;
              ReplyPanics(uses[i].settings, calls[|calls|-1])
  {
    CallsExactly(lib, connected, life, uses, i);
    CallsExactly(lib, connected, life, uses, j);
    AllButOne(lib, connected, life.query, uses, i, j);
    if Calls(lib, connected, life.query, uses[i]) { LeavesOpenExactly(lib, connected, life.query, uses[i]); }
  }

  lemma AllButOne(lib: Lib, connected: bool, query: string, uses: seq<Use>, i: nat, j: nat)
    requires lib.tables.Correct() && i < j < |uses|
    ensures (forall k | 0 <= k < j :: LeavesOpen(lib, connected, query, uses[k]))
            <==> LeavesOpen(lib, connected, query, uses[i])
                 && forall k | 0 <= k < j && k != i :: LeavesOpen(lib, connected, query, uses[k])
  {
  }

  lemma LeavesOpenExactly(lib: Lib, connected: bool, query: string, use: Use)
    requires lib.tables.Correct() && Calls(lib, connected, query, use)
    ensures var calls := RunCourse(lib, connected, query, use).calls;
      LeavesOpen(lib, connected, query, use) <==> ReplyPanics(use.settings, calls[|calls|-1])
  {
    CrashAfterCalls(lib, connected, query, use);
  }

  /** No reply to a call of this run panics. */
  predicate UsableReplies(lib: Lib, connected: bool, query: string, use: Use)
    requires lib.tables.Correct()
  {
    IsRun(use) ==> forall c | c in RunCourse(lib, connected, query, use).calls :: !ReplyPanics(use.settings, c)
  }

  /** While no reply panics, however it is used, a statement reaches the service in at most one use. */
  lemma AtMostOneRun(lib: Lib, connected: bool, life: Life, uses: seq<Use>)
    requires lib.tables.Correct()
    requires forall k | 0 <= k < |uses| :: UsableReplies(lib, connected, life.query, uses[k])
    ensures var traces := Traces(lib, connected, life, uses);
      forall i, j | 0 <= i < j < |uses| :: traces[i] == [] || traces[j] == []
  {
    var traces := Traces(lib, connected, life, uses);
    forall i, j | 0 <= i < j < |uses| ensures traces[i] == [] || traces[j] == [] {
      CallsTwiceExactly(lib, connected, life, uses, i, j);
    }
  }

  /** The condition is needed: a result page without metadata lets a statement start its query twice. */
  lemma PageWithoutMetadataRunsTwice(lib: Lib, text: string, s: Settings, env: Env)
    requires lib.tables.Correct()
    requires Submits(lib, s, env, text, []) && Parse(text).Run? && Parse(text).command == Plain
    requires env.start.Started? && WaitEnd(s, env).None? && env.describeOk
    requires env.page == ResultPages.Answered(ResultPages.Page(ResultPages.NoMetadata, [], None))
    ensures var use := QueryIt(s, env, []);
      var traces := Traces(lib, true, Life(false, text), [use, use]);
      HasStart(traces[0]) && HasStart(traces[1])
  {
    var use := QueryIt(s, env, []);
    var life := Life(false, text);
    var course := QueryCourse(lib, s, env, text, []);
    SubmittedExactly(lib, s, env, text, []);
    RowsAnswer(lib, s, env, text, []);
    assert [use, use][1..] == [use];
    assert After(lib, true, life, use) == life;
  }
}
