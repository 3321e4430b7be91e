/** Running a query: the code, proved to take the courses of QueryLaw. */
module Query {
  import ConfigTags
  import opened Interpolation
  import opened QueryLaw
  import opened RemoteCalls
  import opened ServiceLimits
  import opened Strings
  import opened Wrappers

  /** WAITING_FOR_RESULT: polls until the query ends, the caller leaves or a limit has passed. */
  method WaitForResult(s: Settings, env: Env, id: string) returns (failure: Option<Answer>, trace: seq<Call>)
    ensures failure == WaitEnd(s, env)
    ensures trace == WaitCalls(s, env, id)
  {
    trace := [];
    var k := 0;
    while k < |env.rounds|
      invariant k <= |env.rounds| && trace == PollCalls(id, env.rounds, k)
      invariant FirstEnd(s, env.rounds, 0) == FirstEnd(s, env.rounds, k)
    {
      var round := env.rounds[k];
      trace := trace + [Poll(id, round.reply)];
      assert trace == PollCalls(id, env.rounds, k + 1);
      match VerdictOf(round.reply) {
        case Unusable => return Some(Crash), trace;
        case Lost(error) => return Some(if CostPanics(s, round.reply) then Crash else Fail(error)), trace;
        case Done => return if CostPanics(s, round.reply) then Some(Crash) else None, trace;
        case Again =>
      }
      match round.wake {
        case ContextDone =>
          trace := trace + [Stop(id, env.stopOk)];
          if !env.stopOk { return Some(Fail(CallerGoneStopError)), trace; }
          if s.moneyWise { trace := trace + [FinalPoll(id, env.finalHasCost)]; }
          assert trace == PollCalls(id, env.rounds, k + 1) + StopCalls(s, env, id);
          if s.moneyWise && !env.finalHasCost { return Some(Crash), trace; }
          return Some(Fail(CallerGone)), trace;
        case Tick(elapsed) =>
          if IsQueryTimeOut(elapsed, round.reply.statementType, s.limits) { return Some(Fail(Timeout)), trace; }
      }
      k := k + 1;
    }
    return Some(Waiting), trace;
  }

  /** NewRows: the execution is described, then the first page fetched. */
  method NewRows(env: Env, id: string) returns (a: Answer, trace: seq<Call>)
    ensures Course(a, trace) == RowsCourse(env, id)
    ensures a.Rows? <==> trace == [Describe(id, true), FetchPage(id, env.page)] && MakesRows(env.page)
    ensures StartsNothing(trace) && Stops(trace) == 0 && Polls(trace) == 0
  {
    RowsCount(env, id);
    trace := [Describe(id, env.describeOk)];
    if !env.describeOk { return Fail(RowsError), trace; }
    trace := trace + [FetchPage(id, env.page)];
    if env.page.CallFailed? { return Fail(RowsError), trace; }
    if !MakesRows(env.page) { return Crash, trace; }
    return Rows(id), trace;
  }

  /** Looks the workgroup up, and creates it if it is missing and that is allowed. */
  method PrepareWorkgroup(s: Settings, env: Env) returns (end: Option<Answer>, trace: seq<Call>)
    ensures end == GroupEnd(s, env) && trace == GroupCalls(s, env)
    ensures OnlyGroupCalls(s, trace) && (end.None? <==> PhaseOf(UsesDefault(s), trace) == Ready)
  {
    GroupIsLawful(s, env);
    if UsesDefault(s) { return None, []; }
    trace := [GetWorkgroup(s.workgroup, env.workgroup)];
    match env.workgroup {
      case LookupFailed => return Some(Fail(WorkgroupError)), trace;
      case NoWorkgroup => return Some(Crash), trace;
      case Found(enabled) => return if enabled then None else Some(Fail(WorkgroupDisabled)), trace;
      case NotFound =>
        if !s.creationAllowed { return Some(Fail(WorkgroupMissing)), trace; }
        trace := trace + [CreateWorkgroup(s.workgroup, env.createOk)];
        return if env.createOk then None else Some(Fail(WorkgroupError)), trace;
    }
  }

  /** Case 1: the text is a query ID. */
  method AnswerQid(env: Env, command: Command, id: string) returns (a: Answer, trace: seq<Call>)
    ensures Course(a, trace) == QidCourse(env, command, id)
    ensures StartsNothing(trace) && Stops(trace) == if command == StopQid then 1 else 0
  {
    QidIsQuiet(env, command, id);
    if command == QidStatus {
      trace := [Inspect(id, env.status)];
      if env.status.PollFailed? { return Fail(StatusError), trace; }
      if env.status.NoStatus? { return Crash, trace; }
      return Page(StateText(env.status.state)), trace;
    }
    if command == StopQid {
      trace := [Stop(id, env.stopOk)];
      if !env.stopOk { return Fail(StopError), trace; }
      return Page("OK"), trace;
    }
    a, trace := NewRows(env, id);
  }

  /** Case 2: the text is submitted and polled. */
  method SubmitAndWait(lib: Lib, s: Settings, env: Env, command: Command, text: string, args: seq<Value>)
    returns (a: Answer, trace: seq<Call>)
    ensures Course(a, trace) == SubmitCourse(s, env, command, text, Params(lib.formatFloat, args))
  {
    var params := BuildExecutionParams(lib.formatFloat, args);
    if params.None? { return Fail(BadParameters), []; }
    trace := [Start(text, params.value, GroupName(s), env.start)];
    match env.start {
      case StartFailed(requestId) =>
        if command == GetQid && requestId != "" { return Page(requestId), trace; }
        return Fail(StartError), trace;
      case NoId => return Crash, trace;
      case Started(id) =>
        if command == GetQid { return Page(id), trace; }
        var failure, polls := WaitForResult(s, env, id);
        trace := trace + polls;
        if failure.Some? { return failure.value, trace; }
        var calls;
        a, calls := NewRows(env, id);
        trace := trace + calls;
    }
  }

  method QueryContext(lib: Lib, s: Settings, env: Env, query: string, args: seq<Value>)
    returns (a: Answer, trace: seq<Call>)
    requires Sound(lib)
    ensures Course(a, trace) == QueryCourse(lib, s, env, query, args)
    ensures Lawful(lib, s, env, a, trace)
  {
    QueryIsLawful(lib, s, env, query, args);
    var parsed := Parse(query);
    if parsed.Version? { return Page(DRIVER_VERSION), []; }
    if parsed.NoSuchCommand? { return Fail(UnknownPseudoCommand), []; }
    var text := parsed.text;
    if s.readOnly && !IsReadOnlyStatement(lib, text) { return Fail(WriteViolation), []; }
    var final := text;
    if args != [] {
      var r := InterpolateParams(lib.formatFloat, lib.tables, text, args);
      if r.Panic? { return Crash, []; }
      if !r.Ok? { return Fail(BadParameters), []; }
      final := r.text;
    }
    if !IsQueryValid(final) { return Fail(BadQuery), []; }
    if ConfigTags.DecodeTags(s.tagText).None? { return Crash, []; }
    assert Admission(lib, s, query, args) == Admitted(parsed.command, text, final);
    var end;
    end, trace := PrepareWorkgroup(s, env);
    if end.Some? { return end.value, trace; }
    var calls;
    if IsQID(final) {
      a, calls := AnswerQid(env, parsed.command, final);
    } else {
      a, calls := SubmitAndWait(lib, s, env, parsed.command, text, args);
    }
    trace := trace + calls;
  }

  method ExecContext(lib: Lib, s: Settings, env: Env, query: string, args: seq<Value>)
    returns (a: Answer, affected: Option<int>, trace: seq<Call>)
    requires Sound(lib)
    ensures Course(a, trace) == ExecCourse(lib, s, env, query, args) && affected == Affected(env, a)
    ensures Lawful(lib, s, env, a, trace)
  {
    ExecIsLawful(lib, s, env, query, args);
    var final := query;
    if args != [] {
      var r := InterpolateParams(lib.formatFloat, lib.tables, query, args);
      if r.Panic? { return Crash, None, []; }
      if !r.Ok? { return Fail(BadParameters), None, []; }
      final := r.text;
    }
    if !IsQueryValid(final) { return Fail(BadQuery), None, []; }
    a, trace := QueryContext(lib, s, env, final, []);
    affected := None;
    if a.Rows? || a.Page? {
      affected := Some(0);
      if a.Rows? && env.page.Answered? && env.page.page.updateCount.Some? {
        affected := env.page.page.updateCount;
      }
    }
  }

  /** Whatever keeps "SELECT 1" from being answered, Ping calls the connection bad. */
  method Ping(lib: Lib, s: Settings, env: Env) returns (alive: bool, trace: seq<Call>)
    requires Sound(lib)
    ensures var course := QueryCourse(lib, s, env, "SELECT 1", []);
      && trace == course.calls && (alive <==> course.answer.Rows? || course.answer.Page?)
      && Lawful(lib, s, env, course.answer, trace)
  {
    var answer;
    answer, trace := QueryContext(lib, s, env, "SELECT 1", []);
    return answer.Rows? || answer.Page?, trace;
  }
}
