/**
 What a query comes to: pseudo commands, the read-only gate, the workgroup, submission and
 polling, as functions of the query, the settings and an environment, and what they promise.

 The remote service, the caller's context and the clock are the environment `Env`: it holds the
 answer to every call the driver may make and a finite script of polling rounds. A run that
 reaches the end of the script is still waiting, so the runs over all environments are all
 finite prefixes of all behaviours. The driver's calls are recorded in a trace.
 */
module QueryLaw {
  import ConfigTags
  import opened Interpolation
  import opened RemoteCalls
  import ResultPages
  import opened ServiceLimits
  import opened Strings
  import opened TimeLiteral
  import opened Wrappers

  const DEFAULT_WG_NAME: string := "primary"
  const DRIVER_VERSION: string := "1.1.15"
  const PC_GET_QID: string := "get_query_id"
  const PC_GET_QID_STATUS: string := "get_query_id_status"
  const PC_STOP_QID: string := "stop_query_id"
  const PC_GET_DRIVER_VERSION: string := "get_driver_version"

  /** Library functions outside this model: TrimSpace(ToLower(q)), float formatting; and the digit tables. */
  datatype Lib = Lib(normalize: string -> string, formatFloat: FloatFormat, tables: Tables)

  ghost predicate Sound(lib: Lib) {
    WritesSomething(lib.formatFloat) && lib.tables.Correct()
  }

  datatype Settings = Settings(
    readOnly: bool,
    moneyWise: bool,
    workgroup: string,
    creationAllowed: bool,
    interval: int,              // seconds between two polls
    limits: Limits,
    tagText: string)            // the "tag" value, which GetWorkgroup decodes

  // ---------------------------------------------------------------- the text of a query

  predicate HasPrefix(s: string, prefix: string) {
    prefix <= s
  }

  function TrimLeft(s: string): string {
    if s != [] && s[0] == ' ' then TrimLeft(s[1..]) else s
  }

  function TrimRight(s: string): string {
    if s != [] && s[|s|-1] == ' ' then TrimRight(s[..|s|-1]) else s
  }

  /** strings.Trim(s, " "). */
  function Trim(s: string): string {
    TrimRight(TrimLeft(s))
  }

  predicate IsQidByte(c: char) {
    '0' <= c <= '9' || 'a' <= c <= 'f' || c == '-'
  }

  predicate IsQID(q: string) {
    |q| == 36 && forall k | 0 <= k < |q| :: IsQidByte(q[k])
  }

  predicate IsQueryValid(q: string) {
    4 < |q| < MAX_QUERY_STRING_LENGTH
  }

  predicate IsReadOnlyStatement(lib: Lib, q: string) {
    var n := lib.normalize(q);
    HasPrefix(n, "select") || HasPrefix(n, "using") || HasPrefix(n, "with")
    || HasPrefix(n, "desc") || HasPrefix(n, "show") || IsQID(q)
  }

  datatype Command = Plain | GetQid | QidStatus | StopQid
  datatype Parsed = Run(command: Command, text: string) | Version | NoSuchCommand

  /** The pseudo command a query asks for, and the text left for it. */
  function Parse(query: string): Parsed {
    if !HasPrefix(query, "pc:") then Run(Plain, query)
    else
      var q := Trim(query[3..]);
      if HasPrefix(q, PC_GET_QID + " ") then Run(GetQid, Trim(q[|PC_GET_QID|..]))
      else if HasPrefix(q, PC_GET_QID_STATUS + " ") then Run(QidStatus, Trim(q[|PC_GET_QID_STATUS|..]))
      else if HasPrefix(q, PC_STOP_QID + " ") then Run(StopQid, Trim(q[|PC_STOP_QID|..]))
      else if HasPrefix(q, PC_GET_DRIVER_VERSION) then Version
      else NoSuchCommand
  }

  // ---------------------------------------------------------------- settings and replies

  /** Printing the cost follows a pointer that may be nil. */
  predicate CostPanics(s: Settings, reply: PollReply) {
    s.moneyWise && reply.Status? && !reply.hasCost && (reply.state == Succeeded || reply.state == Cancelled)
  }

  /** The reply of the call panics: the driver follows a nil pointer in it. */
  predicate ReplyPanics(s: Settings, c: Call) {
    match c
    case GetWorkgroup(_, reply) => reply.NoWorkgroup?
    case Start(_, _, _, reply) => reply.NoId?
    case Poll(_, reply) =>
      || reply.NoStatus? || (reply.Status? && reply.state == Failed && !reply.hasReason) || CostPanics(s, reply)
    case FinalPoll(_, hasCost) => !hasCost
    case Inspect(_, reply) => reply.NoStatus?
    case FetchPage(_, page) => !page.CallFailed? && !MakesRows(page)
    case _ => false
  }

  predicate UsesDefault(s: Settings) {
    s.workgroup == "" || s.workgroup == DEFAULT_WG_NAME
  }

  function GroupName(s: Settings): string {
    if s.workgroup == "" then DEFAULT_WG_NAME else s.workgroup
  }

  /** Every text sent for execution is short enough, is no query ID, and reads only if it must. */
  predicate SafeTexts(lib: Lib, s: Settings, trace: seq<Call>) {
    forall k | 0 <= k < |trace| && trace[k].Start? ::
      && |trace[k].text| < MAX_QUERY_STRING_LENGTH
      && !IsQID(trace[k].text)
      && (s.readOnly ==> IsReadOnlyStatement(lib, trace[k].text))
      && trace[k].name == GroupName(s)
  }

  /** The run ended because the caller's context was done, perhaps in a panic of its last look. */
  predicate LeftByContext(a: Answer, calls: seq<Call>) {
    || a == Fail(CallerGone) || a == Fail(CallerGoneStopError)
    || (a == Crash && calls != [] && calls[|calls|-1].FinalPoll?)
  }

  // ---------------------------------------------------------------- polling time

  /** The poll interval has passed before every tick, on a clock that never runs back. */
  predicate Paced(rounds: seq<Round>, interval: int) {
    forall k | 0 <= k < |rounds| && rounds[k].wake.Tick? ::
      (k + 1) * interval * SECOND <= rounds[k].wake.elapsed <= 0x7FFF_FFFF_FFFF_FFFF
  }

  function Longest(l: Limits): int {
    var ddl, dml := Applicable("DDL", l), Applicable("DML", l);
    if ddl > dml then ddl else dml
  }

  /** Both limits that may apply are limits, and fit a Duration. */
  predicate Bounded(l: Limits) {
    0 <= Applicable("DDL", l) <= MAX_SECONDS && 0 <= Applicable("DML", l) <= MAX_SECONDS
  }

  /** What bounds the loop: an interval of at least a second, limits that limit, and time passing. */
  predicate Limited(s: Settings, env: Env) {
    s.interval >= 1 && Bounded(s.limits) && Paced(env.rounds, s.interval)
  }

  /** The first m rounds neither ended the query nor timed it out, and the caller stayed. */
  predicate Survived(s: Settings, rounds: seq<Round>, m: nat) {
    m <= |rounds| && forall k | 0 <= k < m :: SurvivedRound(s, rounds[k])
  }

  predicate SurvivedRound(s: Settings, r: Round) {
    GoesOn(r.reply) && r.wake.Tick? && !IsQueryTimeOut(r.wake.elapsed, r.reply.statementType, s.limits)
  }

  /** However often the reported statement type changes, the longest limit bounds the survivors. */
  lemma SurvivorsAreFew(s: Settings, env: Env, m: nat)
    requires Limited(s, env) && Survived(s, env.rounds, m)
    ensures m <= Longest(s.limits) / s.interval
  {
    if m == 0 {
      QuotientBound(0, s.interval, Longest(s.limits));
    } else {
      var r := env.rounds[m - 1];
      assert SurvivedRound(s, r) && m * s.interval * SECOND <= r.wake.elapsed;
      var limit := Applicable(r.reply.statementType, s.limits);
      assert Wrap64(limit * SECOND) == limit * SECOND;
      QuotientBound(m, s.interval, Longest(s.limits));
    }
  }

  lemma QuotientBound(a: int, b: int, c: int)
    requires b >= 1 && a * b <= c
    ensures a <= c / b
  {
    var d := a - (c / b + 1);
    assert d * b == a * b - (c / b + 1) * b < 0;
    assert d < 0;
  }

  // ---------------------------------------------------------------- the loop

  /**
   Round k saw the query not finished, and a limit is what ended the wait. A limit too long for
   a Duration is the exception; what happens then is stated with the limits.
   */
  predicate TimedOutFairly(rounds: seq<Round>, k: int, l: Limits) {
    && 0 <= k < |rounds| && GoesOn(rounds[k].reply) && rounds[k].wake.Tick?
    && var limit := Applicable(rounds[k].reply.statementType, l);
       limit <= MAX_SECONDS ==>
         rounds[k].reply.statementType == "TIMEOUT_NOW" || (limit >= 0 && rounds[k].wake.elapsed > limit * SECOND)
  }

  /** The first round from k on that ends the wait, or the length of the script. */
  function FirstEnd(s: Settings, rounds: seq<Round>, k: nat): (m: nat)
    requires k <= |rounds|
    ensures k <= m <= |rounds|
    decreases |rounds| - k
  {
    if k == |rounds| || !SurvivedRound(s, rounds[k]) then k else FirstEnd(s, rounds, k + 1)
  }

  lemma {:induction false} FirstEndIsFirst(s: Settings, rounds: seq<Round>, k: nat)
    requires k <= |rounds|
    ensures var m := FirstEnd(s, rounds, k);
      && (forall j | k <= j < m :: SurvivedRound(s, rounds[j]))
      && (m < |rounds| ==> !SurvivedRound(s, rounds[m]))
    decreases |rounds| - k
  {
    if k < |rounds| && SurvivedRound(s, rounds[k]) { FirstEndIsFirst(s, rounds, k + 1); }
  }

  /** How the wait ends; None means the query succeeded. */
  function WaitEnd(s: Settings, env: Env): Option<Answer> {
    var m := FirstEnd(s, env.rounds, 0);
    if m == |env.rounds| then Some(Waiting) else EndOfRound(s, env, env.rounds[m])
  }

  function EndOfRound(s: Settings, env: Env, last: Round): Option<Answer> {
    match VerdictOf(last.reply)
    case Unusable => Some(Crash)
    case Lost(error) => Some(if CostPanics(s, last.reply) then Crash else Fail(error))
    case Done => if CostPanics(s, last.reply) then Some(Crash) else None
    case Again => Some(if last.wake.Tick? then Fail(Timeout) else Leaving(s, env))
  }

  /** The answer to a caller whose context is done. */
  function Leaving(s: Settings, env: Env): Answer {
    if !env.stopOk then Fail(CallerGoneStopError)
    else if s.moneyWise && !env.finalHasCost then Crash
    else Fail(CallerGone)
  }

  function PollCalls(id: string, rounds: seq<Round>, n: nat): seq<Call>
    requires n <= |rounds|
  {
    seq(n, k requires 0 <= k < n => Poll(id, rounds[k].reply))
  }

  /** The calls of the wait: one poll a round, and a stop if the caller left. */
  function WaitCalls(s: Settings, env: Env, id: string): seq<Call> {
    var m := FirstEnd(s, env.rounds, 0);
    if m == |env.rounds| then PollCalls(id, env.rounds, m)
    else PollCalls(id, env.rounds, m + 1) + CallsAfter(s, env, id, env.rounds[m])
  }

  function CallsAfter(s: Settings, env: Env, id: string, last: Round): seq<Call> {
    if GoesOn(last.reply) && last.wake.ContextDone? then StopCalls(s, env, id) else []
  }

  function StopCalls(s: Settings, env: Env, id: string): seq<Call> {
    [Stop(id, env.stopOk)] + if env.stopOk && s.moneyWise then [FinalPoll(id, env.finalHasCost)] else []
  }

  // ---------------------------------------------------------------- the loop keeps the grammar

  lemma PollCallsSnoc(id: string, rounds: seq<Round>, n: nat)
    requires n < |rounds|
    ensures PollCalls(id, rounds, n + 1) == PollCalls(id, rounds, n) + [Poll(id, rounds[n].reply)]
  {
  }

  lemma {:induction false} PollingPhase(s: Settings, rounds: seq<Round>, id: string, n: nat)
    requires Survived(s, rounds, n)
    ensures PhaseFrom(Submitted(id), PollCalls(id, rounds, n)) == if n == 0 then Submitted(id) else Pending(id)
  {
    if n > 0 {
      PollingPhase(s, rounds, id, n - 1);
      assert SurvivedRound(s, rounds[n - 1]);
      LastPollPhase(s, rounds, id, n - 1);
    }
  }

  /** The poll of the round after those that survived, whatever it says. */
  lemma LastPollPhase(s: Settings, rounds: seq<Round>, id: string, n: nat)
    requires n < |rounds|
    requires PhaseFrom(Submitted(id), PollCalls(id, rounds, n)) == if n == 0 then Submitted(id) else Pending(id)
    ensures PhaseFrom(Submitted(id), PollCalls(id, rounds, n + 1)) == AfterPoll(id, rounds[n].reply)
  {
    PollCallsSnoc(id, rounds, n);
    PhaseSnoc(Submitted(id), PollCalls(id, rounds, n), Poll(id, rounds[n].reply));
  }

  lemma {:induction false} PollCallsCount(id: string, rounds: seq<Round>, n: nat)
    requires n <= |rounds|
    ensures Stops(PollCalls(id, rounds, n)) == 0 && Polls(PollCalls(id, rounds, n)) == n
  {
    if n > 0 {
      PollCallsCount(id, rounds, n - 1);
      PollCallsSnoc(id, rounds, n - 1);
      TallySnoc(PollCalls(id, rounds, n - 1), Poll(id, rounds[n - 1].reply));
    }
  }

  /** The caller leaves: exactly one stop, of the execution that is pending. */
  lemma StoppingPhase(s: Settings, env: Env, id: string)
    ensures var calls := StopCalls(s, env, id);
      && PhaseFrom(Pending(id), calls) != Rejected
      && Stops(calls) == 1 && Polls(calls) == 0 && StartsNothing(calls)
  {
    var stop := Stop(id, env.stopOk);
    OneCall(Pending(id), stop);
    TwoCalls(Pending(id), stop, FinalPoll(id, env.finalHasCost));
    assert StopCalls(s, env, id) == [stop] || StopCalls(s, env, id) == [stop, FinalPoll(id, env.finalHasCost)];
  }

  /** The calls after the last poll. */
  lemma CallsAfterPhase(s: Settings, env: Env, id: string, last: Round)
    ensures var end, calls := EndOfRound(s, env, last), CallsAfter(s, env, id, last);
      && (end.None? ==> PhaseFrom(AfterPoll(id, last.reply), calls) == Finished(id))
      && PhaseFrom(AfterPoll(id, last.reply), calls) != Rejected
      && Stops(calls) == (if last.wake.ContextDone? && GoesOn(last.reply) then 1 else 0)
      && Polls(calls) == 0 && StartsNothing(calls)
  {
    StoppingPhase(s, env, id);
  }

  lemma CallsAfterCount(s: Settings, env: Env, id: string, last: Round)
    ensures var calls := CallsAfter(s, env, id, last);
      && Stops(calls) == (if last.wake.ContextDone? && GoesOn(last.reply) then 1 else 0)
      && Polls(calls) == 0
  {
    CallsAfterPhase(s, env, id, last);
  }

  /** Whether the caller left shows in the answer and the last call. */
  lemma LeavingShows(s: Settings, env: Env, id: string, front: seq<Call>, last: Round)
    requires front != [] && front[|front|-1].Poll?
    ensures var end, calls := EndOfRound(s, env, last), front + CallsAfter(s, env, id, last);
      end.Some? ==>
        (LeftByContext(end.value, calls) <==> last.wake.ContextDone? && GoesOn(last.reply))
  {
    var after := CallsAfter(s, env, id, last);
    if after == [] {
      assert front + after == front;
    } else {
      assert (front + after)[|front + after| - 1] == after[|after| - 1];
    }
  }

  lemma WaitPhase(s: Settings, env: Env, id: string)
    ensures var p := PhaseFrom(Submitted(id), WaitCalls(s, env, id));
      p != Rejected && (WaitEnd(s, env).None? ==> p == Finished(id))
  {
    var m := FirstEnd(s, env.rounds, 0);
    FirstEndIsFirst(s, env.rounds, 0);
    PollingPhase(s, env.rounds, id, m);
    if m < |env.rounds| {
      LastPollPhase(s, env.rounds, id, m);
      CallsAfterPhase(s, env, id, env.rounds[m]);
      PhaseAppend(Submitted(id), PollCalls(id, env.rounds, m + 1), CallsAfter(s, env, id, env.rounds[m]));
    }
  }

  /** The round that ends the wait is one in which the caller left. */
  predicate CallerLeft(s: Settings, env: Env) {
    var m := FirstEnd(s, env.rounds, 0);
    m < |env.rounds| && env.rounds[m].wake.ContextDone? && GoesOn(env.rounds[m].reply)
  }

  /** The calls of a wait that ends in round m. */
  lemma EndedCount(s: Settings, env: Env, id: string, m: nat)
    requires m < |env.rounds|
    ensures var last := env.rounds[m];
      var calls := PollCalls(id, env.rounds, m + 1) + CallsAfter(s, env, id, last);
      && Stops(calls) == (if last.wake.ContextDone? && GoesOn(last.reply) then 1 else 0)
      && Polls(calls) == m + 1
  {
    PollCallsCount(id, env.rounds, m + 1);
    CallsAfterCount(s, env, id, env.rounds[m]);
    TallyAppend(PollCalls(id, env.rounds, m + 1), CallsAfter(s, env, id, env.rounds[m]));
  }

  lemma EndedEnd(s: Settings, env: Env, last: Round)
    ensures EndOfRound(s, env, last) != Some(Waiting)
  {
  }

  /** One poll a round, and a stop exactly if the caller left. */
  lemma WaitCount(s: Settings, env: Env, id: string)
    ensures var end, calls := WaitEnd(s, env), WaitCalls(s, env, id);
      && Stops(calls) == (if CallerLeft(s, env) then 1 else 0)
      && Polls(calls) == FirstEnd(s, env.rounds, 0) + if end == Some(Waiting) then 0 else 1
  {
    var m := FirstEnd(s, env.rounds, 0);
    if m == |env.rounds| {
      PollCallsCount(id, env.rounds, m);
    } else {
      EndedCount(s, env, id, m);
      EndedEnd(s, env, env.rounds[m]);
    }
  }

  lemma WaitShowsLeaving(s: Settings, env: Env, id: string)
    requires WaitEnd(s, env).Some?
    ensures LeftByContext(WaitEnd(s, env).value, WaitCalls(s, env, id)) <==> CallerLeft(s, env)
  {
    var m := FirstEnd(s, env.rounds, 0);
    if m < |env.rounds| { LeavingShows(s, env, id, PollCalls(id, env.rounds, m + 1), env.rounds[m]); }
  }

  lemma WaitStartsNothing(s: Settings, env: Env, id: string)
    ensures StartsNothing(WaitCalls(s, env, id))
  {
    var m := FirstEnd(s, env.rounds, 0);
    if m < |env.rounds| { CallsAfterPhase(s, env, id, env.rounds[m]); }
  }

  /** What the wait keeps, and its polls counted against the rounds that survived. */
  lemma WaitIsLawful(s: Settings, env: Env, id: string)
    ensures var end, calls := WaitEnd(s, env), WaitCalls(s, env, id);
      && PhaseFrom(Submitted(id), calls) != Rejected
      && (end.None? ==> PhaseFrom(Submitted(id), calls) == Finished(id))
      && Stops(calls) == (if end.Some? && LeftByContext(end.value, calls) then 1 else 0)
      && Polls(calls) == FirstEnd(s, env.rounds, 0) + (if end == Some(Waiting) then 0 else 1)
      && StartsNothing(calls)
  {
    WaitPhase(s, env, id);
    WaitCount(s, env, id);
    if WaitEnd(s, env).Some? { WaitShowsLeaving(s, env, id); }
    WaitStartsNothing(s, env, id);
  }

  /** A wait that ends by a limit ends in a round that the limit had passed in. */
  lemma WaitIsFair(s: Settings, env: Env)
    requires WaitEnd(s, env) == Some(Fail(Timeout))
    ensures TimedOutFairly(env.rounds, FirstEnd(s, env.rounds, 0), s.limits)
  {
    FirstEndIsFirst(s, env.rounds, 0);
    var last := env.rounds[FirstEnd(s, env.rounds, 0)];
    var limit := Applicable(last.reply.statementType, s.limits);
    if limit <= MAX_SECONDS && limit >= 0 { assert Wrap64(limit * SECOND) == limit * SECOND; }
  }

  // ---------------------------------------------------------------- courses

  /** An answer and the calls made for it. */
  datatype Course = Course(answer: Answer, calls: seq<Call>)

  /** What is decided before any remote call. */
  datatype Gate = Refused(answer: Answer) | Admitted(command: Command, text: string, final: string)

  function RowsCourse(env: Env, id: string): Course {
    if !env.describeOk then Course(Fail(RowsError), [Describe(id, false)])
    else Course(PageAnswer(env.page, id), [Describe(id, true), FetchPage(id, env.page)])
  }

  /** fetchNextPage fails, panics on what it dereferences, or leaves rows. */
  function PageAnswer(page: ResultPages.Reply, id: string): Answer {
    if page.CallFailed? then Fail(RowsError) else if MakesRows(page) then Rows(id) else Crash
  }

  /** None is a workgroup that can be used. */
  function GroupEnd(s: Settings, env: Env): Option<Answer> {
    if UsesDefault(s) then None
    else
      match env.workgroup
      case LookupFailed => Some(Fail(WorkgroupError))
      case NoWorkgroup => Some(Crash)
      case Found(enabled) => if enabled then None else Some(Fail(WorkgroupDisabled))
      case NotFound =>
        if !s.creationAllowed then Some(Fail(WorkgroupMissing))
        else if env.createOk then None else Some(Fail(WorkgroupError))
  }

  function GroupCalls(s: Settings, env: Env): seq<Call> {
    if UsesDefault(s) then []
    else
      [GetWorkgroup(s.workgroup, env.workgroup)]
      + if env.workgroup.NotFound? && s.creationAllowed then [CreateWorkgroup(s.workgroup, env.createOk)] else []
  }

  function QidCourse(env: Env, command: Command, id: string): Course {
    match command
    case QidStatus => Course(StatusAnswer(env.status), [Inspect(id, env.status)])
    case StopQid => Course(if env.stopOk then Page("OK") else Fail(StopError), [Stop(id, env.stopOk)])
    case _ => RowsCourse(env, id)
  }

  function StatusAnswer(reply: PollReply): Answer {
    match reply
    case PollFailed => Fail(StatusError)
    case NoStatus => Crash
    case Status(state, _, _, _) => Page(StateText(state))
  }

  /** Once the workgroup is settled, a text that is no query ID takes this course. */
  function SubmitCourse(s: Settings, env: Env, command: Command, text: string, params: Option<seq<string>>): Course {
    if params.None? then Course(Fail(BadParameters), [])
    else
      var start := Start(text, params.value, GroupName(s), env.start);
      match env.start
      case StartFailed(requestId) =>
        Course(if command == GetQid && requestId != "" then Page(requestId) else Fail(StartError), [start])
      case NoId => Course(Crash, [start])
      case Started(id) =>
        if command == GetQid then Course(Page(id), [start])
        else Course(Submission(s, env, id).answer, [start] + Submission(s, env, id).calls)
  }

  function Admission(lib: Lib, s: Settings, query: string, args: seq<Value>): Gate
    requires lib.tables.Correct()
  {
    match Parse(query)
    case Version => Refused(Page(DRIVER_VERSION))
    case NoSuchCommand => Refused(Fail(UnknownPseudoCommand))
    case Run(command, text) =>
      if s.readOnly && !IsReadOnlyStatement(lib, text) then Refused(Fail(WriteViolation))
      else if args == [] then Final(s, command, text, text)
      else if Count(text, '?') != |args| then Refused(Fail(BadParameters))
      else
        match Interpolated(lib.formatFloat, lib.tables, [], text, args)
        case Ok(final) => Final(s, command, text, final)
        case Panic => Refused(Crash)
        case _ => Refused(Fail(BadParameters))
  }

  /** The length check, and then the workgroup is read from the settings: malformed tags panic. */
  function Final(s: Settings, command: Command, text: string, final: string): Gate {
    if !IsQueryValid(final) then Refused(Fail(BadQuery))
    else if ConfigTags.DecodeTags(s.tagText).None? then Refused(Crash)
    else Admitted(command, text, final)
  }

  function AfterGroup(lib: Lib, s: Settings, env: Env, gate: Gate, args: seq<Value>): Course
    requires gate.Admitted?
  {
    if IsQID(gate.final) then QidCourse(env, gate.command, gate.final)
    else SubmitCourse(s, env, gate.command, gate.text, Params(lib.formatFloat, args))
  }

  /** QueryContext as a function of the query, the settings and everything the outside answers. */
  function QueryCourse(lib: Lib, s: Settings, env: Env, query: string, args: seq<Value>): Course
    requires lib.tables.Correct()
  {
    var gate := Admission(lib, s, query, args);
    if gate.Refused? then Course(gate.answer, []) else AdmittedCourse(lib, s, env, gate, args)
  }

  /** What becomes of a query that passed the gate. */
  function AdmittedCourse(lib: Lib, s: Settings, env: Env, gate: Gate, args: seq<Value>): Course
    requires gate.Admitted?
  {
    if GroupEnd(s, env).Some? then Course(GroupEnd(s, env).value, GroupCalls(s, env))
    else
      var rest := AfterGroup(lib, s, env, gate, args);
      Course(rest.answer, GroupCalls(s, env) + rest.calls)
  }

  /** ExecContext interpolates first and then runs the text without arguments. */
  function ExecCourse(lib: Lib, s: Settings, env: Env, query: string, args: seq<Value>): Course
    requires lib.tables.Correct()
  {
    if args == [] then ExecFinal(lib, s, env, query)
    else if Count(query, '?') != |args| then Course(Fail(BadParameters), [])
    else
      match Interpolated(lib.formatFloat, lib.tables, [], query, args)
      case Ok(final) => ExecFinal(lib, s, env, final)
      case Panic => Course(Crash, [])
      case _ => Course(Fail(BadParameters), [])
  }

  function ExecFinal(lib: Lib, s: Settings, env: Env, final: string): Course
    requires lib.tables.Correct()
  {
    if IsQueryValid(final) then QueryCourse(lib, s, env, final, []) else Course(Fail(BadQuery), [])
  }

  function StateText(state: QueryState): string {
    match state
    case Queued => "QUEUED"
    case Running => "RUNNING"
    case Succeeded => "SUCCEEDED"
    case Failed => "FAILED"
    case Cancelled => "CANCELLED"
  }

  /** None is an error; otherwise the number of affected rows, which only a result page can tell. */
  function Affected(env: Env, a: Answer): Option<int> {
    match a
    case Rows(_) => Some(if env.page.Answered? then env.page.page.updateCount.GetOr(0) else 0)
    case Page(_) => Some(0)
    case _ => None
  }

  // ---------------------------------------------------------------- every entry point is lawful

  /** At most one poll a round that did not end the wait, and one more. */
  predicate PollsOnceARound(s: Settings, env: Env, a: Answer, calls: seq<Call>) {
    && Polls(calls) <= FirstEnd(s, env.rounds, 0) + (if a == Waiting then 0 else 1)
    && (a == Waiting ==> FirstEnd(s, env.rounds, 0) == |env.rounds|)
  }

  /** The round of the last poll, which is the last call, is one that a limit had passed in. */
  predicate EndsTimedOut(s: Settings, env: Env, trace: seq<Call>) {
    && TimedOutFairly(env.rounds, Polls(trace) - 1, s.limits)
    && trace != [] && trace[|trace|-1].Poll? && trace[|trace|-1].reply == env.rounds[Polls(trace) - 1].reply
  }

  /** What calls made from a phase on promise. */
  ghost predicate Orderly(lib: Lib, s: Settings, env: Env, start: Phase, a: Answer, calls: seq<Call>) {
    && PhaseFrom(start, calls) != Rejected
    && SafeTexts(lib, s, calls)
    && (a.Rows? ==> PhaseFrom(start, calls) == Loaded(a.id, HasStart(calls)))
    && (HasStart(calls) ==> Stops(calls) == if LeftByContext(a, calls) then 1 else 0)
    && (a == Fail(Timeout) ==> EndsTimedOut(s, env, calls))
    && PollsOnceARound(s, env, a, calls)
    && (forall k | 0 <= k < |calls| && calls[k].CreateWorkgroup? :: s.creationAllowed)
  }

  /** What every entry point promises about the calls it made. */
  ghost predicate Lawful(lib: Lib, s: Settings, env: Env, a: Answer, trace: seq<Call>) {
    Orderly(lib, s, env, First(UsesDefault(s)), a, trace)
  }

  /** In time: at most one poll more than there are intervals in the longest limit, and no endless wait. */
  lemma LawfulIsTimely(lib: Lib, s: Settings, env: Env, a: Answer, trace: seq<Call>)
    requires Lawful(lib, s, env, a, trace) && Limited(s, env)
    ensures Polls(trace) <= Longest(s.limits) / s.interval + 1
    ensures a == Waiting ==> |env.rounds| <= Longest(s.limits) / s.interval
  {
    FirstEndIsFirst(s, env.rounds, 0);
    SurvivorsAreFew(s, env, FirstEnd(s, env.rounds, 0));
  }

  lemma NothingCalled(lib: Lib, s: Settings, env: Env, a: Answer)
    requires !a.Rows? && a != Waiting && a != Fail(Timeout)
    ensures Lawful(lib, s, env, a, [])
  {
  }

  /** Only calls about the workgroup, and none that were not allowed. */
  predicate OnlyGroupCalls(s: Settings, trace: seq<Call>) {
    && Stops(trace) == 0 && Polls(trace) == 0
    && forall k | 0 <= k < |trace| :: trace[k].GetWorkgroup? || (trace[k].CreateWorkgroup? && s.creationAllowed)
  }

  lemma GroupIsLawful(s: Settings, env: Env)
    ensures OnlyGroupCalls(s, GroupCalls(s, env))
    ensures var p := PhaseOf(UsesDefault(s), GroupCalls(s, env));
      p != Rejected && (p == Ready <==> GroupEnd(s, env).None?)
  {
    if !UsesDefault(s) { LookupIsLawful(s, env); }
  }

  lemma LookupIsLawful(s: Settings, env: Env)
    requires !UsesDefault(s)
    ensures OnlyGroupCalls(s, GroupCalls(s, env))
    ensures var p := PhaseFrom(Begin, GroupCalls(s, env));
      p != Rejected && (p == Ready <==> GroupEnd(s, env).None?)
  {
    var get, create := GetWorkgroup(s.workgroup, env.workgroup), CreateWorkgroup(s.workgroup, env.createOk);
    if env.workgroup.NotFound? && s.creationAllowed {
      TwoCalls(Begin, get, create);
      assert GroupCalls(s, env) == [get, create];
    } else {
      OneCall(Begin, get);
      assert GroupCalls(s, env) == [get];
    }
  }

  lemma RowsCount(env: Env, id: string)
    ensures var calls := RowsCourse(env, id).calls;
      && Stops(calls) == 0 && Polls(calls) == 0 && StartsNothing(calls)
      && calls != [] && !calls[|calls|-1].FinalPoll?
  {
    OneCall(Ready, Describe(id, false));
    TwoCalls(Ready, Describe(id, true), FetchPage(id, env.page));
  }

  /** Where the rows may be opened from. */
  function RowsFrom(id: string, polled: bool): Phase {
    if polled then Finished(id) else Ready
  }

  lemma RowsPhase(env: Env, id: string, polled: bool)
    ensures PhaseFrom(RowsFrom(id, polled), RowsCourse(env, id).calls)
            == if RowsCourse(env, id).answer == Rows(id) then Loaded(id, polled) else Over
  {
    var start := RowsFrom(id, polled);
    if env.describeOk {
      TwoCalls(start, Describe(id, true), FetchPage(id, env.page));
      assert Advance(start, Describe(id, true)) == Described(id, polled);
    } else {
      OneCall(start, Describe(id, false));
    }
  }

  /** A query ID starts nothing, and only the stop command stops it. */
  lemma QidIsQuiet(env: Env, command: Command, id: string)
    ensures var calls := QidCourse(env, command, id).calls;
      StartsNothing(calls) && Stops(calls) == (if command == StopQid then 1 else 0) && Polls(calls) == 0
  {
    RowsCount(env, id);
    OneCall(Ready, Inspect(id, env.status));
    OneCall(Ready, Stop(id, env.stopOk));
  }

  /** Calls that start nothing, do not poll and do not wait keep every promise but the grammar. */
  lemma QuietIsOrderly(lib: Lib, s: Settings, env: Env, start: Phase, course: Course)
    requires PhaseFrom(start, course.calls) != Rejected && StartsNothing(course.calls) && Polls(course.calls) == 0
    requires course.answer != Waiting && course.answer != Fail(Timeout)
    requires course.answer.Rows? ==> PhaseFrom(start, course.calls) == Loaded(course.answer.id, false)
    ensures Orderly(lib, s, env, start, course.answer, course.calls) && !HasStart(course.calls)
  {
  }

  lemma QidPhase(env: Env, command: Command, id: string)
    ensures var course := QidCourse(env, command, id);
      && PhaseFrom(Ready, course.calls) != Rejected
      && course.answer != Waiting && course.answer != Fail(Timeout)
      && (course.answer.Rows? ==> PhaseFrom(Ready, course.calls) == Loaded(course.answer.id, false))
  {
    RowsPhase(env, id, false);
    OneCall(Ready, Inspect(id, env.status));
    OneCall(Ready, Stop(id, env.stopOk));
  }

  lemma QidIsLawful(lib: Lib, s: Settings, env: Env, command: Command, id: string)
    ensures var course := QidCourse(env, command, id);
      && Orderly(lib, s, env, Ready, course.answer, course.calls)
      && !HasStart(course.calls)
      && Stops(course.calls) == if command == StopQid then 1 else 0
  {
    QidIsQuiet(env, command, id);
    QidPhase(env, command, id);
    QuietIsOrderly(lib, s, env, Ready, QidCourse(env, command, id));
  }

  /** What may be sent for execution. */
  predicate SafeText(lib: Lib, s: Settings, text: string) {
    |text| < MAX_QUERY_STRING_LENGTH && !IsQID(text) && (s.readOnly ==> IsReadOnlyStatement(lib, text))
  }

  /** From a start that succeeded on: the wait, and the rows if the query succeeded. */
  function Submission(s: Settings, env: Env, id: string): Course {
    match WaitEnd(s, env)
    case Some(failure) => Course(failure, WaitCalls(s, env, id))
    case None => Course(RowsCourse(env, id).answer, WaitCalls(s, env, id) + RowsCourse(env, id).calls)
  }

  /** After the wait succeeded the rows are opened. */
  lemma SucceededPhase(s: Settings, env: Env, id: string)
    requires WaitEnd(s, env).None?
    ensures PhaseFrom(Submitted(id), WaitCalls(s, env, id) + RowsCourse(env, id).calls)
            == if RowsCourse(env, id).answer == Rows(id) then Loaded(id, true) else Over
  {
    WaitPhase(s, env, id);
    RowsPhase(env, id, true);
    PhaseAppend(Submitted(id), WaitCalls(s, env, id), RowsCourse(env, id).calls);
  }

  lemma SubmissionPhase(s: Settings, env: Env, id: string)
    ensures var course := Submission(s, env, id);
      && PhaseFrom(Submitted(id), course.calls) != Rejected
      && (course.answer.Rows? ==> PhaseFrom(Submitted(id), course.calls) == Loaded(course.answer.id, true))
  {
    if WaitEnd(s, env).None? { SucceededPhase(s, env, id); } else { WaitPhase(s, env, id); }
  }

  lemma SubmissionStartsNothing(s: Settings, env: Env, id: string)
    ensures StartsNothing(Submission(s, env, id).calls)
  {
    WaitStartsNothing(s, env, id);
    RowsCount(env, id);
  }

  lemma SubmissionCount(s: Settings, env: Env, id: string)
    ensures var course := Submission(s, env, id);
      && Stops(course.calls) == (if LeftByContext(course.answer, course.calls) then 1 else 0)
      && Polls(course.calls) == FirstEnd(s, env.rounds, 0) + (if course.answer == Waiting then 0 else 1)
  {
    WaitIsLawful(s, env, id);
    if WaitEnd(s, env).None? {
      var waited, rows := WaitCalls(s, env, id), RowsCourse(env, id).calls;
      RowsCount(env, id);
      TallyAppend(waited, rows);
      LastOfAppend(waited, rows);
    }
  }

  lemma SubmissionTimesOutFairly(s: Settings, env: Env, id: string)
    requires WaitEnd(s, env) == Some(Fail(Timeout))
    ensures EndsTimedOut(s, env, Submission(s, env, id).calls)
  {
    WaitIsFair(s, env);
    SubmissionCount(s, env, id);
    var m := FirstEnd(s, env.rounds, 0);
    assert Submission(s, env, id).calls == PollCalls(id, env.rounds, m + 1);
  }

  /** What the course after a start that succeeded promises. */
  predicate FollowsStart(s: Settings, env: Env, id: string, rest: Course) {
    && PhaseFrom(Submitted(id), rest.calls) != Rejected
    && (rest.answer.Rows? ==> PhaseFrom(Submitted(id), rest.calls) == Loaded(rest.answer.id, true))
    && StartsNothing(rest.calls)
    && Stops(rest.calls) == (if LeftByContext(rest.answer, rest.calls) then 1 else 0)
    && (rest.answer == Fail(Timeout) ==> EndsTimedOut(s, env, rest.calls))
    && PollsOnceARound(s, env, rest.answer, rest.calls)
  }

  lemma SubmissionIsLawful(lib: Lib, s: Settings, env: Env, id: string)
    ensures FollowsStart(s, env, id, Submission(s, env, id))
  {
    SubmissionPhase(s, env, id);
    SubmissionStartsNothing(s, env, id);
    SubmissionCount(s, env, id);
    if WaitEnd(s, env) == Some(Fail(Timeout)) { SubmissionTimesOutFairly(s, env, id); }
  }

  /** Calls that start nothing and are not counted may come before others. */
  lemma PrependCounts(s: Settings, env: Env, before: seq<Call>, a: Answer, calls: seq<Call>)
    requires Stops(before) == 0 && Polls(before) == 0
    ensures Stops(before + calls) == Stops(calls) && Polls(before + calls) == Polls(calls)
    ensures calls != [] ==> (LeftByContext(a, before + calls) <==> LeftByContext(a, calls))
    ensures EndsTimedOut(s, env, calls) ==> EndsTimedOut(s, env, before + calls)
  {
    TallyAppend(before, calls);
    LastOfAppend(before, calls);
  }

  /** Calls before others, of which none is counted or ends a wait, keep the order. */
  lemma Prepend(lib: Lib, s: Settings, env: Env, start: Phase, before: seq<Call>, a: Answer, calls: seq<Call>)
    requires Stops(before) == 0 && Polls(before) == 0
    requires SafeTexts(lib, s, before)
    requires forall k | 0 <= k < |before| && before[k].CreateWorkgroup? :: s.creationAllowed
    requires Orderly(lib, s, env, PhaseFrom(start, before), a, calls)
    requires !HasStart(before)
    ensures Orderly(lib, s, env, start, a, before + calls)
  {
    PhaseAppend(start, before, calls);
    PrependCounts(s, env, before, a, calls);
    StartInRest(before, calls);
    ForAllCalls(lib, s, before, calls);
  }

  lemma ForAllCalls(lib: Lib, s: Settings, before: seq<Call>, calls: seq<Call>)
    requires SafeTexts(lib, s, before) && SafeTexts(lib, s, calls)
    requires forall k | 0 <= k < |before| && before[k].CreateWorkgroup? :: s.creationAllowed
    requires forall k | 0 <= k < |calls| && calls[k].CreateWorkgroup? :: s.creationAllowed
    ensures SafeTexts(lib, s, before + calls)
    ensures forall k | 0 <= k < |before + calls| && (before + calls)[k].CreateWorkgroup? :: s.creationAllowed
  {
  }

  lemma AfterStart(start: Call, id: string, calls: seq<Call>)
    requires start.Start? && start.startReply == Started(id)
    ensures PhaseFrom(Ready, [start] + calls) == PhaseFrom(Submitted(id), calls)
    ensures Stops([start]) == 0 && Polls([start]) == 0 && HasStart([start] + calls)
  {
    OneCall(Ready, start);
    PhaseAppend(Ready, [start], calls);
    assert ([start] + calls)[0] == start;
  }

  /** A start, and what a submission promises after it. */
  lemma StartedIsLawful(lib: Lib, s: Settings, env: Env, start: Call, id: string)
    requires start.Start? && start.startReply == Started(id)
    requires SafeText(lib, s, start.text) && start.name == GroupName(s)
    ensures Orderly(lib, s, env, Ready, Submission(s, env, id).answer, [start] + Submission(s, env, id).calls)
  {
    SubmissionIsLawful(lib, s, env, id);
    StartThenRest(lib, s, env, start, id, Submission(s, env, id));
  }

  lemma StartThenRest(lib: Lib, s: Settings, env: Env, start: Call, id: string, rest: Course)
    requires start.Start? && start.startReply == Started(id)
    requires SafeText(lib, s, start.text) && start.name == GroupName(s)
    requires FollowsStart(s, env, id, rest)
    ensures Orderly(lib, s, env, Ready, rest.answer, [start] + rest.calls)
  {
    AfterStart(start, id, rest.calls);
    PrependCounts(s, env, [start], rest.answer, rest.calls);
    if rest.calls == [] { assert [start] + rest.calls == [start]; }
    ForAllCalls(lib, s, [start], rest.calls);
  }

  lemma SubmitIsLawful(lib: Lib, s: Settings, env: Env, command: Command, text: string, params: Option<seq<string>>)
    requires SafeText(lib, s, text)
    ensures var course := SubmitCourse(s, env, command, text, params);
      Orderly(lib, s, env, Ready, course.answer, course.calls)
  {
    if params.Some? {
      var start := Start(text, params.value, GroupName(s), env.start);
      OneCall(Ready, start);
      if env.start.Started? && command != GetQid {
        StartedIsLawful(lib, s, env, start, env.start.id);
      } else {
        assert SubmitCourse(s, env, command, text, params).calls == [start];
        assert [start][0].Start?;
      }
    }
  }

  lemma PlaceholderIsNoQid(text: string)
    ensures Count(text, '?') > 0 ==> !IsQID(text)
  {
    CountNone(text, '?');
  }

  /** The text that is sent is safe, though length and ID are checked on the interpolated one. */
  lemma AdmittedTextIsSafe(lib: Lib, s: Settings, query: string, args: seq<Value>)
    requires Sound(lib) && Admission(lib, s, query, args).Admitted? && !IsQID(Admission(lib, s, query, args).final)
    ensures SafeText(lib, s, Admission(lib, s, query, args).text)
  {
    if args != [] {
      var text := Admission(lib, s, query, args).text;
      NeverShorter(lib.formatFloat, lib.tables, [], text, args);
      PlaceholderIsNoQid(text);
    }
  }

  lemma RestIsLawful(lib: Lib, s: Settings, env: Env, gate: Gate, args: seq<Value>)
    requires gate.Admitted? && (IsQID(gate.final) || SafeText(lib, s, gate.text))
    ensures var rest := AfterGroup(lib, s, env, gate, args);
      Orderly(lib, s, env, Ready, rest.answer, rest.calls)
  {
    if IsQID(gate.final) {
      QidIsLawful(lib, s, env, gate.command, gate.final);
    } else {
      SubmitIsLawful(lib, s, env, gate.command, gate.text, Params(lib.formatFloat, args));
    }
  }

  /** A workgroup that cannot be used ends the run lawfully. */
  lemma GroupEndIsLawful(lib: Lib, s: Settings, env: Env)
    requires GroupEnd(s, env).Some?
    ensures Lawful(lib, s, env, GroupEnd(s, env).value, GroupCalls(s, env))
  {
    GroupIsLawful(s, env);
  }

  lemma GroupThenRest(lib: Lib, s: Settings, env: Env, rest: Course)
    requires GroupEnd(s, env).None? && Orderly(lib, s, env, Ready, rest.answer, rest.calls)
    ensures Lawful(lib, s, env, rest.answer, GroupCalls(s, env) + rest.calls)
  {
    GroupIsLawful(s, env);
    Prepend(lib, s, env, First(UsesDefault(s)), GroupCalls(s, env), rest.answer, rest.calls);
  }

  lemma AdmittedIsLawful(lib: Lib, s: Settings, env: Env, gate: Gate, args: seq<Value>)
    requires gate.Admitted? && (IsQID(gate.final) || SafeText(lib, s, gate.text))
    ensures var course := AdmittedCourse(lib, s, env, gate, args);
      Lawful(lib, s, env, course.answer, course.calls)
  {
    if GroupEnd(s, env).Some? {
      GroupEndIsLawful(lib, s, env);
    } else {
      RestIsLawful(lib, s, env, gate, args);
      GroupThenRest(lib, s, env, AfterGroup(lib, s, env, gate, args));
    }
  }

  /** For every query, arguments, settings and environment the calls are lawful. */
  lemma QueryIsLawful(lib: Lib, s: Settings, env: Env, query: string, args: seq<Value>)
    requires Sound(lib)
    ensures var course := QueryCourse(lib, s, env, query, args);
      Lawful(lib, s, env, course.answer, course.calls)
  {
    var gate := Admission(lib, s, query, args);
    if gate.Refused? {
      RefusedAnswers(lib, s, query, args);
      NothingCalled(lib, s, env, gate.answer);
    } else {
      if !IsQID(gate.final) { AdmittedTextIsSafe(lib, s, query, args); }
      AdmittedIsLawful(lib, s, env, gate, args);
    }
  }

  lemma RefusedAnswers(lib: Lib, s: Settings, query: string, args: seq<Value>)
    requires lib.tables.Correct() && Admission(lib, s, query, args).Refused?
    ensures var a := Admission(lib, s, query, args).answer; !a.Rows? && a != Waiting && a != Fail(Timeout)
  {
  }

  lemma SubmitStarts(s: Settings, env: Env, command: Command, text: string, params: Option<seq<string>>)
    ensures var calls := SubmitCourse(s, env, command, text, params).calls;
      if params.None? then calls == []
      else calls != [] && calls[0] == Start(text, params.value, GroupName(s), env.start)
  {
  }

  /** The condition under which QueryContext submits. */
  predicate Submits(lib: Lib, s: Settings, env: Env, query: string, args: seq<Value>)
    requires lib.tables.Correct()
  {
    var gate := Admission(lib, s, query, args);
    gate.Admitted? && !IsQID(gate.final) && GroupEnd(s, env).None? && Params(lib.formatFloat, args).Some?
  }

  /** The same for ExecContext. */
  lemma ExecIsLawful(lib: Lib, s: Settings, env: Env, query: string, args: seq<Value>)
    requires Sound(lib)
    ensures var course := ExecCourse(lib, s, env, query, args);
      Lawful(lib, s, env, course.answer, course.calls)
  {
    NothingCalled(lib, s, env, Fail(BadQuery));
    NothingCalled(lib, s, env, Fail(BadParameters));
    NothingCalled(lib, s, env, Crash);
    if args == [] {
      QueryIsLawful(lib, s, env, query, []);
    } else if Count(query, '?') == |args| {
      var r := Interpolated(lib.formatFloat, lib.tables, [], query, args);
      if r.Ok? { QueryIsLawful(lib, s, env, r.text, []); }
    }
  }

  // ---------------------------------------------------------------- panics

  /** A course that calls ends in a panic exactly when the reply to its last call panics. */
  predicate CrashShows(s: Settings, course: Course) {
    if course.calls == [] then course.answer != Crash
    else course.answer == Crash <==> ReplyPanics(s, course.calls[|course.calls|-1])
  }

  lemma RowsCrash(s: Settings, env: Env, id: string)
    ensures CrashShows(s, RowsCourse(env, id)) && RowsCourse(env, id).calls != []
  {
  }

  lemma QidCrash(s: Settings, env: Env, command: Command, id: string)
    ensures CrashShows(s, QidCourse(env, command, id))
  {
    RowsCrash(s, env, id);
  }

  /** The round that ends the wait: its poll, and what follows it. */
  lemma LastRoundCrash(s: Settings, env: Env, id: string, front: seq<Call>, last: Round)
    requires front != [] && front[|front|-1] == Poll(id, last.reply) && EndOfRound(s, env, last).Some?
    requires GoesOn(last.reply) && last.wake.Tick? ==> EndOfRound(s, env, last) == Some(Fail(Timeout))
    ensures CrashShows(s, Course(EndOfRound(s, env, last).value, front + CallsAfter(s, env, id, last)))
  {
    LastOfAppend(front, CallsAfter(s, env, id, last));
  }

  lemma WaitCrash(s: Settings, env: Env, id: string)
    requires WaitEnd(s, env).Some?
    ensures CrashShows(s, Course(WaitEnd(s, env).value, WaitCalls(s, env, id)))
  {
    var m := FirstEnd(s, env.rounds, 0);
    if m < |env.rounds| {
      PollCallsSnoc(id, env.rounds, m);
      LastRoundCrash(s, env, id, PollCalls(id, env.rounds, m + 1), env.rounds[m]);
    } else if m > 0 {
      FirstEndIsFirst(s, env.rounds, 0);
      assert SurvivedRound(s, env.rounds[m - 1]);
    }
  }

  lemma SubmissionCrash(s: Settings, env: Env, id: string)
    ensures CrashShows(s, Submission(s, env, id))
  {
    if WaitEnd(s, env).Some? {
      WaitCrash(s, env, id);
    } else {
      RowsCrash(s, env, id);
      LastOfAppend(WaitCalls(s, env, id), RowsCourse(env, id).calls);
    }
  }

  lemma SubmitCrash(s: Settings, env: Env, command: Command, text: string, params: Option<seq<string>>)
    ensures CrashShows(s, SubmitCourse(s, env, command, text, params))
  {
    if params.Some? && env.start.Started? && command != GetQid {
      var start, rest := Start(text, params.value, GroupName(s), env.start), Submission(s, env, env.start.id);
      SubmissionCrash(s, env, env.start.id);
      LastOfAppend([start], rest.calls);
    }
  }

  lemma GroupCrash(s: Settings, env: Env)
    ensures if GroupEnd(s, env).Some? then CrashShows(s, Course(GroupEnd(s, env).value, GroupCalls(s, env)))
            else forall c | c in GroupCalls(s, env) :: !ReplyPanics(s, c)
  {
  }

  lemma AdmittedCrash(lib: Lib, s: Settings, env: Env, gate: Gate, args: seq<Value>)
    requires gate.Admitted?
    ensures CrashShows(s, AdmittedCourse(lib, s, env, gate, args))
  {
    GroupCrash(s, env);
    if GroupEnd(s, env).None? {
      if IsQID(gate.final) {
        QidCrash(s, env, gate.command, gate.final);
      } else {
        SubmitCrash(s, env, gate.command, gate.text, Params(lib.formatFloat, args));
      }
      LastOfAppend(GroupCalls(s, env), AfterGroup(lib, s, env, gate, args).calls);
    }
  }

  /**
   A run panics before its first call exactly when interpolation or the decoding of the tags
   does, and otherwise exactly when the driver follows a nil pointer in the reply to its last call.
   */
  lemma QueryCrash(lib: Lib, s: Settings, env: Env, query: string, args: seq<Value>)
    requires lib.tables.Correct()
    ensures var course := QueryCourse(lib, s, env, query, args);
      course.answer == Crash <==>
        if course.calls == [] then Admission(lib, s, query, args) == Refused(Crash)
        else ReplyPanics(s, course.calls[|course.calls|-1])
  {
    var gate := Admission(lib, s, query, args);
    if gate.Admitted? { AdmittedCrash(lib, s, env, gate, args); }
  }

  lemma ExecCrash(lib: Lib, s: Settings, env: Env, query: string, args: seq<Value>)
    requires lib.tables.Correct()
    ensures var course := ExecCourse(lib, s, env, query, args);
      course.calls != [] ==> (course.answer == Crash <==> ReplyPanics(s, course.calls[|course.calls|-1]))
  {
    if args == [] {
      ExecFinalCrash(lib, s, env, query);
    } else if Count(query, '?') == |args| {
      var r := Interpolated(lib.formatFloat, lib.tables, [], query, args);
      if r.Ok? { ExecFinalCrash(lib, s, env, r.text); }
    }
  }

  lemma ExecFinalCrash(lib: Lib, s: Settings, env: Env, final: string)
    requires lib.tables.Correct()
    ensures var course := ExecFinal(lib, s, env, final);
      course.calls != [] ==> (course.answer == Crash <==> ReplyPanics(s, course.calls[|course.calls|-1]))
  {
    QueryCrash(lib, s, env, final, []);
  }

  /**
   A query is submitted exactly when it passes the gate, is no query ID, its workgroup can be
   used and its parameters can be written; it is then the text with the placeholders.
   */
  lemma SubmittedExactly(lib: Lib, s: Settings, env: Env, query: string, args: seq<Value>)
    requires lib.tables.Correct()
    ensures var trace := QueryCourse(lib, s, env, query, args).calls;
      && (HasStart(trace) <==> Submits(lib, s, env, query, args))
      && (HasStart(trace) ==>
            Start(Parse(query).text, Params(lib.formatFloat, args).value, GroupName(s), env.start) in trace)
  {
    var gate, before := Admission(lib, s, query, args), GroupCalls(s, env);
    GroupIsLawful(s, env);
    if gate.Admitted? && GroupEnd(s, env).None? {
      StartInRest(before, AfterGroup(lib, s, env, gate, args).calls);
      if IsQID(gate.final) {
        QidIsQuiet(env, gate.command, gate.final);
      } else {
        SubmitStarts(s, env, gate.command, gate.text, Params(lib.formatFloat, args));
      }
    }
  }

  /** A plain query that succeeds is answered by what becomes of its first page. */
  lemma RowsAnswer(lib: Lib, s: Settings, env: Env, query: string, args: seq<Value>)
    requires lib.tables.Correct() && Submits(lib, s, env, query, args) && Parse(query).command == Plain
    requires env.start.Started? && WaitEnd(s, env).None? && env.describeOk
    ensures QueryCourse(lib, s, env, query, args).answer == PageAnswer(env.page, env.start.id)
  {
  }
}
