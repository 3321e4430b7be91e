/**
 How runs end, read off the replies of the service: each ending of the wait by the state the last
 poll reported, and the answer of a whole run by the reply to its last call.
 */
module LastReplies {
  import Decimal
  import opened Interpolation
  import opened QueryLaw
  import opened RemoteCalls
  import ResultPages
  import opened ServiceLimits
  import opened Wrappers

  // ---------------------------------------------------------------- the wait

  predicate Reports(reply: PollReply, state: QueryState) {
    reply.Status? && reply.state == state
  }

  /** The cost is not printed, or can be. */
  predicate CostKnown(s: Settings, hasCost: bool) {
    s.moneyWise ==> hasCost
  }

  /** Round m is the first that does not find the query going on, the caller there and the limit unpassed. */
  predicate EndsIn(s: Settings, rounds: seq<Round>, m: nat) {
    && m < |rounds| && Survived(s, rounds, m)
    && !(GoesOn(rounds[m].reply) && rounds[m].wake.Tick?
         && !IsQueryTimeOut(rounds[m].wake.elapsed, rounds[m].reply.statementType, s.limits))
  }

  lemma EndIsFirst(s: Settings, rounds: seq<Round>, m: nat)
    requires EndsIn(s, rounds, m)
    ensures FirstEnd(s, rounds, 0) == m
  {
    FirstEndIsFirst(s, rounds, 0);
    assert !SurvivedRound(s, rounds[m]);
  }

  /** The wait goes on exactly as long as every round finds the query queued or running, and in time. */
  lemma WaitGoesOn(s: Settings, env: Env)
    ensures WaitEnd(s, env) == Some(Waiting) <==> Survived(s, env.rounds, |env.rounds|)
    ensures WaitEnd(s, env) != Some(Waiting) ==> exists m :: EndsIn(s, env.rounds, m)
  {
    FirstEndIsFirst(s, env.rounds, 0);
    var m := FirstEnd(s, env.rounds, 0);
    if m < |env.rounds| {
      EndedEnd(s, env, env.rounds[m]);
      assert EndsIn(s, env.rounds, m);
    }
  }

  /**
   The end of the wait by what the last poll reported. Success, cancellation and failure are the
   states of that name; a queued or running query ends the wait by a limit or by the context.
   */
  lemma WaitEndings(s: Settings, env: Env, m: nat)
    requires EndsIn(s, env.rounds, m)
    ensures var end, reply, wake := WaitEnd(s, env), env.rounds[m].reply, env.rounds[m].wake;
      && (end == None <==> Reports(reply, Succeeded) && CostKnown(s, reply.hasCost))
      && (end == Some(Fail(QueryCancelled)) <==> Reports(reply, Cancelled) && CostKnown(s, reply.hasCost))
      && (end == Some(Fail(QueryFailed)) <==> Reports(reply, Failed) && reply.hasReason)
      && (end == Some(Fail(PollError)) <==> reply.PollFailed?)
      && (end == Some(Fail(Timeout)) <==> GoesOn(reply) && wake.Tick?)
      && (end == Some(Fail(CallerGoneStopError)) <==> GoesOn(reply) && wake.ContextDone? && !env.stopOk)
      && (end == Some(Fail(CallerGone)) <==>
            GoesOn(reply) && wake.ContextDone? && env.stopOk && CostKnown(s, env.finalHasCost))
      && (end == Some(Crash) <==>
            || reply.NoStatus?
            || (Reports(reply, Failed) && !reply.hasReason)
            || ((Reports(reply, Succeeded) || Reports(reply, Cancelled)) && !CostKnown(s, reply.hasCost))
            || (GoesOn(reply) && wake.ContextDone? && env.stopOk && !CostKnown(s, env.finalHasCost)))
  {
    EndIsFirst(s, env.rounds, m);
  }

  /** Up to that round there is one poll a round, and a stop exactly if the context ended the wait. */
  lemma WaitCallsAre(s: Settings, env: Env, id: string, m: nat)
    requires EndsIn(s, env.rounds, m)
    ensures var calls, last := WaitCalls(s, env, id), env.rounds[m];
      && |calls| >= m + 1 && (forall k | 0 <= k <= m :: calls[k] == Poll(id, env.rounds[k].reply))
      && calls[m + 1..] ==
           if !(GoesOn(last.reply) && last.wake.ContextDone?) then []
           else if env.stopOk && s.moneyWise then [Stop(id, true), FinalPoll(id, env.finalHasCost)]
           else [Stop(id, env.stopOk)]
  {
    EndIsFirst(s, env.rounds, m);
    var polls, rest := PollCalls(id, env.rounds, m + 1), CallsAfter(s, env, id, env.rounds[m]);
    assert (polls + rest)[m + 1..] == rest;
  }

  // ---------------------------------------------------------------- the last reply of a run

  /** What a poll that is the last call says of the answer. */
  predicate PollTells(s: Settings, reply: PollReply, a: Answer) {
    match reply
    case PollFailed => a == Fail(PollError)
    case NoStatus => a == Crash
    case Status(state, _, hasReason, hasCost) =>
      match state
      case Queued => a == Fail(Timeout) || a == Waiting
      case Running => a == Fail(Timeout) || a == Waiting
      case Succeeded => a == Crash && !CostKnown(s, hasCost)
      case Cancelled => a == if CostKnown(s, hasCost) then Fail(QueryCancelled) else Crash
      case Failed => a == if hasReason then Fail(QueryFailed) else Crash
  }

  /** What the last call says; `started` tells a stop that ends a wait from a stop that was asked for. */
  predicate Tells(s: Settings, started: bool, c: Call, a: Answer) {
    match c
    case GetWorkgroup(_, Found(enabled)) => a == Fail(if enabled then BadParameters else WorkgroupDisabled)
    case GetWorkgroup(_, NotFound) => a == Fail(WorkgroupMissing)
    case GetWorkgroup(_, LookupFailed) => a == Fail(WorkgroupError)
    case GetWorkgroup(_, NoWorkgroup) => a == Crash
    case CreateWorkgroup(_, ok) => a == Fail(if ok then BadParameters else WorkgroupError)
    case Start(_, _, _, Started(id)) => a == Page(id) || a == Waiting
    case Start(_, _, _, StartFailed(requestId)) => a == Fail(StartError) || (requestId != "" && a == Page(requestId))
    case Start(_, _, _, NoId) => a == Crash
    case Poll(_, reply) => PollTells(s, reply, a)
    case Stop(_, ok) =>
      a == if started then Fail(if ok then CallerGone else CallerGoneStopError)
           else if ok then Page("OK") else Fail(StopError)
    case FinalPoll(_, hasCost) => a == if hasCost then Fail(CallerGone) else Crash
    case Inspect(_, PollFailed) => a == Fail(StatusError)
    case Inspect(_, NoStatus) => a == Crash
    case Inspect(_, Status(state, _, _, _)) => a == Page(NameOf(state))
    case Describe(_, ok) => !ok && a == Fail(RowsError)
    case FetchPage(id, page) =>
      a == if page.CallFailed? then Fail(RowsError) else if MakesRows(page) then Rows(id) else Crash
  }

  function NameOf(state: QueryState): string {
    if state == Queued then "QUEUED" else if state == Running then "RUNNING"
    else if state == Succeeded then "SUCCEEDED" else if state == Failed then "FAILED" else "CANCELLED"
  }

  predicate LastTells(s: Settings, started: bool, course: Course) {
    course.calls != [] ==> Tells(s, started, course.calls[|course.calls|-1], course.answer)
  }

  lemma RowsTell(s: Settings, env: Env, started: bool, id: string)
    ensures LastTells(s, started, RowsCourse(env, id)) && RowsCourse(env, id).calls != []
  {
  }

  lemma RoundTells(s: Settings, env: Env, id: string, front: seq<Call>, last: Round)
    requires front != [] && front[|front|-1] == Poll(id, last.reply) && EndOfRound(s, env, last).Some?
    ensures LastTells(s, true, Course(EndOfRound(s, env, last).value, front + CallsAfter(s, env, id, last)))
  {
    LastOfAppend(front, CallsAfter(s, env, id, last));
  }

  lemma WaitTells(s: Settings, env: Env, id: string)
    requires WaitEnd(s, env).Some?
    ensures LastTells(s, true, Course(WaitEnd(s, env).value, WaitCalls(s, env, id)))
    ensures WaitCalls(s, env, id) == [] ==> WaitEnd(s, env) == Some(Waiting)
  {
    var m := FirstEnd(s, env.rounds, 0);
    if m < |env.rounds| {
      PollCallsSnoc(id, env.rounds, m);
      RoundTells(s, env, id, PollCalls(id, env.rounds, m + 1), env.rounds[m]);
    } else if m > 0 {
      FirstEndIsFirst(s, env.rounds, 0);
      assert SurvivedRound(s, env.rounds[m - 1]);
    }
  }

  lemma SubmissionTells(s: Settings, env: Env, id: string)
    ensures LastTells(s, true, Submission(s, env, id))
    ensures Submission(s, env, id).calls == [] ==> Submission(s, env, id).answer == Waiting
  {
    if WaitEnd(s, env).Some? {
      WaitTells(s, env, id);
    } else {
      RowsTell(s, env, true, id);
      LastOfAppend(WaitCalls(s, env, id), RowsCourse(env, id).calls);
    }
  }

  lemma SubmitTells(s: Settings, env: Env, command: Command, text: string, params: Option<seq<string>>)
    ensures LastTells(s, true, SubmitCourse(s, env, command, text, params))
    ensures var course := SubmitCourse(s, env, command, text, params);
      if params.None? then course == Course(Fail(BadParameters), []) else HasStart(course.calls)
  {
    if params.Some? {
      var start := Start(text, params.value, GroupName(s), env.start);
      assert SubmitCourse(s, env, command, text, params).calls[0] == start;
      if env.start.Started? && command != GetQid {
        SubmissionTells(s, env, env.start.id);
        LastOfAppend([start], Submission(s, env, env.start.id).calls);
      }
    }
  }

  lemma QidTells(s: Settings, env: Env, command: Command, id: string)
    ensures LastTells(s, false, QidCourse(env, command, id)) && QidCourse(env, command, id).calls != []
    ensures !HasStart(QidCourse(env, command, id).calls)
  {
    RowsTell(s, env, false, id);
    QidIsQuiet(env, command, id);
  }

  /** The workgroup calls decide an answer, or say that parameters are all that can fail before the next call. */
  lemma GroupTells(s: Settings, env: Env, started: bool)
    ensures var a := GroupEnd(s, env).GetOr(Fail(BadParameters));
      LastTells(s, started, Course(a, GroupCalls(s, env)))
    ensures GroupEnd(s, env).Some? ==> GroupCalls(s, env) != []
    ensures forall k | 0 <= k < |GroupCalls(s, env)| :: !GroupCalls(s, env)[k].Start?
  {
  }

  /** What follows the workgroup calls. */
  lemma RestTells(lib: Lib, s: Settings, env: Env, gate: Gate, args: seq<Value>)
    requires gate.Admitted?
    ensures var rest := AfterGroup(lib, s, env, gate, args);
      && LastTells(s, HasStart(rest.calls), rest)
      && (rest.calls == [] ==> rest.answer == Fail(BadParameters))
  {
    if IsQID(gate.final) {
      QidTells(s, env, gate.command, gate.final);
    } else {
      SubmitTells(s, env, gate.command, gate.text, Params(lib.formatFloat, args));
    }
  }

  lemma GroupThenRestTells(s: Settings, env: Env, rest: Course)
    requires GroupEnd(s, env).None? && LastTells(s, HasStart(rest.calls), rest)
    requires rest.calls == [] ==> rest.answer == Fail(BadParameters)
    ensures var calls := GroupCalls(s, env) + rest.calls;
      LastTells(s, HasStart(calls), Course(rest.answer, calls))
  {
    var before := GroupCalls(s, env);
    GroupTells(s, env, HasStart(before + rest.calls));
    StartInRest(before, rest.calls);
    LastOfAppend(before, rest.calls);
  }

  lemma AdmittedTells(lib: Lib, s: Settings, env: Env, gate: Gate, args: seq<Value>)
    requires gate.Admitted?
    ensures var course := AdmittedCourse(lib, s, env, gate, args);
      && LastTells(s, HasStart(course.calls), course)
      && (course.calls == [] ==> course.answer == Fail(BadParameters))
  {
    if GroupEnd(s, env).Some? {
      GroupTells(s, env, HasStart(GroupCalls(s, env)));
    } else {
      RestTells(lib, s, env, gate, args);
      GroupThenRestTells(s, env, AfterGroup(lib, s, env, gate, args));
    }
  }

  /** The answers given without any call. */
  predicate IsRefusal(a: Answer) {
    || a == Page("1.1.15") || a == Crash || a == Fail(UnknownPseudoCommand) || a == Fail(WriteViolation)
    || a == Fail(BadParameters) || a == Fail(BadQuery)
  }

  /** Whatever the query and the replies, the answer of a run that calls is what its last reply says. */
  lemma LastReplyDecides(lib: Lib, s: Settings, env: Env, query: string, args: seq<Value>)
    requires lib.tables.Correct()
    ensures var course := QueryCourse(lib, s, env, query, args);
      if course.calls == [] then IsRefusal(course.answer)
      else Tells(s, HasStart(course.calls), course.calls[|course.calls|-1], course.answer)
  {
    var gate := Admission(lib, s, query, args);
    if gate.Admitted? { AdmittedTells(lib, s, env, gate, args); }
  }

  // ---------------------------------------------------------------- affected rows

  /** ExecContext reports a count exactly for the answers that are no error and no panic. */
  lemma AffectedRows(env: Env, a: Answer)
    ensures var n := Affected(env, a);
      && (n.None? <==> a.Fail? || a.Crash? || a.Waiting?)
      && (a.Page? ==> n == Some(0))
      && (a.Rows? && env.page.Answered? && env.page.page.updateCount.Some? ==> n == env.page.page.updateCount)
      && (a.Rows? && !(env.page.Answered? && env.page.page.updateCount.Some?) ==> n == Some(0))
  {
  }

  /** The count that ExecContext reports is the number a query shows in the row made of it. */
  lemma RowShowsAffected(trim: string -> string, env: Env, id: string)
    requires env.page.Answered? && ResultPages.Synthesises(env.page.page)
    requires Decimal.IsInt64(env.page.page.updateCount.value)
    ensures var rows := ResultPages.Normal(trim, env.page.page, true).rows;
      && MakesRows(env.page)
      && |rows| == 1 && |rows[0]| == 1 && rows[0][0].Some?
      && Affected(env, Rows(id)) == Some(Decimal.Atoi(rows[0][0].value))
  {
    ResultPages.EmptyPage(trim, env.page.page, true);
    Decimal.AtoiItoa(env.page.page.updateCount.value);
  }
}
