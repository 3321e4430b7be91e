/**
 The remote calls of a run and their replies, and the grammar of their traces: which call may
 come after which, read by an automaton.
 */
module RemoteCalls {
  import ResultPages
  import opened Wrappers

  // ---------------------------------------------------------------- calls and replies

  /** NoWorkgroup, NoId and NoStatus are replies in which a pointer the driver follows is nil. */
  datatype WorkgroupReply = Found(enabled: bool) | NotFound | LookupFailed | NoWorkgroup
  datatype StartReply = Started(id: string) | StartFailed(requestId: string) | NoId
  datatype QueryState = Queued | Running | Succeeded | Failed | Cancelled

  /** `hasReason` is that of a failure; `hasCost` says that the cost can be printed. */
  datatype PollReply =
    | PollFailed
    | NoStatus
    | Status(state: QueryState, statementType: string, hasReason: bool, hasCost: bool)

  /** How the select after a poll ends: the context is done, or the interval has passed. */
  datatype Wake = ContextDone | Tick(elapsed: int)
  datatype Round = Round(reply: PollReply, wake: Wake)

  datatype Env = Env(
    workgroup: WorkgroupReply,
    createOk: bool,
    status: PollReply,
    stopOk: bool,
    start: StartReply,
    rounds: seq<Round>,
    finalHasCost: bool,
    describeOk: bool,
    page: ResultPages.Reply)

  /** Remote calls with their replies. Inspect, Poll, FinalPoll and Describe are all GetQueryExecution. */
  datatype Call =
    | GetWorkgroup(name: string, workgroupReply: WorkgroupReply)
    | CreateWorkgroup(name: string, ok: bool)
    | Start(text: string, params: seq<string>, name: string, startReply: StartReply)
    | Poll(id: string, reply: PollReply)
    | Stop(id: string, ok: bool)
    | FinalPoll(id: string, hasCost: bool)
    | Inspect(id: string, reply: PollReply)
    | Describe(id: string, ok: bool)
    | FetchPage(id: string, page: ResultPages.Reply)

  datatype Error =
    | UnknownPseudoCommand | WriteViolation | BadParameters | BadQuery
    | WorkgroupError | WorkgroupMissing | WorkgroupDisabled
    | StatusError | StopError | StartError | PollError
    | QueryCancelled | QueryFailed | Timeout
    | CallerGone          // ctx.Err(), after the query was stopped
    | CallerGoneStopError // the context was done and stopping failed
    | RowsError

  datatype Answer = Rows(id: string) | Page(text: string) | Fail(error: Error) | Crash | Waiting

  // ---------------------------------------------------------------- the grammar of traces

  /** Where a trace can be; Over allows no further call. */
  datatype Phase =
    | Begin                        // nothing called yet
    | Missing                      // the workgroup does not exist
    | Ready                        // the workgroup can be used
    | Submitted(id: string)        // started, not polled yet
    | Pending(id: string)          // the last poll said queued or running
    | Finished(id: string)         // the last poll said succeeded
    | Halted(id: string)           // stopped while polling
    | Described(id: string, polled: bool)
    | Loaded(id: string, polled: bool)
    | Over
    | Rejected

  /** What a poll means for the loop. */
  datatype Verdict = Again | Done | Lost(error: Error) | Unusable

  function VerdictOf(reply: PollReply): Verdict {
    match reply
    case PollFailed => Lost(PollError)
    case NoStatus => Unusable
    case Status(state, _, hasReason, _) =>
      match state
      case Cancelled => Lost(QueryCancelled)
      case Failed => if hasReason then Lost(QueryFailed) else Unusable
      case Succeeded => Done
      case _ => Again
  }

  /** The query has not ended: the poll says queued or running. */
  predicate GoesOn(reply: PollReply) {
    reply.Status? && (reply.state == Queued || reply.state == Running)
  }

  function AfterPoll(id: string, reply: PollReply): Phase {
    match VerdictOf(reply)
    case Again => Pending(id)
    case Done => Finished(id)
    case Lost(_) => Over
    case Unusable => Over
  }

  /** A first page that NewRows makes rows of. */
  predicate MakesRows(page: ResultPages.Reply) {
    page.Answered? && !ResultPages.Panics(page.page, true)
  }

  /** The grammar, as an automaton reading one call. */
  function Advance(p: Phase, c: Call): Phase {
    match (p, c)
    case (Begin, GetWorkgroup(_, Found(enabled))) => if enabled then Ready else Over
    case (Begin, GetWorkgroup(_, NotFound)) => Missing
    case (Begin, GetWorkgroup(_, _)) => Over
    case (Missing, CreateWorkgroup(_, ok)) => if ok then Ready else Over
    case (Ready, Start(_, _, _, Started(id))) => Submitted(id)
    case (Ready, Start(_, _, _, _)) => Over
    case (Ready, Inspect(_, _)) => Over
    case (Ready, Stop(_, _)) => Over
    case (Ready, Describe(id, ok)) => if ok then Described(id, false) else Over
    case (Submitted(id), Poll(i, reply)) => if i == id then AfterPoll(id, reply) else Rejected
    case (Pending(id), Poll(i, reply)) => if i == id then AfterPoll(id, reply) else Rejected
    case (Pending(id), Stop(i, ok)) => if i != id then Rejected else if ok then Halted(id) else Over
    case (Halted(id), FinalPoll(i, _)) => if i == id then Over else Rejected
    case (Finished(id), Describe(i, ok)) => if i != id then Rejected else if ok then Described(id, true) else Over
    case (Described(id, polled), FetchPage(i, page)) =>
      if i != id then Rejected else if MakesRows(page) then Loaded(id, polled) else Over
    case _ => Rejected
  }

  /** The phase that calls lead to from `start`. */
  function PhaseFrom(start: Phase, calls: seq<Call>): Phase {
    if calls == [] then start
    else Advance(PhaseFrom(start, calls[..|calls|-1]), calls[|calls|-1])
  }

  /** The default workgroup needs no lookup. */
  function First(defaultGroup: bool): Phase {
    if defaultGroup then Ready else Begin
  }

  /** The phase a whole trace leads to. */
  function PhaseOf(defaultGroup: bool, trace: seq<Call>): Phase {
    PhaseFrom(First(defaultGroup), trace)
  }

  lemma PhaseSnoc(start: Phase, calls: seq<Call>, c: Call)
    ensures PhaseFrom(start, calls + [c]) == Advance(PhaseFrom(start, calls), c)
  {
    assert (calls + [c])[..|calls|] == calls;
  }

  lemma {:induction false} PhaseAppend(start: Phase, a: seq<Call>, b: seq<Call>)
    ensures PhaseFrom(start, a + b) == PhaseFrom(PhaseFrom(start, a), b)
    decreases |b|
  {
    if b == [] {
      assert a + b == a;
    } else {
      var n := |b| - 1;
      PhaseAppend(start, a, b[..n]);
      assert a + b == (a + b[..n]) + [b[n]];
      PhaseSnoc(start, a + b[..n], b[n]);
    }
  }

  lemma OneCall(start: Phase, c: Call)
    ensures PhaseFrom(start, [c]) == Advance(start, c)
    ensures Stops([c]) == (if c.Stop? then 1 else 0) && Polls([c]) == if c.Poll? then 1 else 0
  {
    assert [] + [c] == [c];
    PhaseSnoc(start, [], c);
    TallySnoc([], c);
  }

  lemma TwoCalls(start: Phase, b: Call, c: Call)
    ensures PhaseFrom(start, [b, c]) == Advance(Advance(start, b), c)
    ensures Stops([b, c]) == (if b.Stop? then 1 else 0) + (if c.Stop? then 1 else 0)
    ensures Polls([b, c]) == (if b.Poll? then 1 else 0) + (if c.Poll? then 1 else 0)
  {
    assert [b] + [c] == [b, c];
    OneCall(start, b);
    PhaseSnoc(start, [b], c);
    TallySnoc([b], c);
  }

  function Stops(trace: seq<Call>): nat {
    if trace == [] then 0
    else Stops(trace[..|trace|-1]) + (if trace[|trace|-1].Stop? then 1 else 0)
  }

  function Polls(trace: seq<Call>): nat {
    if trace == [] then 0
    else Polls(trace[..|trace|-1]) + (if trace[|trace|-1].Poll? then 1 else 0)
  }

  lemma TallySnoc(trace: seq<Call>, c: Call)
    ensures Stops(trace + [c]) == Stops(trace) + (if c.Stop? then 1 else 0)
    ensures Polls(trace + [c]) == Polls(trace) + (if c.Poll? then 1 else 0)
  {
    assert (trace + [c])[..|trace|] == trace;
  }

  lemma {:induction false} TallyAppend(a: seq<Call>, b: seq<Call>)
    ensures Stops(a + b) == Stops(a) + Stops(b) && Polls(a + b) == Polls(a) + Polls(b)
    decreases |b|
  {
    if b == [] {
      assert a + b == a;
    } else {
      var n := |b| - 1;
      TallyAppend(a, b[..n]);
      assert a + b == (a + b[..n]) + [b[n]];
      TallySnoc(a + b[..n], b[n]);
    }
  }

  /** No call starts a query or creates a workgroup. */
  predicate StartsNothing(calls: seq<Call>) {
    forall k | 0 <= k < |calls| :: !calls[k].Start? && !calls[k].CreateWorkgroup?
  }

  predicate HasStart(trace: seq<Call>) {
    exists k :: 0 <= k < |trace| && trace[k].Start?
  }

  lemma LastOfAppend(a: seq<Call>, b: seq<Call>)
    ensures b != [] ==> a + b != [] && (a + b)[|a + b| - 1] == b[|b| - 1]
    ensures b == [] ==> a + b == a
  {
  }

  lemma StartInRest(before: seq<Call>, rest: seq<Call>)
    requires forall k | 0 <= k < |before| :: !before[k].Start?
    ensures HasStart(before + rest) <==> HasStart(rest)
    ensures forall c | c in rest :: c in before + rest
  {
    if HasStart(rest) {
      var k :| 0 <= k < |rest| && rest[k].Start?;
      assert (before + rest)[|before| + k] == rest[k];
    }
  }

  // ---------------------------------------------------------------- what the grammar says

  /** A prefix of a lawful trace is lawful. */
  lemma {:induction false} PrefixLawful(defaultGroup: bool, trace: seq<Call>, k: nat)
    requires PhaseOf(defaultGroup, trace) != Rejected && k <= |trace|
    ensures PhaseOf(defaultGroup, trace[..k]) != Rejected
    decreases |trace|
  {
    if k < |trace| {
      assert trace[..|trace|-1][..k] == trace[..k];
      PrefixLawful(defaultGroup, trace[..|trace|-1], k);
    } else {
      assert trace[..k] == trace;
    }
  }

  /** The traces that lead to the phases before submission, in full. */
  lemma {:induction false} EarlyTraces(defaultGroup: bool, trace: seq<Call>)
    ensures PhaseOf(defaultGroup, trace) == Begin ==> trace == [] && !defaultGroup
    ensures PhaseOf(defaultGroup, trace) == Missing ==>
              |trace| == 1 && trace[0].GetWorkgroup? && trace[0].workgroupReply == NotFound && !defaultGroup
    ensures PhaseOf(defaultGroup, trace) == Ready ==> WorkgroupSettled(defaultGroup, trace)
    decreases |trace|
  {
    if trace != [] { EarlyTraces(defaultGroup, trace[..|trace|-1]); }
  }

  /** The workgroup is the default one, was found enabled, or was missing and just created. */
  predicate WorkgroupSettled(defaultGroup: bool, trace: seq<Call>) {
    || (trace == [] && defaultGroup)
    || (|trace| == 1 && trace[0].GetWorkgroup? && trace[0].workgroupReply == Found(true))
    || (|trace| == 2 && trace[0].GetWorkgroup? && trace[0].workgroupReply == NotFound
        && trace[1].CreateWorkgroup? && trace[1].ok)
  }

  /** Submission comes once, and only when the workgroup is settled. */
  lemma StartIsUniqueAndReady(defaultGroup: bool, trace: seq<Call>, k: nat)
    requires PhaseOf(defaultGroup, trace) != Rejected && k < |trace| && trace[k].Start?
    ensures WorkgroupSettled(defaultGroup, trace[..k])
    ensures forall j | 0 <= j < |trace| && trace[j].Start? :: j == k
  {
    forall j | 0 <= j < |trace| && trace[j].Start?
      ensures WorkgroupSettled(defaultGroup, trace[..j])
      ensures forall i | 0 <= i < j :: !trace[i].Start?
    {
      PrefixLawful(defaultGroup, trace, j + 1);
      var front := trace[..j];
      assert trace[..j+1][..j] == front;
      EarlyTraces(defaultGroup, front);
      forall i | 0 <= i < j ensures !trace[i].Start? { assert !front[i].Start?; }
    }
  }

  /** A workgroup is looked up at most once, first of all, and created only after it was not found. */
  lemma WorkgroupCallsComeFirst(defaultGroup: bool, trace: seq<Call>, k: nat)
    requires PhaseOf(defaultGroup, trace) != Rejected && k < |trace|
    ensures trace[k].GetWorkgroup? ==> k == 0 && !defaultGroup
    ensures trace[k].CreateWorkgroup? ==>
              k == 1 && trace[0].GetWorkgroup? && trace[0].workgroupReply == NotFound
  {
    PrefixLawful(defaultGroup, trace, k + 1);
    assert trace[..k+1][..k] == trace[..k];
    EarlyTraces(defaultGroup, trace[..k]);
  }

  /** The started execution a phase is about. */
  function StartedId(p: Phase): Option<string> {
    match p
    case Submitted(id) => Some(id)
    case Pending(id) => Some(id)
    case Finished(id) => Some(id)
    case Halted(id) => Some(id)
    case Described(id, true) => Some(id)
    case Loaded(id, true) => Some(id)
    case _ => None
  }

  predicate WasStarted(trace: seq<Call>, id: string) {
    exists k :: 0 <= k < |trace| && trace[k].Start? && trace[k].startReply == Started(id)
  }

  lemma {:induction false} IdWasStarted(defaultGroup: bool, trace: seq<Call>)
    ensures var id := StartedId(PhaseOf(defaultGroup, trace)); id.Some? ==> WasStarted(trace, id.value)
    decreases |trace|
  {
    if trace != [] {
      var front := trace[..|trace|-1];
      IdWasStarted(defaultGroup, front);
      var id := StartedId(PhaseOf(defaultGroup, trace));
      if id.Some? && WasStarted(front, id.value) {
        var k :| 0 <= k < |front| && front[k].Start? && front[k].startReply == Started(id.value);
        assert trace[k] == front[k];
      } else if id.Some? {
        assert trace[|trace|-1].Start?;
      }
    }
  }

  /** Every poll was about that execution, and none said that it had ended. */
  predicate PolledOnly(trace: seq<Call>, id: string) {
    forall k | 0 <= k < |trace| && trace[k].Poll? :: trace[k].id == id && GoesOn(trace[k].reply)
  }

  predicate NeverPolled(trace: seq<Call>) {
    forall k | 0 <= k < |trace| :: !trace[k].Poll?
  }

  /** Before the last poll no poll says that the query has ended. */
  lemma {:induction false} PollsSoFar(defaultGroup: bool, trace: seq<Call>)
    ensures var p := PhaseOf(defaultGroup, trace);
      && (p.Begin? || p.Missing? || p.Ready? || p.Submitted? ==> NeverPolled(trace))
      && (p.Pending? ==> PolledOnly(trace, p.id))
    decreases |trace|
  {
    if trace != [] {
      var front, last := trace[..|trace|-1], trace[|trace|-1];
      PollsSoFar(defaultGroup, front);
      assert trace == front + [last];
    }
  }

  lemma PollThatFinished(defaultGroup: bool, trace: seq<Call>, id: string)
    requires PhaseOf(defaultGroup, trace) == Finished(id)
    ensures trace != []
    ensures var last := trace[|trace|-1];
      last.Poll? && last.id == id && last.reply.Status? && last.reply.state == Succeeded
    ensures PolledOnly(trace[..|trace|-1], id)
  {
    PollsSoFar(defaultGroup, trace[..|trace|-1]);
  }

  /**
   Rows of a submitted query are handed out only when the last poll of the execution this very
   run started said it succeeded, and every poll before it that it was queued or running.
   */
  lemma PolledRowsSucceeded(defaultGroup: bool, trace: seq<Call>, id: string)
    requires PhaseOf(defaultGroup, trace) == Loaded(id, true)
    ensures WasStarted(trace, id)
    ensures var n := |trace|;
      && n >= 4
      && trace[n-1].FetchPage? && trace[n-1].id == id && MakesRows(trace[n-1].page)
      && trace[n-2] == Describe(id, true)
      && trace[n-3].Poll? && trace[n-3].id == id
      && trace[n-3].reply.Status? && trace[n-3].reply.state == Succeeded
      && PolledOnly(trace[..n-3], id)
  {
    IdWasStarted(defaultGroup, trace);
    var one := trace[..|trace|-1];
    assert PhaseOf(defaultGroup, one) == Described(id, true);
    var two := one[..|one|-1];
    assert PhaseOf(defaultGroup, two) == Finished(id);
    PollThatFinished(defaultGroup, two, id);
    assert two[..|two|-1] == trace[..|trace|-3];
    IdWasStarted(defaultGroup, two[..|two|-1]);
  }
}
