/**
 Which texts give which pseudo command, and what each is answered: on the text of the query as a
 caller writes it, with any number of spaces where spaces are allowed.
 */
module PseudoCommands {
  import ConfigTags
  import opened Interpolation
  import opened LastReplies
  import opened QueryLaw
  import opened RemoteCalls
  import opened Strings
  import opened Wrappers

  // ---------------------------------------------------------------- trimming

  predicate Blank(s: string) {
    forall k | 0 <= k < |s| :: s[k] == ' '
  }

  /** Text that begins and ends with something else than a space. */
  predicate Solid(t: string) {
    t != "" && t[0] != ' ' && t[|t|-1] != ' '
  }

  lemma {:induction false} TrimLeftBlank(a: string, t: string)
    requires Blank(a) && (t == "" || t[0] != ' ')
    ensures TrimLeft(a + t) == t
  {
    if a == "" {
      assert a + t == t;
    } else {
      assert (a + t)[1..] == a[1..] + t;
      TrimLeftBlank(a[1..], t);
    }
  }

  lemma {:induction false} TrimRightBlank(t: string, b: string)
    requires Blank(b) && (t == "" || t[|t|-1] != ' ')
    ensures TrimRight(t + b) == t
    decreases |b|
  {
    if b == "" {
      assert t + b == t;
    } else {
      assert (t + b)[..|t + b|-1] == t + b[..|b|-1];
      TrimRightBlank(t, b[..|b|-1]);
    }
  }

  /** Spaces around a solid text are what is trimmed. */
  lemma TrimPads(a: string, t: string, b: string)
    requires Blank(a) && Blank(b) && Solid(t)
    ensures Trim(a + t + b) == t
  {
    assert a + t + b == a + (t + b);
    TrimLeftBlank(a, t + b);
    TrimRightBlank(t, b);
  }

  lemma {:induction false} TrimLeftParts(s: string) returns (a: string)
    ensures Blank(a) && s == a + TrimLeft(s) && (TrimLeft(s) == "" || TrimLeft(s)[0] != ' ')
  {
    if s != "" && s[0] == ' ' {
      var rest := TrimLeftParts(s[1..]);
      a := " " + rest;
      assert s == " " + s[1..];
    } else {
      a := "";
    }
  }

  lemma {:induction false} TrimRightParts(s: string) returns (b: string)
    ensures Blank(b) && s == TrimRight(s) + b && (TrimRight(s) == "" || TrimRight(s)[|TrimRight(s)|-1] != ' ')
    decreases |s|
  {
    if s != "" && s[|s|-1] == ' ' {
      var front := TrimRightParts(s[..|s|-1]);
      b := front + " ";
      assert s == s[..|s|-1] + " ";
    } else {
      b := "";
    }
  }

  lemma TrimParts(s: string) returns (a: string, b: string)
    ensures Blank(a) && Blank(b) && s == a + Trim(s) + b && (Trim(s) == "" || Solid(Trim(s)))
  {
    a := TrimLeftParts(s);
    b := TrimRightParts(TrimLeft(s));
    var left, t := TrimLeft(s), Trim(s);
    assert a + (t + b) == a + t + b;
    if t != "" { assert t[0] == left[0]; }
  }

  // ---------------------------------------------------------------- the texts of commands

  /** What stands between "pc:" and the end, spaces aside, is the word, a space, and `t` after any more spaces. */
  ghost predicate Asks(query: string, word: string, t: string) {
    && Solid(t)
    && exists a, b, c :: Blank(a) && Blank(b) && Blank(c) && query == "pc:" + (a + (word + " " + (b + t)) + c)
  }

  /** The same for the word that takes no argument, with anything behind it. */
  ghost predicate AsksVersion(query: string) {
    exists a, rest :: Blank(a) && query == "pc:" + (a + ("get_driver_version" + rest))
  }

  /** Without the prefix, the query itself; with it, what a command word leaves. */
  ghost predicate LeavesText(query: string, t: string) {
    || (!("pc:" <= query) && query == t)
    || Asks(query, "get_query_id", t) || Asks(query, "get_query_id_status", t) || Asks(query, "stop_query_id", t)
  }

  /** With one space and nothing else around it, the text asks for the word. */
  lemma AskedPlainly(word: string, t: string)
    requires Solid(t)
    ensures Asks("pc:" + word + " " + t, word, t)
  {
    var query := "pc:" + word + " " + t;
    assert query == "pc:" + ("" + (word + " " + ("" + t)) + "");
    assert Blank("");
  }

  /** The trimmed rest begins with the word and a space, and its remainder trims to `t`. */
  predicate Splits(query: string, word: string, t: string) {
    && "pc:" <= query
    && var q := Trim(query[3..]);
       HasPrefix(q, word + " ") && Trim(q[|word|..]) == t
  }

  lemma AfterPrefix(query: string, rest: string)
    requires query == "pc:" + rest
    ensures "pc:" <= query && query[3..] == rest
  {
  }

  lemma PaddedArgument(word: string, b: string, t: string)
    requires Solid(word) && Blank(b) && Solid(t)
    ensures var body := word + " " + (b + t);
      Solid(body) && HasPrefix(body, word + " ") && Trim(body[|word|..]) == t
  {
    var body, pad := word + " " + (b + t), " " + b;
    assert body[0] == word[0] && body[|body|-1] == t[|t|-1];
    assert body[|word|..] == pad + t + "";
    assert body[..|word| + 1] == word + " ";
    TrimPads(pad, t, "");
  }

  lemma AskedSplits(query: string, word: string, t: string)
    requires Solid(word) && Asks(query, word, t)
    ensures Splits(query, word, t)
  {
    var a, b, c :| Blank(a) && Blank(b) && Blank(c) && query == "pc:" + (a + (word + " " + (b + t)) + c);
    var body := word + " " + (b + t);
    AfterPrefix(query, a + body + c);
    PaddedArgument(word, b, t);
    TrimPads(a, body, c);
  }

  /** An argument behind a space is what it trims to, after more spaces. */
  lemma ArgumentOf(rest: string) returns (b: string)
    requires rest != "" && rest[0] == ' ' && rest[|rest|-1] != ' '
    ensures Blank(b) && Solid(Trim(rest)) && rest == " " + (b + Trim(rest))
  {
    var pad, tail := TrimParts(rest);
    var t := Trim(rest);
    assert tail == "" && rest == pad + t;
    assert t != "" && pad != "";
    b := pad[1..];
    assert pad == " " + b;
  }

  lemma SplitAsks(query: string, word: string, t: string)
    requires Solid(word) && Splits(query, word, t)
    ensures Asks(query, word, t)
  {
    var q := Trim(query[3..]);
    var a, c := TrimParts(query[3..]);
    var rest := q[|word|..];
    assert q[|word|] == (word + " ")[|word|];
    assert q[..|word|] == (word + " ")[..|word|] == word;
    var b := ArgumentOf(rest);
    assert q == word + rest;
    assert q == word + " " + (b + t);
    assert query == "pc:" + query[3..];
  }

  /** A text asks for a word exactly when the driver's trimming and splitting finds it. */
  lemma AsksExactly(query: string, word: string, t: string)
    requires Solid(word)
    ensures Asks(query, word, t) <==> Splits(query, word, t)
  {
    if Asks(query, word, t) { AskedSplits(query, word, t); }
    if Splits(query, word, t) { SplitAsks(query, word, t); }
  }

  lemma {:induction false} TrimRightKeeps(x: string, rest: string)
    requires x != "" && x[|x|-1] != ' '
    ensures x <= TrimRight(x + rest)
    decreases |rest|
  {
    if rest == "" {
      assert x + rest == x;
    } else if rest[|rest|-1] == ' ' {
      assert (x + rest)[..|x + rest|-1] == x + rest[..|rest|-1];
      TrimRightKeeps(x, rest[..|rest|-1]);
    }
  }

  lemma VersionExactly(query: string)
    ensures AsksVersion(query) <==> "pc:" <= query && "get_driver_version" <= Trim(query[3..])
  {
    var x := "get_driver_version";
    if AsksVersion(query) {
      var a, rest :| Blank(a) && query == "pc:" + (a + (x + rest));
      AfterPrefix(query, a + (x + rest));
      TrimLeftBlank(a, x + rest);
      TrimRightKeeps(x, rest);
    }
    if "pc:" <= query && x <= Trim(query[3..]) {
      var a, c := TrimParts(query[3..]);
      var q := Trim(query[3..]);
      var rest := q[|x|..] + c;
      assert q == x + q[|x|..];
      assert a + q + c == a + (x + rest);
      assert query == "pc:" + query[3..];
    }
  }

  /** No text begins with two of the words. */
  lemma WordsApart(q: string)
    ensures HasPrefix(q, "get_query_id ") ==> !HasPrefix(q, "get_query_id_status ")
    ensures HasPrefix(q, "get_query_id ") || HasPrefix(q, "get_query_id_status ") ==>
              !HasPrefix(q, "stop_query_id ") && !HasPrefix(q, "get_driver_version")
    ensures HasPrefix(q, "stop_query_id ") ==> !HasPrefix(q, "get_driver_version")
  {
    var id, status, stop, version := "get_query_id ", "get_query_id_status ", "stop_query_id ", "get_driver_version";
    assert id[12] != status[12] && id[0] != stop[0] && id[4] != version[4];
  }

  lemma ParseExactly(query: string, t: string)
    ensures Parse(query) == Run(Plain, t) <==> !("pc:" <= query) && query == t
    ensures Parse(query) == Run(GetQid, t) <==> Asks(query, "get_query_id", t)
    ensures Parse(query) == Run(QidStatus, t) <==> Asks(query, "get_query_id_status", t)
    ensures Parse(query) == Run(StopQid, t) <==> Asks(query, "stop_query_id", t)
    ensures Parse(query) == Version <==> AsksVersion(query)
  {
    AsksExactly(query, "get_query_id", t);
    AsksExactly(query, "get_query_id_status", t);
    AsksExactly(query, "stop_query_id", t);
    VersionExactly(query);
    if "pc:" <= query { WordsApart(Trim(query[3..])); }
    assert PC_GET_QID + " " == "get_query_id " && PC_GET_QID_STATUS + " " == "get_query_id_status ";
    assert PC_STOP_QID + " " == "stop_query_id ";
  }

  // ---------------------------------------------------------------- the workgroup

  /** The workgroup is the default one, or enabled, or missing and created; and its tags can be decoded. */
  predicate Usable(s: Settings, env: Env) {
    && ConfigTags.DecodeTags(s.tagText).Some?
    && (|| s.workgroup == "" || s.workgroup == "primary" || env.workgroup == Found(true)
        || (env.workgroup == NotFound && s.creationAllowed && env.createOk))
  }

  /** The calls that settle it: none for the default one, a lookup, and a creation if it is missing. */
  function LookupCalls(s: Settings, env: Env): seq<Call> {
    if s.workgroup == "" || s.workgroup == "primary" then []
    else if env.workgroup.NotFound? then [GetWorkgroup(s.workgroup, NotFound), CreateWorkgroup(s.workgroup, true)]
    else [GetWorkgroup(s.workgroup, env.workgroup)]
  }

  lemma UsableGroup(s: Settings, env: Env)
    requires Usable(s, env)
    ensures GroupEnd(s, env).None? && GroupCalls(s, env) == LookupCalls(s, env)
    ensures Stops(LookupCalls(s, env)) == 0 && Polls(LookupCalls(s, env)) == 0
  {
    GroupIsLawful(s, env);
  }

  // ---------------------------------------------------------------- query IDs

  lemma QidIsSolid(q: string)
    requires IsQID(q)
    ensures Solid(q)
  {
    assert IsQidByte(q[0]) && IsQidByte(q[35]);
  }

  lemma QidAnswered(lib: Lib, s: Settings, env: Env, query: string, command: Command, q: string)
    requires lib.tables.Correct() && Usable(s, env) && IsQID(q) && Parse(query) == Run(command, q)
    ensures var rest := QidCourse(env, command, q);
      QueryCourse(lib, s, env, query, []) == Course(rest.answer, LookupCalls(s, env) + rest.calls)
  {
    UsableGroup(s, env);
    assert Admission(lib, s, query, []) == Admitted(command, q, q);
  }

  /** One more call after the workgroup's. */
  lemma OneMoreCall(s: Settings, env: Env, c: Call)
    requires Usable(s, env)
    ensures Stops(LookupCalls(s, env) + [c]) == (if c.Stop? then 1 else 0)
    ensures Polls(LookupCalls(s, env) + [c]) == (if c.Poll? then 1 else 0)
  {
    UsableGroup(s, env);
    TallySnoc(LookupCalls(s, env), c);
  }

  /** The answer to a request for the state of an execution. */
  function StateAnswer(reply: PollReply): Answer {
    match reply
    case PollFailed => Fail(StatusError)
    case NoStatus => Crash
    case Status(state, _, _, _) => Page(NameOf(state))
  }

  lemma StateAnswered(reply: PollReply)
    ensures StatusAnswer(reply) == StateAnswer(reply)
  {
  }

  /** "get_query_id_status" with a query ID looks once, stops nothing, and answers the state by name. */
  lemma StatusCommand(lib: Lib, s: Settings, env: Env, query: string, q: string)
    requires lib.tables.Correct() && Usable(s, env) && IsQID(q) && Asks(query, "get_query_id_status", q)
    ensures var course := QueryCourse(lib, s, env, query, []);
      && course.calls == LookupCalls(s, env) + [Inspect(q, env.status)]
      && Stops(course.calls) == 0 && Polls(course.calls) == 0
      && course.answer == StateAnswer(env.status)
  {
    StateAnswered(env.status);
    ParseExactly(query, q);
    QidAnswered(lib, s, env, query, QidStatus, q);
    OneMoreCall(s, env, Inspect(q, env.status));
  }

  /** "stop_query_id" with a query ID stops it once, and answers "OK" if that worked. */
  lemma StopCommand(lib: Lib, s: Settings, env: Env, query: string, q: string)
    requires lib.tables.Correct() && Usable(s, env) && IsQID(q) && Asks(query, "stop_query_id", q)
    ensures var course := QueryCourse(lib, s, env, query, []);
      && course.calls == LookupCalls(s, env) + [Stop(q, env.stopOk)]
      && Stops(course.calls) == 1 && Polls(course.calls) == 0
      && course.answer == if env.stopOk then Page("OK") else Fail(StopError)
  {
    ParseExactly(query, q);
    QidAnswered(lib, s, env, query, StopQid, q);
    OneMoreCall(s, env, Stop(q, env.stopOk));
  }

  /** The calls that open the rows of an execution. */
  function OpeningCalls(env: Env, id: string): seq<Call> {
    [Describe(id, env.describeOk)] + if env.describeOk then [FetchPage(id, env.page)] else []
  }

  /** What opening them comes to. */
  function OpeningAnswer(env: Env, id: string): Answer {
    if !env.describeOk || env.page.CallFailed? then Fail(RowsError)
    else if MakesRows(env.page) then Rows(id) else Crash
  }

  lemma OpeningIs(env: Env, id: string)
    ensures RowsCourse(env, id) == Course(OpeningAnswer(env, id), OpeningCalls(env, id))
  {
  }

  /** A query ID alone, or behind "get_query_id", opens the rows of that execution and submits nothing. */
  lemma QidAlone(lib: Lib, s: Settings, env: Env, query: string, q: string)
    requires lib.tables.Correct() && Usable(s, env) && IsQID(q)
    requires query == q || Asks(query, "get_query_id", q)
    ensures var course := QueryCourse(lib, s, env, query, []);
      && course.calls == LookupCalls(s, env) + OpeningCalls(env, q)
      && course.answer == OpeningAnswer(env, q)
  {
    ParseExactly(query, q);
    OpeningIs(env, q);
    if query == q {
      assert IsQidByte(q[1]) && "pc:"[0] != q[0];
      QidAnswered(lib, s, env, query, Plain, q);
    } else {
      QidAnswered(lib, s, env, query, GetQid, q);
    }
  }

  // ---------------------------------------------------------------- texts to submit

  /** The text with its arguments written into it. */
  ghost predicate Finalizes(lib: Lib, t: string, args: seq<Value>, final: string)
    requires lib.tables.Correct()
  {
    if args == [] then final == t
    else Count(t, '?') == |args| && Interpolated(lib.formatFloat, lib.tables, [], t, args) == Ok(final)
  }

  /** The normalised text begins with none of the words that only read. */
  predicate Writes(lib: Lib, t: string) {
    var n := lib.normalize(t);
    && !IsQID(t)
    && !("select" <= n) && !("using" <= n) && !("with" <= n) && !("desc" <= n) && !("show" <= n)
  }

  /** The text passes every gate and is no query ID. */
  ghost predicate Passes(lib: Lib, s: Settings, t: string, args: seq<Value>, final: string)
    requires lib.tables.Correct()
  {
    && !(s.readOnly && Writes(lib, t)) && Finalizes(lib, t, args, final)
    && 4 < |final| < 262144 && !IsQID(final) && Params(lib.formatFloat, args).Some?
  }

  /** The call that submits it: with the placeholders, and the arguments apart. */
  function StartOf(lib: Lib, s: Settings, env: Env, t: string, args: seq<Value>): Call
    requires Params(lib.formatFloat, args).Some?
  {
    Start(t, Params(lib.formatFloat, args).value, if s.workgroup == "" then "primary" else s.workgroup, env.start)
  }

  lemma TextSubmitted(lib: Lib, s: Settings, env: Env, query: string, command: Command, t: string, args: seq<Value>,
                      final: string)
    requires lib.tables.Correct() && Usable(s, env) && Passes(lib, s, t, args, final) && Parse(query) == Run(command, t)
    ensures var rest := SubmitCourse(s, env, command, t, Params(lib.formatFloat, args));
      QueryCourse(lib, s, env, query, args) == Course(rest.answer, LookupCalls(s, env) + rest.calls)
  {
    UsableGroup(s, env);
    assert Admission(lib, s, query, args) == Admitted(command, t, final);
  }

  /** "get_query_id" with a text submits it, never polls, and answers the ID, or that of the failed request. */
  lemma GetIdCommand(lib: Lib, s: Settings, env: Env, query: string, t: string, args: seq<Value>, final: string)
    requires lib.tables.Correct() && Usable(s, env) && Passes(lib, s, t, args, final)
    requires Asks(query, "get_query_id", t)
    ensures var course := QueryCourse(lib, s, env, query, args);
      && course.calls == LookupCalls(s, env) + [StartOf(lib, s, env, t, args)]
      && Stops(course.calls) == 0 && Polls(course.calls) == 0
      && course.answer == match env.start
                          case Started(id) => Page(id)
                          case StartFailed(requestId) => if requestId != "" then Page(requestId) else Fail(StartError)
                          case NoId => Crash
  {
    ParseExactly(query, t);
    TextSubmitted(lib, s, env, query, GetQid, t, args, final);
    OneMoreCall(s, env, StartOf(lib, s, env, t, args));
  }

  /** Any other text is submitted, polled to its end, and its rows opened if it succeeded. */
  lemma TextIsRun(lib: Lib, s: Settings, env: Env, query: string, t: string, args: seq<Value>, final: string)
    requires lib.tables.Correct() && Usable(s, env) && Passes(lib, s, t, args, final)
    requires (!("pc:" <= query) && query == t)
             || Asks(query, "get_query_id_status", t) || Asks(query, "stop_query_id", t)
    ensures var course := QueryCourse(lib, s, env, query, args);
      var start := LookupCalls(s, env) + [StartOf(lib, s, env, t, args)];
      match env.start
      case Started(id) =>
        var waited := start + WaitCalls(s, env, id);
        if WaitEnd(s, env).Some? then course == Course(WaitEnd(s, env).value, waited)
        else course == Course(OpeningAnswer(env, id), waited + OpeningCalls(env, id))
      case StartFailed(_) => course == Course(Fail(StartError), start)
      case NoId => course == Course(Crash, start)
  {
    ParseExactly(query, t);
    var command := if !("pc:" <= query) then Plain
                   else if Asks(query, "get_query_id_status", t) then QidStatus else StopQid;
    TextSubmitted(lib, s, env, query, command, t, args, final);
    if env.start.Started? {
      var id := env.start.id;
      OpeningIs(env, id);
      Regroup(LookupCalls(s, env), [StartOf(lib, s, env, t, args)], WaitCalls(s, env, id), OpeningCalls(env, id));
    }
  }

  lemma Regroup(a: seq<Call>, b: seq<Call>, c: seq<Call>, d: seq<Call>)
    ensures a + (b + c) == a + b + c
    ensures a + (b + (c + d)) == a + b + c + d
  {
  }

  // ---------------------------------------------------------------- refusals

  /** The answers only the gate gives. */
  predicate IsGates(a: Answer) {
    a == Fail(UnknownPseudoCommand) || a == Fail(WriteViolation) || a == Fail(BadQuery)
  }

  lemma CallsTellNoRefusal(s: Settings, started: bool, c: Call, a: Answer)
    requires Tells(s, started, c, a)
    ensures !IsGates(a)
  {
  }

  lemma AdmittedIsNoRefusal(s: Settings, course: Course)
    requires LastTells(s, HasStart(course.calls), course)
    requires course.calls == [] ==> course.answer == Fail(BadParameters)
    ensures !IsGates(course.answer)
  {
    if course.calls != [] {
      CallsTellNoRefusal(s, HasStart(course.calls), course.calls[|course.calls|-1], course.answer);
    }
  }

  lemma RefusedByGate(lib: Lib, s: Settings, env: Env, query: string, args: seq<Value>, a: Answer)
    requires lib.tables.Correct() && IsGates(a)
    ensures QueryCourse(lib, s, env, query, args).answer == a <==> Admission(lib, s, query, args) == Refused(a)
  {
    var gate := Admission(lib, s, query, args);
    if gate.Admitted? {
      AdmittedTells(lib, s, env, gate, args);
      AdmittedIsNoRefusal(s, AdmittedCourse(lib, s, env, gate, args));
    }
  }

  /** The version is answered, without a call, exactly for the texts that ask for it. */
  lemma VersionCommand(lib: Lib, s: Settings, env: Env, query: string, args: seq<Value>)
    requires lib.tables.Correct()
    ensures QueryCourse(lib, s, env, query, args) == Course(Page("1.1.15"), []) <==> AsksVersion(query)
  {
    ParseExactly(query, "");
    var gate := Admission(lib, s, query, args);
    if gate.Admitted? { AdmittedTells(lib, s, env, gate, args); }
  }

  /** A text that begins with "pc:" is refused exactly when it asks for none of the four commands. */
  lemma UnknownCommand(lib: Lib, s: Settings, env: Env, query: string, args: seq<Value>)
    requires lib.tables.Correct()
    ensures QueryCourse(lib, s, env, query, args).answer == Fail(UnknownPseudoCommand)
            <==> "pc:" <= query && !AsksVersion(query) && forall t :: !LeavesText(query, t)
    ensures "pc:" <= query && !AsksVersion(query) && (forall t :: !LeavesText(query, t)) ==>
              QueryCourse(lib, s, env, query, args).calls == []
  {
    RefusedByGate(lib, s, env, query, args, Fail(UnknownPseudoCommand));
    forall t ensures LeavesText(query, t) <==> Parse(query).Run? && Parse(query).text == t {
      ParseExactly(query, t);
    }
    ParseExactly(query, "");
    if Parse(query).Run? { assert LeavesText(query, Parse(query).text); }
  }

  /** In read-only mode a text is refused exactly when it writes; and then by its length, IDs included. */
  lemma TextRefused(lib: Lib, s: Settings, env: Env, query: string, t: string)
    requires lib.tables.Correct() && LeavesText(query, t)
    ensures var answer := QueryCourse(lib, s, env, query, []).answer;
      && (answer == Fail(WriteViolation) <==> s.readOnly && Writes(lib, t))
      && (answer == Fail(BadQuery) <==> !(s.readOnly && Writes(lib, t)) && !(4 < |t| < 262144))
  {
    RefusedByGate(lib, s, env, query, [], Fail(WriteViolation));
    RefusedByGate(lib, s, env, query, [], Fail(BadQuery));
    ParseExactly(query, t);
  }

  // ---------------------------------------------------------------- ExecContext

  /** ExecContext runs the text with its arguments written into it, if that can be done and its length is right. */
  lemma ExecRunsFinalText(lib: Lib, s: Settings, env: Env, query: string, args: seq<Value>, final: string)
    requires lib.tables.Correct() && Finalizes(lib, query, args, final)
    ensures ExecCourse(lib, s, env, query, args)
            == if 4 < |final| < 262144 then QueryCourse(lib, s, env, final, []) else Course(Fail(BadQuery), [])
  {
  }

  predicate NoParameters(calls: seq<Call>) {
    forall k | 0 <= k < |calls| && calls[k].Start? :: calls[k].params == []
  }

  lemma NoParametersAppend(a: seq<Call>, b: seq<Call>)
    requires NoParameters(a) && (NoParameters(b) || StartsNothing(b))
    ensures NoParameters(a + b)
  {
  }

  lemma SubmitWithoutArguments(s: Settings, env: Env, command: Command, text: string)
    ensures NoParameters(SubmitCourse(s, env, command, text, Some([])).calls)
  {
    if env.start.Started? && command != GetQid {
      var id := env.start.id;
      SubmissionStartsNothing(s, env, id);
      NoParametersAppend([Start(text, [], GroupName(s), env.start)], Submission(s, env, id).calls);
    }
  }

  lemma AdmittedWithoutArguments(lib: Lib, s: Settings, env: Env, gate: Gate)
    requires gate.Admitted?
    ensures NoParameters(AdmittedCourse(lib, s, env, gate, []).calls)
  {
    var before := GroupCalls(s, env);
    GroupIsLawful(s, env);
    if IsQID(gate.final) {
      var rest := QidCourse(env, gate.command, gate.final);
      QidIsQuiet(env, gate.command, gate.final);
      NoParametersAppend(before, rest.calls);
    } else {
      var rest := SubmitCourse(s, env, gate.command, gate.text, Some([]));
      SubmitWithoutArguments(s, env, gate.command, gate.text);
      NoParametersAppend(before, rest.calls);
    }
  }

  lemma QueryWithoutArguments(lib: Lib, s: Settings, env: Env, query: string)
    requires lib.tables.Correct()
    ensures NoParameters(QueryCourse(lib, s, env, query, []).calls)
  {
    var gate := Admission(lib, s, query, []);
    if gate.Admitted? { AdmittedWithoutArguments(lib, s, env, gate); }
  }

  /** So what it submits has no arguments apart. */
  lemma ExecSendsNoParameters(lib: Lib, s: Settings, env: Env, query: string, args: seq<Value>)
    requires lib.tables.Correct()
    ensures NoParameters(ExecCourse(lib, s, env, query, args).calls)
  {
    if args == [] {
      QueryWithoutArguments(lib, s, env, query);
    } else if Count(query, '?') == |args| {
      var r := Interpolated(lib.formatFloat, lib.tables, [], query, args);
      if r.Ok? { QueryWithoutArguments(lib, s, env, r.text); }
    }
  }
}
