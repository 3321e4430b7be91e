/**
 The methods of `Rows` as the source runs them, on mutable fields. Each is proved to perform
 exactly the run of `RowsProtocol` in which no other thread moves. Those runs are interleavings
 among others; what other threads do in between is the subject of `RowsTheorems`.
 */
module RowsReader {
  import opened Wrappers
  import opened RowsProtocol
  import opened RowsTheorems
  import Conversion = RecordConversion
  import ResultPages

  /** What the network answers while the results are opened. */
  datatype OpenReply = NoLocation | BadLocation | GetFailed | Got(headerFault: bool)

  /** openResults run without interruption. */
  function OpenRun(obj: seq<Record>, s: State, reply: OpenReply): State
    requires s.pc.OpenWait? && s.rmu.Free?
  {
    match reply
    case NoLocation => PanicOpening(s.(pc := OpenLocked))
    case BadLocation => s.(past := s.past.(openFailed := true), pc := OpenFailed(false))
    case GetFailed => s.(past := s.past.(openFailed := true), childDone := true, pc := OpenFailed(false))
    case Got(fault) => Opened(s, ReadOutcome(obj, Reader(s.files.nextHandle, 0, false), fault))
  }

  /** Next from the check of reachedLastPage on. */
  function CheckedRead(obj: seq<Record>, s: State, fault: bool): State
    requires s.pc.NextCheck? && s.rmu.Free?
  {
    if s.reachedLastPage then CheckLastPage(s)
    else ReadRecord(obj, s.(rmu := Caller, pc := Reading), fault)
  }

  /** One call of Next run without interruption. */
  function NextRun(obj: seq<Record>, s: State, reply: OpenReply, fault: bool): State
    requires s.pc.Idle? && s.rmu.Free?
  {
    var ready := if s.hasOpened then EnterNext(s) else OpenRun(obj, EnterNext(s), reply);
    AfterOpening(obj, ready, fault)
  }

  function AfterOpening(obj: seq<Record>, ready: State, fault: bool): State
    requires ready.rmu.Free?
  {
    if ready.pc.OpenFailed? then ReturnFailure(ready)
    else if ready.pc.NextCheck? then CheckedRead(obj, ready, fault)
    else ready
  }

  /** One call of Close run without interruption. */
  function CloseRun(s: State): State
    requires s.pc.Idle? && s.rmu.Free?
  {
    s.(reachedLastPage := true, childDone := s.childDone || s.hasOpened, files := Released(s.files),
       past := s.past.(closeCalled := true, closed := s.past.closed || s.hasOpened))
  }

  /** The goroutine's section under rmu, run without interruption. */
  function SwapRun(obj: seq<Record>, s: State): State
    requires s.loader.Buffered? && s.rmu.Free?
  {
    if s.parentDone || s.childDone then s.(files := Dropped(s.files, s.loader.file), loader := Ended)
    else
      var swapped := Swapped(s.files, s.loader.file);
      s.(files := swapped.(results := ReaderAt(obj, s.loader.file, s.readCount)), loader := Ended)
  }

  function NoFaults(n: nat): seq<bool> {
    seq(n, i => false)
  }

  /** A reader on a fresh handle after `n` reads that succeeded. */
  function ReaderAt(obj: seq<Record>, file: nat, n: nat): Reader {
    SkipAll(obj, Reader(file, 0, false), NoFaults(n))
  }

  // ---------------------------------------------------------------- the runs are interleavings

  lemma OpenRunIsARun(obj: seq<Record>, start: State, s: State, reply: OpenReply)
    requires s.pc.OpenWait? && s.rmu.Free? && Reaches(obj, start, s, true)
    ensures Reaches(obj, start, OpenRun(obj, s, reply), true)
  {
    if reply.NoLocation? {
      TakeAcquireForOpen(obj, start, s, true);
      TakePanicOpening(obj, start, AcquireForOpen(s), true);
    } else if reply.Got? {
      OpeningIsARun(obj, start, s, reply.headerFault, true);
    } else {
      TakeAcquireForOpen(obj, start, s, true);
      TakeFailToGet(obj, start, AcquireForOpen(s), reply.GetFailed?, true);
    }
  }

  lemma CheckedReadIsARun(obj: seq<Record>, start: State, s: State, fault: bool)
    requires s.pc.NextCheck? && s.rmu.Free? && Reaches(obj, start, s, true)
    ensures Reaches(obj, start, CheckedRead(obj, s, fault), true)
  {
    TakeCheckLastPage(obj, start, s, true);
    if !s.reachedLastPage {
      var m := CheckLastPage(s);
      TakeAcquireForRead(obj, start, m, true);
      TakeReadRecord(obj, start, AcquireForRead(m), fault, true);
    }
  }

  lemma NextRunIsARun(obj: seq<Record>, s: State, reply: OpenReply, fault: bool)
    requires s.pc.Idle? && s.rmu.Free?
    ensures Reaches(obj, s, NextRun(obj, s, reply, fault), true)
  {
    Stay(obj, s, true);
    TakeEnterNext(obj, s, s, true);
    var m := EnterNext(s);
    if !s.hasOpened {
      OpenRunIsARun(obj, s, m, reply);
      m := OpenRun(obj, m, reply);
    }
    AfterOpeningIsARun(obj, s, m, fault);
  }

  lemma AfterOpeningIsARun(obj: seq<Record>, start: State, ready: State, fault: bool)
    requires ready.rmu.Free? && Reaches(obj, start, ready, true)
    ensures Reaches(obj, start, AfterOpening(obj, ready, fault), true)
  {
    if ready.pc.OpenFailed? {
      TakeReturnFailure(obj, start, ready, true);
    } else if ready.pc.NextCheck? {
      CheckedReadIsARun(obj, start, ready, fault);
    }
  }

  /** Reading is possible when the check of reachedLastPage lets Next pass. */
  predicate Readable(s: State) {
    s.pc.NextCheck? && s.rmu.Free? && (s.reachedLastPage || s.files.results.Reader?)
  }

  /** In every reachable state a Next that gets as far as reading finds a reader. */
  lemma ReaderIsThere(obj: seq<Record>, s: State, reply: OpenReply, lastPage: bool)
    requires Inv(obj, s, lastPage) && s.pc.Idle? && s.rmu.Free? && !s.past.openPanicked
    ensures var ready := if s.hasOpened then EnterNext(s) else OpenRun(obj, EnterNext(s), reply);
      ready.pc.OpenFailed? || Readable(ready) || (ready.pc.Idle? && reply.NoLocation?)
  {
  }

  lemma CloseRunIsARun(obj: seq<Record>, s: State)
    requires s.pc.Idle? && s.rmu.Free?
    ensures Reaches(obj, s, CloseRun(s), true)
  {
    Stay(obj, s, true);
    TakeEnterClose(obj, s, s, true);
    var m := EnterClose(s);
    TakeCancelContext(obj, s, m, true);
    m := CancelContext(m);
    TakeAcquireForClose(obj, s, m, true);
    TakeCloseReader(obj, s, AcquireForClose(m), true);
  }

  lemma SwapRunIsARun(obj: seq<Record>, s: State)
    requires s.loader.Buffered? && s.rmu.Free?
    ensures Reaches(obj, s, SwapRun(obj, s), true)
    ensures SwapRun(obj, s).loader.Ended? && SwapRun(obj, s).rmu.Free?
  {
    if s.parentDone || s.childDone {
      Stay(obj, s, true);
      TakeAcquireForSwap(obj, s, s, true);
      TakeCheckContext(obj, s, AcquireForSwap(s), true);
    } else {
      Stay(obj, s, true);
      InstallIsARun(obj, s, s, true);
      var n, m := s.readCount, Installed(s);
      SkippingIsARun(obj, s, m, NoFaults(n), true);
      TakeSkipRecord(obj, s, AfterSkips(obj, m, NoFaults(n)), false, true);
    }
  }

  // ---------------------------------------------------------------- single calls

  /** What the first Next answers, by what the network says. */
  function FirstAnswer(obj: seq<Record>, lastPage: bool, reply: OpenReply, fault: bool): Outcome {
    if reply == NoLocation then Panicked
    else if reply == BadLocation || reply == GetFailed || reply == Got(true) then Failed
    else if obj == [] || lastPage then EndOfFile
    else if fault then Failed
    else if |obj| == 1 then EndOfFile
    else Delivered(obj[1])
  }

  /** What a later Next answers: the record at readCount, or why there is none. */
  function LaterAnswer(obj: seq<Record>, lastPage: bool, broken: bool, readCount: nat, fault: bool): Outcome {
    if lastPage then EndOfFile
    else if broken || fault then Failed
    else if readCount >= |obj| then EndOfFile
    else Delivered(obj[readCount])
  }

  function AnswerOfNext(obj: seq<Record>, s: State, reply: OpenReply, fault: bool): Outcome {
    if !s.hasOpened then FirstAnswer(obj, s.reachedLastPage, reply, fault)
    else LaterAnswer(obj, s.reachedLastPage, s.files.results.Reader? && s.files.results.broken, s.readCount, fault)
  }

  lemma FailedOpeningAnswers(obj: seq<Record>, s: State, reply: OpenReply, fault: bool)
    requires s.pc.Idle? && s.rmu.Free? && !s.hasOpened && !reply.Got?
    ensures NextRun(obj, s, reply, fault).past.log == s.past.log + [if reply.NoLocation? then Panicked else Failed]
  {
  }

  lemma HeaderFailureAnswers(obj: seq<Record>, s: State, headerFault: bool, fault: bool)
    requires s.pc.Idle? && s.rmu.Free? && !s.hasOpened && (headerFault || obj == [])
    ensures NextRun(obj, s, Got(headerFault), fault).past.log
            == s.past.log + [if headerFault then Failed else EndOfFile]
  {
  }

  lemma FirstReadAnswers(obj: seq<Record>, s: State, fault: bool)
    requires s.pc.Idle? && s.rmu.Free? && !s.hasOpened && obj != []
    ensures NextRun(obj, s, Got(false), fault).past.log
            == s.past.log + [FirstAnswer(obj, s.reachedLastPage, Got(false), fault)]
  {
  }

  lemma FirstNextAnswers(obj: seq<Record>, s: State, reply: OpenReply, fault: bool)
    requires s.pc.Idle? && s.rmu.Free? && !s.hasOpened
    ensures NextRun(obj, s, reply, fault).past.log == s.past.log + [FirstAnswer(obj, s.reachedLastPage, reply, fault)]
  {
    if !reply.Got? { FailedOpeningAnswers(obj, s, reply, fault); }
    else if reply.headerFault || obj == [] { HeaderFailureAnswers(obj, s, reply.headerFault, fault); }
    else { FirstReadAnswers(obj, s, fault); }
  }

  lemma LaterNextAnswers(obj: seq<Record>, s: State, reply: OpenReply, fault: bool, lastPage: bool)
    requires Inv(obj, s, lastPage) && s.pc.Idle? && s.rmu.Free? && s.hasOpened && !s.past.openPanicked
    ensures NextRun(obj, s, reply, fault).past.log == s.past.log + [AnswerOfNext(obj, s, reply, fault)]
  {
  }

  /** In every state a run leads to, one call of Next that nothing interrupts answers by its case. */
  lemma NextAnswers(obj: seq<Record>, s: State, reply: OpenReply, fault: bool, lastPage: bool)
    requires Inv(obj, s, lastPage) && s.pc.Idle? && s.rmu.Free? && !s.past.openPanicked
    ensures NextRun(obj, s, reply, fault).past.log == s.past.log + [AnswerOfNext(obj, s, reply, fault)]
  {
    if s.hasOpened { LaterNextAnswers(obj, s, reply, fault, lastPage); }
    else { FirstNextAnswers(obj, s, reply, fault); }
  }

  lemma SameLast(log: seq<Outcome>, a: Outcome, b: Outcome)
    requires log + [a] == log + [b]
    ensures a == b
  {
    assert (log + [a])[|log|] == a && (log + [b])[|log|] == b;
  }

  // ---------------------------------------------------------------- the first page decides

  /** The state NewRows leaves when its first page makes rows. */
  function StartOf(trim: string -> string, page: ResultPages.Page): State
    requires !ResultPages.Panics(page, true)
  {
    Fresh(ResultPages.NothingToRead(ResultPages.Tidy(trim, page), true))
  }

  /** All a run without failed skips hands out, if the first page left nothing or the object is short. */
  lemma HandsOutNothing(obj: seq<Record>, lastPage: bool, ls: seq<Label>)
    requires lastPage || (|obj| <= 1 && CleanSkips(ls))
    ensures Records(Exec(obj, Fresh(lastPage), ls).past.log) == []
  {
    if lastPage {
      NothingFromLastPage(obj, Fresh(true), ls);
    } else {
      DeliversObjectInOrder(obj, lastPage, ls);
    }
  }

  /**
   Without failed skips, a Rows can hand out a record exactly when its first page left something
   to read and the object has a record after the header; then it can hand out all of them.
   */
  lemma HandsOutExactly(obj: seq<Record>, trim: string -> string, page: ResultPages.Page)
    requires !ResultPages.Panics(page, true)
    ensures var nothing := ResultPages.NothingToRead(ResultPages.Tidy(trim, page), true);
      && (nothing ==> forall ls :: Records(Exec(obj, StartOf(trim, page), ls).past.log) == [])
      && ((exists ls :: CleanSkips(ls) && Records(Exec(obj, StartOf(trim, page), ls).past.log) != [])
          <==> !nothing && |obj| > 1)
      && (!nothing && |obj| > 1 ==>
            exists ls :: CleanSkips(ls) && Records(Exec(obj, StartOf(trim, page), ls).past.log) == obj[1..])
  {
    var nothing := ResultPages.NothingToRead(ResultPages.Tidy(trim, page), true);
    forall ls | nothing || (|obj| <= 1 && CleanSkips(ls))
      ensures Records(Exec(obj, StartOf(trim, page), ls).past.log) == []
    {
      HandsOutNothing(obj, nothing, ls);
    }
    if !nothing && |obj| > 1 {
      var s := AllCanBeRead(obj, |obj|);
      var ls :| CleanSkips(ls) && Exec(obj, Fresh(false), ls) == s;
      assert obj[1..|obj|] == obj[1..];
    }
  }

  // ---------------------------------------------------------------- the class

  datatype RowsFields = RowsFields(
    hasOpened: bool, cancelled: bool, reachedLastPage: bool, readCount: nat, files: Files)

  function FieldsOf(s: State): RowsFields {
    RowsFields(s.hasOpened, s.childDone, s.reachedLastPage, s.readCount, s.files)
  }

  class Rows {
    const obj: seq<Record>         // the result object; both downloads read this content
    var hasOpened: bool            // resultsOpened
    var cancelled: bool            // resultsCanceler was called
    var reachedLastPage: bool
    var readCount: nat
    var resultsFile: Handle
    var results: Reader
    var openHandles: set<nat>      // what the operating system holds open for this Rows
    var nextHandle: nat

    ghost function Fields(): RowsFields
      reads this
    {
      RowsFields(hasOpened, cancelled, reachedLastPage, readCount,
                 Files(resultsFile, results, openHandles, nextHandle))
    }

    /** The fields are those of protocol state `s`. */
    ghost predicate Shows(s: State)
      reads this
    {
      Fields() == FieldsOf(s)
    }

    constructor (obj: seq<Record>, lastPage: bool)
      ensures Shows(Fresh(lastPage)) && this.obj == obj
    {
      this.obj := obj;
      hasOpened, cancelled, reachedLastPage, readCount := false, false, lastPage, 0;
      resultsFile, results, openHandles, nextHandle := NoFile, NoReader, {}, 0;
    }

    /** Reads one record; at end of file or on a broken transport the position stays. */
    method ReadOne(fault: bool) returns (o: Outcome)
      requires results.Reader?
      modifies this`results
      ensures o == ReadOutcome(obj, old(results), fault) && results == Advanced(old(results), o)
    {
      var r := results;
      if r.broken || fault {
        results := r.(broken := true);
        o := Failed;
      } else if r.pos >= |obj| {
        o := EndOfFile;
      } else {
        results := r.(pos := r.pos + 1);
        o := Delivered(obj[r.pos]);
      }
    }

    /** The response in hand becomes the reader, and its heading record is read away. */
    method InstallResponse(fault: bool, ghost s: State) returns (error: Option<Outcome>)
      requires Shows(s) && s.pc.OpenWait?
      modifies this
      ensures var o := ReadOutcome(obj, Reader(s.files.nextHandle, 0, false), fault);
        Shows(Opened(s, o)) && error == if o.Delivered? then None else Some(o)
    {
      var body := nextHandle;
      openHandles, nextHandle := openHandles + {body}, nextHandle + 1;
      resultsFile := File(body);
      results := Reader(body, 0, false);
      var o := ReadOne(fault);
      if !o.Delivered? { return Some(o); }
      readCount := 1;
      return None;
    }

    method OpenResults(reply: OpenReply, ghost s: State) returns (error: Option<Outcome>)
      requires Shows(s) && s.pc.OpenWait? && s.rmu.Free?
      modifies this
      ensures Shows(OpenRun(obj, s, reply)) && (reply.GetFailed? ==> cancelled)
      ensures error == match OpenRun(obj, s, reply).pc
                       case OpenFailed(eof) => Some(if eof then EndOfFile else Failed)
                       case Idle => Some(Panicked)
                       case _ => None
    {
      match reply {
        case NoLocation => return Some(Panicked);
        case BadLocation => return Some(Failed);
        case GetFailed =>
          cancelled := true;
          return Some(Failed);
        case Got(fault) =>
          error := InstallResponse(fault, s);
      }
    }

    /** Next from the check of reachedLastPage to the end of the read. */
    method ReadChecked(fault: bool, ghost s: State) returns (o: Outcome)
      requires Shows(s) && Readable(s)
      modifies this
      ensures Shows(CheckedRead(obj, s, fault)) && CheckedRead(obj, s, fault).past.log == s.past.log + [o]
    {
      if reachedLastPage { return EndOfFile; }
      o := ReadLocked(fault, s.(rmu := Caller, pc := Reading));
    }

    /** The section of Next under the read lock. */
    method ReadLocked(fault: bool, ghost s: State) returns (o: Outcome)
      requires Shows(s) && s.pc.Reading? && s.files.results.Reader?
      modifies this
      ensures Shows(ReadRecord(obj, s, fault)) && ReadRecord(obj, s, fault).past.log == s.past.log + [o]
    {
      o := ReadOne(fault);
      if o.Delivered? { readCount := readCount + 1; }
    }

    /** Opens the results once, then reads one record. */
    method NextRecord(reply: OpenReply, fault: bool, ghost s: State, ghost lastPage: bool) returns (o: Outcome)
      requires Shows(s) && Inv(obj, s, lastPage) && s.pc.Idle? && s.rmu.Free? && !s.past.openPanicked
      modifies this
      ensures Shows(NextRun(obj, s, reply, fault))
      ensures NextRun(obj, s, reply, fault).past.log == s.past.log + [o]
    {
      ReaderIsThere(obj, s, reply, lastPage);
      ghost var ready := EnterNext(s);
      if !hasOpened {
        hasOpened := true;
        var error := OpenResults(reply, ready);
        ready := OpenRun(obj, ready, reply);
        if error == Some(Panicked) { return Panicked; }
        if error.Some? {
          reachedLastPage := true;
          return error.value;
        }
      }
      o := ReadChecked(fault, ready);
    }

    /**
     One call of Next: a record that was read is converted into `dest`. `failure` is the error
     or panic of the conversion; the record counts as read all the same.
     */
    method Next(reply: OpenReply, fault: bool, columns: seq<Conversion.Column>, settings: Conversion.Settings,
                dest: array<Conversion.Cell>, ghost s: State, ghost lastPage: bool)
      returns (o: Outcome, failure: Option<Conversion.Outcome>)
      requires Shows(s) && Inv(obj, s, lastPage) && s.pc.Idle? && s.rmu.Free? && !s.past.openPanicked
      modifies this, dest
      ensures Shows(NextRun(obj, s, reply, fault))
      ensures NextRun(obj, s, reply, fault).past.log == s.past.log + [o] && o == AnswerOfNext(obj, s, reply, fault)
      ensures o.Delivered? ==>
        && failure == Conversion.End(settings.lib, settings.values, columns, o.record, dest.Length)
        && dest[..] == Conversion.Destination(settings.lib, settings.values, columns, o.record, old(dest[..]))
      ensures !o.Delivered? ==> failure == None && dest[..] == old(dest[..])
    {
      o := NextRecord(reply, fault, s, lastPage);
      NextAnswers(obj, s, reply, fault, lastPage);
      SameLast(s.past.log, o, AnswerOfNext(obj, s, reply, fault));
      if !o.Delivered? { return o, None; }
      failure := Conversion.ConvertRecord(settings.lib, settings.values, columns, o.record, dest);
    }

    method Close(ghost s: State)
      requires Shows(s) && s.pc.Idle? && s.rmu.Free?
      modifies this
      ensures Shows(CloseRun(s))
    {
      reachedLastPage := true;
      if hasOpened { cancelled := true; }
      if resultsFile.File? {
        openHandles := Without(openHandles, resultsFile);
        results := NoReader;
      }
    }

    /** The goroutine's last part: check the context, swap the reader, scan past what was read. */
    method SwapIn(file: nat, parentDone: bool, ghost s: State)
      requires Shows(s) && s.loader == Buffered(file) && s.rmu.Free? && parentDone == s.parentDone
      modifies this
      ensures Shows(SwapRun(obj, s))
    {
      if parentDone || cancelled {
        openHandles := Without(openHandles, File(file));
        return;
      }
      if resultsFile.File? { openHandles := Without(openHandles, resultsFile); }
      resultsFile := File(file);
      results := Reader(file, 0, false);
      SkipRead(file);
    }

    /** Scans past the records already read; what the reads return is ignored. */
    method SkipRead(file: nat)
      requires results == Reader(file, 0, false)
      modifies this`results
      ensures results == ReaderAt(obj, file, readCount)
    {
      for i := 0 to readCount
        invariant results == ReaderAt(obj, file, i)
      {
        assert NoFaults(i + 1)[..i] == NoFaults(i);
        var _ := ReadOne(false);
      }
    }
  }
}
