/**
 What holds in every interleaving of RowsProtocol, and where the conditions of it bite.
 */
module RowsTheorems {
  import opened RowsProtocol

  // ---------------------------------------------------------------- theorems

  /**
   Every interleaving hands out the records after the header, in order, none lost or repeated;
   whenever rmu is free a working installed reader stands exactly at readCount.
   */
  lemma DeliversObjectInOrder(obj: seq<Record>, lastPage: bool, ls: seq<Label>)
    requires CleanSkips(ls)
    ensures var s := Exec(obj, Fresh(lastPage), ls);
      && s.readCount <= |obj|
      && Records(s.past.log) == (if s.readCount == 0 then [] else obj[1..s.readCount])
      && (s.rmu.Free? && s.files.results.Reader? ==> s.files.results.broken || s.files.results.pos == s.readCount)
      && (s.pc.Crashed? ==> s.past.openPanicked)
  {
    ExecKeepsInv(obj, Fresh(lastPage), ls, lastPage);
  }

  /** Opening has panicked only if some description named no output location. */
  lemma {:induction false} PanicNeedsALabel(obj: seq<Record>, s: State, ls: seq<Label>)
    requires OpenPanic !in ls
    ensures Exec(obj, s, ls).past.openPanicked == s.past.openPanicked
    decreases |ls|
  {
    if ls != [] {
      assert ls == [ls[0]] + ls[1..];
      OtherLabelsDoNotPanic(obj, s, ls[0]);
      PanicNeedsALabel(obj, Step(obj, s, ls[0]), ls[1..]);
    }
  }

  lemma OtherLabelsDoNotPanic(obj: seq<Record>, s: State, l: Label)
    requires l != OpenPanic
    ensures Step(obj, s, l).past.openPanicked == s.past.openPanicked
  {
    if IsLoaderLabel(l) { LoaderKeepsPast(obj, s, l); }
  }

  /** If every description names an output location the nil reader is never read, whatever else fails. */
  lemma NilReaderIsNeverRead(obj: seq<Record>, lastPage: bool, ls: seq<Label>)
    requires OpenPanic !in ls
    ensures var s := Exec(obj, Fresh(lastPage), ls);
      !s.pc.Crashed? && (s.pc.Reading? ==> s.files.results.Reader?)
  {
    ExecKeepsFrame(obj, Fresh(lastPage), ls);
    PanicNeedsALabel(obj, Fresh(lastPage), ls);
  }

  /** An end of file that no Close, failed open or empty first page explains means nothing was lost. */
  lemma EndOfFileMeansComplete(obj: seq<Record>, lastPage: bool, ls: seq<Label>)
    requires CleanSkips(ls)
    ensures var s := Exec(obj, Fresh(lastPage), ls);
      EndOfFile in s.past.log && !lastPage && !s.past.closeCalled && !s.past.openFailed ==>
        |obj| > 0 && Records(s.past.log) == obj[1..]
  {
    ExecKeepsInv(obj, Fresh(lastPage), ls, lastPage);
  }

  /** The goroutine leaves what has happened alone. */
  lemma LoaderKeepsPast(obj: seq<Record>, s: State, l: Label)
    requires IsLoaderLabel(l)
    ensures Step(obj, s, l).past == s.past
  {
  }

  /** One more result, which is no record. */
  predicate NothingMore(p: seq<Outcome>, q: seq<Outcome>) {
    q == p + [EndOfFile] || q == p + [Failed] || q == p + [Panicked]
  }

  lemma QuietLog(p: seq<Outcome>, q: seq<Outcome>)
    requires q == p || NothingMore(p, q)
    ensures Records(q) == Records(p) && (EndOfFile in p ==> EndOfFile in q)
  {
    RecordsSnoc(p, EndOfFile);
    RecordsSnoc(p, Failed);
    RecordsSnoc(p, Panicked);
  }

  /** While the results are opened nothing is delivered. */
  lemma OpeningDeliversNothing(obj: seq<Record>, s: State, l: Label)
    requires IsOpeningLabel(l)
    ensures var p, q := s.past, Step(obj, s, l).past;
      && (s.pc.OpenFailed? || s.pc.OpenLocked? || q.log == p.log)
      && (q.log == p.log || NothingMore(p.log, q.log))
      && q.closed == p.closed
  {
  }

  lemma CloseDeliversNothing(obj: seq<Record>, s: State, l: Label)
    requires IsCloseLabel(l)
    ensures var p, q := s.past, Step(obj, s, l).past; q.log == p.log && (p.closed ==> q.closed)
  {
  }

  /** A Next at the end of the object, or past the last page, delivers nothing. */
  lemma NextDeliversNothing(obj: seq<Record>, s: State, l: Label)
    requires IsNextLabel(l)
    requires s.pc.Reading? ==> s.files.results.NoReader? || s.files.results.broken || s.files.results.pos >= |obj|
    ensures var p, q := s.past, Step(obj, s, l).past;
      && (s.pc.Reading? || q.log == p.log || q.log == p.log + [EndOfFile])
      && (q.log == p.log || NothingMore(p.log, q.log))
      && q.closed == p.closed
  {
  }

  lemma OtherDeliversNothing(obj: seq<Record>, s: State, l: Label)
    requires !IsNextLabel(l)
    ensures var p, q := s.past, Step(obj, s, l).past;
      && (s.pc.OpenFailed? || s.pc.OpenLocked? || q.log == p.log)
      && (q.log == p.log || NothingMore(p.log, q.log))
      && (p.closed ==> q.closed)
  {
    if IsCloseLabel(l) { CloseDeliversNothing(obj, s, l); }
    else if IsOpeningLabel(l) { OpeningDeliversNothing(obj, s, l); }
    else { LoaderKeepsPast(obj, s, l); }
  }

  lemma NoRecordAfterEndOfFile(obj: seq<Record>, s: State, l: Label, lastPage: bool)
    requires Inv(obj, s, lastPage) && EndOfFile in s.past.log
    ensures var p, q := s.past, Step(obj, s, l).past;
      q.log == p.log || NothingMore(p.log, q.log)
  {
    if IsNextLabel(l) { NextDeliversNothing(obj, s, l); } else { OtherDeliversNothing(obj, s, l); }
  }

  /** No record follows an end of file, even when the reader was swapped in between. */
  lemma {:induction false} EndOfFileStays(obj: seq<Record>, s: State, ls: seq<Label>, lastPage: bool)
    requires Inv(obj, s, lastPage) && CleanSkips(ls) && EndOfFile in s.past.log
    ensures Records(Exec(obj, s, ls).past.log) == Records(s.past.log)
    decreases |ls|
  {
    if ls != [] {
      var t := Step(obj, s, ls[0]);
      StepKeepsInv(obj, s, ls[0], lastPage);
      NoRecordAfterEndOfFile(obj, s, ls[0], lastPage);
      QuietLog(s.past.log, t.past.log);
      EndOfFileStays(obj, t, ls[1..], lastPage);
    }
  }

  lemma EndOfFileIsFinal(obj: seq<Record>, lastPage: bool, before: seq<Label>, after: seq<Label>)
    requires CleanSkips(before) && CleanSkips(after)
    ensures var s := Exec(obj, Fresh(lastPage), before);
      EndOfFile in s.past.log ==> Records(Exec(obj, s, after).past.log) == Records(s.past.log)
  {
    ExecKeepsInv(obj, Fresh(lastPage), before, lastPage);
    var s := Exec(obj, Fresh(lastPage), before);
    if EndOfFile in s.past.log { EndOfFileStays(obj, s, after, lastPage); }
  }

  /**
   Handles are conserved: at most the installed one, the goroutine's and the one openResults
   holds are open, a reader is never read through a closed handle, and once both threads rest
   something is open exactly when a reader was installed and no Close has followed the opening.
   */
  lemma HandlesAreConserved(obj: seq<Record>, lastPage: bool, ls: seq<Label>)
    ensures var s := Exec(obj, Fresh(lastPage), ls);
      && (forall h | h in s.files.openHandles ::
            s.files.resultsFile == File(h) || Private(s.loader) == File(h) || InHand(s.pc) == File(h))
      && (s.pc.Reading? && !s.past.openPanicked ==>
            s.files.results.Reader? && s.files.results.handle in s.files.openHandles)
      && (s.pc.Idle? && (s.loader.NotStarted? || s.loader.Ended?) ==>
            (s.files.openHandles == {} <==> s.past.closed || s.files.resultsFile.NoFile?))
  {
    ExecKeepsFrame(obj, Fresh(lastPage), ls);
  }

  /** What stays true of an opened Rows once Close has run. */
  predicate Shut(s: State) {
    s.past.closed && s.files.results.NoReader? && s.reachedLastPage && !s.pc.Crashed?
  }

  lemma OnlyEndOfFileAfterShut(obj: seq<Record>, s: State, l: Label)
    requires FrameInv(s) && s.past.closed
    ensures var p, q := s.past, Step(obj, s, l).past;
      q.closed && (q.log == p.log || q.log == p.log + [EndOfFile])
  {
    if IsNextLabel(l) { NextDeliversNothing(obj, s, l); } else { OtherDeliversNothing(obj, s, l); }
  }

  lemma {:induction false} ShutStays(obj: seq<Record>, s: State, ls: seq<Label>)
    requires FrameInv(s) && s.past.closed
    ensures Shut(Exec(obj, s, ls))
    ensures AllEndOfFileFrom(Exec(obj, s, ls).past.log, s.past.log)
    decreases |ls|
  {
    if ls != [] {
      StepKeepsFrame(obj, s, ls[0]);
      OnlyEndOfFileAfterShut(obj, s, ls[0]);
      ShutStays(obj, Step(obj, s, ls[0]), ls[1..]);
    }
  }

  /** `later` extends `log` by answers of end of file only. */
  predicate AllEndOfFileFrom(later: seq<Outcome>, log: seq<Outcome>) {
    log <= later && forall k | |log| <= k < |later| :: later[k] == EndOfFile
  }

  /**
   After Close of an opened Rows no later step, of any thread, installs a reader again, and
   every further Next answers end of file without touching the nil reader.
   */
  lemma CloseIsFinal(obj: seq<Record>, lastPage: bool, before: seq<Label>, after: seq<Label>)
    ensures var s := Exec(obj, Fresh(lastPage), before);
      s.past.closed ==>
        var t := Exec(obj, s, after);
        Shut(t) && AllEndOfFileFrom(t.past.log, s.past.log)
  {
    ExecKeepsFrame(obj, Fresh(lastPage), before);
    var s := Exec(obj, Fresh(lastPage), before);
    if s.past.closed { ShutStays(obj, s, after); }
  }

  // ---------------------------------------------------------------- what failed skips deliver

  /** What became of the swap: the count it happened at and the reads that failed while skipping. */
  datatype Swap = NotSwapped | SwappedAt(count: nat, failed: nat)

  function TrackStep(s: State, l: Label, w: Swap): Swap {
    if l == LoadInstall && s.loader.Swapping? then SwappedAt(s.readCount, 0)
    else if l == Skip(true) && s.loader.Skipping? && s.loader.i < s.readCount && w.SwappedAt? then
      SwappedAt(w.count, w.failed + 1)
    else w
  }

  function Track(obj: seq<Record>, s: State, ls: seq<Label>, w: Swap): Swap
    decreases |ls|
  {
    if ls == [] then w else Track(obj, Step(obj, s, ls[0]), ls[1..], TrackStep(s, ls[0], w))
  }

  /** The records after the header up to the n-th of the object. */
  function Upto(obj: seq<Record>, n: nat): seq<Record>
    requires n <= |obj|
  {
    if n <= 1 then [] else Upto(obj, n - 1) + [obj[n - 1]]
  }

  /** The same up to a count, and from there up to another from so many records back. */
  function Resumed(obj: seq<Record>, count: nat, failed: nat, n: nat): seq<Record>
    requires failed <= count <= |obj| && count <= n <= |obj| + failed
  {
    if n == count then Upto(obj, count) else Resumed(obj, count, failed, n - 1) + [obj[n - 1 - failed]]
  }

  lemma {:induction false} UptoIsSlice(obj: seq<Record>, n: nat)
    requires n <= |obj|
    ensures Upto(obj, n) == if n == 0 then [] else obj[1..n]
  {
    if n > 1 {
      UptoIsSlice(obj, n - 1);
      SliceSnoc(obj, 1, n - 1);
    }
  }

  lemma SliceSnoc(obj: seq<Record>, from: nat, n: nat)
    requires from <= n < |obj|
    ensures obj[from..n] + [obj[n]] == obj[from..n + 1]
  {
  }

  lemma {:induction false} ResumedIsSlices(obj: seq<Record>, count: nat, failed: nat, n: nat)
    requires failed <= count <= |obj| && count <= n <= |obj| + failed
    ensures Resumed(obj, count, failed, n) == Upto(obj, count) + obj[count - failed..n - failed]
  {
    if n > count {
      ResumedIsSlices(obj, count, failed, n - 1);
      SliceSnoc(obj, count - failed, n - 1 - failed);
      Regroup(Upto(obj, count), obj[count - failed..n - 1 - failed], [obj[n - 1 - failed]]);
    }
  }

  lemma Regroup(a: seq<Record>, b: seq<Record>, c: seq<Record>)
    ensures a + b + c == a + (b + c)
  {
  }

  /** Without a failed read the two parts are the object without a gap or a repetition. */
  lemma {:induction false} ResumedIsUpto(obj: seq<Record>, count: nat, n: nat)
    requires count <= n <= |obj| && (count == 0 ==> n == 0)
    ensures Resumed(obj, count, 0, n) == Upto(obj, n)
  {
    if n > count { ResumedIsUpto(obj, count, n - 1); }
  }

  /** Before the swap the reader is at readCount. */
  predicate BeforeSwap(obj: seq<Record>, s: State) {
    && !s.loader.Skipping? && s.readCount <= |obj|
    && (s.pc.OpenHeader? ==> s.files.results.Reader? && s.files.results.pos == 0 && !s.files.results.broken)
    && (s.files.results.Reader? ==> s.files.results.broken || s.files.results.pos == s.readCount)
    && (!s.loader.NotStarted? && !Opening(s.pc) ==> s.readCount >= 1 || s.past.openFailed)
  }

  /** After it the reader is behind by the reads that failed. */
  predicate AfterSwap(obj: seq<Record>, s: State, count: nat, failed: nat) {
    && failed <= count <= |obj| && count <= s.readCount <= |obj| + failed
    && (count == 0 ==> s.past.openFailed && s.readCount == 0)
    && !Opening(s.pc)
    && (s.loader.Ended? || (s.loader.Skipping? && SkippingAt(s, count, failed)))
    && (s.files.results.Reader? && s.loader.Ended? ==>
          s.files.results.broken || s.files.results.pos == s.readCount - failed)
  }

  predicate SkippingAt(s: State, count: nat, failed: nat)
    requires s.loader.Skipping?
  {
    && s.readCount == count && failed <= s.loader.i <= count
    && s.files.results.Reader? && !s.files.results.broken && s.files.results.pos == s.loader.i - failed
  }

  predicate PositionAfter(obj: seq<Record>, s: State, w: Swap) {
    match w
    case NotSwapped => BeforeSwap(obj, s)
    case SwappedAt(count, failed) => AfterSwap(obj, s, count, failed)
  }

  /** What has been delivered when `readCount` reads have succeeded. */
  function Expected(obj: seq<Record>, readCount: nat, w: Swap): seq<Record> {
    match w
    case NotSwapped => if readCount <= |obj| then Upto(obj, readCount) else []
    case SwappedAt(count, failed) =>
      if failed <= count <= |obj| && count <= readCount <= |obj| + failed
      then Resumed(obj, count, failed, readCount) else []
  }

  predicate DriftInv(obj: seq<Record>, s: State, w: Swap) {
    FrameInv(s) && PositionAfter(obj, s, w) && Records(s.past.log) == Expected(obj, s.readCount, w)
  }

  // Positions, one group of steps at a time.

  lemma NextKeepsPosition(obj: seq<Record>, s: State, l: Label, w: Swap)
    requires FrameInv(s) && PositionAfter(obj, s, w) && IsNextLabel(l)
    ensures PositionAfter(obj, Step(obj, s, l), w)
  {
  }

  lemma CloseKeepsPosition(obj: seq<Record>, s: State, l: Label, w: Swap)
    requires FrameInv(s) && PositionAfter(obj, s, w) && IsCloseLabel(l)
    ensures PositionAfter(obj, Step(obj, s, l), w)
  {
  }

  lemma OpeningKeepsPosition(obj: seq<Record>, s: State, l: Label, w: Swap)
    requires FrameInv(s) && PositionAfter(obj, s, w) && IsOpeningLabel(l)
    ensures PositionAfter(obj, Step(obj, s, l), w)
  {
  }

  lemma LoaderKeepsPosition(obj: seq<Record>, s: State, l: Label, w: Swap)
    requires FrameInv(s) && PositionAfter(obj, s, w) && IsLoaderLabel(l) && !l.Skip?
    ensures PositionAfter(obj, Step(obj, s, l), TrackStep(s, l, w))
  {
  }

  lemma SkipKeepsPosition(obj: seq<Record>, s: State, l: Label, w: Swap)
    requires FrameInv(s) && PositionAfter(obj, s, w) && l.Skip?
    ensures PositionAfter(obj, Step(obj, s, l), TrackStep(s, l, w))
  {
  }

  lemma StepKeepsPosition(obj: seq<Record>, s: State, l: Label, w: Swap)
    requires FrameInv(s) && PositionAfter(obj, s, w)
    ensures PositionAfter(obj, Step(obj, s, l), TrackStep(s, l, w))
  {
    if l.Skip? { SkipKeepsPosition(obj, s, l, w); }
    else if IsLoaderLabel(l) { LoaderKeepsPosition(obj, s, l, w); }
    else if IsCloseLabel(l) { CloseKeepsPosition(obj, s, l, w); }
    else if IsOpeningLabel(l) { OpeningKeepsPosition(obj, s, l, w); }
    else { NextKeepsPosition(obj, s, l, w); }
  }

  // Deliveries.

  /** Steps other than a read and the header's leave the count alone. */
  lemma CountStays(obj: seq<Record>, s: State, l: Label)
    requires !(l.Read? && s.pc.Reading?) && !(l.OpenReadHeader? && s.pc.OpenHeader?)
    ensures Step(obj, s, l).readCount == s.readCount
  {
  }

  /** They deliver nothing either. */
  lemma QuietStep(obj: seq<Record>, s: State, l: Label)
    requires !(l.Read? && s.pc.Reading?)
    ensures Records(Step(obj, s, l).past.log) == Records(s.past.log)
  {
    if IsNextLabel(l) { QuietNext(obj, s, l); } else { OtherDeliversNothing(obj, s, l); }
    QuietLog(s.past.log, Step(obj, s, l).past.log);
  }

  lemma QuietNext(obj: seq<Record>, s: State, l: Label)
    requires IsNextLabel(l) && !(l.Read? && s.pc.Reading?)
    ensures var p, q := s.past.log, Step(obj, s, l).past.log; q == p || NothingMore(p, q)
  {
  }

  /** At the moment of the swap nothing has been delivered from the new reader. */
  lemma NothingYet(obj: seq<Record>, count: nat, failed: nat)
    requires failed <= count <= |obj|
    ensures Expected(obj, count, SwappedAt(count, failed)) == Upto(obj, count)
  {
  }

  /** The swap itself, and each read that fails while skipping, delivers nothing. */
  lemma TrackingStep(obj: seq<Record>, s: State, l: Label, w: Swap)
    requires PositionAfter(obj, s, w)
    ensures Expected(obj, s.readCount, TrackStep(s, l, w)) == Expected(obj, s.readCount, w)
  {
    var v := TrackStep(s, l, w);
    if v != w {
      NothingYet(obj, v.count, v.failed);
      if w.SwappedAt? { NothingYet(obj, w.count, w.failed); }
    }
  }

  /** The next record to deliver is the one at the reader's position. */
  predicate NextAt(obj: seq<Record>, readCount: nat, pos: nat, w: Swap) {
    && pos < |obj|
    && match w
       case NotSwapped => pos == readCount >= 1
       case SwappedAt(count, failed) => failed <= count <= |obj| && count <= readCount && pos == readCount - failed
  }

  lemma PositionWhenReading(obj: seq<Record>, s: State, w: Swap)
    requires FrameInv(s) && PositionAfter(obj, s, w) && s.pc.Reading?
    requires s.files.results.Reader? && !s.files.results.broken && s.files.results.pos < |obj|
    ensures NextAt(obj, s.readCount, s.files.results.pos, w)
  {
  }

  lemma OneMoreRecord(obj: seq<Record>, readCount: nat, pos: nat, w: Swap)
    requires NextAt(obj, readCount, pos, w)
    ensures Expected(obj, readCount, w) + [obj[pos]] == Expected(obj, readCount + 1, w)
  {
  }

  /** A record that was read is the one at the position of a working reader. */
  lemma OutcomeIs(obj: seq<Record>, r: Reader, fault: bool)
    requires r.Reader?
    ensures var o := ReadOutcome(obj, r, fault);
      o.Delivered? ==> !r.broken && r.pos < |obj| && o.record == obj[r.pos]
  {
  }

  lemma RecordDelivered(obj: seq<Record>, log: seq<Outcome>, readCount: nat, pos: nat, w: Swap)
    requires Records(log) == Expected(obj, readCount, w) && NextAt(obj, readCount, pos, w)
    ensures Records(log + [Delivered(obj[pos])]) == Expected(obj, readCount + 1, w)
  {
    RecordsSnoc(log, Delivered(obj[pos]));
    OneMoreRecord(obj, readCount, pos, w);
  }

  /** What a read changes besides the reader. */
  lemma ReadChanges(obj: seq<Record>, s: State, fault: bool)
    requires s.pc.Reading?
    ensures var t := ReadRecord(obj, s, fault);
      if s.files.results.NoReader? then t.past == s.past && t.readCount == s.readCount
      else
        var o := ReadOutcome(obj, s.files.results, fault);
        t.past.log == s.past.log + [o] && t.readCount == s.readCount + if o.Delivered? then 1 else 0
  {
  }

  lemma ReadDelivers(obj: seq<Record>, s: State, fault: bool, w: Swap)
    requires DriftInv(obj, s, w) && s.pc.Reading?
    ensures var t := ReadRecord(obj, s, fault); Records(t.past.log) == Expected(obj, t.readCount, w)
  {
    ReadChanges(obj, s, fault);
    if s.files.results.Reader? {
      var o := ReadOutcome(obj, s.files.results, fault);
      OutcomeIs(obj, s.files.results, fault);
      if o.Delivered? {
        PositionWhenReading(obj, s, w);
        RecordDelivered(obj, s.past.log, s.readCount, s.files.results.pos, w);
      } else {
        RecordsSnoc(s.past.log, o);
      }
    }
  }

  lemma OtherStepDelivers(obj: seq<Record>, s: State, l: Label, w: Swap)
    requires DriftInv(obj, s, w) && !(l.Read? && s.pc.Reading?)
    ensures var t := Step(obj, s, l); Records(t.past.log) == Expected(obj, t.readCount, TrackStep(s, l, w))
  {
    QuietStep(obj, s, l);
    TrackingStep(obj, s, l, w);
    if l.OpenReadHeader? && s.pc.OpenHeader? {
      HeaderDelivers(obj, s, l.fault, w);
    } else {
      CountStays(obj, s, l);
    }
  }

  lemma StepDelivers(obj: seq<Record>, s: State, l: Label, w: Swap)
    requires DriftInv(obj, s, w)
    ensures var t := Step(obj, s, l); Records(t.past.log) == Expected(obj, t.readCount, TrackStep(s, l, w))
  {
    if l.Read? && s.pc.Reading? { ReadDelivers(obj, s, l.fault, w); } else { OtherStepDelivers(obj, s, l, w); }
  }

  lemma HeaderDelivers(obj: seq<Record>, s: State, fault: bool, w: Swap)
    requires FrameInv(s) && PositionAfter(obj, s, w) && s.pc.OpenHeader?
    ensures Expected(obj, ReadHeader(obj, s, fault).readCount, w) == Expected(obj, s.readCount, w)
  {
  }

  lemma StepKeepsDrift(obj: seq<Record>, s: State, l: Label, w: Swap)
    requires DriftInv(obj, s, w)
    ensures DriftInv(obj, Step(obj, s, l), TrackStep(s, l, w))
  {
    StepKeepsFrame(obj, s, l);
    StepKeepsPosition(obj, s, l, w);
    StepDelivers(obj, s, l, w);
  }

  lemma {:induction false} ExecKeepsDrift(obj: seq<Record>, s: State, ls: seq<Label>, w: Swap)
    requires DriftInv(obj, s, w)
    ensures DriftInv(obj, Exec(obj, s, ls), Track(obj, s, ls, w))
    decreases |ls|
  {
    if ls != [] {
      StepKeepsDrift(obj, s, ls[0], w);
      ExecKeepsDrift(obj, Step(obj, s, ls[0]), ls[1..], TrackStep(s, ls[0], w));
    }
  }

  /** The deliveries of a run, by what became of the swap. */
  predicate Delivers(obj: seq<Record>, readCount: nat, delivered: seq<Record>, w: Swap) {
    match w
    case NotSwapped => readCount <= |obj| && delivered == if readCount == 0 then [] else obj[1..readCount]
    case SwappedAt(count, failed) =>
      && failed <= count <= |obj| && count <= readCount <= |obj| + failed
      && delivered == (if count == 0 then [] else obj[1..count]) + obj[count - failed..readCount - failed]
      && (failed == 0 ==> delivered == if readCount == 0 then [] else obj[1..readCount])
  }

  lemma ExpectedDelivers(obj: seq<Record>, readCount: nat, w: Swap)
    requires match w
             case NotSwapped => readCount <= |obj|
             case SwappedAt(count, failed) =>
               failed <= count <= |obj| && count <= readCount <= |obj| + failed && (count == 0 ==> readCount == 0)
    ensures Delivers(obj, readCount, Expected(obj, readCount, w), w)
  {
    match w
    case NotSwapped => UptoIsSlice(obj, readCount);
    case SwappedAt(count, failed) =>
      UptoIsSlice(obj, count);
      ResumedIsSlices(obj, count, failed, readCount);
      if failed == 0 {
        ResumedIsUpto(obj, count, readCount);
        UptoIsSlice(obj, readCount);
      }
  }

  /**
   Exactly what any run delivers, whatever fails: the records in order up to the swap, and from
   there on again in order, beginning as many records back as reads failed while skipping.
   */
  lemma DeliversWithFailedSkips(obj: seq<Record>, lastPage: bool, ls: seq<Label>)
    ensures var s, w := Exec(obj, Fresh(lastPage), ls), Track(obj, Fresh(lastPage), ls, NotSwapped);
      Delivers(obj, s.readCount, Records(s.past.log), w)
  {
    var s, w := Exec(obj, Fresh(lastPage), ls), Track(obj, Fresh(lastPage), ls, NotSwapped);
    ExecKeepsDrift(obj, Fresh(lastPage), ls, NotSwapped);
    ExpectedDelivers(obj, s.readCount, w);
  }

  // ---------------------------------------------------------------- call histories

  /** No Next is called once Close has been. */
  predicate NoNextAfterClose(ls: seq<Label>) {
    forall i, j | 0 <= i < j < |ls| && ls[i] == CloseCall :: ls[j] != NextCall
  }

  /** A Close that was entered is under way or has run, and nothing has been opened since. */
  predicate CloseRuns(s: State) {
    s.past.closeCalled ==>
      s.pc.CloseMarked? || s.pc.CloseWait? || s.pc.CloseLocked? || (s.pc.Idle? && (s.past.closed || !s.hasOpened))
  }

  lemma CloseRunsStep(obj: seq<Record>, s: State, l: Label)
    requires FrameInv(s) && CloseRuns(s) && (s.past.closeCalled ==> l != NextCall)
    ensures CloseRuns(Step(obj, s, l))
    ensures Step(obj, s, l).past.closeCalled ==> s.past.closeCalled || l == CloseCall
  {
    if IsLoaderLabel(l) { LoaderKeepsPast(obj, s, l); LoaderKeepsCaller(obj, s, l); }
  }

  lemma LoaderKeepsCaller(obj: seq<Record>, s: State, l: Label)
    requires IsLoaderLabel(l)
    ensures Step(obj, s, l).pc == s.pc && Step(obj, s, l).hasOpened == s.hasOpened
  {
  }

  lemma {:induction false} CloseHistory(obj: seq<Record>, s: State, ls: seq<Label>)
    requires FrameInv(s) && CloseRuns(s) && NoNextAfterClose(ls) && (s.past.closeCalled ==> NextCall !in ls)
    ensures FrameInv(Exec(obj, s, ls)) && CloseRuns(Exec(obj, s, ls))
    decreases |ls|
  {
    if ls != [] {
      assert ls == [ls[0]] + ls[1..];
      CloseRunsStep(obj, s, ls[0]);
      StepKeepsFrame(obj, s, ls[0]);
      CloseHistory(obj, Step(obj, s, ls[0]), ls[1..]);
    }
  }

  /**
   In every run in which no Next is called after Close: once Close was called, no call is under
   way and the goroutine rests, no reader handle is open.
   */
  lemma NothingStaysOpen(obj: seq<Record>, lastPage: bool, ls: seq<Label>)
    requires NoNextAfterClose(ls)
    ensures var s := Exec(obj, Fresh(lastPage), ls);
      s.past.closeCalled && s.pc.Idle? && (s.loader.NotStarted? || s.loader.Ended?) ==> s.files.openHandles == {}
  {
    CloseHistory(obj, Fresh(lastPage), ls);
    HandlesAreConserved(obj, lastPage, ls);
  }

  // ---------------------------------------------------------------- where the conditions bite

  /** Some interleaving leads from `s` to `t`; `clean` forbids failed scratch reads. */
  ghost predicate Reaches(obj: seq<Record>, s: State, t: State, clean: bool) {
    exists ls :: (clean ==> CleanSkips(ls)) && Exec(obj, s, ls) == t
  }

  lemma {:induction false} ExecThen(obj: seq<Record>, s: State, ls: seq<Label>, l: Label)
    ensures Exec(obj, s, ls + [l]) == Step(obj, Exec(obj, s, ls), l)
    decreases |ls|
  {
    if ls == [] {
      assert Exec(obj, Step(obj, s, l), []) == Step(obj, s, l);
    } else {
      assert (ls + [l])[1..] == ls[1..] + [l];
      ExecThen(obj, Step(obj, s, ls[0]), ls[1..], l);
    }
  }

  lemma Stay(obj: seq<Record>, s: State, clean: bool)
    ensures Reaches(obj, s, s, clean)
  {
    assert Exec(obj, s, []) == s && CleanSkips([]);
  }

  /** One more step at the end of a run. */
  lemma Take(obj: seq<Record>, s: State, m: State, l: Label, clean: bool) returns (t: State)
    requires Reaches(obj, s, m, clean) && (clean ==> l != Skip(true))
    ensures t == Step(obj, m, l) && Reaches(obj, s, t, clean)
  {
    t := Step(obj, m, l);
    var ls :| (clean ==> CleanSkips(ls)) && Exec(obj, s, ls) == m;
    ExecThen(obj, s, ls, l);
    assert clean ==> CleanSkips(ls + [l]);
  }

  lemma ReachesKeepsFrame(obj: seq<Record>, s: State, t: State, clean: bool)
    requires FrameInv(s) && Reaches(obj, s, t, clean)
    ensures FrameInv(t)
  {
    var ls :| (clean ==> CleanSkips(ls)) && Exec(obj, s, ls) == t;
    ExecKeepsFrame(obj, s, ls);
  }

  // ---------------------------------------------------------------- runs, step by step

  lemma TakeEnterNext(obj: seq<Record>, f: State, s: State, clean: bool)
    requires s.pc.Idle? && Reaches(obj, f, s, clean)
    ensures Reaches(obj, f, EnterNext(s), clean)
  {
    var _ := Take(obj, f, s, NextCall, clean);
  }

  lemma TakeAcquireForOpen(obj: seq<Record>, f: State, s: State, clean: bool)
    requires s.pc.OpenWait? && Reaches(obj, f, s, clean)
    ensures Reaches(obj, f, AcquireForOpen(s), clean)
  {
    var _ := Take(obj, f, s, OpenLock, clean);
  }

  lemma TakePanicOpening(obj: seq<Record>, f: State, s: State, clean: bool)
    requires s.pc.OpenLocked? && Reaches(obj, f, s, clean)
    ensures Reaches(obj, f, PanicOpening(s), clean)
  {
    var _ := Take(obj, f, s, OpenPanic, clean);
  }

  lemma TakeFailToGet(obj: seq<Record>, f: State, s: State, cancel: bool, clean: bool)
    requires s.pc.OpenLocked? && Reaches(obj, f, s, clean)
    ensures Reaches(obj, f, FailToGet(s, cancel), clean)
  {
    var _ := Take(obj, f, s, OpenFail(cancel), clean);
  }

  lemma TakeGetObject(obj: seq<Record>, f: State, s: State, clean: bool)
    requires s.pc.OpenLocked? && Reaches(obj, f, s, clean)
    ensures Reaches(obj, f, GetObject(s), clean)
  {
    var _ := Take(obj, f, s, OpenGet, clean);
  }

  lemma TakeInstallBody(obj: seq<Record>, f: State, s: State, clean: bool)
    requires s.pc.OpenGot? && Reaches(obj, f, s, clean)
    ensures Reaches(obj, f, InstallBody(s), clean)
  {
    var _ := Take(obj, f, s, OpenInstall, clean);
  }

  lemma TakeReadHeader(obj: seq<Record>, f: State, s: State, fault: bool, clean: bool)
    requires s.pc.OpenHeader? && Reaches(obj, f, s, clean)
    ensures Reaches(obj, f, ReadHeader(obj, s, fault), clean)
  {
    var _ := Take(obj, f, s, OpenReadHeader(fault), clean);
  }

  lemma TakeReturnFailure(obj: seq<Record>, f: State, s: State, clean: bool)
    requires s.pc.OpenFailed? && Reaches(obj, f, s, clean)
    ensures Reaches(obj, f, ReturnFailure(s), clean)
  {
    var _ := Take(obj, f, s, OpenReturn, clean);
  }

  lemma TakeCheckLastPage(obj: seq<Record>, f: State, s: State, clean: bool)
    requires s.pc.NextCheck? && Reaches(obj, f, s, clean)
    ensures Reaches(obj, f, CheckLastPage(s), clean)
  {
    var _ := Take(obj, f, s, Check, clean);
  }

  lemma TakeAcquireForRead(obj: seq<Record>, f: State, s: State, clean: bool)
    requires s.pc.ReadWait? && Reaches(obj, f, s, clean)
    ensures Reaches(obj, f, AcquireForRead(s), clean)
  {
    var _ := Take(obj, f, s, ReadLock, clean);
  }

  lemma TakeReadRecord(obj: seq<Record>, f: State, s: State, fault: bool, clean: bool)
    requires s.pc.Reading? && Reaches(obj, f, s, clean)
    ensures Reaches(obj, f, ReadRecord(obj, s, fault), clean)
  {
    var _ := Take(obj, f, s, Read(fault), clean);
  }

  lemma TakeEnterClose(obj: seq<Record>, f: State, s: State, clean: bool)
    requires s.pc.Idle? && Reaches(obj, f, s, clean)
    ensures Reaches(obj, f, EnterClose(s), clean)
  {
    var _ := Take(obj, f, s, CloseCall, clean);
  }

  lemma TakeCancelContext(obj: seq<Record>, f: State, s: State, clean: bool)
    requires s.pc.CloseMarked? && Reaches(obj, f, s, clean)
    ensures Reaches(obj, f, CancelContext(s), clean)
  {
    var _ := Take(obj, f, s, CloseCancel, clean);
  }

  lemma TakeAcquireForClose(obj: seq<Record>, f: State, s: State, clean: bool)
    requires s.pc.CloseWait? && Reaches(obj, f, s, clean)
    ensures Reaches(obj, f, AcquireForClose(s), clean)
  {
    var _ := Take(obj, f, s, CloseLock, clean);
  }

  lemma TakeCloseReader(obj: seq<Record>, f: State, s: State, clean: bool)
    requires s.pc.CloseLocked? && Reaches(obj, f, s, clean)
    ensures Reaches(obj, f, CloseReader(s), clean)
  {
    var _ := Take(obj, f, s, CloseBody, clean);
  }

  lemma TakeGiveUp(obj: seq<Record>, f: State, s: State, clean: bool)
    requires s.loader.Started? && Reaches(obj, f, s, clean)
    ensures Reaches(obj, f, GiveUp(s), clean)
  {
    var _ := Take(obj, f, s, LoadFail, clean);
  }

  lemma TakeFinishDownload(obj: seq<Record>, f: State, s: State, clean: bool)
    requires s.loader.Started? && Reaches(obj, f, s, clean)
    ensures Reaches(obj, f, FinishDownload(s), clean)
  {
    var _ := Take(obj, f, s, Download, clean);
  }

  lemma TakeReopenScratch(obj: seq<Record>, f: State, s: State, clean: bool)
    requires s.loader.Downloaded? && Reaches(obj, f, s, clean)
    ensures Reaches(obj, f, ReopenScratch(s), clean)
  {
    var _ := Take(obj, f, s, Reopen, clean);
  }

  lemma TakeAcquireForSwap(obj: seq<Record>, f: State, s: State, clean: bool)
    requires s.loader.Buffered? && Reaches(obj, f, s, clean)
    ensures Reaches(obj, f, AcquireForSwap(s), clean)
  {
    var _ := Take(obj, f, s, LoadLock, clean);
  }

  lemma TakeCheckContext(obj: seq<Record>, f: State, s: State, clean: bool)
    requires s.loader.Locked? && Reaches(obj, f, s, clean)
    ensures Reaches(obj, f, CheckContext(s), clean)
  {
    var _ := Take(obj, f, s, LoadCheck, clean);
  }

  lemma TakeInstallBuffered(obj: seq<Record>, f: State, s: State, clean: bool)
    requires s.loader.Swapping? && Reaches(obj, f, s, clean)
    ensures Reaches(obj, f, InstallBuffered(s), clean)
  {
    var _ := Take(obj, f, s, LoadInstall, clean);
  }

  lemma TakeSkipRecord(obj: seq<Record>, f: State, s: State, fault: bool, clean: bool)
    requires s.loader.Skipping? && (clean ==> !fault) && Reaches(obj, f, s, clean)
    ensures Reaches(obj, f, SkipRecord(obj, s, fault), clean)
  {
    var _ := Take(obj, f, s, Skip(fault), clean);
  }

  // ---------------------------------------------------------------- runs of several steps

  /**
   The one way to leak: Close a Rows that was never read, then call Next. Close has nothing to
   cancel, Next opens the object, and nothing is left to close it.
   */
  lemma NextAfterEarlyCloseLeaks(obj: seq<Record>)
    requires |obj| > 0
    ensures exists s :: Reaches(obj, Fresh(false), s, true) && s.past.closeCalled && s.pc.Idle? && s.loader.Ended?
                        && s.past.log == [EndOfFile] && s.files.openHandles == {0}
  {
    var f, s := Fresh(false), Fresh(false);
    Stay(obj, f, true);
    TakeEnterClose(obj, f, s, true);
    s := EnterClose(s);
    TakeCancelContext(obj, f, s, true);
    s := CancelContext(s);
    TakeAcquireForClose(obj, f, s, true);
    s := AcquireForClose(s);
    TakeCloseReader(obj, f, s, true);
    s := CloseReader(s);
    assert s == f.(reachedLastPage := true, past := f.past.(closeCalled := true));
    s := OpenFromIdle(obj, f, s, true);
    TakeCheckLastPage(obj, f, s, true);
    s := CheckLastPage(s);
    TakeGiveUp(obj, f, s, true);
    s := GiveUp(s);
  }

  /** The state after the response is installed and reading its header came to `o`. */
  function Opened(s: State, o: Outcome): State {
    s.(files := OpenedFiles(s.files, o), loader := Started,
       readCount := if o.Delivered? then 1 else s.readCount,
       past := s.past.(openFailed := s.past.openFailed || !o.Delivered?),
       pc := if o.Delivered? then NextCheck else OpenFailed(o.EndOfFile?))
  }

  function OpenedFiles(f: Files, o: Outcome): Files {
    WithNext(f).(resultsFile := File(f.nextHandle), results := Advanced(Reader(f.nextHandle, 0, false), o))
  }

  /** openResults with a response in hand, run without interruption. */
  lemma OpeningIsARun(obj: seq<Record>, f: State, s: State, fault: bool, clean: bool)
    requires s.pc.OpenWait? && s.rmu.Free? && Reaches(obj, f, s, clean)
    ensures Reaches(obj, f, Opened(s, ReadOutcome(obj, Reader(s.files.nextHandle, 0, false), fault)), clean)
  {
    TakeAcquireForOpen(obj, f, s, clean);
    var m := AcquireForOpen(s);
    TakeGetObject(obj, f, m, clean);
    m := GetObject(m);
    TakeInstallBody(obj, f, m, clean);
    m := InstallBody(m);
    TakeReadHeader(obj, f, m, fault, clean);
    m := ReadHeader(obj, m, fault);
  }

  /** The state in which the goroutine has installed its reader. */
  function Installed(s: State): State
    requires s.loader.Buffered?
  {
    s.(rmu := Loader, files := Swapped(s.files, s.loader.file), loader := Skipping(0))
  }

  /** The swap until the new reader is installed, run without interruption. */
  lemma InstallIsARun(obj: seq<Record>, f: State, s: State, clean: bool)
    requires s.loader.Buffered? && s.rmu.Free? && !s.parentDone && !s.childDone && Reaches(obj, f, s, clean)
    ensures Reaches(obj, f, Installed(s), clean)
  {
    TakeAcquireForSwap(obj, f, s, clean);
    var m := AcquireForSwap(s);
    TakeCheckContext(obj, f, m, clean);
    m := CheckContext(m);
    TakeInstallBuffered(obj, f, m, clean);
    m := InstallBuffered(m);
  }

  /** A first Next opens the object and reads the header. */
  lemma OpenFromIdle(obj: seq<Record>, f: State, s: State, clean: bool) returns (t: State)
    requires |obj| > 0 && Reaches(obj, f, s, clean) && s.rmu.Free? && s.pc.Idle? && !s.hasOpened
    ensures Reaches(obj, f, t, clean)
    ensures t == Opened(s.(hasOpened := true), Delivered(obj[0]))
  {
    TakeEnterNext(obj, f, s, clean);
    t := EnterNext(s);
    OpeningIsARun(obj, f, t, false, clean);
    t := Opened(t, Delivered(obj[0]));
  }

  /** A later Next reads one record. */
  lemma ReadFromCheck(obj: seq<Record>, f: State, s: State, clean: bool) returns (t: State)
    requires Reaches(obj, f, s, clean) && s.rmu.Free? && s.pc.NextCheck? && !s.reachedLastPage
    requires s.files.results.Reader? && !s.files.results.broken && s.files.results.pos < |obj|
    ensures Reaches(obj, f, t, clean)
    ensures var o := Delivered(obj[s.files.results.pos]);
      t == s.(pc := Idle, files := s.files.(results := Advanced(s.files.results, o)),
              readCount := s.readCount + 1, past := s.past.(log := s.past.log + [o]))
  {
    TakeCheckLastPage(obj, f, s, clean);
    t := CheckLastPage(s);
    TakeAcquireForRead(obj, f, t, clean);
    t := AcquireForRead(t);
    TakeReadRecord(obj, f, t, false, clean);
    t := ReadRecord(obj, t, false);
  }

  /** The first Next panics on a missing output location, and the next one on the nil reader. */
  lemma MissingLocationPanicsTwice(obj: seq<Record>)
    ensures exists s :: Reaches(obj, Fresh(false), s, true) && s.past.log == [Panicked] && s.pc.Crashed?
  {
    var f, s := Fresh(false), EnterNext(Fresh(false));
    Stay(obj, f, true);
    TakeEnterNext(obj, f, f, true);
    TakeAcquireForOpen(obj, f, s, true);
    s := AcquireForOpen(s);
    TakePanicOpening(obj, f, s, true);
    s := PanicOpening(s);
    TakeEnterNext(obj, f, s, true);
    s := EnterNext(s);
    TakeCheckLastPage(obj, f, s, true);
    s := CheckLastPage(s);
    TakeAcquireForRead(obj, f, s, true);
    s := AcquireForRead(s);
    TakeReadRecord(obj, f, s, false, true);
    s := ReadRecord(obj, s, false);
  }

  /** A Rows whose first page left nothing to read delivers nothing. */
  lemma {:induction false} NothingFromLastPage(obj: seq<Record>, s: State, ls: seq<Label>)
    requires FrameInv(s) && s.reachedLastPage && Records(s.past.log) == []
    ensures Records(Exec(obj, s, ls).past.log) == []
    decreases |ls|
  {
    if ls != [] {
      StepKeepsFrame(obj, s, ls[0]);
      LastPageStays(obj, s, ls[0]);
      QuietLog(s.past.log, Step(obj, s, ls[0]).past.log);
      NothingFromLastPage(obj, Step(obj, s, ls[0]), ls[1..]);
    }
  }

  lemma LastPageStays(obj: seq<Record>, s: State, l: Label)
    requires FrameInv(s) && s.reachedLastPage
    ensures var t := Step(obj, s, l);
      t.reachedLastPage && (t.past.log == s.past.log || NothingMore(s.past.log, t.past.log))
  {
    if IsNextLabel(l) { NextDeliversNothing(obj, s, l); } else { OtherDeliversNothing(obj, s, l); }
    LastPageIsNotUndone(obj, s, l);
  }

  lemma LastPageIsNotUndone(obj: seq<Record>, s: State, l: Label)
    requires s.reachedLastPage
    ensures Step(obj, s, l).reachedLastPage
  {
  }

  /** About to read, or idle, with the first n records of the object read. */
  predicate ReadUpTo(obj: seq<Record>, s: State, n: nat)
    requires 1 <= n <= |obj|
  {
    && s.rmu.Free? && s.hasOpened && !s.reachedLastPage
    && s.files.results.Reader? && !s.files.results.broken && s.files.results.pos == n
    && Records(s.past.log) == obj[1..n]
  }

  lemma OneMoreNext(obj: seq<Record>, f: State, s: State, n: nat) returns (t: State)
    requires 1 <= n < |obj| && Reaches(obj, f, s, true) && s.pc.NextCheck? && ReadUpTo(obj, s, n)
    ensures Reaches(obj, f, t, true) && t.pc.Idle? && ReadUpTo(obj, t, n + 1)
  {
    RecordsSnoc(s.past.log, Delivered(obj[n]));
    t := ReadFromCheck(obj, f, s, true);
  }

  /** Next called over and over delivers the object record by record. */
  lemma {:induction false} AllCanBeRead(obj: seq<Record>, n: nat) returns (s: State)
    requires 2 <= n <= |obj|
    ensures Reaches(obj, Fresh(false), s, true) && s.pc.Idle? && ReadUpTo(obj, s, n)
  {
    if n == 2 {
      s := FirstRead(obj);
    } else {
      s := AllCanBeRead(obj, n - 1);
      TakeEnterNext(obj, Fresh(false), s, true);
      s := EnterNext(s);
    }
    s := OneMoreNext(obj, Fresh(false), s, n - 1);
  }

  lemma FirstRead(obj: seq<Record>) returns (s: State)
    requires |obj| >= 2
    ensures Reaches(obj, Fresh(false), s, true) && s.pc.NextCheck? && ReadUpTo(obj, s, 1)
  {
    Stay(obj, Fresh(false), true);
    s := OpenFromIdle(obj, Fresh(false), Fresh(false), true);
  }

  /** Ignored read errors while skipping are not harmless: Next then hands out the header. */
  lemma FaultySkipRedeliversHeader(obj: seq<Record>)
    requires |obj| > 1
    ensures exists s :: Reaches(obj, Fresh(false), s, false) && s.past.log == [Delivered(obj[1]), Delivered(obj[0])]
  {
    var f := Fresh(false);
    Stay(obj, f, false);
    var s := OpenFromIdle(obj, f, f, false);
    s := ReadFromCheck(obj, f, s, false);
    s := SwapWithFaults(obj, f, s);
    TakeEnterNext(obj, f, s, false);
    s := EnterNext(s);
    s := ReadFromCheck(obj, f, s, false);
    assert s.past.log == [Delivered(obj[1]), Delivered(obj[0])];
  }

  /** The reader after skipping reads of which each succeeds or fails as `faults` says. */
  function SkipAll(obj: seq<Record>, r: Reader, faults: seq<bool>): (t: Reader)
    ensures r.Reader? ==> t.Reader? && t.handle == r.handle && t.broken == r.broken
  {
    if faults == [] then r
    else Skipped(obj, SkipAll(obj, r, faults[..|faults|-1]), faults[|faults|-1])
  }

  function AfterSkips(obj: seq<Record>, s: State, faults: seq<bool>): State {
    s.(loader := Skipping(|faults|), files := s.files.(results := SkipAll(obj, s.files.results, faults)))
  }

  /** The skipping loop is a run, and moves the reader as SkipAll says. */
  lemma {:induction false} SkippingIsARun(obj: seq<Record>, f: State, s: State, faults: seq<bool>, clean: bool)
    requires s.loader == Skipping(0) && |faults| <= s.readCount && (clean ==> true !in faults)
    requires Reaches(obj, f, s, clean)
    ensures Reaches(obj, f, AfterSkips(obj, s, faults), clean)
  {
    if faults == [] {
      assert s == AfterSkips(obj, s, faults);
    } else {
      var n := |faults| - 1;
      assert forall x | x in faults[..n] :: x in faults;
      SkippingIsARun(obj, f, s, faults[..n], clean);
      TakeSkipRecord(obj, f, AfterSkips(obj, s, faults[..n]), faults[n], clean);
    }
  }

  function FaultCount(faults: seq<bool>): nat {
    if faults == [] then 0
    else FaultCount(faults[..|faults|-1]) + if faults[|faults|-1] then 1 else 0
  }

  /**
   The reader is left as many records behind as reads failed while skipping: it stands at the
   number of records read, and what Next reads afterwards is right, exactly when none failed.
   */
  lemma {:induction false} BehindByFaults(obj: seq<Record>, file: nat, faults: seq<bool>)
    requires |faults| <= |obj|
    ensures SkipAll(obj, Reader(file, 0, false), faults).pos == |faults| - FaultCount(faults)
    ensures SkipAll(obj, Reader(file, 0, false), faults).pos == |faults| <==> true !in faults
  {
    if faults != [] {
      var n := |faults| - 1;
      BehindByFaults(obj, file, faults[..n]);
      assert faults == faults[..n] + [faults[n]];
    }
  }

  /** A swap after one delivered record in which both skipping reads fail. */
  lemma SwapWithFaults(obj: seq<Record>, f: State, s: State) returns (t: State)
    requires Reaches(obj, f, s, false) && s.rmu.Free? && s.loader.Started? && s.readCount == 2
    requires !s.childDone && !s.parentDone
    ensures Reaches(obj, f, t, false)
    ensures t == s.(loader := Ended, files := Swapped(WithNext(s.files), s.files.nextHandle))
  {
    TakeFinishDownload(obj, f, s, false);
    t := FinishDownload(s);
    TakeReopenScratch(obj, f, t, false);
    t := ReopenScratch(t);
    InstallIsARun(obj, f, t, false);
    t := Installed(t);
    BothSkipsFail(obj, t.files.results);
    SkippingIsARun(obj, f, t, [true, true], false);
    t := AfterSkips(obj, t, [true, true]);
    TakeSkipRecord(obj, f, t, false, false);
    t := SkipRecord(obj, t, false);
  }

  lemma BothSkipsFail(obj: seq<Record>, r: Reader)
    ensures SkipAll(obj, r, [true, true]) == r
  {
    assert [true, true][..1] == [true] && [true][..0] == [];
    assert SkipAll(obj, r, [true]) == r;
  }

  // ---------------------------------------------------------------- progress

  function CallerRank(pc: CallerPc): nat {
    match pc
    case Idle => 0
    case Reading => 1
    case ReadWait => 2
    case NextCheck => 3
    case OpenFailed(_) => 3
    case OpenHeader => 4
    case OpenGot(_) => 5
    case OpenLocked => 6
    case OpenWait => 7
    case CloseLocked => 1
    case CloseWait => 2
    case CloseMarked => 3
    case Crashed => 0
  }

  function LoaderRank(s: State): nat {
    match s.loader
    case Locked(_) => s.readCount + 3
    case Swapping(_) => s.readCount + 2
    case Skipping(i) => if i <= s.readCount then s.readCount - i + 1 else 1
    case _ => 0
  }

  lemma LoaderProgress(obj: seq<Record>, f: State, s: State) returns (t: State)
    requires Reaches(obj, f, s, true) && LoaderHolds(s.loader)
    ensures Reaches(obj, f, t, true) && t.pc == s.pc && LoaderRank(t) < LoaderRank(s)
  {
    match s.loader
    case Locked(_) => TakeCheckContext(obj, f, s, true); t := CheckContext(s);
    case Swapping(_) => TakeInstallBuffered(obj, f, s, true); t := InstallBuffered(s);
    case Skipping(_) => TakeSkipRecord(obj, f, s, false, true); t := SkipRecord(obj, s, false);
  }

  lemma OpenProgress(obj: seq<Record>, f: State, s: State) returns (t: State)
    requires Reaches(obj, f, s, true) && (Opening(s.pc) || s.pc.OpenFailed?)
    requires s.pc.OpenWait? ==> s.rmu.Free?
    requires s.pc.OpenHeader? ==> s.files.results.Reader?
    ensures Reaches(obj, f, t, true) && CallerRank(t.pc) < CallerRank(s.pc)
  {
    match s.pc
    case OpenWait => TakeAcquireForOpen(obj, f, s, true); t := AcquireForOpen(s);
    case OpenLocked => TakeGetObject(obj, f, s, true); t := GetObject(s);
    case OpenGot(_) => TakeInstallBody(obj, f, s, true); t := InstallBody(s);
    case OpenHeader => TakeReadHeader(obj, f, s, false, true); t := ReadHeader(obj, s, false);
    case OpenFailed(_) => TakeReturnFailure(obj, f, s, true); t := ReturnFailure(s);
  }

  lemma ReadProgress(obj: seq<Record>, f: State, s: State) returns (t: State)
    requires Reaches(obj, f, s, true)
    requires s.pc.NextCheck? || (s.pc.ReadWait? && s.rmu.Free?) || s.pc.Reading?
    ensures Reaches(obj, f, t, true) && CallerRank(t.pc) < CallerRank(s.pc)
  {
    match s.pc
    case NextCheck => TakeCheckLastPage(obj, f, s, true); t := CheckLastPage(s);
    case ReadWait => TakeAcquireForRead(obj, f, s, true); t := AcquireForRead(s);
    case Reading => TakeReadRecord(obj, f, s, false, true); t := ReadRecord(obj, s, false);
  }

  lemma CloseProgress(obj: seq<Record>, f: State, s: State) returns (t: State)
    requires Reaches(obj, f, s, true)
    requires s.pc.CloseMarked? || (s.pc.CloseWait? && s.rmu.Free?) || s.pc.CloseLocked?
    ensures Reaches(obj, f, t, true) && CallerRank(t.pc) < CallerRank(s.pc)
  {
    match s.pc
    case CloseMarked => TakeCancelContext(obj, f, s, true); t := CancelContext(s);
    case CloseWait => TakeAcquireForClose(obj, f, s, true); t := AcquireForClose(s);
    case CloseLocked => TakeCloseReader(obj, f, s, true); t := CloseReader(s);
  }

  /** The pending call, or the goroutine where it holds the lock, can take a step. */
  lemma Progress(obj: seq<Record>, f: State, s: State) returns (t: State)
    requires FrameInv(s) && Reaches(obj, f, s, true) && !Resting(s)
    ensures Reaches(obj, f, t, true)
    ensures if LoaderHolds(s.loader) then t.pc == s.pc && LoaderRank(t) < LoaderRank(s)
            else CallerRank(t.pc) < CallerRank(s.pc)
  {
    if LoaderHolds(s.loader) { t := LoaderProgress(obj, f, s); }
    else if Opening(s.pc) || s.pc.OpenFailed? { t := OpenProgress(obj, f, s); }
    else if s.pc.NextCheck? || s.pc.ReadWait? || s.pc.Reading? { t := ReadProgress(obj, f, s); }
    else { t := CloseProgress(obj, f, s); }
  }

  /** No call is under way, or it has panicked, and the goroutine does not hold the lock. */
  predicate Resting(s: State) {
    (s.pc.Idle? || s.pc.Crashed?) && !LoaderHolds(s.loader)
  }

  /** From every state the pending call can run to its end, with rmu free. */
  lemma {:induction false} CallsCanFinish(obj: seq<Record>, f: State, s: State) returns (t: State)
    requires FrameInv(f) && FrameInv(s) && Reaches(obj, f, s, true)
    ensures Reaches(obj, f, t, true) && Resting(t) && FrameInv(t)
    decreases CallerRank(s.pc), LoaderRank(s)
  {
    if Resting(s) {
      t := s;
    } else {
      var m := Progress(obj, f, s);
      ReachesKeepsFrame(obj, f, m, true);
      t := CallsCanFinish(obj, f, m);
    }
  }

  /**
   No deadlock: from every reachable state the pending call can run to its end, with rmu free;
   the end is a panic only if opening has panicked.
   */
  lemma NoDeadlock(obj: seq<Record>, lastPage: bool, before: seq<Label>)
    ensures exists after :: CleanSkips(after) &&
              var t := Exec(obj, Exec(obj, Fresh(lastPage), before), after);
              t.rmu.Free? && (t.pc.Idle? || (t.pc.Crashed? && t.past.openPanicked))
  {
    ExecKeepsFrame(obj, Fresh(lastPage), before);
    var s := Exec(obj, Fresh(lastPage), before);
    Stay(obj, s, true);
    var t := CallsCanFinish(obj, s, s);
  }
}
