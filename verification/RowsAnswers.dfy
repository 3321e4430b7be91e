/** What the answers of `Next` say: an end of file has a reason, and a failure a fault before it. */
module RowsAnswers {
  import opened RowsProtocol
  import opened RowsTheorems

  // ---------------------------------------------------------------- an end of file has a reason

  /** Each end of file comes after a failure, or after all records behind the header. */
  predicate AllExplained(obj: seq<Record>, log: seq<Outcome>)
    requires obj != []
  {
    log == []
    || (AllExplained(obj, log[..|log|-1])
        && (log[|log|-1] == EndOfFile ==> ExplainedBy(obj, log[..|log|-1])))
  }

  predicate ExplainedBy(obj: seq<Record>, before: seq<Outcome>)
    requires obj != []
  {
    Failed in before || Records(before) == obj[1..]
  }

  lemma ExplainedSnoc(obj: seq<Record>, log: seq<Outcome>, o: Outcome)
    requires obj != [] && AllExplained(obj, log)
    requires o == EndOfFile ==> ExplainedBy(obj, log)
    ensures AllExplained(obj, log + [o])
    ensures Failed in log + [o] <==> Failed in log || o == Failed
  {
    assert (log + [o])[..|log|] == log;
  }

  lemma {:induction false} ExplainedAt(obj: seq<Record>, log: seq<Outcome>, k: nat)
    requires obj != [] && AllExplained(obj, log) && k < |log| && log[k] == EndOfFile
    ensures ExplainedBy(obj, log[..k])
    decreases |log|
  {
    if k < |log| - 1 {
      assert log[..|log|-1][..k] == log[..k];
      ExplainedAt(obj, log[..|log|-1], k);
    }
  }

  /** Nothing but a failure or the whole object can have ended the rows so far. */
  predicate Unended(obj: seq<Record>, s: State)
    requires obj != []
  {
    && AllExplained(obj, s.past.log)
    && (s.pc.OpenFailed? ==> !s.pc.eof)
    && (s.reachedLastPage ==> Failed in s.past.log)
  }

  predicate ExplainedInv(obj: seq<Record>, s: State, lastPage: bool) {
    lastPage || s.past.closeCalled || obj == [] || Unended(obj, s)
  }

  /** A read at the end of the object has delivered all of it before. */
  lemma EndIsComplete(obj: seq<Record>, s: State, lastPage: bool, fault: bool)
    requires obj != [] && Inv(obj, s, lastPage) && s.pc.Reading? && s.files.results.Reader?
    requires ReadOutcome(obj, s.files.results, fault) == EndOfFile
    ensures Records(s.past.log) == obj[1..]
  {
    assert s.readCount == |obj| && obj[1..|obj|] == obj[1..];
  }

  lemma ReadIsExplained(obj: seq<Record>, s: State, lastPage: bool, fault: bool)
    requires obj != [] && Inv(obj, s, lastPage) && s.pc.Reading? && Unended(obj, s)
    ensures Unended(obj, ReadRecord(obj, s, fault))
  {
    if s.files.results.Reader? {
      var o := ReadOutcome(obj, s.files.results, fault);
      if o == EndOfFile { EndIsComplete(obj, s, lastPage, fault); }
      ExplainedSnoc(obj, s.past.log, o);
      assert ReadRecord(obj, s, fault).past.log == s.past.log + [o];
    }
  }

  lemma NextIsExplained(obj: seq<Record>, s: State, l: Label, lastPage: bool)
    requires obj != [] && Inv(obj, s, lastPage) && IsNextLabel(l) && Unended(obj, s)
    ensures Unended(obj, Step(obj, s, l))
  {
    if l.Read? {
      if s.pc.Reading? { ReadIsExplained(obj, s, lastPage, l.fault); }
    } else if l.Check? && s.pc.NextCheck? && s.reachedLastPage {
      ExplainedSnoc(obj, s.past.log, EndOfFile);
    }
  }

  lemma OpeningIsExplained(obj: seq<Record>, s: State, l: Label, lastPage: bool)
    requires obj != [] && Inv(obj, s, lastPage) && IsOpeningLabel(l) && Unended(obj, s)
    ensures Unended(obj, Step(obj, s, l))
  {
    if l.OpenPanic? && s.pc.OpenLocked? { ExplainedSnoc(obj, s.past.log, Panicked); }
    if l.OpenReturn? && s.pc.OpenFailed? { ExplainedSnoc(obj, s.past.log, Failed); }
  }

  lemma LoaderIsExplained(obj: seq<Record>, s: State, l: Label)
    requires obj != [] && IsLoaderLabel(l) && Unended(obj, s)
    ensures Unended(obj, Step(obj, s, l))
  {
    LoaderKeepsPast(obj, s, l);
    LoaderKeepsCaller(obj, s, l);
    LoaderKeepsLastPage(obj, s, l);
  }

  lemma LoaderKeepsLastPage(obj: seq<Record>, s: State, l: Label)
    requires IsLoaderLabel(l)
    ensures Step(obj, s, l).reachedLastPage == s.reachedLastPage
  {
  }

  /** Only entering Close marks the last page; its other steps change nothing Unended speaks of. */
  lemma CloseIsExplained(obj: seq<Record>, s: State, l: Label)
    requires obj != [] && IsCloseLabel(l) && Unended(obj, s) && !Step(obj, s, l).past.closeCalled
    ensures Unended(obj, Step(obj, s, l))
  {
  }

  lemma CloseCalledStays(obj: seq<Record>, s: State, l: Label)
    requires s.past.closeCalled
    ensures Step(obj, s, l).past.closeCalled
  {
    if IsLoaderLabel(l) { LoaderKeepsPast(obj, s, l); }
  }

  lemma StepIsExplained(obj: seq<Record>, s: State, l: Label, lastPage: bool)
    requires Inv(obj, s, lastPage) && ExplainedInv(obj, s, lastPage)
    ensures ExplainedInv(obj, Step(obj, s, l), lastPage)
  {
    if s.past.closeCalled {
      CloseCalledStays(obj, s, l);
    } else if !lastPage && obj != [] {
      if IsNextLabel(l) { NextIsExplained(obj, s, l, lastPage); }
      else if IsOpeningLabel(l) { OpeningIsExplained(obj, s, l, lastPage); }
      else if IsLoaderLabel(l) { LoaderIsExplained(obj, s, l); }
      else if !Step(obj, s, l).past.closeCalled { CloseIsExplained(obj, s, l); }
    }
  }

  lemma {:induction false} ExecIsExplained(obj: seq<Record>, s: State, ls: seq<Label>, lastPage: bool)
    requires Inv(obj, s, lastPage) && ExplainedInv(obj, s, lastPage) && CleanSkips(ls)
    ensures ExplainedInv(obj, Exec(obj, s, ls), lastPage)
    decreases |ls|
  {
    if ls != [] {
      StepKeepsInv(obj, s, ls[0], lastPage);
      StepIsExplained(obj, s, ls[0], lastPage);
      ExecIsExplained(obj, Step(obj, s, ls[0]), ls[1..], lastPage);
    }
  }

  /**
   In every interleaving with clean skips each end of file has its reason: the first page left
   nothing, Close was called, the object has not even a header, an earlier Next failed, or every
   record after the header was delivered before it. A failed opening is never an end of file.
   */
  lemma EndOfFileHasAReason(obj: seq<Record>, lastPage: bool, ls: seq<Label>, k: nat)
    requires CleanSkips(ls)
    requires var log := Exec(obj, Fresh(lastPage), ls).past.log; k < |log| && log[k] == EndOfFile
    ensures var past := Exec(obj, Fresh(lastPage), ls).past;
      || lastPage || past.closeCalled || obj == []
      || Failed in past.log[..k] || Records(past.log[..k]) == obj[1..]
  {
    ExecIsExplained(obj, Fresh(lastPage), ls, lastPage);
    var s := Exec(obj, Fresh(lastPage), ls);
    if !lastPage && !s.past.closeCalled && obj != [] { ExplainedAt(obj, s.past.log, k); }
  }

  // ---------------------------------------------------------------- a failure has a fault

  /** The label of a failed request, a failed header or a failed read. */
  predicate IsFault(l: Label) {
    l.OpenFail? || l == OpenReadHeader(true) || l == Read(true)
  }

  predicate Unfailed(s: State) {
    && Failed !in s.past.log
    && (s.files.results.Reader? ==> !s.files.results.broken)
    && (s.pc.OpenFailed? ==> s.pc.eof)
  }

  lemma NextUnfailed(obj: seq<Record>, s: State, l: Label)
    requires Unfailed(s) && IsNextLabel(l) && !IsFault(l)
    ensures Unfailed(Step(obj, s, l))
  {
  }

  lemma CloseUnfailed(obj: seq<Record>, s: State, l: Label)
    requires Unfailed(s) && IsCloseLabel(l)
    ensures Unfailed(Step(obj, s, l))
  {
  }

  lemma OpeningUnfailed(obj: seq<Record>, s: State, l: Label)
    requires Unfailed(s) && IsOpeningLabel(l) && !IsFault(l)
    ensures Unfailed(Step(obj, s, l))
  {
  }

  lemma LoaderUnfailed(obj: seq<Record>, s: State, l: Label)
    requires Unfailed(s) && IsLoaderLabel(l)
    ensures Unfailed(Step(obj, s, l))
  {
    LoaderKeepsPast(obj, s, l);
    LoaderKeepsCaller(obj, s, l);
  }

  lemma StepUnfailed(obj: seq<Record>, s: State, l: Label)
    requires Unfailed(s) && !IsFault(l)
    ensures Unfailed(Step(obj, s, l))
  {
    if IsNextLabel(l) { NextUnfailed(obj, s, l); }
    else if IsCloseLabel(l) { CloseUnfailed(obj, s, l); }
    else if IsOpeningLabel(l) { OpeningUnfailed(obj, s, l); }
    else { LoaderUnfailed(obj, s, l); }
  }

  lemma {:induction false} ExecUnfailed(obj: seq<Record>, s: State, ls: seq<Label>)
    requires Unfailed(s) && forall l | l in ls :: !IsFault(l)
    ensures Unfailed(Exec(obj, s, ls))
    decreases |ls|
  {
    if ls != [] {
      StepUnfailed(obj, s, ls[0]);
      ExecUnfailed(obj, Step(obj, s, ls[0]), ls[1..]);
    }
  }

  /** Without a fault no Next fails, whatever the two threads do; reads failing while skipping are no fault. */
  lemma FailureHasAFault(obj: seq<Record>, lastPage: bool, ls: seq<Label>)
    requires Failed in Exec(obj, Fresh(lastPage), ls).past.log
    ensures exists l | l in ls :: IsFault(l)
  {
    if forall l | l in ls :: !IsFault(l) { ExecUnfailed(obj, Fresh(lastPage), ls); }
  }

  // ---------------------------------------------------------------- a cancelled download

  /** Cancelled before the goroutine has checked. */
  predicate CancelledInTime(s: State) {
    (s.parentDone || s.childDone) && !s.loader.Swapping? && !s.loader.Skipping?
  }

  lemma LoaderStaysCancelled(obj: seq<Record>, s: State, l: Label)
    requires CancelledInTime(s) && IsLoaderLabel(l)
    ensures CancelledInTime(Step(obj, s, l))
  {
  }

  lemma CallerStaysCancelled(obj: seq<Record>, s: State, l: Label)
    requires CancelledInTime(s) && !IsLoaderLabel(l)
    ensures CancelledInTime(Step(obj, s, l))
  {
  }

  /** Once the context is done before the goroutine has checked it, no run ever swaps the reader. */
  lemma {:induction false} CancelledNeverSwaps(obj: seq<Record>, s: State, ls: seq<Label>)
    requires CancelledInTime(s)
    ensures CancelledInTime(Exec(obj, s, ls))
    decreases |ls|
  {
    if ls != [] {
      if IsLoaderLabel(ls[0]) { LoaderStaysCancelled(obj, s, ls[0]); } else { CallerStaysCancelled(obj, s, ls[0]); }
      CancelledNeverSwaps(obj, Step(obj, s, ls[0]), ls[1..]);
    }
  }
}
