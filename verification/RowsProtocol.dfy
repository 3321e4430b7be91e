/**
 The concurrent life of one `Rows` value: the caller's `Next` and `Close`, and the goroutine
 that downloads the result object to a scratch file and swaps it in under `rmu`.

 A state carries the fields of `Rows`, the program counters of the two threads, the owner of
 `rmu` and the set of open reader handles. `Step` performs one labelled step; a label that is
 not enabled leaves the state alone, so the label sequences are exactly the interleavings.
 A CSV reader is a position in the sequence of records of the object.
 */
module RowsProtocol {
  type Record = seq<string>

  /** A CSV reader over an open handle. `broken` says its transport has failed for good. */
  datatype Reader = NoReader | Reader(handle: nat, pos: nat, broken: bool)

  /** A file handle; NoFile is the nil interface value. */
  datatype Handle = NoFile | File(id: nat)

  /** What one call of Next returned. */
  datatype Outcome = Delivered(record: Record) | EndOfFile | Failed | Panicked

  datatype CallerPc =
    | Idle
    | OpenWait                 // inside sync.Once, waiting for rmu
    | OpenLocked               // about to request the object
    | OpenGot(body: nat)       // response in hand, goroutine started
    | OpenHeader               // reader installed, header not read yet
    | OpenFailed(eof: bool)    // openResults returned an error
    | NextCheck                // about to test reachedLastPage
    | ReadWait                 // past the test, waiting for the read lock
    | Reading
    | CloseMarked              // reachedLastPage set, not cancelled yet
    | CloseWait                // cancelled, waiting for rmu
    | CloseLocked
    | Crashed                  // panicked on the nil reader

  datatype LoaderPc =
    | NotStarted
    | Started
    | Downloaded
    | Buffered(file: nat)      // scratch file reopened, waiting for rmu
    | Locked(file: nat)        // holds rmu, context not checked yet
    | Swapping(file: nat)      // context was live, old reader still installed
    | Skipping(i: nat)         // new reader installed, i records skipped
    | Ended

  datatype Owner = Free | Caller | Loader

  /** The readers and handles of a Rows. */
  datatype Files = Files(
    resultsFile: Handle,
    results: Reader,
    openHandles: set<nat>,     // reader handles not closed yet
    nextHandle: nat)

  /** What has happened, for the statements only. */
  datatype Past = Past(
    log: seq<Outcome>,         // results of the finished Next calls
    openFailed: bool,          // openResults returned an error
    openPanicked: bool,        // openResults panicked
    closeCalled: bool,         // Close was entered
    closed: bool)              // Close ran its locked part on an opened Rows

  datatype State = State(
    pc: CallerPc,
    loader: LoaderPc,
    rmu: Owner,
    parentDone: bool,          // r.ctx is cancelled
    childDone: bool,           // resultsCanceler was called
    hasOpened: bool,           // resultsOpened has fired; resultsCanceler is set
    reachedLastPage: bool,
    readCount: nat,
    files: Files,
    past: Past)

  datatype Label =
    | NextCall
    | OpenLock | OpenPanic | OpenFail(cancel: bool) | OpenGet | OpenInstall
    | OpenReadHeader(fault: bool) | OpenReturn
    | Check | ReadLock | Read(fault: bool)
    | CloseCall | CloseCancel | CloseLock | CloseBody
    | ParentCancel
    | LoadFail | Download | Reopen | LoadLock | LoadCheck | LoadInstall
    | Skip(fault: bool)

  /** A Rows just made by NewRows; `lastPage` is what fetchNextPage left in reachedLastPage. */
  function Fresh(lastPage: bool): State {
    State(Idle, NotStarted, Free, false, false, false, lastPage, 0,
          Files(NoFile, NoReader, {}, 0), Past([], false, false, false, false))
  }

  // ---------------------------------------------------------------- openResults

  function AcquireForOpen(s: State): State requires s.pc.OpenWait? {
    if s.rmu == Free then s.(rmu := Caller, pc := OpenLocked) else s
  }

  /** An error before the body is installed; a failed GetObject also cancels the context. */
  function FailToGet(s: State, cancel: bool): State requires s.pc.OpenLocked? {
    s.(childDone := s.childDone || cancel, rmu := Free, past := s.past.(openFailed := true), pc := OpenFailed(false))
  }

  /** The description names no output location: a panic, which releases rmu and still fires resultsOpened. */
  function PanicOpening(s: State): State requires s.pc.OpenLocked? {
    s.(rmu := Free, past := s.past.(openPanicked := true, log := s.past.log + [Panicked]), pc := Idle)
  }

  function GetObject(s: State): State requires s.pc.OpenLocked? {
    s.(files := WithNext(s.files), loader := Started, pc := OpenGot(s.files.nextHandle))
  }

  function InstallBody(s: State): State requires s.pc.OpenGot? {
    s.(files := s.files.(resultsFile := File(s.pc.body), results := Reader(s.pc.body, 0, false)), pc := OpenHeader)
  }

  /** What one read of a CSV reader comes to. */
  function ReadOutcome(obj: seq<Record>, r: Reader, fault: bool): Outcome requires r.Reader? {
    if r.broken || fault then Failed
    else if r.pos >= |obj| then EndOfFile
    else Delivered(obj[r.pos])
  }

  /** The reader after a read with that outcome. */
  function Advanced(r: Reader, o: Outcome): Reader requires r.Reader? {
    match o
    case Failed => r.(broken := true)
    case Delivered(_) => r.(pos := r.pos + 1)
    case _ => r
  }

  /** Burning off the heading record, the last act of openResults. */
  function ReadHeader(obj: seq<Record>, s: State, fault: bool): State requires s.pc.OpenHeader? {
    if s.files.results.NoReader? then s.(pc := Crashed, rmu := Free)
    else
      var o := ReadOutcome(obj, s.files.results, fault);
      s.(files := s.files.(results := Advanced(s.files.results, o)),
         readCount := if o.Delivered? then 1 else s.readCount,
         rmu := Free,
         past := s.past.(openFailed := s.past.openFailed || !o.Delivered?),
         pc := if o.Delivered? then NextCheck else OpenFailed(o.EndOfFile?))
  }

  function ReturnFailure(s: State): State requires s.pc.OpenFailed? {
    s.(reachedLastPage := true,
       past := s.past.(log := s.past.log + [if s.pc.eof then EndOfFile else Failed]),
       pc := Idle)
  }

  // ---------------------------------------------------------------- Next

  function EnterNext(s: State): State requires s.pc.Idle? {
    if s.hasOpened then s.(pc := NextCheck) else s.(hasOpened := true, pc := OpenWait)
  }

  function CheckLastPage(s: State): State requires s.pc.NextCheck? {
    s.(past := s.past.(log := if s.reachedLastPage then s.past.log + [EndOfFile] else s.past.log),
       pc := if s.reachedLastPage then Idle else ReadWait)
  }

  function AcquireForRead(s: State): State requires s.pc.ReadWait? {
    if s.rmu == Free then s.(rmu := Caller, pc := Reading) else s
  }

  /** The read under the read lock: the reader moves and readCount follows, or an error is returned. */
  function ReadRecord(obj: seq<Record>, s: State, fault: bool): State requires s.pc.Reading? {
    if s.files.results.NoReader? then s.(pc := Crashed, rmu := Free)
    else
      var o := ReadOutcome(obj, s.files.results, fault);
      s.(files := s.files.(results := Advanced(s.files.results, o)),
         readCount := s.readCount + if o.Delivered? then 1 else 0,
         past := s.past.(log := s.past.log + [o]), rmu := Free, pc := Idle)
  }

  // ---------------------------------------------------------------- Close

  function EnterClose(s: State): State requires s.pc.Idle? {
    s.(reachedLastPage := true, past := s.past.(closeCalled := true), pc := CloseMarked)
  }

  function CancelContext(s: State): State requires s.pc.CloseMarked? {
    s.(childDone := s.childDone || s.hasOpened, pc := CloseWait)
  }

  function AcquireForClose(s: State): State requires s.pc.CloseWait? {
    if s.rmu == Free then s.(rmu := Caller, pc := CloseLocked) else s
  }

  function CloseReader(s: State): State requires s.pc.CloseLocked? {
    s.(files := Released(s.files), rmu := Free, past := s.past.(closed := s.past.closed || s.hasOpened), pc := Idle)
  }

  /** The installed handle is closed, and the reader over it dropped. */
  function Released(f: Files): Files {
    f.(openHandles := Without(f.openHandles, f.resultsFile),
       results := if f.resultsFile.File? then NoReader else f.results)
  }

  /** One more handle is open. */
  function WithNext(f: Files): Files {
    f.(openHandles := f.openHandles + {f.nextHandle}, nextHandle := f.nextHandle + 1)
  }

  function Without(handles: set<nat>, f: Handle): set<nat> {
    if f.File? then handles - {f.id} else handles
  }

  // ---------------------------------------------------------------- the download goroutine

  /** Creating, downloading or reopening the scratch file failed, or there is no scratch directory. */
  function GiveUp(s: State): State requires s.loader.Started? || s.loader.Downloaded? {
    s.(loader := Ended)
  }

  function FinishDownload(s: State): State requires s.loader.Started? {
    s.(loader := Downloaded)
  }

  function ReopenScratch(s: State): State requires s.loader.Downloaded? {
    s.(files := WithNext(s.files), loader := Buffered(s.files.nextHandle))
  }

  function AcquireForSwap(s: State): State requires s.loader.Buffered? {
    if s.rmu == Free then s.(rmu := Loader, loader := Locked(s.loader.file)) else s
  }

  function CheckContext(s: State): State requires s.loader.Locked? {
    var done := s.parentDone || s.childDone;
    s.(files := if done then Dropped(s.files, s.loader.file) else s.files,
       rmu := if done then Free else s.rmu,
       loader := if done then Ended else Swapping(s.loader.file))
  }

  function InstallBuffered(s: State): State requires s.loader.Swapping? {
    s.(files := Swapped(s.files, s.loader.file), loader := Skipping(0))
  }

  /** The private handle is closed unused. */
  function Dropped(f: Files, file: nat): Files {
    f.(openHandles := Without(f.openHandles, File(file)))
  }

  /** The installed handle is closed and `file` installed instead, with a reader at its start. */
  function Swapped(f: Files, file: nat): Files {
    f.(openHandles := Without(f.openHandles, f.resultsFile),
       resultsFile := File(file), results := Reader(file, 0, false))
  }

  /** One turn of the loop that scans past the records already read; read errors are ignored. */
  function SkipRecord(obj: seq<Record>, s: State, fault: bool): State requires s.loader.Skipping? {
    if s.loader.i >= s.readCount then s.(rmu := Free, loader := Ended)
    else s.(files := s.files.(results := Skipped(obj, s.files.results, fault)), loader := Skipping(s.loader.i + 1))
  }

  function Skipped(obj: seq<Record>, r: Reader, fault: bool): Reader {
    if fault || r.NoReader? || r.pos >= |obj| then r else r.(pos := r.pos + 1)
  }

  // ---------------------------------------------------------------- interleavings

  function Step(obj: seq<Record>, s: State, l: Label): State {
    match l
    case NextCall => if s.pc.Idle? then EnterNext(s) else s
    case Check => if s.pc.NextCheck? then CheckLastPage(s) else s
    case ReadLock => if s.pc.ReadWait? then AcquireForRead(s) else s
    case Read(fault) => if s.pc.Reading? then ReadRecord(obj, s, fault) else s
    case ParentCancel => s.(parentDone := true)
    case CloseCall => if s.pc.Idle? then EnterClose(s) else s
    case CloseCancel => if s.pc.CloseMarked? then CancelContext(s) else s
    case CloseLock => if s.pc.CloseWait? then AcquireForClose(s) else s
    case CloseBody => if s.pc.CloseLocked? then CloseReader(s) else s
    case OpenLock => if s.pc.OpenWait? then AcquireForOpen(s) else s
    case OpenPanic => if s.pc.OpenLocked? then PanicOpening(s) else s
    case OpenFail(cancel) => if s.pc.OpenLocked? then FailToGet(s, cancel) else s
    case OpenGet => if s.pc.OpenLocked? then GetObject(s) else s
    case OpenInstall => if s.pc.OpenGot? then InstallBody(s) else s
    case OpenReadHeader(fault) => if s.pc.OpenHeader? then ReadHeader(obj, s, fault) else s
    case OpenReturn => if s.pc.OpenFailed? then ReturnFailure(s) else s
    case LoadFail => if s.loader.Started? || s.loader.Downloaded? then GiveUp(s) else s
    case Download => if s.loader.Started? then FinishDownload(s) else s
    case Reopen => if s.loader.Downloaded? then ReopenScratch(s) else s
    case LoadLock => if s.loader.Buffered? then AcquireForSwap(s) else s
    case LoadCheck => if s.loader.Locked? then CheckContext(s) else s
    case LoadInstall => if s.loader.Swapping? then InstallBuffered(s) else s
    case Skip(fault) => if s.loader.Skipping? then SkipRecord(obj, s, fault) else s
  }

  predicate IsNextLabel(l: Label) {
    l.NextCall? || l.Check? || l.ReadLock? || l.Read? || l.ParentCancel?
  }

  predicate IsCloseLabel(l: Label) {
    l.CloseCall? || l.CloseCancel? || l.CloseLock? || l.CloseBody?
  }

  predicate IsOpeningLabel(l: Label) {
    l.OpenLock? || l.OpenPanic? || l.OpenFail? || l.OpenGet? || l.OpenInstall? || l.OpenReadHeader? || l.OpenReturn?
  }

  predicate IsLoaderLabel(l: Label) {
    l.LoadFail? || l.Download? || l.Reopen? || l.LoadLock? || l.LoadCheck? || l.LoadInstall? || l.Skip?
  }

  /** The state after a whole interleaving. */
  function Exec(obj: seq<Record>, s: State, ls: seq<Label>): State
    decreases |ls|
  {
    if ls == [] then s else Exec(obj, Step(obj, s, ls[0]), ls[1..])
  }

  /** The records a sequence of Next results handed to the caller. */
  function Records(log: seq<Outcome>): seq<Record> {
    if log == [] then []
    else
      var front := Records(log[..|log|-1]);
      if log[|log|-1].Delivered? then front + [log[|log|-1].record] else front
  }

  /** No read of the local scratch file failed while already-read records were skipped. */
  predicate CleanSkips(ls: seq<Label>) {
    forall i | 0 <= i < |ls| :: ls[i] != Skip(true)
  }

  // ---------------------------------------------------------------- invariant

  predicate CallerHolds(pc: CallerPc) {
    pc.OpenLocked? || pc.OpenGot? || pc.OpenHeader? || pc.Reading? || pc.CloseLocked?
  }

  predicate LoaderHolds(g: LoaderPc) {
    g.Locked? || g.Swapping? || g.Skipping?
  }

  predicate Opening(pc: CallerPc) {
    pc.OpenWait? || pc.OpenLocked? || pc.OpenGot? || pc.OpenHeader?
  }

  /** The handle the goroutine owns and has not installed. */
  function Private(g: LoaderPc): Handle {
    match g
    case Buffered(h) => File(h)
    case Locked(h) => File(h)
    case Swapping(h) => File(h)
    case _ => NoFile
  }

  /** The response body openResults holds and has not installed. */
  function InHand(pc: CallerPc): Handle {
    if pc.OpenGot? then File(pc.body) else NoFile
  }

  /** Who may do what when: lock ownership, and when the caller can be in which place. */
  predicate ControlInv(s: State) {
    && (s.rmu == Caller <==> CallerHolds(s.pc))
    && (s.rmu == Loader <==> LoaderHolds(s.loader))
    && (!s.hasOpened ==>
          && s.loader.NotStarted? && s.files.resultsFile.NoFile? && s.files.results.NoReader?
          && !s.past.openFailed && !s.past.openPanicked && s.readCount == 0
          && (s.pc.Idle? || s.pc.CloseMarked? || s.pc.CloseWait? || s.pc.CloseLocked?))
    && (s.pc.OpenWait? || s.pc.OpenLocked? ==> s.loader.NotStarted?)
    && (s.pc.OpenWait? || s.pc.OpenLocked? || s.pc.OpenGot? ==>
          s.files.resultsFile.NoFile? && s.files.results.NoReader?)
    && (s.pc.OpenHeader? ==> s.files.results.Reader?)
    && (Opening(s.pc) ==> s.readCount == 0 && !s.past.openFailed && !s.past.openPanicked)
    && (s.past.openPanicked ==> s.loader.NotStarted? && s.files.resultsFile.NoFile? && s.files.results.NoReader?)
    && (s.pc.OpenFailed? ==> s.past.openFailed)
    && (s.past.openFailed && !s.pc.OpenFailed? ==> s.reachedLastPage)
    && (s.pc.NextCheck? && !s.reachedLastPage && !s.past.openPanicked ==> s.files.results.Reader? && s.readCount >= 1)
    && (s.hasOpened && !Opening(s.pc) && !s.reachedLastPage && !s.past.openFailed && !s.past.openPanicked ==>
          s.files.results.Reader? && s.readCount >= 1)
    && (s.pc.ReadWait? || s.pc.Reading? ==>
          s.hasOpened && !s.reachedLastPage && (s.files.results.Reader? || s.past.openPanicked))
    && (s.pc.CloseMarked? || s.pc.CloseWait? || s.pc.CloseLocked? ==> s.reachedLastPage && s.past.closeCalled)
    && ((s.pc.CloseWait? || s.pc.CloseLocked?) && s.hasOpened ==> s.childDone)
    && (s.pc.Crashed? ==> s.past.openPanicked && s.hasOpened)
  }

  /** Closing an opened Rows is final. */
  predicate ClosedInv(s: State) {
    s.past.closed ==>
      && s.hasOpened && s.childDone && s.files.results.NoReader? && s.reachedLastPage
      && (s.files.resultsFile.File? ==> s.files.resultsFile.id !in s.files.openHandles)
      && !s.loader.Swapping? && !s.loader.Skipping? && !Opening(s.pc) && !s.pc.OpenFailed? && !s.pc.Crashed?
  }

  /** Every open handle is accounted for, and no handle has two owners. */
  predicate HandleInv(s: State) {
    && (forall h | h in s.files.openHandles ::
          && h < s.files.nextHandle
          && (s.files.resultsFile == File(h) || Private(s.loader) == File(h) || InHand(s.pc) == File(h)))
    && (Private(s.loader).File? ==>
          Private(s.loader).id in s.files.openHandles && Private(s.loader) != s.files.resultsFile
          && Private(s.loader) != InHand(s.pc))
    && (InHand(s.pc).File? ==> InHand(s.pc).id in s.files.openHandles)
    && (s.files.resultsFile.File? ==> s.files.resultsFile.id < s.files.nextHandle)
    && (s.files.results.Reader? ==>
          s.files.resultsFile == File(s.files.results.handle) && s.files.results.handle in s.files.openHandles)
    && (s.files.resultsFile.File? && s.files.results.NoReader? ==> s.past.closed)
  }

  /** The installed reader stands at readCount, except inside the two sections that move it. */
  predicate PositionInv(obj: seq<Record>, s: State) {
    && s.readCount <= |obj|
    && (s.pc.OpenHeader? ==> s.files.results.Reader? && s.files.results.pos == 0 && !s.files.results.broken)
    && (s.loader.Skipping? ==> s.files.results.Reader? && s.loader.i <= s.readCount
                               && s.files.results.pos == s.loader.i && !s.files.results.broken)
    && (s.files.results.Reader? && !s.loader.Skipping? ==>
          s.files.results.broken || s.files.results.pos == s.readCount)
  }

  /** What has been handed out so far is the object from its second record on. */
  predicate LogInv(obj: seq<Record>, s: State, lastPage: bool) {
    && (s.readCount == 0 ==> Records(s.past.log) == [])
    && (s.readCount > 0 ==> s.readCount <= |obj| && Records(s.past.log) == obj[1..s.readCount])
    && (EndOfFile in s.past.log ==> s.reachedLastPage || s.readCount == |obj|)
    && (EndOfFile in s.past.log ==> s.past.closeCalled || s.past.openFailed || lastPage || s.readCount == |obj| > 0)
    && (s.reachedLastPage ==> s.past.closeCalled || s.past.openFailed || lastPage)
  }

  predicate Inv(obj: seq<Record>, s: State, lastPage: bool) {
    ControlInv(s) && ClosedInv(s) && HandleInv(s) && PositionInv(obj, s) && LogInv(obj, s, lastPage)
  }

  lemma RecordsSnoc(log: seq<Outcome>, o: Outcome)
    ensures Records(log + [o]) == if o.Delivered? then Records(log) + [o.record] else Records(log)
  {
    assert (log + [o])[..|log|] == log;
  }

  lemma AcquireForOpenKeepsInv(obj: seq<Record>, s: State, lastPage: bool)
    requires Inv(obj, s, lastPage) && s.pc.OpenWait?
    ensures Inv(obj, AcquireForOpen(s), lastPage)
  {
  }

  lemma FailToGetKeepsInv(obj: seq<Record>, s: State, lastPage: bool, cancel: bool)
    requires Inv(obj, s, lastPage) && s.pc.OpenLocked?
    ensures Inv(obj, FailToGet(s, cancel), lastPage)
  {
  }

  lemma PanicOpeningKeepsInv(obj: seq<Record>, s: State, lastPage: bool)
    requires Inv(obj, s, lastPage) && s.pc.OpenLocked?
    ensures Inv(obj, PanicOpening(s), lastPage)
  {
    RecordsSnoc(s.past.log, Panicked);
    assert EndOfFile in s.past.log + [Panicked] ==> EndOfFile in s.past.log;
  }

  lemma GetObjectKeepsInv(obj: seq<Record>, s: State, lastPage: bool)
    requires Inv(obj, s, lastPage) && s.pc.OpenLocked?
    ensures Inv(obj, GetObject(s), lastPage)
  {
  }

  lemma InstallBodyKeepsInv(obj: seq<Record>, s: State, lastPage: bool)
    requires Inv(obj, s, lastPage) && s.pc.OpenGot?
    ensures Inv(obj, InstallBody(s), lastPage)
  {
  }

  lemma ReadHeaderKeepsInv(obj: seq<Record>, s: State, lastPage: bool, fault: bool)
    requires Inv(obj, s, lastPage) && s.pc.OpenHeader?
    ensures Inv(obj, ReadHeader(obj, s, fault), lastPage)
  {
  }

  lemma ReturnFailureKeepsInv(obj: seq<Record>, s: State, lastPage: bool)
    requires Inv(obj, s, lastPage) && s.pc.OpenFailed?
    ensures Inv(obj, ReturnFailure(s), lastPage)
  {
    var t := ReturnFailure(s);
    if |t.past.log| > |s.past.log| { RecordsSnoc(s.past.log, t.past.log[|s.past.log|]); }
  }

  lemma EnterNextKeepsInv(obj: seq<Record>, s: State, lastPage: bool)
    requires Inv(obj, s, lastPage) && s.pc.Idle?
    ensures Inv(obj, EnterNext(s), lastPage)
  {
  }

  lemma CheckLastPageKeepsInv(obj: seq<Record>, s: State, lastPage: bool)
    requires Inv(obj, s, lastPage) && s.pc.NextCheck?
    ensures Inv(obj, CheckLastPage(s), lastPage)
  {
    var t := CheckLastPage(s);
    if |t.past.log| > |s.past.log| { RecordsSnoc(s.past.log, t.past.log[|s.past.log|]); }
  }

  lemma AcquireForReadKeepsInv(obj: seq<Record>, s: State, lastPage: bool)
    requires Inv(obj, s, lastPage) && s.pc.ReadWait?
    ensures Inv(obj, AcquireForRead(s), lastPage)
  {
  }

  /** One more result keeps the log right when the count of records read follows it. */
  lemma LogOneMore(obj: seq<Record>, log: seq<Outcome>, n: nat, o: Outcome)
    requires 1 <= n <= |obj| && Records(log) == obj[1..n]
    requires o.Delivered? ==> n < |obj| && o.record == obj[n]
    ensures Records(log + [o]) == obj[1..n + if o.Delivered? then 1 else 0]
    ensures EndOfFile in log + [o] <==> EndOfFile in log || o == EndOfFile
  {
    RecordsSnoc(log, o);
  }

  lemma ReadRecordKeepsLog(obj: seq<Record>, s: State, lastPage: bool, fault: bool)
    requires LogInv(obj, s, lastPage) && s.pc.Reading? && s.files.results.Reader?
    requires !s.reachedLastPage && 1 <= s.readCount <= |obj|
    requires s.files.results.broken || s.files.results.pos == s.readCount
    ensures LogInv(obj, ReadRecord(obj, s, fault), lastPage)
  {
    LogOneMore(obj, s.past.log, s.readCount, ReadOutcome(obj, s.files.results, fault));
  }

  lemma ReadRecordKeepsHandles(obj: seq<Record>, s: State, fault: bool)
    requires ControlInv(s) && ClosedInv(s) && HandleInv(s) && s.pc.Reading?
    ensures var t := ReadRecord(obj, s, fault); ControlInv(t) && ClosedInv(t) && HandleInv(t)
  {
  }

  lemma ReadRecordKeepsInv(obj: seq<Record>, s: State, lastPage: bool, fault: bool)
    requires Inv(obj, s, lastPage) && s.pc.Reading?
    ensures Inv(obj, ReadRecord(obj, s, fault), lastPage)
  {
    ReadRecordKeepsHandles(obj, s, fault);
    if s.files.results.Reader? { ReadRecordKeepsLog(obj, s, lastPage, fault); }
  }

  lemma EnterCloseKeepsInv(obj: seq<Record>, s: State, lastPage: bool)
    requires Inv(obj, s, lastPage) && s.pc.Idle?
    ensures Inv(obj, EnterClose(s), lastPage)
  {
  }

  lemma CancelContextKeepsInv(obj: seq<Record>, s: State, lastPage: bool)
    requires Inv(obj, s, lastPage) && s.pc.CloseMarked?
    ensures Inv(obj, CancelContext(s), lastPage)
  {
  }

  lemma AcquireForCloseKeepsInv(obj: seq<Record>, s: State, lastPage: bool)
    requires Inv(obj, s, lastPage) && s.pc.CloseWait?
    ensures Inv(obj, AcquireForClose(s), lastPage)
  {
  }

  lemma CloseReaderKeepsInv(obj: seq<Record>, s: State, lastPage: bool)
    requires Inv(obj, s, lastPage) && s.pc.CloseLocked?
    ensures Inv(obj, CloseReader(s), lastPage)
  {
  }

  lemma GiveUpKeepsInv(obj: seq<Record>, s: State, lastPage: bool)
    requires Inv(obj, s, lastPage) && (s.loader.Started? || s.loader.Downloaded?)
    ensures Inv(obj, GiveUp(s), lastPage)
  {
  }

  lemma FinishDownloadKeepsInv(obj: seq<Record>, s: State, lastPage: bool)
    requires Inv(obj, s, lastPage) && s.loader.Started?
    ensures Inv(obj, FinishDownload(s), lastPage)
  {
  }

  lemma ReopenScratchKeepsInv(obj: seq<Record>, s: State, lastPage: bool)
    requires Inv(obj, s, lastPage) && s.loader.Downloaded?
    ensures Inv(obj, ReopenScratch(s), lastPage)
  {
  }

  lemma AcquireForSwapKeepsInv(obj: seq<Record>, s: State, lastPage: bool)
    requires Inv(obj, s, lastPage) && s.loader.Buffered?
    ensures Inv(obj, AcquireForSwap(s), lastPage)
  {
  }

  lemma CheckContextKeepsInv(obj: seq<Record>, s: State, lastPage: bool)
    requires Inv(obj, s, lastPage) && s.loader.Locked?
    ensures Inv(obj, CheckContext(s), lastPage)
  {
  }

  lemma InstallBufferedKeepsInv(obj: seq<Record>, s: State, lastPage: bool)
    requires Inv(obj, s, lastPage) && s.loader.Swapping?
    ensures Inv(obj, InstallBuffered(s), lastPage)
  {
  }

  lemma SkipRecordKeepsInv(obj: seq<Record>, s: State, lastPage: bool)
    requires Inv(obj, s, lastPage) && s.loader.Skipping?
    ensures Inv(obj, SkipRecord(obj, s, false), lastPage)
  {
  }

  lemma NextStepKeepsInv(obj: seq<Record>, s: State, l: Label, lastPage: bool)
    requires Inv(obj, s, lastPage) && IsNextLabel(l)
    ensures Inv(obj, Step(obj, s, l), lastPage)
  {
    match l
    case NextCall => if s.pc.Idle? { EnterNextKeepsInv(obj, s, lastPage); }
    case Check => if s.pc.NextCheck? { CheckLastPageKeepsInv(obj, s, lastPage); }
    case ReadLock => if s.pc.ReadWait? { AcquireForReadKeepsInv(obj, s, lastPage); }
    case Read(fault) => if s.pc.Reading? { ReadRecordKeepsInv(obj, s, lastPage, fault); }
    case ParentCancel =>
  }

  lemma CloseStepKeepsInv(obj: seq<Record>, s: State, l: Label, lastPage: bool)
    requires Inv(obj, s, lastPage) && IsCloseLabel(l)
    ensures Inv(obj, Step(obj, s, l), lastPage)
  {
    match l
    case CloseCall => if s.pc.Idle? { EnterCloseKeepsInv(obj, s, lastPage); }
    case CloseCancel => if s.pc.CloseMarked? { CancelContextKeepsInv(obj, s, lastPage); }
    case CloseLock => if s.pc.CloseWait? { AcquireForCloseKeepsInv(obj, s, lastPage); }
    case CloseBody => if s.pc.CloseLocked? { CloseReaderKeepsInv(obj, s, lastPage); }
  }

  lemma OpeningStepKeepsInv(obj: seq<Record>, s: State, l: Label, lastPage: bool)
    requires Inv(obj, s, lastPage) && IsOpeningLabel(l)
    ensures Inv(obj, Step(obj, s, l), lastPage)
  {
    match l
    case OpenLock => if s.pc.OpenWait? { AcquireForOpenKeepsInv(obj, s, lastPage); }
    case OpenPanic => if s.pc.OpenLocked? { PanicOpeningKeepsInv(obj, s, lastPage); }
    case OpenFail(cancel) => if s.pc.OpenLocked? { FailToGetKeepsInv(obj, s, lastPage, cancel); }
    case OpenGet => if s.pc.OpenLocked? { GetObjectKeepsInv(obj, s, lastPage); }
    case OpenInstall => if s.pc.OpenGot? { InstallBodyKeepsInv(obj, s, lastPage); }
    case OpenReadHeader(fault) => if s.pc.OpenHeader? { ReadHeaderKeepsInv(obj, s, lastPage, fault); }
    case OpenReturn => if s.pc.OpenFailed? { ReturnFailureKeepsInv(obj, s, lastPage); }
  }

  lemma LoaderStepKeepsInv(obj: seq<Record>, s: State, l: Label, lastPage: bool)
    requires Inv(obj, s, lastPage) && IsLoaderLabel(l) && l != Skip(true)
    ensures Inv(obj, Step(obj, s, l), lastPage)
  {
    match l
    case LoadFail => if s.loader.Started? || s.loader.Downloaded? { GiveUpKeepsInv(obj, s, lastPage); }
    case Download => if s.loader.Started? { FinishDownloadKeepsInv(obj, s, lastPage); }
    case Reopen => if s.loader.Downloaded? { ReopenScratchKeepsInv(obj, s, lastPage); }
    case LoadLock => if s.loader.Buffered? { AcquireForSwapKeepsInv(obj, s, lastPage); }
    case LoadCheck => if s.loader.Locked? { CheckContextKeepsInv(obj, s, lastPage); }
    case LoadInstall => if s.loader.Swapping? { InstallBufferedKeepsInv(obj, s, lastPage); }
    case Skip(fault) => if s.loader.Skipping? { SkipRecordKeepsInv(obj, s, lastPage); }
  }

  lemma StepKeepsInv(obj: seq<Record>, s: State, l: Label, lastPage: bool)
    requires Inv(obj, s, lastPage) && l != Skip(true)
    ensures Inv(obj, Step(obj, s, l), lastPage)
  {
    if IsNextLabel(l) { NextStepKeepsInv(obj, s, l, lastPage); }
    else if IsCloseLabel(l) { CloseStepKeepsInv(obj, s, l, lastPage); }
    else if IsOpeningLabel(l) { OpeningStepKeepsInv(obj, s, l, lastPage); }
    else { LoaderStepKeepsInv(obj, s, l, lastPage); }
  }

  lemma {:induction false} ExecKeepsInv(obj: seq<Record>, s: State, ls: seq<Label>, lastPage: bool)
    requires Inv(obj, s, lastPage) && CleanSkips(ls)
    ensures Inv(obj, Exec(obj, s, ls), lastPage)
    decreases |ls|
  {
    if ls != [] {
      StepKeepsInv(obj, s, ls[0], lastPage);
      ExecKeepsInv(obj, Step(obj, s, ls[0]), ls[1..], lastPage);
    }
  }

  // ---------------------------------------------------------------- what failed skips leave intact

  /** The invariants that do not speak of positions; they hold even when skipping reads fail. */
  predicate FrameInv(s: State) {
    ControlInv(s) && ClosedInv(s) && HandleInv(s)
  }

  lemma NextStepKeepsFrame(obj: seq<Record>, s: State, l: Label)
    requires FrameInv(s) && IsNextLabel(l)
    ensures FrameInv(Step(obj, s, l))
  {
  }

  lemma CloseStepKeepsFrame(obj: seq<Record>, s: State, l: Label)
    requires FrameInv(s) && IsCloseLabel(l)
    ensures FrameInv(Step(obj, s, l))
  {
  }

  lemma OpeningStepKeepsFrame(obj: seq<Record>, s: State, l: Label)
    requires FrameInv(s) && IsOpeningLabel(l)
    ensures FrameInv(Step(obj, s, l))
  {
  }

  lemma DownloadStepKeepsFrame(obj: seq<Record>, s: State, l: Label)
    requires FrameInv(s) && (l.LoadFail? || l.Download? || l.Reopen?)
    ensures FrameInv(Step(obj, s, l))
  {
  }

  lemma SwapStepKeepsFrame(obj: seq<Record>, s: State, l: Label)
    requires FrameInv(s) && (l.LoadLock? || l.LoadCheck? || l.LoadInstall?)
    ensures FrameInv(Step(obj, s, l))
  {
  }

  lemma SkipKeepsFrame(obj: seq<Record>, s: State, l: Label)
    requires FrameInv(s) && l.Skip?
    ensures FrameInv(Step(obj, s, l))
  {
  }

  lemma StepKeepsFrame(obj: seq<Record>, s: State, l: Label)
    requires FrameInv(s)
    ensures FrameInv(Step(obj, s, l))
  {
    if IsNextLabel(l) { NextStepKeepsFrame(obj, s, l); }
    else if IsCloseLabel(l) { CloseStepKeepsFrame(obj, s, l); }
    else if IsOpeningLabel(l) { OpeningStepKeepsFrame(obj, s, l); }
    else if l.Skip? { SkipKeepsFrame(obj, s, l); }
    else if l.LoadFail? || l.Download? || l.Reopen? { DownloadStepKeepsFrame(obj, s, l); }
    else { SwapStepKeepsFrame(obj, s, l); }
  }

  lemma {:induction false} ExecKeepsFrame(obj: seq<Record>, s: State, ls: seq<Label>)
    requires FrameInv(s)
    ensures FrameInv(Exec(obj, s, ls))
    decreases |ls|
  {
    if ls != [] {
      StepKeepsFrame(obj, s, ls[0]);
      ExecKeepsFrame(obj, Step(obj, s, ls[0]), ls[1..]);
    }
  }
}
