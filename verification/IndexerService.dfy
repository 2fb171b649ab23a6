/** The indexer service (server/indexer_service.go): a goroutine that follows block headers and a
    loop that indexes, sharing `latestBlock` and a one-slot signal channel. Each read or write of
    `latestBlock`, and each operation on the channel, is one step. */
module IndexerService {

  const FAILURE_THRESHOLD: int := 10

  /** Where the header goroutine stands. */
  datatype HeaderPc = Receiving | Comparing(h: int) | Updating(h: int) | Notifying

  /** Where the indexing loop stands. */
  datatype LoopPc =
    | Starting
    | AtTop
    | MarkingReady
    | Waiting
    | Checking(i: int)
    | FetchingBlock(i: int)
    | FetchingResults(i: int)
    | Indexing(i: int)

  datatype Event = FetchFailed(h: int) | Handed(h: int, ok: bool) | Skipped(h: int) | MarkedReady

  datatype State = State(
    header: HeaderPc,
    loop: LoopPc,
    latestBlock: int,
    signal: bool,                    // the slot of newBlockSignal holds a token
    earliest: int,
    start: int,                      // lastIndexedBlock when the loop is first entered
    lastIndexedBlock: int,
    ready: bool,
    tracker: map<int, int>,          // startupIndexBlockFailureTracker
    log: seq<Event>)                 // what has happened so far

  datatype Action =
    // header goroutine
    | Deliver(h: int) | Compare | Update | Notify
    // indexing loop
    | Start(dbLast: int) | ReadLatest | MarkReady | TakeSignal | Timeout
    | Check | FetchBlock(ok: bool) | FetchResults(ok: bool) | Index(ok: bool)

  predicate Init(s: State) {
    && s.header == Receiving && s.loop == Starting && !s.signal && !s.ready
    && s.tracker == map[] && s.log == []
  }

  predicate Enabled(s: State, a: Action) {
    match a
    case Deliver(_) => s.header.Receiving?
    case Compare => s.header.Comparing?
    case Update => s.header.Updating?
    case Notify => s.header.Notifying?
    case Start(_) => s.loop.Starting?
    case ReadLatest => s.loop.AtTop?
    case MarkReady => s.loop.MarkingReady?
    case TakeSignal => s.loop.Waiting? && s.signal
    case Timeout => s.loop.Waiting?
    case Check => s.loop.Checking?
    case FetchBlock(_) => s.loop.FetchingBlock?
    case FetchResults(_) => s.loop.FetchingResults?
    case Index(_) => s.loop.Indexing?
  }

  /** markFailedToIndexBlock: the new tracker, and whether the height should be skipped. */
  function MarkFailed(tracker: map<int, int>, h: int): (map<int, int>, bool) {
    if h in tracker then (tracker[h := tracker[h] + 1], tracker[h] + 1 > FAILURE_THRESHOLD)
    else (tracker[h := 1], false)
  }

  /** A failed fetch of height `i`. */
  function AfterFailure(s: State, i: int): State {
    if s.ready then s.(loop := AtTop, log := s.log + [FetchFailed(i)])
    else
      var (tracker, skip) := MarkFailed(s.tracker, i);
      if skip then
        s.(loop := AtTop, tracker := tracker, lastIndexedBlock := i, log := s.log + [FetchFailed(i)] + [Skipped(i)])
      else
        s.(loop := AtTop, tracker := tracker, log := s.log + [FetchFailed(i)])
  }

  function AfterIndex(s: State, i: int, ok: bool): State {
    s.(loop := Checking(i + 1), lastIndexedBlock := i, log := s.log + [Handed(i, ok)],
       tracker := if ok && !s.ready then s.tracker - {i} else s.tracker)
  }

  function AfterStart(s: State, dbLast: int): State {
    var last := if dbLast == -1 then s.latestBlock else if dbLast < s.earliest then s.earliest else dbLast;
    s.(loop := AtTop, start := last, lastIndexedBlock := last)
  }

  function After(s: State, a: Action): State
    requires Enabled(s, a)
  {
    match a
    case Deliver(h) => s.(header := Comparing(h))
    case Compare => s.(header := if s.header.h > s.latestBlock then Updating(s.header.h) else Receiving)
    case Update => s.(latestBlock := s.header.h, header := Notifying)
    case Notify => s.(signal := true, header := Receiving)
    case Start(dbLast) => AfterStart(s, dbLast)
    case ReadLatest =>
      s.(loop := if s.lastIndexedBlock >= s.latestBlock then (if s.ready then Waiting else MarkingReady)
                 else Checking(s.lastIndexedBlock + 1))
    case MarkReady => s.(ready := true, loop := Waiting, log := s.log + [MarkedReady])
    case TakeSignal => s.(signal := false, loop := AtTop)
    case Timeout => s.(loop := AtTop)
    case Check => s.(loop := if s.loop.i <= s.latestBlock then FetchingBlock(s.loop.i) else AtTop)
    case FetchBlock(ok) => if ok then s.(loop := FetchingResults(s.loop.i)) else AfterFailure(s, s.loop.i)
    case FetchResults(ok) => if ok then s.(loop := Indexing(s.loop.i)) else AfterFailure(s, s.loop.i)
    case Index(ok) => AfterIndex(s, s.loop.i, ok)
  }

  // ---- Runs ------------------------------------------------------------------------------------

  /** A run: any interleaving of enabled actions from an initial state. */
  ghost predicate IsRun(run: seq<State>, actions: seq<Action>) {
    && |run| == |actions| + 1 && Init(run[0])
    && forall k :: 0 <= k < |actions| ==> Enabled(run[k], actions[k]) && run[k + 1] == After(run[k], actions[k])
  }

  // ---- Counting events -----------------------------------------------------------------------------

  function Count(log: seq<Event>, e: Event): nat {
    if log == [] then 0 else Count(log[..|log| - 1], e) + if log[|log| - 1] == e then 1 else 0
  }

  lemma CountAppend(log: seq<Event>, x: Event, e: Event)
    ensures Count(log + [x], e) == Count(log, e) + if x == e then 1 else 0
  {
    assert (log + [x])[..|log|] == log;
  }

  function TimesHanded(log: seq<Event>, h: int): nat {
    Count(log, Handed(h, true)) + Count(log, Handed(h, false))
  }

  function TimesFailed(log: seq<Event>, h: int): nat {
    Count(log, FetchFailed(h))
  }

  function TimesSkipped(log: seq<Event>, h: int): nat {
    Count(log, Skipped(h))
  }

  /** The height was handed to the indexer once, or skipped once after exactly eleven failures. */
  predicate Settled(log: seq<Event>, h: int) {
    || (TimesHanded(log, h) == 1 && TimesSkipped(log, h) == 0)
    || (TimesHanded(log, h) == 0 && TimesSkipped(log, h) == 1 && TimesFailed(log, h) == 11)
  }

  predicate Untouched(log: seq<Event>, h: int) {
    TimesHanded(log, h) == 0 && TimesSkipped(log, h) == 0
  }

  predicate NoSkipAfterReady(log: seq<Event>) {
    forall i, j :: 0 <= i < j < |log| && log[i] == MarkedReady ==> !log[j].Skipped?
  }

  // ---- The invariant ---------------------------------------------------------------------------------

  /** The parts that concern waking up. */
  predicate WakeInv(s: State) {
    && (s.header.Updating? ==> s.header.h > s.latestBlock)
    && (s.loop.MarkingReady? || s.loop.Waiting? ==> s.latestBlock > s.lastIndexedBlock ==> s.signal || s.header.Notifying?)
  }

  /** The height at work is the one after the last. */
  predicate PcInv(s: State) {
    && (s.loop.Checking? || s.loop.FetchingBlock? || s.loop.FetchingResults? || s.loop.Indexing? ==> s.loop.i == s.lastIndexedBlock + 1)
    && (s.loop.MarkingReady? ==> !s.ready)
    && (!s.loop.Starting? ==> s.start <= s.lastIndexedBlock)
    && (s.loop.Starting? ==> s.log == [] && s.tracker == map[] && !s.ready)
  }

  /** What the log says of a height. */
  predicate HeightInv(s: State, h: int) {
    && (s.loop.Starting? || h <= s.start || h > s.lastIndexedBlock ==> Untouched(s.log, h))
    && (!s.loop.Starting? && s.start < h <= s.lastIndexedBlock ==> Settled(s.log, h))
    && (s.loop.Starting? || h <= s.start || h > s.lastIndexedBlock + 1 ==> TimesFailed(s.log, h) == 0)
    && (!s.ready && h == s.lastIndexedBlock + 1 ==> TimesFailed(s.log, h) <= FAILURE_THRESHOLD)
  }

  /** What the failure tracker says of a height until the service is ready. */
  predicate TrackerInv(s: State, h: int) {
    !s.ready ==>
      && (h in s.tracker <==> TimesFailed(s.log, h) >= 1 && Count(s.log, Handed(h, true)) == 0)
      && (h in s.tracker ==> s.tracker[h] == TimesFailed(s.log, h))
  }

  predicate ReadyInv(s: State) {
    NoSkipAfterReady(s.log) && (s.ready <==> MarkedReady in s.log)
  }

  ghost predicate Inv(s: State) {
    WakeInv(s) && PcInv(s) && ReadyInv(s) && forall h :: HeightInv(s, h) && TrackerInv(s, h)
  }

  lemma InitInv(s: State)
    requires Init(s)
    ensures Inv(s)
  {
  }

  lemma WakeStep(s: State, a: Action)
    requires Enabled(s, a) && WakeInv(s)
    ensures WakeInv(After(s, a))
  {
  }

  lemma PcStep(s: State, a: Action)
    requires Enabled(s, a) && PcInv(s)
    ensures PcInv(After(s, a))
  {
  }

  lemma ReadyAppend(log: seq<Event>, e: Event)
    requires NoSkipAfterReady(log) && (e.Skipped? ==> MarkedReady !in log)
    ensures NoSkipAfterReady(log + [e])
    ensures MarkedReady in log + [e] <==> MarkedReady in log || e == MarkedReady
  {
    var l := log + [e];
    assert forall i :: 0 <= i < |log| ==> l[i] == log[i];
  }

  lemma ReadyStep(s: State, a: Action)
    requires Enabled(s, a) && ReadyInv(s)
    ensures ReadyInv(After(s, a))
  {
    hide NoSkipAfterReady;
    if a.MarkReady? {
      ReadyAppend(s.log, MarkedReady);
    } else if a.Index? {
      ReadyAppend(s.log, Handed(s.loop.i, a.ok));
    } else if (a.FetchBlock? || a.FetchResults?) && !a.ok {
      ReadyAppend(s.log, FetchFailed(s.loop.i));
      if !s.ready { ReadyAppend(s.log + [FetchFailed(s.loop.i)], Skipped(s.loop.i)); }
    }
  }

  lemma FailureStep(s: State, i: int, h: int)
    requires PcInv(s) && HeightInv(s, h) && TrackerInv(s, h) && i == s.lastIndexedBlock + 1 && !s.loop.Starting?
    ensures HeightInv(AfterFailure(s, i), h) && TrackerInv(AfterFailure(s, i), h)
  {
    hide Count;
    CountAppend(s.log, FetchFailed(i), FetchFailed(h));
    CountAppend(s.log, FetchFailed(i), Skipped(h));
    CountAppend(s.log, FetchFailed(i), Handed(h, true));
    CountAppend(s.log, FetchFailed(i), Handed(h, false));
    var l := s.log + [FetchFailed(i)];
    CountAppend(l, Skipped(i), FetchFailed(h));
    CountAppend(l, Skipped(i), Skipped(h));
    CountAppend(l, Skipped(i), Handed(h, true));
    CountAppend(l, Skipped(i), Handed(h, false));
  }

  lemma IndexStep(s: State, i: int, ok: bool, h: int)
    requires PcInv(s) && HeightInv(s, h) && TrackerInv(s, h) && i == s.lastIndexedBlock + 1 && !s.loop.Starting?
    requires HeightInv(s, h + 1)
    ensures HeightInv(AfterIndex(s, i, ok), h) && TrackerInv(AfterIndex(s, i, ok), h)
  {
    hide Count;
    CountAppend(s.log, Handed(i, ok), FetchFailed(h));
    CountAppend(s.log, Handed(i, ok), Skipped(h));
    CountAppend(s.log, Handed(i, ok), Handed(h, true));
    CountAppend(s.log, Handed(i, ok), Handed(h, false));
  }

  lemma HeightStep(s: State, a: Action, h: int)
    requires Enabled(s, a) && Inv(s)
    ensures HeightInv(After(s, a), h) && TrackerInv(After(s, a), h)
  {
    hide Count, WakeInv, ReadyInv;
    assert HeightInv(s, h) && TrackerInv(s, h) && HeightInv(s, h + 1);
    if a.Index? {
      IndexStep(s, s.loop.i, a.ok, h);
    } else if (a.FetchBlock? || a.FetchResults?) && !a.ok {
      FailureStep(s, s.loop.i, h);
    } else if a.MarkReady? {
      CountAppend(s.log, MarkedReady, FetchFailed(h));
      CountAppend(s.log, MarkedReady, Skipped(h));
      CountAppend(s.log, MarkedReady, Handed(h, true));
      CountAppend(s.log, MarkedReady, Handed(h, false));
    }
  }

  lemma StepInv(s: State, a: Action)
    requires Enabled(s, a) && Inv(s)
    ensures Inv(After(s, a))
  {
    hide HeightInv, TrackerInv, After, WakeInv, PcInv, ReadyInv;
    WakeStep(s, a);
    PcStep(s, a);
    ReadyStep(s, a);
    forall h ensures HeightInv(After(s, a), h) && TrackerInv(After(s, a), h) { HeightStep(s, a, h); }
  }

  lemma {:induction false} RunInv(run: seq<State>, actions: seq<Action>, k: nat)
    requires IsRun(run, actions) && k < |run|
    ensures Inv(run[k])
  {
    hide Inv, Init, After;
    if k == 0 {
      InitInv(run[0]);
    } else {
      RunInv(run, actions, k - 1);
      StepInv(run[k - 1], actions[k - 1]);
    }
  }

  // ---- Theorems over runs --------------------------------------------------------------------------------

  /** The header of block `h` was among those delivered before step `k`. */
  ghost predicate Delivered(actions: seq<Action>, k: nat, h: int) {
    exists j :: 0 <= j < k && j < |actions| && actions[j] == Deliver(h)
  }

  /** The latest block is the initial one or was delivered, and every delivered one is not beyond it or in hand. */
  ghost predicate HeaderInv(s: State, first: int, actions: seq<Action>, k: nat) {
    && first <= s.latestBlock && (s.latestBlock == first || Delivered(actions, k, s.latestBlock))
    && (s.header.Comparing? || s.header.Updating? ==> Delivered(actions, k, s.header.h))
    && (forall h :: Delivered(actions, k, h) ==> h <= s.latestBlock || ((s.header.Comparing? || s.header.Updating?) && s.header.h == h))
  }

  lemma DeliveredStep(actions: seq<Action>, k: nat, h: int)
    requires k < |actions|
    ensures Delivered(actions, k + 1, h) <==> Delivered(actions, k, h) || actions[k] == Deliver(h)
  {
    if Delivered(actions, k, h) {
      var j :| 0 <= j < k && j < |actions| && actions[j] == Deliver(h);
      assert 0 <= j < k + 1;
    }
  }

  lemma HeaderStep(s: State, first: int, actions: seq<Action>, k: nat)
    requires k < |actions| && Enabled(s, actions[k]) && WakeInv(s) && HeaderInv(s, first, actions, k)
    ensures HeaderInv(After(s, actions[k]), first, actions, k + 1)
  {
    hide Delivered;
    var s', next := After(s, actions[k]), k + 1;
    DeliveredStep(actions, k, s'.latestBlock);
    if s'.header.Comparing? || s'.header.Updating? { DeliveredStep(actions, k, s'.header.h); }
    forall h | Delivered(actions, next, h)
      ensures h <= s'.latestBlock || ((s'.header.Comparing? || s'.header.Updating?) && s'.header.h == h)
    {
      DeliveredStep(actions, k, h);
    }
  }

  lemma {:induction false} RunHeader(run: seq<State>, actions: seq<Action>, k: nat)
    requires IsRun(run, actions) && k < |run|
    ensures HeaderInv(run[k], run[0].latestBlock, actions, k)
  {
    if k > 0 {
      hide Init, After, HeaderInv, PcInv, ReadyInv, HeightInv, TrackerInv, WakeInv;
      RunHeader(run, actions, k - 1);
      RunInv(run, actions, k - 1);
      HeaderStep(run[k - 1], run[0].latestBlock, actions, k - 1);
    }
  }

  /** Whenever the header goroutine has dealt with what it received, the latest block is the greatest of the
      initial one and all that were delivered. */
  lemma LatestIsDelivered(run: seq<State>, actions: seq<Action>, k: nat)
    requires IsRun(run, actions) && k < |run| && (run[k].header.Receiving? || run[k].header.Notifying?)
    ensures run[k].latestBlock >= run[0].latestBlock && forall h :: Delivered(actions, k, h) ==> h <= run[k].latestBlock
    ensures run[k].latestBlock == run[0].latestBlock || Delivered(actions, k, run[k].latestBlock)
  {
    RunHeader(run, actions, k);
  }

  /** No lost wake-up: whenever the loop is parked although a newer block is known, a token is in the
      slot or the header goroutine is about to put one there. In particular a token is there when a header
      beyond the last indexed block was delivered and the header goroutine is waiting for the next. */
  lemma NoLostWakeUp(run: seq<State>, actions: seq<Action>, k: nat)
    requires IsRun(run, actions) && k < |run| && run[k].loop.Waiting?
    ensures run[k].latestBlock > run[k].lastIndexedBlock ==> run[k].signal || run[k].header.Notifying?
    ensures run[k].header.Receiving? && (exists h :: Delivered(actions, k, h) && h > run[k].lastIndexedBlock) ==> run[k].signal
  {
    hide Delivered;
    RunInv(run, actions, k);
    if run[k].header.Receiving? { LatestIsDelivered(run, actions, k); }
  }

  /** The slot holds a token exactly when one was sent since the last was taken. */
  ghost predicate SentSince(actions: seq<Action>, k: nat) {
    exists j :: 0 <= j < k && j < |actions| && actions[j] == Notify && forall i :: j < i < k && i < |actions| ==> actions[i] != TakeSignal
  }

  lemma SentStep(actions: seq<Action>, k: nat)
    requires k < |actions|
    ensures SentSince(actions, k + 1) <==> actions[k] == Notify || (SentSince(actions, k) && actions[k] != TakeSignal)
  {
    if SentSince(actions, k) && actions[k] != TakeSignal {
      var j :| 0 <= j < k && j < |actions| && actions[j] == Notify && forall i :: j < i < k && i < |actions| ==> actions[i] != TakeSignal;
      assert forall i :: j < i < k + 1 && i < |actions| ==> actions[i] != TakeSignal;
    }
  }

  lemma {:induction false} SlotExactly(run: seq<State>, actions: seq<Action>, k: nat)
    requires IsRun(run, actions) && k < |run|
    ensures run[k].signal <==> SentSince(actions, k)
  {
    if k > 0 {
      hide SentSince;
      SlotExactly(run, actions, k - 1);
      SentStep(actions, k - 1);
    }
  }

  /** Every height between the start and the last indexed one was handed to the indexer exactly once,
      or skipped once after exactly eleven failed fetches; no other height was handed over or
      skipped; and nothing is skipped once the service is ready. */
  lemma EveryHeightSettled(run: seq<State>, actions: seq<Action>, k: nat, h: int)
    requires IsRun(run, actions) && k < |run| && !run[k].loop.Starting?
    ensures if run[k].start < h <= run[k].lastIndexedBlock then Settled(run[k].log, h) else Untouched(run[k].log, h)
    ensures NoSkipAfterReady(run[k].log) && (run[k].ready <==> MarkedReady in run[k].log)
  {
    RunInv(run, actions, k);
    assert HeightInv(run[k], h);
  }

  /** When the service turns ready, the heights it reports as skipped are those that failed at least
      once and were not indexed successfully since. */
  lemma ReportedAsSkipped(run: seq<State>, actions: seq<Action>, k: nat, h: int)
    requires IsRun(run, actions) && k < |run| && run[k].loop.MarkingReady?
    ensures h in run[k].tracker <==> TimesFailed(run[k].log, h) >= 1 && Count(run[k].log, Handed(h, true)) == 0
  {
    RunInv(run, actions, k);
    assert TrackerInv(run[k], h);
  }

  /** `t` may come after `s` in a run. */
  predicate Later(s: State, t: State) {
    && (!s.loop.Starting? ==> !t.loop.Starting? && s.start == t.start && s.lastIndexedBlock <= t.lastIndexedBlock)
    && s.latestBlock <= t.latestBlock && s.log <= t.log && (s.ready ==> t.ready)
  }

  lemma LaterSelf(s: State)
    ensures Later(s, s)
  {
  }

  lemma LaterTransitive(s: State, t: State, u: State)
    requires Later(s, t) && Later(t, u)
    ensures Later(s, u)
  {
  }

  lemma StepLater(s: State, a: Action)
    requires Enabled(s, a) && Inv(s)
    ensures Later(s, After(s, a))
  {
    hide HeightInv, TrackerInv, ReadyInv;
  }

  /** Once the loop runs, the last indexed block never decreases, nor does the latest known one;
      the log only grows, and a ready service stays ready. */
  lemma {:induction false} NeverDecreases(run: seq<State>, actions: seq<Action>, j: nat, k: nat)
    requires IsRun(run, actions) && j <= k < |run|
    ensures Later(run[j], run[k])
    decreases k
  {
    hide After, Inv, Init, Later;
    if j == k {
      LaterSelf(run[j]);
    } else {
      NeverDecreases(run, actions, j, k - 1);
      RunInv(run, actions, k - 1);
      StepLater(run[k - 1], actions[k - 1]);
      LaterTransitive(run[j], run[k - 1], run[k]);
    }
  }

  /** Where a run starts: at the latest block when the index is empty, otherwise at its last block or the
      earliest one that is left, whichever is later. That block itself is never handed over or skipped:
      on an empty index the latest one, and the earliest one when the index lags behind it. Every later
      height up to the last indexed one is settled. */
  lemma StartsAt(run: seq<State>, actions: seq<Action>, j: nat, k: nat, h: int)
    requires IsRun(run, actions) && j < |actions| && j < k < |run| && actions[j].Start?
    ensures !run[k].loop.Starting? && run[k].lastIndexedBlock >= run[k].start
    ensures run[k].start ==
      if actions[j].dbLast == -1 then run[j].latestBlock
      else if actions[j].dbLast < run[j].earliest then run[j].earliest else actions[j].dbLast
    ensures Untouched(run[k].log, run[k].start)
    ensures run[k].start < h <= run[k].lastIndexedBlock ==> Settled(run[k].log, h)
  {
    assert Enabled(run[j], actions[j]) && run[j + 1] == After(run[j], actions[j]);
    assert !run[j + 1].loop.Starting?;
    NeverDecreases(run, actions, j + 1, k);
    EveryHeightSettled(run, actions, k, h);
    EveryHeightSettled(run, actions, k, run[k].start);
  }

  // ---- Catching up ----------------------------------------------------------------------------------------

  /** A step of the indexing loop whose fetches and hand-overs succeed. */
  predicate Succeeds(a: Action) {
    || a.ReadLatest? || a.MarkReady? || a.TakeSignal? || a.Timeout? || a.Check?
    || a == FetchBlock(true) || a == FetchResults(true) || a == Index(true)
  }

  ghost predicate Continues(run: seq<State>, actions: seq<Action>, s: State) {
    && |run| == |actions| + 1 && run[0] == s
    && forall k :: 0 <= k < |actions| ==> Succeeds(actions[k]) && Enabled(run[k], actions[k]) && run[k + 1] == After(run[k], actions[k])
  }

  /** How many heights are left. */
  function Lag(s: State): nat { if s.lastIndexedBlock < s.latestBlock then s.latestBlock - s.lastIndexedBlock else 0 }

  /** How far the loop is from handing over the next height, or from parking when there is none. */
  function Stage(s: State): nat {
    match s.loop
    case Starting => 0
    case Waiting => if Lag(s) > 0 then 6 else 0
    case MarkingReady => if Lag(s) > 0 then 7 else 1
    case AtTop => if Lag(s) > 0 then 5 else 2
    case Checking(_) => if Lag(s) > 0 then 4 else 3
    case FetchingBlock(_) => if Lag(s) > 0 then 3 else 6
    case FetchingResults(_) => if Lag(s) > 0 then 2 else 5
    case Indexing(_) => if Lag(s) > 0 then 1 else 4
  }

  function NextSuccess(s: State): Action
    requires !s.loop.Starting?
  {
    match s.loop
    case AtTop => ReadLatest
    case MarkingReady => MarkReady
    case Waiting => if s.signal then TakeSignal else Timeout
    case Checking(_) => Check
    case FetchingBlock(_) => FetchBlock(true)
    case FetchingResults(_) => FetchResults(true)
    case Indexing(_) => Index(true)
  }

  /** At rest: parked, ready, and with nothing left to index. */
  predicate CaughtUp(s: State) { s.loop.Waiting? && s.ready && Lag(s) == 0 }

  predicate Resting(s: State) {
    && WakeInv(s) && PcInv(s) && FrontInv(s) && !s.loop.Starting?
    && (s.loop.Waiting? ==> s.ready)
  }

  lemma SuccessStep(s: State)
    requires Resting(s) && !CaughtUp(s)
    ensures Succeeds(NextSuccess(s)) && Enabled(s, NextSuccess(s))
    ensures s.header.Receiving? ==> !NextSuccess(s).Timeout?
    ensures var s' := After(s, NextSuccess(s));
      && s'.latestBlock == s.latestBlock && s'.header == s.header && (Lag(s') < Lag(s) || (Lag(s') == Lag(s) && Stage(s') < Stage(s)))
      && s.lastIndexedBlock <= s'.lastIndexedBlock && (s'.lastIndexedBlock == s.lastIndexedBlock || s'.lastIndexedBlock <= s.latestBlock)
  {
  }

  // ---- What is reported as skipped ------------------------------------------------------------------------

  /** A height that failed and is not settled yet is one that is known. */
  predicate FrontInv(s: State) {
    && (s.loop.FetchingBlock? || s.loop.FetchingResults? || s.loop.Indexing? ==> s.loop.i <= s.latestBlock)
    && (TimesFailed(s.log, s.lastIndexedBlock + 1) > 0 ==> s.lastIndexedBlock + 1 <= s.latestBlock)
    && (s.loop.MarkingReady? ==> TimesFailed(s.log, s.lastIndexedBlock + 1) == 0)
  }

  lemma FrontStep(s: State, a: Action)
    requires Enabled(s, a) && Inv(s) && FrontInv(s)
    ensures FrontInv(After(s, a))
  {
    hide Count, ReadyInv;
    var next := s.lastIndexedBlock + 1;
    assert HeightInv(s, next) && HeightInv(s, next + 1);
    if a.Index? {
      CountAppend(s.log, Handed(next, a.ok), FetchFailed(next + 1));
    } else if (a.FetchBlock? || a.FetchResults?) && !a.ok {
      CountAppend(s.log, FetchFailed(next), FetchFailed(next + 1));
      CountAppend(s.log + [FetchFailed(next)], Skipped(next), FetchFailed(next + 1));
    } else if a.MarkReady? {
      CountAppend(s.log, MarkedReady, FetchFailed(next));
    } else if a.Start? {
      assert HeightInv(s, AfterStart(s, a.dbLast).lastIndexedBlock + 1);
    }
  }

  lemma {:induction false} RunFront(run: seq<State>, actions: seq<Action>, k: nat)
    requires IsRun(run, actions) && k < |run|
    ensures FrontInv(run[k])
  {
    if k > 0 {
      hide Inv, Init, After, FrontInv;
      RunFront(run, actions, k - 1);
      RunInv(run, actions, k - 1);
      FrontStep(run[k - 1], actions[k - 1]);
    }
  }

  lemma {:induction false} RunWaiting(run: seq<State>, actions: seq<Action>, k: nat)
    requires IsRun(run, actions) && k < |run|
    ensures run[k].loop.Waiting? ==> run[k].ready
  {
    if k > 0 { RunWaiting(run, actions, k - 1); }
  }

  lemma {:induction false} CatchUpFrom(s: State) returns (run: seq<State>, actions: seq<Action>)
    requires Resting(s) && Inv(s)
    ensures Continues(run, actions, s) && CaughtUp(run[|actions|])
    ensures run[|actions|].latestBlock == s.latestBlock && run[|actions|].lastIndexedBlock == s.lastIndexedBlock + Lag(s)
    ensures s.header.Receiving? ==> Timeout !in actions
    decreases Lag(s), Stage(s)
  {
    run, actions := [s], [];
    if !CaughtUp(s) {
      SuccessStep(s);
      var a := NextSuccess(s);
      StepInv(s, a);
      FrontStep(s, a);
      StillResting(s, a);
      hide After, Inv, Resting, CaughtUp, NextSuccess, Enabled, Succeeds, Continues;
      var rest, more := CatchUpFrom(After(s, a));
      run, actions := [s] + rest, [a] + more;
      StepBefore(s, a, rest, more);
    }
  }

  lemma StepBefore(s: State, a: Action, rest: seq<State>, more: seq<Action>)
    requires Succeeds(a) && Enabled(s, a) && Continues(rest, more, After(s, a))
    ensures Continues([s] + rest, [a] + more, s) && ([s] + rest)[|more| + 1] == rest[|more|]
  {
    hide Succeeds, Enabled, After;
    var run, actions := [s] + rest, [a] + more;
    forall k | 0 <= k < |actions| ensures Succeeds(actions[k]) && Enabled(run[k], actions[k]) && run[k + 1] == After(run[k], actions[k]) {
      if k > 0 { assert actions[k] == more[k - 1] && run[k] == rest[k - 1] && run[k + 1] == rest[k]; }
    }
  }

  lemma StillResting(s: State, a: Action)
    requires Resting(s) && Inv(s) && Succeeds(a) && Enabled(s, a) && FrontInv(After(s, a)) && Inv(After(s, a))
    ensures Resting(After(s, a))
  {
    hide FrontInv, WakeInv, PcInv, ReadyInv, HeightInv, TrackerInv;
  }

  /** From every state of every run, the loop, as long as its fetches and hand-overs succeed, comes to park,
      ready and with the latest known block indexed; and without a timeout, if the header goroutine has dealt
      with what it received. */
  lemma CatchesUp(run: seq<State>, actions: seq<Action>, k: nat) returns (more: seq<State>, steps: seq<Action>)
    requires IsRun(run, actions) && k < |run| && !run[k].loop.Starting?
    ensures Continues(more, steps, run[k]) && (run[k].header.Receiving? ==> Timeout !in steps)
    ensures var s := more[|steps|];
      && s.loop.Waiting? && s.ready && s.latestBlock == run[k].latestBlock
      && s.lastIndexedBlock == if run[k].lastIndexedBlock < s.latestBlock then s.latestBlock else run[k].lastIndexedBlock
  {
    hide Init, After, IsRun, Continues;
    RunInv(run, actions, k);
    RunFront(run, actions, k);
    RunWaiting(run, actions, k);
    assert Resting(run[k]);
    more, steps := CatchUpFrom(run[k]);
  }

  /** The height failed and was then refused by the indexer. */
  predicate Refused(log: seq<Event>, h: int) {
    TimesFailed(log, h) >= 1 && Count(log, Handed(h, false)) >= 1
  }

  lemma ReportedHeight(run: seq<State>, actions: seq<Action>, k: nat, h: int)
    requires IsRun(run, actions) && k < |run| && run[k].loop.MarkingReady?
    ensures h in run[k].tracker <==> TimesSkipped(run[k].log, h) == 1 || Refused(run[k].log, h)
    ensures !(TimesSkipped(run[k].log, h) == 1 && Refused(run[k].log, h))
  {
    hide Count, Init, After, IsRun;
    RunInv(run, actions, k);
    RunFront(run, actions, k);
    assert HeightInv(run[k], h) && TrackerInv(run[k], h);
  }

  /** The heights reported as skipped are those skipped if and only if none failed and was then refused. */
  lemma ReportedExactly(run: seq<State>, actions: seq<Action>, k: nat)
    requires IsRun(run, actions) && k < |run| && run[k].loop.MarkingReady?
    ensures (forall h :: h in run[k].tracker <==> TimesSkipped(run[k].log, h) == 1) <==> (forall h :: !Refused(run[k].log, h))
  {
    hide IsRun, TimesSkipped, Refused;
    forall h
      ensures h in run[k].tracker <==> TimesSkipped(run[k].log, h) == 1 || Refused(run[k].log, h)
      ensures !(TimesSkipped(run[k].log, h) == 1 && Refused(run[k].log, h))
    {
      ReportedHeight(run, actions, k, h);
    }
  }

  // ---- A run that reports a height it did not skip --------------------------------------------------------

  ghost predicate Reachable(s: State) {
    exists run, actions :: IsRun(run, actions) && run[|actions|] == s
  }

  lemma ReachNext(s: State, a: Action, next: State)
    requires Reachable(s) && Enabled(s, a) && After(s, a) == next
    ensures Reachable(next)
  {
    hide Init, Enabled, After;
    var run, actions :| IsRun(run, actions) && run[|actions|] == s;
    var run', actions' := run + [next], actions + [a];
    assert IsRun(run', actions') && run'[|actions'|] == next;
  }

  /** Height 5 is the latest, and 4 the last in the index. */
  function AtFive(loop: LoopPc, last: int, tracker: map<int, int>, log: seq<Event>): State {
    State(Receiving, loop, 5, false, 1, 4, last, false, tracker, log)
  }

  lemma ReachStart()
    ensures Reachable(AtFive(Starting, 4, map[], []))
  {
    var actions: seq<Action> := [];
    var s0 := AtFive(Starting, 4, map[], []);
    assert IsRun([s0], actions) && [s0][|actions|] == s0;
  }

  lemma ReachFailed()
    ensures Reachable(AtFive(AtTop, 4, map[5 := 1], [FetchFailed(5)]))
  {
    hide Reachable;
    ReachStart();
    ReachNext(AtFive(Starting, 4, map[], []), Start(4), AtFive(AtTop, 4, map[], []));
    ReachNext(AtFive(AtTop, 4, map[], []), ReadLatest, AtFive(Checking(5), 4, map[], []));
    ReachNext(AtFive(Checking(5), 4, map[], []), Check, AtFive(FetchingBlock(5), 4, map[], []));
    ReachNext(AtFive(FetchingBlock(5), 4, map[], []), FetchBlock(false), AtFive(AtTop, 4, map[5 := 1], [FetchFailed(5)]));
  }

  lemma ReachRefused()
    ensures Reachable(AtFive(Checking(6), 5, map[5 := 1], [FetchFailed(5), Handed(5, false)]))
  {
    hide Reachable;
    ReachFailed();
    var t, l := map[5 := 1], [FetchFailed(5)];
    ReachNext(AtFive(AtTop, 4, t, l), ReadLatest, AtFive(Checking(5), 4, t, l));
    ReachNext(AtFive(Checking(5), 4, t, l), Check, AtFive(FetchingBlock(5), 4, t, l));
    ReachNext(AtFive(FetchingBlock(5), 4, t, l), FetchBlock(true), AtFive(FetchingResults(5), 4, t, l));
    ReachNext(AtFive(FetchingResults(5), 4, t, l), FetchResults(true), AtFive(Indexing(5), 4, t, l));
    assert l + [Handed(5, false)] == [FetchFailed(5), Handed(5, false)];
    ReachNext(AtFive(Indexing(5), 4, t, l), Index(false), AtFive(Checking(6), 5, t, [FetchFailed(5), Handed(5, false)]));
  }

  /** A run that reports height 5 as skipped although it was handed over, and refused. */
  lemma RefusedIsReported()
    ensures exists s :: Reachable(s) && s.loop.MarkingReady? && 5 in s.tracker && TimesSkipped(s.log, 5) == 0
  {
    hide Reachable;
    ReachRefused();
    var t, l := map[5 := 1], [FetchFailed(5), Handed(5, false)];
    ReachNext(AtFive(Checking(6), 5, t, l), Check, AtFive(AtTop, 5, t, l));
    ReachNext(AtFive(AtTop, 5, t, l), ReadLatest, AtFive(MarkingReady, 5, t, l));
    CountAppend([], FetchFailed(5), Skipped(5));
    CountAppend([FetchFailed(5)], Handed(5, false), Skipped(5));
    assert [] + [FetchFailed(5)] == [FetchFailed(5)] && l == [FetchFailed(5)] + [Handed(5, false)];
    assert TimesSkipped(AtFive(MarkingReady, 5, t, l).log, 5) == 0;
  }
}
