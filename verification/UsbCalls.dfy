/** What the threads of UsbWallet have done, read off the moves of a run: the steps of every call, the paths
    and accounts they carry, and which account is pinned with which path. */
module UsbCalls {
  import opened Options
  import opened GoInt
  import opened UsbWallet

  // ---- The steps of a call ---------------------------------------------------------------------------

  /** The actions of thread `t` among the moves from `j` up to `k`. */
  ghost function Trace(moves: seq<Move>, j: nat, k: nat, t: int): seq<Action>
    requires k <= |moves|
  {
    if k <= j then [] else Trace(moves, j, k - 1, t) + if moves[k - 1].thread == t then [moves[k - 1].action] else []
  }

  /** What was asked for is what is carried out: the same account to sign with, the same path but for the top
      bits of its first three values. */
  predicate CarriesOut(asked: Op, op: Op) {
    match op
    case Beat => asked.Beat?
    case Derive(path, pin) => asked.Derive? && asked.pin == pin && SameAccount(asked.path, path) && IsHardened(path)
                              && forall i :: 3 <= i < |path| ==> asked.path[i] == path[i]
    case Sign(addr, _) => asked.Sign? && asked.addr == addr
  }

  /** Up to the exchange with the device. A signing raises the pending counter first. */
  function ToExchange(w: int, asked: Op): seq<Action> {
    [StartRead(w, asked), LookUp, TakeToken] + if asked.Sign? then [LockHub, Raise] else []
  }

  /** Through the exchange, until the token is back. */
  function Through(w: int, asked: Op, out: Outcome): seq<Action> {
    ToExchange(w, asked) + [Finish(out)] + (if asked.Sign? then [LockHub, Lower] else []) + [ReturnToken]
  }

  /** The steps of a call that takes the state lock for reading. */
  function ReadCall(w: int, asked: Op, out: Outcome): seq<Action> {
    if out.Skipped? then [StartRead(w, asked), LookUp, RUnlock] else Through(w, asked, out) + [RUnlock]
  }

  /** A Close has begun: on its own, or after a failed health check. */
  predicate CloseBegun(w: int, tr: seq<Action>) {
    tr == [StartClose(w)] || tr == ReadCall(w, Beat, Failed)
  }

  /** An account was derived that is to be pinned. */
  predicate PinBegun(w: int, addr: Address, path: Path, tr: seq<Action>) {
    && tr != [] && tr[0].StartRead? && tr[0].op.Derive? && CarriesOut(tr[0].op, Derive(path, true))
    && tr == ReadCall(w, tr[0].op, Done(addr))
  }

  predicate Asks(tr: seq<Action>, w: int, op: Op) {
    tr != [] && tr[0].StartRead? && tr[0].w == w && CarriesOut(tr[0].op, op)
  }

  /** What a thread that stands at `pc` has done since it began its call. */
  predicate SoFar(pc: Pc, tr: seq<Action>) {
    match pc
    case Idle => false
    case Opening(w) => tr == [StartOpen(w)]
    case Initializing(w) => |tr| == 2 && tr[0] == StartOpen(w) && tr[1].OpenDevice?
    case Reading(w, op) => Asks(tr, w, op) && tr == [tr[0]]
    case Waiting(w, op) => Asks(tr, w, op) && tr == [tr[0], LookUp]
    case ToRaise(w, op) => Asks(tr, w, op) && tr == [tr[0], LookUp, TakeToken] && op.Sign?
    case Raising(w, op) => Asks(tr, w, op) && tr == [tr[0], LookUp, TakeToken, LockHub] && op.Sign?
    case Exchanging(w, op) => Asks(tr, w, op) && tr == ToExchange(w, tr[0].op)
    case ToLower(w, op, out) => Asks(tr, w, op) && tr == ToExchange(w, tr[0].op) + [Finish(out)] && op.Sign? && !out.Skipped?
    case Lowering(w, op, out) => Asks(tr, w, op) && tr == ToExchange(w, tr[0].op) + [Finish(out)] + [LockHub] && op.Sign? && !out.Skipped?
    case Returning(w, op, out) =>
      && Asks(tr, w, op) && !out.Skipped?
      && tr == ToExchange(w, tr[0].op) + [Finish(out)] + if op.Sign? then [LockHub, Lower] else []
    case Unlocking(w, op, out) =>
      Asks(tr, w, op) && tr == if out.Skipped? then [tr[0], LookUp] else Through(w, tr[0].op, out)
    case ToClose(w) => CloseBegun(w, tr)
    case Closing(w) => tr != [] && CloseBegun(w, tr[..|tr| - 1]) && tr[|tr| - 1] == LockClose
    case ClosingDriver(w) => |tr| >= 2 && CloseBegun(w, tr[..|tr| - 2]) && tr[|tr| - 2..] == [LockClose, CloseDevice]
    case ToPin(w, addr, path) => PinBegun(w, addr, path, tr)
    case Pinning(w, addr, path) => tr != [] && PinBegun(w, addr, path, tr[..|tr| - 1]) && tr[|tr| - 1] == LockPin
    case Guarding => tr == [StartScan]
    case Enumerating => tr == [StartScan] || tr == [StartScan, ScanCheck]
  }

  /** What came of the exchange, if there was one. */
  function OutcomeOf(tr: seq<Action>, asked: Op): Outcome {
    var i := if asked.Sign? then 5 else 3;
    if i < |tr| && tr[i].Finish? then tr[i].out else Skipped
  }

  predicate CloseDone(begun: seq<Action>, tr: seq<Action>) {
    tr == begun + [LockClose, CloseDevice] || tr == begun + [LockClose, CloseDevice, CloseDriver]
  }

  /** A call that has returned is one of these. A failed health check closes the wallet, and an account derived
      to be pinned is pinned. */
  predicate IsCall(tr: seq<Action>) {
    && tr != []
    && match tr[0]
    case StartOpen(_) => |tr| >= 2 && tr[1].OpenDevice? && (|tr| == 2 || (|tr| == 3 && tr[2].InitDone?))
    case StartRead(w, asked) =>
      var out := OutcomeOf(tr, asked);
      if asked.Beat? && out.Failed? then CloseDone(ReadCall(w, asked, out), tr)
      else if asked.Derive? && asked.pin && out.Done? then tr == ReadCall(w, asked, out) + [LockPin, Pin]
      else tr == ReadCall(w, asked, out)
    case StartClose(w) => CloseDone([StartClose(w)], tr)
    case StartScan => tr == [StartScan, ScanDone] || tr == [StartScan, ScanCheck] || tr == [StartScan, ScanCheck, ScanDone]
    case _ => false
  }

  /** Where a thread stands and what it has done: nothing yet, a call that has returned, or part of one. */
  predicate Accounted(pc: Pc, tr: seq<Action>) {
    if pc.Idle? then tr == [] || IsCall(tr) else SoFar(pc, tr)
  }

  // ---- Every step goes on with its call -----------------------------------------------------------------

  /** The trace once action `a` is done: a new call begins afresh. */
  function Onward(pc: Pc, tr: seq<Action>, a: Action): seq<Action> { if pc.Idle? then [a] else tr + [a] }

  lemma OpenSteps(a: Action, pc: Pc, v: Wallet, hub: Hub, tr: seq<Action>)
    requires Ready(a, pc, v, hub) && (a.StartOpen? || a.OpenDevice? || a.InitDone?) && Accounted(pc, tr)
    ensures Accounted(PcAfter(a, pc, v, hub), Onward(pc, tr, a))
  {
    hide CarriesOut, ReadCall;
  }

  lemma ReadBegins(a: Action, pc: Pc, v: Wallet, hub: Hub, tr: seq<Action>)
    requires Ready(a, pc, v, hub) && a.StartRead? && !Short(a.op) && Accounted(pc, tr)
    ensures Accounted(PcAfter(a, pc, v, hub), Onward(pc, tr, a))
  {
    if a.op.Derive? { HardenHardens(a.op.path); }
    hide Harden, IsHardened, SameAccount;
  }

  lemma LookUpStep(pc: Pc, v: Wallet, hub: Hub, tr: seq<Action>)
    requires pc.Reading? && SoFar(pc, tr)
    ensures SoFar(PcAfter(LookUp, pc, v, hub), tr + [LookUp])
  {
    hide IsHardened, SameAccount, ReadCall;
    assert tr + [LookUp] == [tr[0], LookUp];
  }

  lemma TakeTokenStep(pc: Pc, v: Wallet, hub: Hub, tr: seq<Action>)
    requires pc.Waiting? && v.token && SoFar(pc, tr)
    ensures SoFar(PcAfter(TakeToken, pc, v, hub), tr + [TakeToken])
  {
    hide IsHardened, SameAccount, ReadCall;
    assert tr + [TakeToken] == [tr[0], LookUp, TakeToken];
    assert [tr[0], LookUp, TakeToken] + [] == [tr[0], LookUp, TakeToken];
  }

  lemma HubSteps(a: Action, pc: Pc, v: Wallet, hub: Hub, tr: seq<Action>)
    requires Ready(a, pc, v, hub) && (a.LockHub? || a.Raise? || a.Lower?) && SoFar(pc, tr)
    ensures SoFar(PcAfter(a, pc, v, hub), tr + [a])
  {
    hide IsHardened, SameAccount, ReadCall;
    if pc.ToRaise? {
      assert tr + [a] == [tr[0], LookUp, TakeToken, LockHub];
    } else if pc.Raising? {
      assert tr + [a] == [tr[0], LookUp, TakeToken] + [LockHub, Raise];
    } else if pc.Lowering? {
      hide ToExchange;
      assert tr + [a] == ToExchange(pc.w, tr[0].op) + [Finish(pc.out)] + [LockHub, Lower];
    }
  }

  lemma FinishStep(a: Action, pc: Pc, v: Wallet, hub: Hub, tr: seq<Action>)
    requires Ready(a, pc, v, hub) && a.Finish? && SoFar(pc, tr)
    ensures SoFar(PcAfter(a, pc, v, hub), tr + [a])
  {
    assert ToExchange(pc.w, tr[0].op)[0] == tr[0];
    hide IsHardened, SameAccount, ReadCall, ToExchange;
    assert (tr + [a])[0] == tr[0] && tr + [a] + [] == tr + [a];
  }

  lemma ReturnStep(pc: Pc, v: Wallet, hub: Hub, tr: seq<Action>)
    requires Ready(ReturnToken, pc, v, hub) && SoFar(pc, tr)
    ensures SoFar(PcAfter(ReturnToken, pc, v, hub), tr + [ReturnToken])
  {
    hide IsHardened, SameAccount, ReadCall, ToExchange;
    assert (tr + [ReturnToken])[0] == tr[0];
  }

  lemma OutcomeIs(w: int, asked: Op, out: Outcome)
    ensures OutcomeOf(ReadCall(w, asked, out), asked) == out && ReadCall(w, asked, out)[0] == StartRead(w, asked)
  {
    assert !out.Skipped? ==> Through(w, asked, out)[if asked.Sign? then 5 else 3] == Finish(out);
  }

  lemma UnlockStep(pc: Pc, v: Wallet, hub: Hub, tr: seq<Action>)
    requires Ready(RUnlock, pc, v, hub) && SoFar(pc, tr)
    ensures Accounted(PcAfter(RUnlock, pc, v, hub), tr + [RUnlock])
  {
    var asked := tr[0].op;
    assert tr + [RUnlock] == ReadCall(pc.w, asked, pc.out) by {
      hide Through, CarriesOut;
      if pc.out.Skipped? { assert tr + [RUnlock] == [tr[0], LookUp, RUnlock]; }
    }
    OutcomeIs(pc.w, asked, pc.out);
    hide ReadCall, Through, IsHardened, SameAccount, OutcomeOf;
  }

  lemma CloseBegins(a: Action, pc: Pc, v: Wallet, hub: Hub, tr: seq<Action>)
    requires Ready(a, pc, v, hub) && (a.StartClose? || a.LockClose?) && Accounted(pc, tr)
    ensures Accounted(PcAfter(a, pc, v, hub), Onward(pc, tr, a))
  {
    hide CarriesOut, IsCall, CloseBegun, ReadCall;
    if a.StartClose? { OnItsOwn(a.w); } else { assert (tr + [a])[..|tr|] == tr; }
  }

  lemma DeviceCloses(pc: Pc, v: Wallet, hub: Hub, tr: seq<Action>)
    requires pc.Closing? && SoFar(pc, tr)
    ensures Accounted(PcAfter(CloseDevice, pc, v, hub), tr + [CloseDevice])
  {
    hide CarriesOut, IsCall, CloseBegun, ReadCall;
    var n := |tr| - 1;
    var begun, tr' := tr[..n], tr + [CloseDevice];
    assert tr'[..n] == begun && tr'[n..] == [LockClose, CloseDevice] && tr' == begun + tr'[n..];
    ClosedCall(pc.w, begun, tr');
  }

  lemma DriverCloses(pc: Pc, v: Wallet, hub: Hub, tr: seq<Action>)
    requires pc.ClosingDriver? && SoFar(pc, tr)
    ensures Accounted(PcAfter(CloseDriver, pc, v, hub), tr + [CloseDriver])
  {
    hide CarriesOut, IsCall, CloseBegun, ReadCall;
    var n := |tr| - 2;
    var begun := tr[..n];
    assert tr == begun + tr[n..];
    assert tr + [CloseDriver] == begun + [LockClose, CloseDevice, CloseDriver];
    ClosedCall(pc.w, begun, tr + [CloseDriver]);
  }

  lemma OnItsOwn(w: int)
    ensures CloseBegun(w, [StartClose(w)])
  {
  }

  lemma ClosedCall(w: int, begun: seq<Action>, tr: seq<Action>)
    requires CloseBegun(w, begun) && CloseDone(begun, tr)
    ensures IsCall(tr)
  {
    OutcomeIs(w, Beat, Failed);
    assert begun != [] && tr[0] == begun[0];
    if begun != [StartClose(w)] { assert |ReadCall(w, Beat, Failed)| == 6 && tr[3] == begun[3]; }
  }

  lemma PinSteps(a: Action, pc: Pc, v: Wallet, hub: Hub, tr: seq<Action>)
    requires Ready(a, pc, v, hub) && (a.LockPin? || a.Pin?) && SoFar(pc, tr)
    ensures Accounted(PcAfter(a, pc, v, hub), tr + [a])
  {
    hide IsCall, ReadCall, CarriesOut;
    var tr' := tr + [a];
    if a.LockPin? {
      assert tr'[..|tr'| - 1] == tr;
    } else {
      var begun := tr[..|tr| - 1];
      assert tr' == begun + [LockPin, Pin];
      PinnedCall(pc.w, pc.addr, pc.path, begun);
    }
  }

  lemma PinnedCall(w: int, addr: Address, path: Path, begun: seq<Action>)
    requires PinBegun(w, addr, path, begun)
    ensures IsCall(begun + [LockPin, Pin])
  {
    var asked, tr := begun[0].op, begun + [LockPin, Pin];
    OutcomeIs(w, asked, Done(addr));
    assert |begun| == 6;
    assert tr[0] == begun[0] && tr[3] == begun[3];
  }

  /** Any step at a wallet. */
  lemma TraceStep(a: Action, pc: Pc, v: Wallet, hub: Hub, tr: seq<Action>)
    requires Ready(a, pc, v, hub) && !Panics(a, pc, v) && Accounted(pc, tr)
    ensures Accounted(PcAfter(a, pc, v, hub), Onward(pc, tr, a))
  {
    hide SoFar, IsCall, PcAfter;
    match a {
      case StartOpen(_) => OpenSteps(a, pc, v, hub, tr);
      case OpenDevice(_) => OpenSteps(a, pc, v, hub, tr);
      case InitDone(_) => OpenSteps(a, pc, v, hub, tr);
      case StartRead(_, _) => ReadBegins(a, pc, v, hub, tr);
      case LookUp => LookUpStep(pc, v, hub, tr); NotIdle(PcAfter(a, pc, v, hub), tr + [a]);
      case TakeToken => TakeTokenStep(pc, v, hub, tr); NotIdle(PcAfter(a, pc, v, hub), tr + [a]);
      case LockHub => HubSteps(a, pc, v, hub, tr); NotIdle(PcAfter(a, pc, v, hub), tr + [a]);
      case Raise => HubSteps(a, pc, v, hub, tr); NotIdle(PcAfter(a, pc, v, hub), tr + [a]);
      case Lower => HubSteps(a, pc, v, hub, tr); NotIdle(PcAfter(a, pc, v, hub), tr + [a]);
      case Finish(_) => FinishStep(a, pc, v, hub, tr); NotIdle(PcAfter(a, pc, v, hub), tr + [a]);
      case ReturnToken => ReturnStep(pc, v, hub, tr); NotIdle(PcAfter(a, pc, v, hub), tr + [a]);
      case RUnlock => UnlockStep(pc, v, hub, tr);
      case StartClose(_) => CloseBegins(a, pc, v, hub, tr);
      case LockClose => CloseBegins(a, pc, v, hub, tr);
      case CloseDevice => DeviceCloses(pc, v, hub, tr);
      case CloseDriver => DriverCloses(pc, v, hub, tr);
      case LockPin => PinSteps(a, pc, v, hub, tr);
      case Pin => PinSteps(a, pc, v, hub, tr);
    }
  }

  lemma NotIdle(pc: Pc, tr: seq<Action>)
    requires SoFar(pc, tr)
    ensures !pc.Idle?
  {
  }

  lemma ScanStep(a: Action, pc: Pc, hub: Hub, onLinux: bool, tr: seq<Action>)
    requires ScanReady(a, pc, hub, onLinux) && Accounted(pc, tr)
    ensures Accounted(ScanAfter(a, hub, onLinux), Onward(pc, tr, a))
  {
    hide CarriesOut, ReadCall;
  }

  // ---- Theorems over runs -------------------------------------------------------------------------------

  /** The call thread `t` is in before move `k`, or was last in, began with move `j`. */
  ghost predicate Since(run: seq<State>, moves: seq<Move>, j: nat, k: nat, t: int) {
    && j <= k <= |moves| < |run| && t in run[k].threads
    && (j < k ==> moves[j].thread == t) && (j == k ==> forall i :: 0 <= i < k ==> moves[i].thread != t)
    && Accounted(run[k].threads[t], Trace(moves, j, k, t))
  }

  lemma MoveAccounted(s: State, t: int, a: Action, tr: seq<Action>)
    requires Enabled(s, t, a) && !After(s, t, a).crashed && Accounted(s.threads[t], tr)
    ensures Accounted(After(s, t, a).threads[t], Onward(s.threads[t], tr, a))
  {
    hide Accounted, PcAfter, WalletAfter, HubAfter, ScanAfter, Onward, Ready, ScanReady, Target;
    var pc := s.threads[t];
    match Target(pc, a) {
      case Some(w) => TraceStep(a, pc, s.wallets[w], s.hub, tr);
      case None => ScanStep(a, pc, s.hub, s.onLinux, tr);
    }
  }

  lemma OthersStay(s: State, t: int, a: Action, t': int)
    requires Enabled(s, t, a)
    ensures t' in s.threads <==> t' in After(s, t, a).threads
    ensures t' in s.threads && t' != t ==> After(s, t, a).threads[t'] == s.threads[t']
    ensures !s.crashed && t in s.threads && t in After(s, t, a).threads
  {
    hide PcAfter, WalletAfter, HubAfter, ScanAfter, Ready, ScanReady;
  }

  /** In every state of every run, every thread is accounted for: what it has done since it began its last
      call is that call, or the part of it up to where it stands. */
  lemma {:induction false} CallsAccounted(run: seq<State>, moves: seq<Move>, k: nat, t: int) returns (j: nat)
    requires IsRun(run, moves) && k < |run| && !run[k].crashed && t in run[k].threads
    ensures Since(run, moves, j, k, t)
  {
    hide Enabled, After, Init, Since;
    if k == 0 {
      j := 0;
      NothingYet(run, moves, t);
    } else {
      var m := moves[k - 1];
      OthersStay(run[k - 1], m.thread, m.action, t);
      var i := CallsAccounted(run, moves, k - 1, t);
      j := SinceStep(run, moves, i, k, t);
    }
  }

  lemma NothingYet(run: seq<State>, moves: seq<Move>, t: int)
    requires |run| == |moves| + 1 && Init(run[0]) && t in run[0].threads
    ensures Since(run, moves, 0, 0, t)
  {
    assert run[0].threads[t] == Idle;
  }

  lemma SinceStep(run: seq<State>, moves: seq<Move>, i: nat, k: nat, t: int) returns (j: nat)
    requires 0 < k && Since(run, moves, i, k - 1, t) && k <= |moves| && t in run[k].threads && !run[k].crashed
    requires Enabled(run[k - 1], moves[k - 1].thread, moves[k - 1].action)
    requires run[k] == After(run[k - 1], moves[k - 1].thread, moves[k - 1].action)
    ensures Since(run, moves, j, k, t)
  {
    hide Enabled, After, Accounted;
    var m, pc := moves[k - 1], run[k - 1].threads[t];
    OthersStay(run[k - 1], m.thread, m.action, t);
    var tr := Trace(moves, i, k - 1, t);
    if m.thread == t {
      MoveAccounted(run[k - 1], t, m.action, tr);
      j := if pc.Idle? then k - 1 else i;
      if !pc.Idle? { BegunMoved(pc, tr); }
      assert Trace(moves, j, k, t) == Onward(pc, tr, m.action);
    } else {
      j := if i == k - 1 then k else i;
      assert Trace(moves, j, k, t) == tr;
    }
  }

  lemma BegunMoved(pc: Pc, tr: seq<Action>)
    requires Accounted(pc, tr) && !pc.Idle?
    ensures tr != []
  {
    hide CarriesOut;
    if pc.ToClose? { assert |ReadCall(pc.w, Beat, Failed)| == 6; }
  }

  lemma {:induction false} TraceHead(moves: seq<Move>, j: nat, k: nat, t: int)
    requires j < k <= |moves| && moves[j].thread == t
    ensures Trace(moves, j, k, t) != [] && Trace(moves, j, k, t)[0] == moves[j].action
    decreases k
  {
    if j + 1 < k { TraceHead(moves, j, k - 1, t); }
  }

  /** The path at hand where a thread stands, if it derives. */
  function PathAtHand(pc: Pc): Option<Path> {
    if pc.ToPin? || pc.Pinning? then Some(pc.path)
    else if (pc.Reading? || pc.Waiting? || pc.Exchanging? || pc.Returning? || pc.Unlocking?) && pc.op.Derive? then Some(pc.op.path)
    else None
  }

  /** Every path that is exchanged with a device by a derivation, or about to be pinned, is the one given to the
      derivation, at the same wallet, but for the hardening of its first three values. */
  lemma DerivedPath(run: seq<State>, moves: seq<Move>, k: nat, t: int) returns (j: nat)
    requires IsRun(run, moves) && k < |run| && !run[k].crashed && t in run[k].threads && PathAtHand(run[k].threads[t]).Some?
    ensures j < k && moves[j].thread == t && moves[j].action.StartRead? && moves[j].action.w == run[k].threads[t].w
    ensures moves[j].action.op.Derive?
    ensures var asked, path := moves[j].action.op.path, PathAtHand(run[k].threads[t]).value;
      SameAccount(asked, path) && IsHardened(path) && forall i :: 3 <= i < |path| ==> asked[i] == path[i]
    ensures run[k].threads[t].ToPin? || run[k].threads[t].Pinning? ==>
      moves[j].action.op.pin && Finish(Done(run[k].threads[t].addr)) in Trace(moves, j, k, t)
  {
    hide IsRun, Init;
    j := CallsAccounted(run, moves, k, t);
    var pc, tr := run[k].threads[t], Trace(moves, j, k, t);
    if j == k { assert tr == []; }
    BegunMoved(pc, tr);
    TraceHead(moves, j, k, t);
    PathAsked(pc, tr);
  }

  lemma PathAsked(pc: Pc, tr: seq<Action>)
    requires PathAtHand(pc).Some? && Accounted(pc, tr)
    ensures tr != [] && tr[0].StartRead? && tr[0].w == pc.w && CarriesOut(tr[0].op, Derive(PathAtHand(pc).value, if pc.ToPin? || pc.Pinning? then true else pc.op.pin))
    ensures pc.ToPin? || pc.Pinning? ==> Finish(Done(pc.addr)) in tr
  {
    hide SameAccount, IsHardened;
    if pc.ToPin? || pc.Pinning? {
      var begun := if pc.ToPin? then tr else tr[..|tr| - 1];
      OutcomeIs(pc.w, begun[0].op, Done(pc.addr));
      assert begun[3] == Finish(Done(pc.addr)) && tr[0] == begun[0] && tr[3] == begun[3];
    }
  }

  // ---- Which account is pinned with which path ----------------------------------------------------------------

  /** Move `i` pins `path` for the account at wallet `w`. */
  ghost predicate PinnedAt(run: seq<State>, moves: seq<Move>, i: int, w: int, addr: Address, path: Path) {
    && 0 <= i < |moves| < |run| && moves[i].thread in run[i].threads
    && moves[i].action.Pin? && run[i].threads[moves[i].thread] == Pinning(w, addr, path)
  }

  ghost predicate ClearedBetween(run: seq<State>, moves: seq<Move>, i: int, k: int, w: int) {
    exists c :: i < c < k && ClearedAt(run, moves, c, w)
  }

  /** Before move `k`, the account was pinned and the wallet has not been cleared since. */
  ghost predicate Held(run: seq<State>, moves: seq<Move>, k: nat, w: int, addr: Address) {
    exists i, path :: 0 <= i < k && PinnedAt(run, moves, i, w, addr, path) && !ClearedBetween(run, moves, i, k, w)
  }

  /** And `path` is that of the first such pinning. */
  ghost predicate HeldWith(run: seq<State>, moves: seq<Move>, k: nat, w: int, addr: Address, path: Path) {
    exists i :: 0 <= i < k && PinnedAt(run, moves, i, w, addr, path) && !ClearedBetween(run, moves, i, k, w) && !Held(run, moves, i, w, addr)
  }

  lemma ClearedStep(run: seq<State>, moves: seq<Move>, i: int, k: int, w: int)
    requires i < k
    ensures ClearedBetween(run, moves, i, k + 1, w) <==> ClearedBetween(run, moves, i, k, w) || ClearedAt(run, moves, k, w)
    ensures !ClearedBetween(run, moves, k, k + 1, w)
  {
    hide ClearedAt;
  }

  lemma HeldStep(run: seq<State>, moves: seq<Move>, k: nat, w: int, addr: Address)
    ensures Held(run, moves, k + 1, w, addr) <==>
      (exists path :: PinnedAt(run, moves, k, w, addr, path)) || (Held(run, moves, k, w, addr) && !ClearedAt(run, moves, k, w))
  {
    hide ClearedAt, PinnedAt, ClearedBetween;
    ClearedStep(run, moves, -1, k, w);
    if Held(run, moves, k + 1, w, addr) {
      var i, path :| 0 <= i < k + 1 && PinnedAt(run, moves, i, w, addr, path) && !ClearedBetween(run, moves, i, k + 1, w);
      if i < k { ClearedStep(run, moves, i, k, w); }
    }
    if Held(run, moves, k, w, addr) && !ClearedAt(run, moves, k, w) {
      var i, path :| 0 <= i < k && PinnedAt(run, moves, i, w, addr, path) && !ClearedBetween(run, moves, i, k, w);
      ClearedStep(run, moves, i, k, w);
    }
  }

  lemma HeldWithStep(run: seq<State>, moves: seq<Move>, k: nat, w: int, addr: Address, path: Path)
    ensures HeldWith(run, moves, k + 1, w, addr, path) <==>
      || (PinnedAt(run, moves, k, w, addr, path) && !Held(run, moves, k, w, addr))
      || (HeldWith(run, moves, k, w, addr, path) && !ClearedAt(run, moves, k, w))
  {
    hide ClearedAt, PinnedAt, ClearedBetween, Held;
    ClearedStep(run, moves, -1, k, w);
    if HeldWith(run, moves, k + 1, w, addr, path) {
      var i :| 0 <= i < k + 1 && PinnedAt(run, moves, i, w, addr, path) && !ClearedBetween(run, moves, i, k + 1, w) && !Held(run, moves, i, w, addr);
      if i < k { ClearedStep(run, moves, i, k, w); }
    }
    if HeldWith(run, moves, k, w, addr, path) && !ClearedAt(run, moves, k, w) {
      var i :| 0 <= i < k && PinnedAt(run, moves, i, w, addr, path) && !ClearedBetween(run, moves, i, k, w) && !Held(run, moves, i, w, addr);
      ClearedStep(run, moves, i, k, w);
    }
  }

  /** What a step does to the path of an account. */
  lemma PathStep(s: State, t: int, a: Action, w: int, addr: Address)
    requires Inv(s) && Enabled(s, t, a) && w in s.wallets && !After(s, t, a).crashed
    ensures w in After(s, t, a).wallets
    ensures var here := Target(s.threads[t], a) == Some(w);
      PathOf(After(s, t, a).wallets[w], addr) ==
        if here && a.CloseDevice? then None
        else if here && a.Pin? && s.threads[t].addr == addr && PathOf(s.wallets[w], addr).None? then Some(s.threads[t].path)
        else PathOf(s.wallets[w], addr)
  {
    hide PcAfter, HubAfter, ScanAfter, WalletAfter, Agrees, Inv, ScanReady;
    InvAt(s, t, w);
    if Target(s.threads[t], a) == Some(w) { PathOfWallet(t, a, s.threads[t], w, s.wallets[w], s.hub, addr); }
  }

  function PathOf(v: Wallet, addr: Address): Option<Path> {
    if v.paths.Some? && addr in v.paths.value then Some(v.paths.value[addr]) else None
  }

  lemma PathOfWallet(t: int, a: Action, pc: Pc, w: int, v: Wallet, hub: Hub, addr: Address)
    requires Ready(a, pc, v, hub) && Target(pc, a) == Some(w) && Agrees(t, pc, w, v) && Coherent(v) && !Panics(a, pc, v)
    ensures PathOf(WalletAfter(t, a, pc, v, hub), addr) ==
      if a.CloseDevice? then None
      else if a.Pin? && pc.addr == addr && PathOf(v, addr).None? then Some(pc.path)
      else PathOf(v, addr)
  {
    hide LocksAgree;
  }

  /** In every state of every run, an account has a path exactly when it was pinned and the wallet was not
      cleared since, and the path is that of the first such pinning. */
  lemma {:induction false} PinnedExactly(run: seq<State>, moves: seq<Move>, k: nat, w: int, addr: Address, path: Path)
    requires IsRun(run, moves) && k < |run| && !run[k].crashed && w in run[0].wallets
    ensures w in run[k].wallets && (PathOf(run[k].wallets[w], addr).Some? <==> Held(run, moves, k, w, addr))
    ensures PathOf(run[k].wallets[w], addr) == Some(path) <==> HeldWith(run, moves, k, w, addr, path)
  {
    hide Enabled, After, Inv, Held, HeldWith, Target, PathOf;
    if k == 0 {
      NothingPinned(run, moves, w, addr, path);
    } else {
      hide Init;
      var m, s := moves[k - 1], run[k - 1];
      OthersStay(s, m.thread, m.action, m.thread);
      PinnedExactly(run, moves, k - 1, w, addr, path);
      RunInv(run, moves, k - 1);
      EnabledThread(s, m.thread, m.action);
      PathStep(s, m.thread, m.action, w, addr);
      HeldStep(run, moves, k - 1, w, addr);
      HeldWithStep(run, moves, k - 1, w, addr, path);
      PinTarget(run, moves, k - 1, w, addr);
    }
  }

  lemma NothingPinned(run: seq<State>, moves: seq<Move>, w: int, addr: Address, path: Path)
    requires run != [] && Init(run[0]) && w in run[0].wallets
    ensures PathOf(run[0].wallets[w], addr).None? && !Held(run, moves, 0, w, addr) && !HeldWith(run, moves, 0, w, addr, path)
  {
    hide PinnedAt, ClearedBetween;
  }

  lemma PinTarget(run: seq<State>, moves: seq<Move>, k: nat, w: int, addr: Address)
    requires k < |moves| < |run| && moves[k].thread in run[k].threads && (moves[k].action.Pin? ==> run[k].threads[moves[k].thread].Pinning?)
    ensures (exists path :: PinnedAt(run, moves, k, w, addr, path)) <==>
      moves[k].action.Pin? && Target(run[k].threads[moves[k].thread], moves[k].action) == Some(w) && run[k].threads[moves[k].thread].addr == addr
    ensures forall path :: PinnedAt(run, moves, k, w, addr, path) ==> path == run[k].threads[moves[k].thread].path
  {
    var pc := run[k].threads[moves[k].thread];
    if moves[k].action.Pin? && pc.w == w && pc.addr == addr { assert PinnedAt(run, moves, k, w, addr, pc.path); }
  }

  // ---- Which way a call goes ----------------------------------------------------------------------------------

  ghost predicate ConnectedAt(run: seq<State>, moves: seq<Move>, i: int, w: int) {
    && 0 <= i < |moves| < |run| && moves[i].thread in run[i].threads
    && moves[i].action == OpenDevice(true) && Target(run[i].threads[moves[i].thread], moves[i].action) == Some(w)
  }

  /** Before move `k`, a connection to the device succeeded and was not cleared since. */
  ghost predicate Connected(run: seq<State>, moves: seq<Move>, k: nat, w: int) {
    exists i :: 0 <= i < k && ConnectedAt(run, moves, i, w) && !ClearedBetween(run, moves, i, k, w)
  }

  lemma ConnectedStep(run: seq<State>, moves: seq<Move>, k: nat, w: int)
    ensures Connected(run, moves, k + 1, w) <==> ConnectedAt(run, moves, k, w) || (Connected(run, moves, k, w) && !ClearedAt(run, moves, k, w))
  {
    hide ClearedAt, ConnectedAt, ClearedBetween;
    ClearedStep(run, moves, -1, k, w);
    if Connected(run, moves, k + 1, w) {
      var i :| 0 <= i < k + 1 && ConnectedAt(run, moves, i, w) && !ClearedBetween(run, moves, i, k + 1, w);
      if i < k { ClearedStep(run, moves, i, k, w); }
    }
    if Connected(run, moves, k, w) && !ClearedAt(run, moves, k, w) {
      var i :| 0 <= i < k && ConnectedAt(run, moves, i, w) && !ClearedBetween(run, moves, i, k, w);
      ClearedStep(run, moves, i, k, w);
    }
  }

  lemma DeviceOfWallet(t: int, a: Action, pc: Pc, w: int, v: Wallet, hub: Hub)
    requires Ready(a, pc, v, hub) && Target(pc, a) == Some(w) && Coherent(v)
    ensures WalletAfter(t, a, pc, v, hub).device <==> a == OpenDevice(true) || (v.device && !a.CloseDevice?)
  {
  }

  lemma DeviceStep(s: State, t: int, a: Action, w: int)
    requires Inv(s) && Enabled(s, t, a) && w in s.wallets
    ensures w in After(s, t, a).wallets
    ensures var here := Target(s.threads[t], a) == Some(w);
      After(s, t, a).wallets[w].device <==> (here && a == OpenDevice(true)) || (s.wallets[w].device && !(here && a.CloseDevice?))
  {
    hide PcAfter, HubAfter, ScanAfter, WalletAfter, Agrees, Inv, Target, Ready, ScanReady, Coherent;
    InvAt(s, t, w);
    if Target(s.threads[t], a) == Some(w) { DeviceOfWallet(t, a, s.threads[t], w, s.wallets[w], s.hub); }
  }

  /** In every state of every run, a wallet has its device exactly when it is connected. */
  lemma {:induction false} DeviceExactly(run: seq<State>, moves: seq<Move>, k: nat, w: int)
    requires IsRun(run, moves) && k < |run| && w in run[0].wallets
    ensures w in run[k].wallets && (run[k].wallets[w].device <==> Connected(run, moves, k, w))
  {
    if k > 0 {
      hide Enabled, After, Init, Inv, Connected, Target;
      DeviceExactly(run, moves, k - 1, w);
      RunInv(run, moves, k - 1);
      EnabledThread(run[k - 1], moves[k - 1].thread, moves[k - 1].action);
      DeviceStep(run[k - 1], moves[k - 1].thread, moves[k - 1].action, w);
      ConnectedStep(run, moves, k - 1, w);
    }
  }

  /** Which way a step at a wallet goes. */
  ghost predicate GoesRight(run: seq<State>, moves: seq<Move>, k: nat)
    requires k < |moves| < |run| && moves[k].thread in run[k].threads && moves[k].thread in run[k + 1].threads
  {
    var pc, next := run[k].threads[moves[k].thread], run[k + 1].threads[moves[k].thread];
    match moves[k].action
    case OpenDevice(ok) => pc.Opening? && (next.Initializing? <==> !LeftOpen(run, moves, k, pc.w) && (ok || Connected(run, moves, k, pc.w)))
    case LookUp =>
      && pc.Reading?
      && (next.Waiting? <==> Connected(run, moves, k, pc.w) && (pc.op.Sign? ==> Held(run, moves, k, pc.w, pc.op.addr)))
      && (next.Waiting? && pc.op.Sign? ==> next.op.Sign? && HeldWith(run, moves, k, pc.w, pc.op.addr, next.op.path))
    case CloseDevice => pc.Closing? && (next.ClosingDriver? <==> Connected(run, moves, k, pc.w))
    case StartScan => next.Enumerating? <==> !run[k].onLinux
    case ScanCheck => next.Enumerating? <==> Pending(run[k]) == {}
    case _ => true
  }

  predicate Looks(v: Wallet, op: Op, next: Pc) {
    && (next.Waiting? <==> v.device && (op.Sign? ==> PathOf(v, op.addr).Some?))
    && (next.Waiting? && op.Sign? ==> next.op.Sign? && PathOf(v, op.addr) == Some(next.op.path))
  }

  lemma WalletGoes(s: State, t: int, a: Action)
    requires Enabled(s, t, a) && (a.OpenDevice? || a.LookUp? || a.CloseDevice?)
    ensures t in s.threads && t in After(s, t, a).threads && AtWallet(s.threads[t]) && s.threads[t].w in s.wallets
    ensures var pc, next := s.threads[t], After(s, t, a).threads[t];
      var v := s.wallets[pc.w];
      match a
      case OpenDevice(ok) => pc.Opening? && (next.Initializing? <==> v.paths.None? && (ok || v.device))
      case LookUp => pc.Reading? && Looks(v, pc.op, next)
      case CloseDevice => pc.Closing? && (next.ClosingDriver? <==> v.device)
      case _ => true
  {
    hide WalletAfter, HubAfter, ScanAfter, Panics;
  }

  lemma ScanGoes(s: State, t: int, a: Action)
    requires Enabled(s, t, a) && Inv(s)
    ensures t in s.threads && t in After(s, t, a).threads
    ensures a.StartScan? ==> (After(s, t, a).threads[t].Enumerating? <==> !s.onLinux)
    ensures a.ScanCheck? ==> (After(s, t, a).threads[t].Enumerating? <==> Pending(s) == {})
  {
    InvHub(s, t);
    hide Inv, WalletAfter, HubAfter, PcAfter, Pending, Panics;
  }

  /** In every run: an opening goes on to the driver exactly when the wallet is not left open and the device is
      connected; a call that reads goes on to the device exactly when it is connected and the account to sign
      with is pinned, and signs with the path it is pinned with; a close clears exactly a connected device; and
      an enumeration on Linux goes on exactly when no signing is pending. */
  lemma BranchesExactly(run: seq<State>, moves: seq<Move>, k: nat)
    requires IsRun(run, moves) && k < |moves|
    ensures moves[k].thread in run[k].threads && moves[k].thread in run[k + 1].threads && GoesRight(run, moves, k)
  {
    hide Init, After, Inv, LeftOpen, Connected, Held, HeldWith, Pending, PathOf;
    var t, a := moves[k].thread, moves[k].action;
    RunInv(run, moves, k);
    OthersStay(run[k], t, a, t);
    ScanGoes(run[k], t, a);
    SameWallets(run, moves, k);
    if a.OpenDevice? || a.LookUp? || a.CloseDevice? {
      WalletGoes(run[k], t, a);
      var w := run[k].threads[t].w;
      PathsExactly(run, moves, k, w);
      DeviceExactly(run, moves, k, w);
      if a.LookUp? && run[k].threads[t].op.Sign? {
        var next := run[k + 1].threads[t];
        PinnedExactly(run, moves, k, w, run[k].threads[t].op.addr, if next.Waiting? && next.op.Sign? then next.op.path else []);
      }
    }
  }
}
