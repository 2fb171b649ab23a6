/** The locks of UsbWallet never block each other for good. */
module UsbProgress {
  import opened Options
  import opened UsbWallet

  // ---- Locks are held by threads -----------------------------------------------------------------------

  predicate OwnedWallet(v: Wallet, threads: set<int>) {
    (v.writer.Some? ==> v.writer.value in threads) && v.readers <= threads
  }

  /** Every lock is held by a thread, and every thread is at a wallet there is. */
  ghost predicate Owned(s: State) {
    && (forall w :: w in s.wallets ==> OwnedWallet(s.wallets[w], s.threads.Keys))
    && (s.hub.lock.Some? ==> s.hub.lock.value in s.threads)
    && (forall t :: t in s.threads && AtWallet(s.threads[t]) ==> s.threads[t].w in s.wallets)
  }

  lemma OwnedAt(t: int, a: Action, pc: Pc, w: int, v: Wallet, hub: Hub, threads: set<int>)
    requires Ready(a, pc, v, hub) && Target(pc, a) == Some(w) && OwnedWallet(v, threads) && t in threads
    ensures OwnedWallet(WalletAfter(t, a, pc, v, hub), threads)
    ensures AtWallet(PcAfter(a, pc, v, hub)) ==> PcAfter(a, pc, v, hub).w == w
  {
  }

  lemma OwnedScan(t: int, a: Action, hub: Hub, onLinux: bool)
    ensures !AtWallet(ScanAfter(a, hub, onLinux))
    ensures HubAfter(t, a, hub, onLinux).lock in {None, Some(t), hub.lock}
  {
  }

  lemma OwnedStep(s: State, t: int, a: Action)
    requires Enabled(s, t, a) && Owned(s)
    ensures Owned(After(s, t, a))
  {
    SameNames(s, t, a);
    OwnedScan(t, a, s.hub, s.onLinux);
    hide PcAfter, WalletAfter, HubAfter, ScanAfter, Ready, ScanReady, OwnedWallet, Target, AtWallet;
    match Target(s.threads[t], a) {
      case Some(w) => OwnedAt(t, a, s.threads[t], w, s.wallets[w], s.hub, s.threads.Keys);
      case None =>
    }
  }

  lemma InitOwned(s: State)
    requires Init(s)
    ensures Owned(s)
  {
  }

  lemma {:induction false} RunOwned(run: seq<State>, moves: seq<Move>, k: nat)
    requires IsRun(run, moves) && k < |run|
    ensures Owned(run[k])
  {
    hide Init, Enabled, After, Owned;
    if k == 0 {
      InitOwned(run[0]);
    } else {
      RunOwned(run, moves, k - 1);
      OwnedStep(run[k - 1], moves[k - 1].thread, moves[k - 1].action);
    }
  }

  // ---- Someone can move ------------------------------------------------------------------------------------

  /** Going on with a call, rather than beginning one. */
  predicate GoesOn(a: Action) { !Starts(a) && !a.StartScan? && !a.DriverPanic? }

  ghost predicate CanGoOn(s: State, t: int) { exists a :: GoesOn(a) && Enabled(s, t, a) }

  ghost predicate SomeoneGoesOn(s: State) { exists t :: t in s.threads && CanGoOn(s, t) }

  /** What a thread that waits for no one does next. */
  function NextOf(pc: Pc): Action {
    match pc
    case Opening(_) => OpenDevice(true)
    case Initializing(_) => InitDone(true)
    case Reading(_, _) => LookUp
    case Waiting(_, _) => TakeToken
    case ToRaise(_, _) => LockHub
    case Raising(_, _) => Raise
    case Exchanging(_, _) => Finish(Failed)
    case ToLower(_, _, _) => LockHub
    case Lowering(_, _, _) => Lower
    case Returning(_, _, _) => ReturnToken
    case Unlocking(_, _, _) => RUnlock
    case ToClose(_) => LockClose
    case Closing(_) => CloseDevice
    case ClosingDriver(_) => CloseDriver
    case ToPin(_, _, _) => LockPin
    case Pinning(_, _, _) => Pin
    case Guarding => ScanCheck
    case Enumerating => ScanDone
    case Idle => ScanDone
  }

  /** What a thread waits for, if anything. */
  predicate Unblocked(pc: Pc, v: Wallet, hub: Hub) {
    match pc
    case Waiting(_, _) => v.token
    case ToRaise(_, _) => hub.lock.None?
    case ToLower(_, _, _) => hub.lock.None?
    case Returning(_, _, _) => !v.token
    case ToClose(_) => Free(v)
    case ToPin(_, _, _) => Free(v)
    case _ => true
  }

  lemma GoesOnAt(s: State, t: int)
    requires Owned(s) && !s.crashed && t in s.threads && AtWallet(s.threads[t])
    ensures s.threads[t].w in s.wallets
    ensures Unblocked(s.threads[t], s.wallets[s.threads[t].w], s.hub) ==> SomeoneGoesOn(s)
  {
    var pc := s.threads[t];
    if Unblocked(pc, s.wallets[pc.w], s.hub) {
      assert GoesOn(NextOf(pc)) && Enabled(s, t, NextOf(pc));
      assert CanGoOn(s, t);
    }
  }

  lemma ScanGoesOn(s: State, t: int)
    requires !s.crashed && t in s.threads && (s.threads[t].Guarding? || s.threads[t].Enumerating?)
    ensures SomeoneGoesOn(s)
  {
    var a := NextOf(s.threads[t]);
    assert GoesOn(a) && Enabled(s, t, a);
    assert CanGoOn(s, t);
  }

  lemma HubHolderGoesOn(s: State)
    requires Owned(s) && Inv(s) && !s.crashed && s.hub.lock.Some?
    ensures SomeoneGoesOn(s)
  {
    var t := s.hub.lock.value;
    InvHub(s, t);
    hide Inv, Owned, SomeoneGoesOn;
    var pc := s.threads[t];
    if pc.Guarding? || pc.Enumerating? {
      ScanGoesOn(s, t);
    } else {
      GoesOnAt(s, t);
    }
  }

  lemma TokenHolderGoesOn(s: State, t: int, w: int)
    requires Owned(s) && Inv(s) && !s.crashed && t in s.threads && w in s.wallets && Holds(s.threads[t], w)
    ensures SomeoneGoesOn(s)
  {
    InvAt(s, t, w);
    hide Inv, Owned, UseAgrees, Coherent;
    if s.hub.lock.Some? { HubHolderGoesOn(s); } else { GoesOnAt(s, t); }
  }

  lemma ReaderGoesOn(s: State, t: int, w: int)
    requires Owned(s) && Inv(s) && !s.crashed && t in s.threads && w in s.wallets && Reads(s.threads[t], w)
    ensures SomeoneGoesOn(s)
  {
    InvAt(s, t, w);
    InvToken(s, w);
    hide Inv, Owned, Coherent;
    if t' :| t' in s.threads && Holds(s.threads[t'], w) { TokenHolderGoesOn(s, t', w); } else { GoesOnAt(s, t); }
  }

  lemma AnyOf(threads: set<int>) returns (t: int)
    requires threads != {}
    ensures t in threads
  {
    if forall x :: x !in threads { assert false; }
    t :| t in threads;
  }

  lemma LockHolderGoesOn(s: State, w: int)
    requires Owned(s) && Inv(s) && !s.crashed && w in s.wallets && !Free(s.wallets[w])
    ensures SomeoneGoesOn(s)
  {
    var v := s.wallets[w];
    if v.writer.Some? {
      var t := v.writer.value;
      InvAt(s, t, w);
      hide Inv, Owned, Coherent;
      GoesOnAt(s, t);
    } else {
      var t := AnyOf(v.readers);
      InvAt(s, t, w);
      hide Inv, Owned, Coherent;
      ReaderGoesOn(s, t, w);
    }
  }

  /** No deadlock: in every state of every run, as long as some call has not returned, some thread can go on
      with its own. */
  lemma NoDeadlock(run: seq<State>, moves: seq<Move>, k: nat, t: int)
    requires IsRun(run, moves) && k < |run| && !run[k].crashed && t in run[k].threads && !run[k].threads[t].Idle?
    ensures SomeoneGoesOn(run[k])
  {
    hide Init, Enabled, After, SomeoneGoesOn, CanGoOn;
    RunInv(run, moves, k);
    RunOwned(run, moves, k);
    SomeoneCan(run[k], t);
  }

  lemma SomeoneCan(s: State, t: int)
    requires Owned(s) && Inv(s) && !s.crashed && t in s.threads && !s.threads[t].Idle?
    ensures SomeoneGoesOn(s)
  {
    hide Inv, Owned, SomeoneGoesOn;
    var pc := s.threads[t];
    if pc.Guarding? || pc.Enumerating? {
      ScanGoesOn(s, t);
    } else {
      GoesOnAt(s, t);
      var v := s.wallets[pc.w];
      if !Unblocked(pc, v, s.hub) {
        if pc.ToClose? || pc.ToPin? { LockHolderGoesOn(s, pc.w); } else { ReaderGoesOn(s, t, pc.w); }
      }
    }
  }

  /** Readers do not exclude each other: a run in which two calls hold the state lock of a wallet. */
  lemma ReadersShare() returns (run: seq<State>, moves: seq<Move>)
    ensures Ends(run, moves, Two(Reading(0, Beat), Reading(0, Beat), OPENED.(readers := {1, 2})))
  {
    run, moves := RunToOpened();
    hide Ends, Two;
    run, moves := First(run, moves, Idle, Idle, OPENED, StartRead(0, Beat), Reading(0, Beat), OPENED.(readers := {1}));
    run, moves := Second(run, moves, Reading(0, Beat), Idle, OPENED.(readers := {1}), StartRead(0, Beat), Reading(0, Beat), OPENED.(readers := {1, 2}));
  }

  /** When a call can begin, told by what the other threads are at: a Close at once, an opening when no thread
      holds the state lock of the wallet, a call that reads when none holds it for writing or the call panics at
      once, and an enumeration when the hub is not locked or is not on Linux. */
  lemma BeginsExactly(run: seq<State>, moves: seq<Move>, k: nat, t: int, w: int, op: Op)
    requires IsRun(run, moves) && k < |run| && !run[k].crashed && t in run[k].threads && run[k].threads[t].Idle? && w in run[k].wallets
    ensures var s := run[k];
      && Enabled(s, t, StartClose(w))
      && (Enabled(s, t, StartOpen(w)) <==> forall x :: x in s.threads ==> !Writes(s.threads[x], w) && !Reads(s.threads[x], w))
      && (Enabled(s, t, StartRead(w, op)) <==> (op.Derive? && |op.path| < 3) || forall x :: x in s.threads ==> !Writes(s.threads[x], w))
      && (Enabled(s, t, StartScan) <==> !s.onLinux || forall x :: x in s.threads ==> !HoldsHub(s.threads[x], true))
  {
    hide Init, After, Enabled, Owned, Inv, Writes, Reads, Holds, HoldsHub;
    RunInv(run, moves, k);
    RunOwned(run, moves, k);
    var s := run[k];
    BeginsWhen(s, t, w, op);
    forall x | x in s.threads ensures LocksAgree(x, s.threads[x], w, s.wallets[w]) && HubAgrees(x, s.threads[x], s.hub, s.onLinux) {
      InvAt(s, x, w);
      InvHub(s, x);
    }
    HolderShows(s, w);
  }

  lemma BeginsWhen(s: State, t: int, w: int, op: Op)
    requires !s.crashed && t in s.threads && s.threads[t].Idle? && w in s.wallets
    ensures Enabled(s, t, StartClose(w)) && (Enabled(s, t, StartOpen(w)) <==> s.wallets[w].writer.None? && s.wallets[w].readers == {})
    ensures Enabled(s, t, StartRead(w, op)) <==> (op.Derive? && |op.path| < 3) || s.wallets[w].writer.None?
    ensures Enabled(s, t, StartScan) <==> !s.onLinux || s.hub.lock.None?
  {
  }

  lemma HolderShows(s: State, w: int)
    requires Owned(s) && w in s.wallets
    requires forall x :: x in s.threads ==> LocksAgree(x, s.threads[x], w, s.wallets[w]) && HubAgrees(x, s.threads[x], s.hub, s.onLinux)
    ensures s.wallets[w].writer.None? <==> forall x :: x in s.threads ==> !Writes(s.threads[x], w)
    ensures s.wallets[w].readers == {} <==> forall x :: x in s.threads ==> !Reads(s.threads[x], w)
    ensures s.onLinux ==> (s.hub.lock.None? <==> forall x :: x in s.threads ==> !HoldsHub(s.threads[x], true))
  {
    hide Writes, Reads, Holds;
    var v := s.wallets[w];
    if v.writer.Some? { assert Writes(s.threads[v.writer.value], w); }
    if v.readers != {} {
      var x := AnyOf(v.readers);
      assert Reads(s.threads[x], w);
    }
    if s.hub.lock.Some? { assert HubAgrees(s.hub.lock.value, s.threads[s.hub.lock.value], s.hub, s.onLinux); }
  }
}
