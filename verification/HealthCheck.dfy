/** The handshake that ends a wallet's health checks (wallets/usbwallet/wallet.go): Open starts a heartbeat
    with a channel of its own, Close asks a heartbeat to end over the channel it finds and waits for the
    answer. Sections under the state lock are one step; sends and receives on the unbuffered channels are
    meetings of two goroutines. */
module HealthCheck {
  import opened Options

  /** Where a heartbeat stands. It looks up the wallet's channel anew in every round. */
  datatype Beat =
    | AtTop
    | Listening(channel: Option<int>)
    | Beating
    | Replying(closer: int)
    | Ended

  /** Where a caller of Close stands. */
  datatype Pc = Idle | Sending(channel: int) | Awaiting(beat: int) | Locking

  datatype State = State(
    open: bool,                      // paths is not nil
    healthQuit: Option<int>,         // the wallet's channel
    next: int,                       // channels and heartbeats are numbered as they are made
    beats: map<int, Beat>,
    callers: map<int, Pc>)

  datatype Action =
    | Open
    | StartClose(t: int) | Deliver(t: int, b: int) | Reply(t: int, b: int) | FinishClose(t: int)
    | Listen(b: int) | Timer(b: int) | Check(b: int, ok: bool)

  predicate Init(s: State) {
    && !s.open && s.healthQuit == None && s.next == 0 && s.beats == map[]
    && forall t :: t in s.callers ==> s.callers[t] == Idle
  }

  predicate Enabled(s: State, a: Action) {
    match a
    case Open => !s.open
    case StartClose(t) => t in s.callers && s.callers[t].Idle?
    case Deliver(t, b) =>
      t in s.callers && b in s.beats && s.callers[t].Sending? && s.beats[b] == Listening(Some(s.callers[t].channel))
    case Reply(t, b) => t in s.callers && b in s.beats && s.callers[t] == Awaiting(b) && s.beats[b] == Replying(t)
    case FinishClose(t) => t in s.callers && s.callers[t].Locking?
    case Listen(b) => b in s.beats && s.beats[b].AtTop?
    case Timer(b) => b in s.beats && s.beats[b].Listening?
    case Check(b, _) => b in s.beats && s.beats[b].Beating?
  }

  function After(s: State, a: Action): State
    requires Enabled(s, a)
  {
    match a
    case Open => s.(open := true, healthQuit := Some(s.next), next := s.next + 1, beats := s.beats[s.next := AtTop])
    case StartClose(t) =>
      s.(callers := s.callers[t := if s.healthQuit.Some? then Sending(s.healthQuit.value) else Locking])
    case Deliver(t, b) => s.(callers := s.callers[t := Awaiting(b)], beats := s.beats[b := Replying(t)])
    case Reply(t, b) => s.(callers := s.callers[t := Locking], beats := s.beats[b := Ended])
    case FinishClose(t) => s.(open := false, healthQuit := None, callers := s.callers[t := Idle])
    case Listen(b) => s.(beats := s.beats[b := Listening(s.healthQuit)])
    case Timer(b) => s.(beats := s.beats[b := Beating])
    case Check(b, ok) => s.(beats := s.beats[b := AtTop], open := s.open && ok)
  }

  /** A run between any two states. */
  ghost predicate Steps(run: seq<State>, actions: seq<Action>) {
    && |run| == |actions| + 1
    && forall k :: 0 <= k < |actions| ==> Enabled(run[k], actions[k]) && run[k + 1] == After(run[k], actions[k])
  }

  ghost predicate IsRun(run: seq<State>, actions: seq<Action>) { Steps(run, actions) && Init(run[0]) }

  // ---- The invariant -------------------------------------------------------------------------------------

  /** The heartbeat will come round to listen again. */
  predicate Alive(b: Beat) { b.AtTop? || b.Listening? || b.Beating? }

  /** A Close that is through with its heartbeat, or needs none. */
  predicate Closing(pc: Pc) { pc.Awaiting? || pc.Locking? }

  /** Channels were made before they are used; who waits for an answer gets one; and a wallet that has a
      channel has a heartbeat alive or a Close at work on clearing it. */
  ghost predicate Inv(s: State) {
    && (s.healthQuit.Some? ==> s.healthQuit.value < s.next)
    && (forall t :: t in s.callers && s.callers[t].Sending? ==> s.callers[t].channel < s.next)
    && (forall b :: b in s.beats ==> b < s.next && (s.beats[b].Listening? && s.beats[b].channel.Some? ==> s.beats[b].channel.value < s.next))
    && (forall t :: t in s.callers && s.callers[t].Awaiting? ==> s.callers[t].beat in s.beats && s.beats[s.callers[t].beat] == Replying(t))
    && (s.healthQuit.Some? ==> (exists b :: b in s.beats && Alive(s.beats[b])) || (exists t :: t in s.callers && Closing(s.callers[t])))
  }

  lemma InvLive(s: State, a: Action)
    requires Inv(s) && Enabled(s, a)
    ensures var s' := After(s, a);
      s'.healthQuit.Some? ==> (exists b :: b in s'.beats && Alive(s'.beats[b])) || (exists t :: t in s'.callers && Closing(s'.callers[t]))
  {
    var s' := After(s, a);
    if s'.healthQuit.Some? {
      match a {
        case Open => assert Alive(s'.beats[s.next]);
        case Deliver(t, b) => assert Closing(s'.callers[t]);
        case Reply(t, b) => assert Closing(s'.callers[t]);
        case Listen(b) => assert Alive(s'.beats[b]);
        case Timer(b) => assert Alive(s'.beats[b]);
        case Check(b, ok) => assert Alive(s'.beats[b]);
        case StartClose(t) =>
          if b :| b in s.beats && Alive(s.beats[b]) {
            assert Alive(s'.beats[b]);
          } else {
            var t' :| t' in s.callers && Closing(s.callers[t']);
            assert Closing(s'.callers[t']);
          }
        case FinishClose(t) => assert false;
      }
    }
  }

  lemma StepInv(s: State, a: Action)
    requires Inv(s) && Enabled(s, a)
    ensures Inv(After(s, a))
  {
    InvLive(s, a);
  }

  lemma {:induction false} StepsInv(run: seq<State>, actions: seq<Action>, k: nat)
    requires Steps(run, actions) && Inv(run[0]) && k < |run|
    ensures Inv(run[k])
  {
    hide Inv, Enabled, After;
    if k > 0 {
      StepsInv(run, actions, k - 1);
      StepInv(run[k - 1], actions[k - 1]);
    }
  }

  lemma RunInv(run: seq<State>, actions: seq<Action>, k: nat)
    requires IsRun(run, actions) && k < |run|
    ensures Inv(run[k])
  {
    assert Inv(run[0]);
    hide Inv;
    StepsInv(run, actions, k);
  }

  // ---- What is open -----------------------------------------------------------------------------------------

  /** The action takes the wallet down: a Close, or a failed check. */
  predicate TakesDown(a: Action) { a.FinishClose? || (a.Check? && !a.ok) }

  /** Some Open before `k` was not followed by an action that takes the wallet down. */
  ghost predicate LeftUp(actions: seq<Action>, k: nat) {
    exists j :: 0 <= j < k && j < |actions| && actions[j].Open? && forall i :: j < i < k && i < |actions| ==> !TakesDown(actions[i])
  }

  /** The Open before `k` that made channel `c` was followed by no other, and by no Close. */
  ghost predicate LeftChannel(run: seq<State>, actions: seq<Action>, k: nat, c: int) {
    exists j :: 0 <= j < k && j < |actions| && j < |run| && actions[j].Open? && run[j].next == c
      && forall i :: j < i < k && i < |actions| ==> !actions[i].Open? && !actions[i].FinishClose?
  }

  lemma LeftUpStep(actions: seq<Action>, k: nat)
    requires k < |actions|
    ensures LeftUp(actions, k + 1) <==> actions[k].Open? || (LeftUp(actions, k) && !TakesDown(actions[k]))
  {
    hide TakesDown;
    if LeftUp(actions, k) && !TakesDown(actions[k]) {
      var j :| 0 <= j < k && j < |actions| && actions[j].Open? && forall i :: j < i < k && i < |actions| ==> !TakesDown(actions[i]);
      assert forall i :: j < i < k + 1 && i < |actions| ==> !TakesDown(actions[i]);
    }
  }

  lemma LeftChannelStep(run: seq<State>, actions: seq<Action>, k: nat, c: int)
    requires k < |actions| && k < |run|
    ensures LeftChannel(run, actions, k + 1, c) <==>
      (actions[k].Open? && run[k].next == c) || (LeftChannel(run, actions, k, c) && !actions[k].Open? && !actions[k].FinishClose?)
  {
    if LeftChannel(run, actions, k, c) && !actions[k].Open? && !actions[k].FinishClose? {
      var j :| 0 <= j < k && j < |actions| && j < |run| && actions[j].Open? && run[j].next == c
        && forall i :: j < i < k && i < |actions| ==> !actions[i].Open? && !actions[i].FinishClose?;
      assert forall i :: j < i < k + 1 && i < |actions| ==> !actions[i].Open? && !actions[i].FinishClose?;
    }
  }

  lemma OpenStep(s: State, a: Action)
    requires Enabled(s, a)
    ensures After(s, a).open <==> a.Open? || (s.open && !TakesDown(a))
    ensures After(s, a).healthQuit == if a.Open? then Some(s.next) else if a.FinishClose? then None else s.healthQuit
  {
  }

  /** In every state of every run, the wallet is open exactly when it was opened and neither closed nor taken
      down by a failed check since; and its channel is that of the last Open, until a Close. */
  lemma {:induction false} OpenExactly(run: seq<State>, actions: seq<Action>, k: nat, c: int)
    requires IsRun(run, actions) && k < |run|
    ensures run[k].open <==> LeftUp(actions, k)
    ensures run[k].healthQuit == Some(c) <==> LeftChannel(run, actions, k, c)
  {
    if k > 0 {
      hide LeftUp, LeftChannel, Init, Enabled, After, TakesDown;
      OpenExactly(run, actions, k - 1, c);
      OpenStep(run[k - 1], actions[k - 1]);
      LeftUpStep(actions, k - 1);
      LeftChannelStep(run, actions, k - 1, c);
    }
  }

  // ---- When a Close returns ----------------------------------------------------------------------------------

  /** Caller `t` is sending on a channel that no heartbeat listens on, and none will come to: it is not the
      wallet's channel, or no heartbeat is alive. */
  ghost predicate Stuck(s: State, t: int) {
    && t in s.callers && s.callers[t].Sending?
    && var channel := s.callers[t].channel;
    && (forall b :: b in s.beats ==> s.beats[b] != Listening(Some(channel)))
    && (s.healthQuit == Some(channel) ==> forall b :: b in s.beats ==> !Alive(s.beats[b]))
  }

  lemma StuckStep(s: State, a: Action, t: int)
    requires Inv(s) && Enabled(s, a) && Stuck(s, t)
    ensures Stuck(After(s, a), t)
  {
  }

  /** Who is stuck stays stuck, whatever happens. */
  lemma {:induction false} StuckForEver(run: seq<State>, actions: seq<Action>, k: nat, t: int)
    requires Steps(run, actions) && Inv(run[0]) && Stuck(run[0], t) && k < |run|
    ensures Stuck(run[k], t)
  {
    hide Inv, Enabled, After, Stuck;
    if k > 0 {
      StuckForEver(run, actions, k - 1, t);
      StepsInv(run, actions, k - 1);
      StuckStep(run[k - 1], actions[k - 1], t);
    }
  }

  ghost predicate LeadsBack(run: seq<State>, actions: seq<Action>, s: State, t: int) {
    Steps(run, actions) && run[0] == s && t in run[|actions|].callers && run[|actions|].callers[t].Idle?
  }

  /** Every Close of caller `t` before `k` was finished: it took the state lock and cleared the wallet. */
  ghost predicate AllFinished(actions: seq<Action>, k: nat, t: int) {
    forall j :: 0 <= j < k && j < |actions| && actions[j] == StartClose(t) ==> exists i :: j < i < k && i < |actions| && actions[i] == FinishClose(t)
  }

  lemma FinishedStep(actions: seq<Action>, k: nat, t: int)
    requires k < |actions|
    ensures AllFinished(actions, k + 1, t) <==> actions[k] == FinishClose(t) || (AllFinished(actions, k, t) && actions[k] != StartClose(t))
  {
    if AllFinished(actions, k + 1, t) && actions[k] != FinishClose(t) {
      forall j | 0 <= j < k && actions[j] == StartClose(t) ensures exists i :: j < i < k && i < |actions| && actions[i] == FinishClose(t) {
        var i :| j < i < k + 1 && actions[i] == FinishClose(t);
        assert i < k;
      }
    }
    if AllFinished(actions, k, t) && actions[k] != StartClose(t) {
      forall j | 0 <= j < k + 1 && actions[j] == StartClose(t) ensures exists i :: j < i < k + 1 && i < |actions| && actions[i] == FinishClose(t) {
        var i :| j < i < k && i < |actions| && actions[i] == FinishClose(t);
        assert i < k + 1;
      }
    }
  }

  lemma IdleStep(s: State, a: Action, t: int)
    requires Enabled(s, a)
    ensures t in s.callers <==> t in After(s, a).callers
    ensures t in s.callers ==> (After(s, a).callers[t].Idle? <==> a == FinishClose(t) || (s.callers[t].Idle? && a != StartClose(t)))
  {
  }

  /** In every state of every run, a caller is out of Close exactly when all of its Closes have cleared the
      wallet. */
  lemma {:induction false} ClosesClear(run: seq<State>, actions: seq<Action>, k: nat, t: int)
    requires IsRun(run, actions) && k < |run| && t in run[k].callers
    ensures run[k].callers[t].Idle? <==> AllFinished(actions, k, t)
  {
    if k > 0 {
      hide AllFinished, Init, Enabled, After;
      IdleStep(run[k - 1], actions[k - 1], t);
      ClosesClear(run, actions, k - 1, t);
      FinishedStep(actions, k - 1, t);
    }
  }

  /** From here some steps lead to a state where caller `t` has returned. */
  ghost predicate CanReturn(s: State, t: int) {
    exists run, actions :: LeadsBack(run, actions, s, t)
  }

  lemma StepBefore(s: State, a: Action, t: int)
    requires Enabled(s, a) && CanReturn(After(s, a), t)
    ensures CanReturn(s, t)
  {
    hide Enabled, After;
    var run, actions :| LeadsBack(run, actions, After(s, a), t);
    var run', actions' := [s] + run, [a] + actions;
    assert forall k :: 0 <= k < |actions| ==> Enabled(run[k], actions[k]) && run[k + 1] == After(run[k], actions[k]);
    assert LeadsBack(run', actions', s, t);
  }

  lemma Returned(s: State, t: int)
    requires t in s.callers && s.callers[t].Idle?
    ensures CanReturn(s, t)
  {
    var actions: seq<Action> := [];
    assert LeadsBack([s], actions, s, t);
  }

  lemma LockingReturns(s: State, t: int)
    requires t in s.callers && s.callers[t].Locking?
    ensures CanReturn(s, t)
  {
    hide CanReturn;
    Returned(After(s, FinishClose(t)), t);
    StepBefore(s, FinishClose(t), t);
  }

  lemma AwaitingReturns(s: State, t: int)
    requires Inv(s) && t in s.callers && s.callers[t].Awaiting?
    ensures CanReturn(s, t)
  {
    hide CanReturn;
    var b := s.callers[t].beat;
    LockingReturns(After(s, Reply(t, b)), t);
    StepBefore(s, Reply(t, b), t);
  }

  lemma HeardReturns(s: State, t: int, b: int)
    requires Inv(s) && Enabled(s, Deliver(t, b))
    ensures CanReturn(s, t)
  {
    hide CanReturn;
    StepInv(s, Deliver(t, b));
    AwaitingReturns(After(s, Deliver(t, b)), t);
    StepBefore(s, Deliver(t, b), t);
  }

  /** A heartbeat that is alive can come to listen on the wallet's channel. */
  lemma AliveHears(s: State, t: int, b: int)
    requires Inv(s) && t in s.callers && s.callers[t].Sending? && s.healthQuit == Some(s.callers[t].channel)
    requires b in s.beats && s.beats[b].AtTop?
    ensures CanReturn(s, t)
  {
    hide CanReturn;
    StepInv(s, Listen(b));
    HeardReturns(After(s, Listen(b)), t, b);
    StepBefore(s, Listen(b), t);
  }

  lemma BeatingHears(s: State, t: int, b: int)
    requires Inv(s) && t in s.callers && s.callers[t].Sending? && s.healthQuit == Some(s.callers[t].channel)
    requires b in s.beats && s.beats[b].Beating?
    ensures CanReturn(s, t)
  {
    hide CanReturn;
    StepInv(s, Check(b, true));
    AliveHears(After(s, Check(b, true)), t, b);
    StepBefore(s, Check(b, true), t);
  }

  lemma ListeningHears(s: State, t: int, b: int)
    requires Inv(s) && t in s.callers && s.callers[t].Sending? && s.healthQuit == Some(s.callers[t].channel)
    requires b in s.beats && s.beats[b].Listening?
    ensures CanReturn(s, t)
  {
    hide CanReturn;
    StepInv(s, Timer(b));
    BeatingHears(After(s, Timer(b)), t, b);
    StepBefore(s, Timer(b), t);
  }

  /** In every state of every run, a Close that has begun can return if and only if it is not stuck. */
  lemma ReturnsExactly(run: seq<State>, actions: seq<Action>, k: nat, t: int)
    requires IsRun(run, actions) && k < |run| && t in run[k].callers && !run[k].callers[t].Idle?
    ensures CanReturn(run[k], t) <==> !Stuck(run[k], t)
  {
    RunInv(run, actions, k);
    var s := run[k];
    if Stuck(s, t) {
      hide Inv, Enabled, After, IsRun;
      if CanReturn(s, t) {
        var r, a :| LeadsBack(r, a, s, t);
        StuckForEver(r, a, |a|, t);
        assert false;
      }
    } else {
      hide CanReturn, IsRun;
      NotStuckReturns(s, t);
    }
  }

  lemma NotStuckReturns(s: State, t: int)
    requires Inv(s) && t in s.callers && !s.callers[t].Idle? && !Stuck(s, t)
    ensures CanReturn(s, t)
  {
    hide CanReturn, Inv;
    match s.callers[t] {
      case Locking => LockingReturns(s, t);
      case Awaiting(_) => AwaitingReturns(s, t);
      case Sending(channel) =>
        if b :| b in s.beats && s.beats[b] == Listening(Some(channel)) {
          HeardReturns(s, t, b);
        } else {
          var b :| b in s.beats && Alive(s.beats[b]);
          match s.beats[b] {
            case AtTop => AliveHears(s, t, b);
            case Beating => BeatingHears(s, t, b);
            case Listening(_) => ListeningHears(s, t, b);
          }
        }
    }
  }

  /** A Close is stuck only if the wallet's channel has changed since it was read, or another Close is at
      work on clearing it. */
  lemma StuckMeansOvertaken(run: seq<State>, actions: seq<Action>, k: nat, t: int)
    requires IsRun(run, actions) && k < |run| && Stuck(run[k], t)
    ensures run[k].healthQuit != Some(run[k].callers[t].channel)
      || exists t' :: t' != t && t' in run[k].callers && Closing(run[k].callers[t'])
  {
    RunInv(run, actions, k);
  }

  // ---- Two runs that leave a Close stuck -------------------------------------------------------------------

  ghost predicate Ends(run: seq<State>, actions: seq<Action>, s: State) { IsRun(run, actions) && run[|actions|] == s }

  lemma Extend(run: seq<State>, actions: seq<Action>, s: State, a: Action, s': State) returns (run': seq<State>, actions': seq<Action>)
    requires Ends(run, actions, s) && Enabled(s, a) && After(s, a) == s'
    ensures Ends(run', actions', s')
  {
    hide Enabled, After, Init;
    run', actions' := run + [s'], actions + [a];
  }

  /** Two callers, after the wallet was opened once. */
  function Once(b: Beat, pc1: Pc, pc2: Pc): State {
    State(true, Some(0), 1, map[0 := b], map[1 := pc1, 2 := pc2])
  }

  lemma OpenedOnce() returns (run: seq<State>, actions: seq<Action>)
    ensures Ends(run, actions, Once(AtTop, Idle, Idle))
  {
    var s := State(false, None, 0, map[], map[1 := Idle, 2 := Idle]);
    run, actions := [s], [];
    assert Ends(run, actions, s);
    run, actions := Extend(run, actions, s, Open, Once(AtTop, Idle, Idle));
  }

  /** Of two Closes that read the same channel, the one the heartbeat does not answer is stuck. */
  lemma SecondCloseStuck() returns (run: seq<State>, actions: seq<Action>)
    ensures IsRun(run, actions) && Stuck(run[|actions|], 2) && 1 in run[|actions|].callers && run[|actions|].callers[1].Awaiting?
  {
    run, actions := OpenedOnce();
    hide Ends;
    run, actions := Extend(run, actions, Once(AtTop, Idle, Idle), StartClose(1), Once(AtTop, Sending(0), Idle));
    run, actions := Extend(run, actions, Once(AtTop, Sending(0), Idle), StartClose(2), Once(AtTop, Sending(0), Sending(0)));
    run, actions := BothSending(run, actions);
  }

  lemma BothSending(run: seq<State>, actions: seq<Action>) returns (run': seq<State>, actions': seq<Action>)
    requires Ends(run, actions, Once(AtTop, Sending(0), Sending(0)))
    ensures IsRun(run', actions') && Stuck(run'[|actions'|], 2) && 1 in run'[|actions'|].callers && run'[|actions'|].callers[1].Awaiting?
  {
    var r1, a1 := Extend(run, actions, Once(AtTop, Sending(0), Sending(0)), Listen(0), Once(Listening(Some(0)), Sending(0), Sending(0)));
    run', actions' := Extend(r1, a1, Once(Listening(Some(0)), Sending(0), Sending(0)), Deliver(1, 0), Once(Replying(1), Awaiting(0), Sending(0)));
  }

  /** A single Close is stuck when a failed check tears the wallet down and it is opened again before the
      heartbeat listens. */
  lemma ReopenedStuck() returns (run: seq<State>, actions: seq<Action>)
    ensures IsRun(run, actions) && Stuck(run[|actions|], 1) && 2 in run[|actions|].callers && run[|actions|].callers[2].Idle?
  {
    run, actions := OpenedOnce();
    hide Ends;
    run, actions := Extend(run, actions, Once(AtTop, Idle, Idle), Listen(0), Once(Listening(Some(0)), Idle, Idle));
    run, actions := Extend(run, actions, Once(Listening(Some(0)), Idle, Idle), Timer(0), Once(Beating, Idle, Idle));
    run, actions := Extend(run, actions, Once(Beating, Idle, Idle), StartClose(1), Once(Beating, Sending(0), Idle));
    run, actions := TornDown(run, actions);
  }

  lemma TornDown(run: seq<State>, actions: seq<Action>) returns (run': seq<State>, actions': seq<Action>)
    requires Ends(run, actions, Once(Beating, Sending(0), Idle))
    ensures IsRun(run', actions') && Stuck(run'[|actions'|], 1) && 2 in run'[|actions'|].callers && run'[|actions'|].callers[2].Idle?
  {
    var down := Once(AtTop, Sending(0), Idle).(open := false);
    var r1, a1 := Extend(run, actions, Once(Beating, Sending(0), Idle), Check(0, false), down);
    run', actions' := Extend(r1, a1, down, Open, State(true, Some(1), 2, map[0 := AtTop, 1 := AtTop], map[1 := Sending(0), 2 := Idle]));
  }
}
