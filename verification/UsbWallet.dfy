/** USB wallets and their hub (wallets/usbwallet/wallet.go, hub.go) as a state machine: any number of
    threads and wallets, each acquisition, release and driver call a step of its own.

    The handshake that ends a heartbeat (see HealthCheck) can only hold a Close back, and a waiting writer
    only new readers; neither is represented here, so every real run is a run here. */
module UsbWallet {
  import opened Options
  import opened GoInt

  type Address = int
  type Path = seq<uint32>

  datatype Wallet = Wallet(
    writer: Option<int>,             // stateLock, held for writing
    readers: set<int>,               // stateLock, held for reading
    token: bool,                     // commsLock: its channel holds the token
    device: bool,                    // device is not nil
    paths: Option<map<Address, Path>>,
    accounts: seq<Address>)

  datatype Hub = Hub(lock: Option<int>, commsPend: int)

  /** The operations that take the state lock for reading. */
  datatype Op = Beat | Derive(path: Path, pin: bool) | Sign(addr: Address, path: Path)

  const HARDENED: uint32 := 0x8000_0000

  /** formatPathIfNeeded indexes the first three values of a path: a shorter one panics. */
  predicate Short(op: Op) { op.Derive? && |op.path| < 3 }

  function Harden(path: Path): Path
    requires |path| >= 3
  {
    seq(|path|, i requires 0 <= i < |path| => if i < 3 && path[i] < HARDENED then path[i] + HARDENED else path[i])
  }

  /** The operation once its path, if it brings one, is hardened. */
  function Hardened(op: Op): Op
    requires !Short(op)
  {
    if op.Derive? then Derive(Harden(op.path), op.pin) else op
  }

  predicate IsHardened(path: Path) {
    |path| >= 3 && path[0] >= HARDENED && path[1] >= HARDENED && path[2] >= HARDENED
  }

  datatype Outcome = Skipped | Failed | Done(addr: Address)

  /** Where a thread stands. */
  datatype Pc =
    | Idle
    | Opening(w: int) | Initializing(w: int)
    | Reading(w: int, op: Op) | Waiting(w: int, op: Op)
    | ToRaise(w: int, op: Op) | Raising(w: int, op: Op)
    | Exchanging(w: int, op: Op)
    | ToLower(w: int, op: Op, out: Outcome) | Lowering(w: int, op: Op, out: Outcome)
    | Returning(w: int, op: Op, out: Outcome) | Unlocking(w: int, op: Op, out: Outcome)
    | ToClose(w: int) | Closing(w: int) | ClosingDriver(w: int)
    | ToPin(w: int, addr: Address, path: Path) | Pinning(w: int, addr: Address, path: Path)
    | Guarding | Enumerating

  datatype State = State(
    onLinux: bool,
    threads: map<int, Pc>,
    wallets: map<int, Wallet>,
    hub: Hub,
    crashed: bool)

  datatype Action =
    | StartOpen(w: int) | OpenDevice(ok: bool) | InitDone(ok: bool)
    | StartRead(w: int, op: Op) | LookUp | TakeToken | LockHub | Raise | Finish(out: Outcome) | Lower | ReturnToken | RUnlock
    | StartClose(w: int) | LockClose | CloseDevice | CloseDriver
    | LockPin | Pin
    | DriverPanic
    | StartScan | ScanCheck | ScanDone

  // ---- Steps ---------------------------------------------------------------------------------------

  predicate AtWallet(pc: Pc) { !pc.Idle? && !pc.Guarding? && !pc.Enumerating? }

  predicate Starts(a: Action) { a.StartOpen? || a.StartRead? || a.StartClose? }

  /** The wallet a step is about. */
  function Target(pc: Pc, a: Action): Option<int> {
    if Starts(a) then Some(a.w) else if AtWallet(pc) then Some(pc.w) else None
  }

  predicate Free(v: Wallet) { v.writer.None? && v.readers == {} }

  predicate Ready(a: Action, pc: Pc, v: Wallet, hub: Hub) {
    match a
    case StartOpen(_) => pc.Idle? && Free(v)
    case OpenDevice(_) => pc.Opening?
    case InitDone(_) => pc.Initializing?
    case StartRead(_, op) => pc.Idle? && (Short(op) || v.writer.None?)
    case LookUp => pc.Reading?
    case TakeToken => pc.Waiting? && v.token
    case LockHub => (pc.ToRaise? || pc.ToLower?) && hub.lock.None?
    case Raise => pc.Raising?
    case Finish(out) => pc.Exchanging? && !out.Skipped?
    case Lower => pc.Lowering?
    case ReturnToken => pc.Returning? && !v.token
    case RUnlock => pc.Unlocking?
    case StartClose(_) => pc.Idle?
    case LockClose => pc.ToClose? && Free(v)
    case CloseDevice => pc.Closing?
    case CloseDriver => pc.ClosingDriver?
    case LockPin => pc.ToPin? && Free(v)
    case Pin => pc.Pinning?
    case DriverPanic => pc.Exchanging? || pc.Initializing? || pc.ClosingDriver?
    case _ => false
  }

  predicate ScanReady(a: Action, pc: Pc, hub: Hub, onLinux: bool) {
    match a
    case StartScan => pc.Idle? && (onLinux ==> hub.lock.None?)
    case ScanCheck => pc.Guarding?
    case ScanDone => pc.Enumerating?
    case _ => false
  }

  predicate Enabled(s: State, t: int, a: Action) {
    && !s.crashed && t in s.threads
    && var pc := s.threads[t];
    match Target(pc, a)
    case Some(w) => w in s.wallets && Ready(a, pc, s.wallets[w], s.hub)
    case None => ScanReady(a, pc, s.hub, s.onLinux)
  }

  /** Where the thread goes next. */
  function PcAfter(a: Action, pc: Pc, v: Wallet, hub: Hub): Pc
    requires Ready(a, pc, v, hub)
  {
    match a
    case StartOpen(w) => Opening(w)
    case OpenDevice(ok) => if v.paths.Some? || (!v.device && !ok) then Idle else Initializing(pc.w)
    case InitDone(_) => Idle
    case StartRead(w, op) => if Short(op) then Idle else Reading(w, Hardened(op))
    case LookUp =>
      if !v.device then Unlocking(pc.w, pc.op, Skipped)
      else (
        match pc.op
        case Sign(addr, _) =>
          if v.paths.Some? && addr in v.paths.value then Waiting(pc.w, Sign(addr, v.paths.value[addr]))
          else Unlocking(pc.w, pc.op, Skipped)
        case _ => Waiting(pc.w, pc.op))
    case TakeToken => if pc.op.Sign? then ToRaise(pc.w, pc.op) else Exchanging(pc.w, pc.op)
    case LockHub => if pc.ToRaise? then Raising(pc.w, pc.op) else Lowering(pc.w, pc.op, pc.out)
    case Raise => Exchanging(pc.w, pc.op)
    case Finish(out) => if pc.op.Sign? then ToLower(pc.w, pc.op, out) else Returning(pc.w, pc.op, out)
    case Lower => Returning(pc.w, pc.op, pc.out)
    case ReturnToken => Unlocking(pc.w, pc.op, pc.out)
    case RUnlock =>
      if pc.op.Beat? && pc.out.Failed? then ToClose(pc.w)
      else if pc.op.Derive? && pc.op.pin && pc.out.Done? then ToPin(pc.w, pc.out.addr, pc.op.path)
      else Idle
    case StartClose(w) => ToClose(w)
    case LockClose => Closing(pc.w)
    case CloseDevice => if v.device then ClosingDriver(pc.w) else Idle
    case CloseDriver => Idle
    case LockPin => Pinning(pc.w, pc.addr, pc.path)
    case Pin => Idle
    case DriverPanic => pc
  }

  /** What becomes of the wallet. */
  function WalletAfter(t: int, a: Action, pc: Pc, v: Wallet, hub: Hub): Wallet
    requires Ready(a, pc, v, hub)
  {
    match a
    case StartOpen(_) => v.(writer := Some(t))
    case OpenDevice(ok) =>
      if v.paths.Some? then v.(writer := None)
      else if v.device then v
      else if ok then v.(device := true, token := true)
      else v.(writer := None)
    case InitDone(ok) => v.(writer := None, paths := if ok then Some(map[]) else v.paths)
    case StartRead(_, op) => if Short(op) then v else v.(readers := v.readers + {t})
    case TakeToken => v.(token := false)
    case ReturnToken => v.(token := true)
    case RUnlock => v.(readers := v.readers - {t})
    case LockClose => v.(writer := Some(t))
    case CloseDevice => if v.device then v.(device := false, accounts := [], paths := None) else v.(writer := None)
    case CloseDriver => v.(writer := None)
    case LockPin => v.(writer := Some(t))
    case Pin =>
      if v.paths.Some? && pc.addr in v.paths.value then v.(writer := None)
      else v.(writer := None, accounts := v.accounts + [pc.addr],
              paths := if v.paths.Some? then Some(v.paths.value[pc.addr := pc.path]) else None)
    case _ => v
  }

  function HubAfter(t: int, a: Action, hub: Hub, onLinux: bool): Hub {
    match a
    case LockHub => hub.(lock := Some(t))
    case Raise => Hub(None, hub.commsPend + 1)
    case Lower => Hub(None, hub.commsPend - 1)
    case StartScan => if onLinux then hub.(lock := Some(t)) else hub
    case ScanCheck => if hub.commsPend > 0 then hub.(lock := None) else hub
    case ScanDone => if onLinux then hub.(lock := None) else hub
    case _ => hub
  }

  function ScanAfter(a: Action, hub: Hub, onLinux: bool): Pc {
    match a
    case StartScan => if onLinux then Guarding else Enumerating
    case ScanCheck => if hub.commsPend > 0 then Idle else Enumerating
    case _ => Idle
  }

  /** Pinning writes into the map of paths: into a nil map, that is a panic. So is a short path, and so is
      whatever makes the driver panic. */
  predicate Panics(a: Action, pc: Pc, v: Wallet) {
    (a.Pin? && pc.Pinning? && v.paths.None?) || (a.StartRead? && Short(a.op)) || a.DriverPanic?
  }

  function After(s: State, t: int, a: Action): State
    requires Enabled(s, t, a)
  {
    var pc := s.threads[t];
    var hub := HubAfter(t, a, s.hub, s.onLinux);
    match Target(pc, a)
    case Some(w) =>
      s.(threads := s.threads[t := PcAfter(a, pc, s.wallets[w], s.hub)],
         wallets := s.wallets[w := WalletAfter(t, a, pc, s.wallets[w], s.hub)],
         hub := hub, crashed := Panics(a, pc, s.wallets[w]))
    case None => s.(threads := s.threads[t := ScanAfter(a, s.hub, s.onLinux)], hub := hub)
  }

  const FRESH := Wallet(None, {}, false, false, None, [])

  predicate Init(s: State) {
    && (forall t :: t in s.threads ==> s.threads[t] == Idle)
    && (forall w :: w in s.wallets ==> s.wallets[w] == FRESH)
    && s.hub == Hub(None, 0) && !s.crashed
  }

  // ---- What a thread holds -------------------------------------------------------------------------

  predicate Writes(pc: Pc, w: int) {
    (pc.Opening? || pc.Initializing? || pc.Closing? || pc.ClosingDriver? || pc.Pinning?) && pc.w == w
  }

  predicate Holds(pc: Pc, w: int) {
    (pc.ToRaise? || pc.Raising? || pc.Exchanging? || pc.ToLower? || pc.Lowering? || pc.Returning?) && pc.w == w
  }

  predicate Reads(pc: Pc, w: int) {
    Holds(pc, w) || ((pc.Reading? || pc.Waiting? || pc.Unlocking?) && pc.w == w)
  }

  predicate HoldsHub(pc: Pc, onLinux: bool) {
    pc.Raising? || pc.Lowering? || pc.Guarding? || (onLinux && pc.Enumerating?)
  }

  /** Between raising and lowering commsPend. */
  predicate Pends(pc: Pc) {
    (pc.Exchanging? && pc.op.Sign?) || pc.ToLower? || pc.Lowering?
  }

  // ---- The invariant ---------------------------------------------------------------------------------

  /** Thread `t` and wallet `w` agree on who holds the locks. */
  predicate LocksAgree(t: int, pc: Pc, w: int, v: Wallet) {
    && (v.writer == Some(t) <==> Writes(pc, w))
    && (t in v.readers <==> Reads(pc, w))
    && (Holds(pc, w) ==> !v.token)
  }

  /** What the thread relies on at the wallet. */
  predicate UseAgrees(pc: Pc, w: int, v: Wallet) {
    && (Holds(pc, w) || (pc.Waiting? && pc.w == w) ==> v.device && SignsPinned(pc.op, v))
    && (pc.Initializing? && pc.w == w ==> v.device && v.paths.None?)
    && (pc.ToRaise? || pc.Raising? || pc.ToLower? || pc.Lowering? ==> pc.op.Sign?)
  }

  predicate Agrees(t: int, pc: Pc, w: int, v: Wallet) { LocksAgree(t, pc, w, v) && UseAgrees(pc, w, v) }

  /** A signing uses the path pinned for its account. */
  predicate SignsPinned(op: Op, v: Wallet) {
    op.Sign? ==> v.paths.Some? && op.addr in v.paths.value && v.paths.value[op.addr] == op.path
  }

  /** The wallet on its own: a writer excludes readers, paths imply a device, and the accounts are
      the keys of the paths, each once. */
  ghost predicate Coherent(v: Wallet) {
    && (v.writer.Some? ==> v.readers == {})
    && (v.paths.Some? ==> v.device)
    && (v.paths.None? ==> v.accounts == [])
    && (v.paths.Some? ==> forall x :: x in v.accounts <==> x in v.paths.value)
    && forall i, j :: 0 <= i < j < |v.accounts| ==> v.accounts[i] != v.accounts[j]
  }

  predicate HubAgrees(t: int, pc: Pc, hub: Hub, onLinux: bool) {
    && (hub.lock == Some(t) <==> HoldsHub(pc, onLinux))
    && (onLinux && pc.Enumerating? ==> hub.commsPend == 0)
    && (pc.Guarding? ==> onLinux)
  }

  function Pending(s: State): set<int> {
    set t | t in s.threads && Pends(s.threads[t])
  }

  /** An open device's token is in its channel or with a thread. */
  ghost predicate TokenSomewhere(s: State, w: int)
    requires w in s.wallets
  {
    s.wallets[w].device && !s.wallets[w].token ==> exists t :: t in s.threads && Holds(s.threads[t], w)
  }

  ghost predicate Inv(s: State) {
    && (forall t, w :: t in s.threads && w in s.wallets ==> Agrees(t, s.threads[t], w, s.wallets[w]))
    && (forall t1, t2, w :: t1 in s.threads && t2 in s.threads && t1 != t2 && w in s.wallets && Holds(s.threads[t1], w) ==> !Holds(s.threads[t2], w))
    && (forall w :: w in s.wallets ==> TokenSomewhere(s, w) && (!s.crashed ==> Coherent(s.wallets[w])))
    && (forall t :: t in s.threads ==> HubAgrees(t, s.threads[t], s.hub, s.onLinux))
    && s.hub.commsPend == |Pending(s)|
  }

  lemma IdleAgrees(t: int, w: int)
    ensures Agrees(t, Idle, w, FRESH) && HubAgrees(t, Idle, Hub(None, 0), true) && HubAgrees(t, Idle, Hub(None, 0), false)
    ensures !Holds(Idle, w) && Coherent(FRESH)
  {
  }

  lemma InitInv(s: State)
    requires Init(s)
    ensures Inv(s)
  {
    hide Agrees, HubAgrees, Holds;
    forall t, w | t in s.threads && w in s.wallets ensures Agrees(t, s.threads[t], w, s.wallets[w]) { IdleAgrees(t, w); }
    forall t ensures t !in Pending(s) {
      if t in s.threads { assert s.threads[t] == Idle; }
    }
    forall t, w | t in s.threads ensures !Holds(s.threads[t], w) { IdleAgrees(t, w); }
    forall t | t in s.threads ensures HubAgrees(t, s.threads[t], s.hub, s.onLinux) { IdleAgrees(t, 0); }
  }

  // ---- Steps keep it -----------------------------------------------------------------------------------

  /** The thread that moves, at the wallet it is at. */
  lemma SelfStep(t: int, a: Action, pc: Pc, w: int, v: Wallet, hub: Hub)
    requires Ready(a, pc, v, hub) && Target(pc, a) == Some(w) && Agrees(t, pc, w, v) && Coherent(v)
    ensures Agrees(t, PcAfter(a, pc, v, hub), w, WalletAfter(t, a, pc, v, hub))
  {
    hide LocksAgree, UseAgrees, PcAfter, WalletAfter, Coherent;
    SelfLocks(t, a, pc, w, v, hub);
    SelfUse(t, a, pc, w, v, hub);
  }

  lemma SelfLocks(t: int, a: Action, pc: Pc, w: int, v: Wallet, hub: Hub)
    requires Ready(a, pc, v, hub) && Target(pc, a) == Some(w) && Agrees(t, pc, w, v) && Coherent(v)
    ensures LocksAgree(t, PcAfter(a, pc, v, hub), w, WalletAfter(t, a, pc, v, hub))
  {
    hide UseAgrees, Coherent;
  }

  lemma SelfUse(t: int, a: Action, pc: Pc, w: int, v: Wallet, hub: Hub)
    requires Ready(a, pc, v, hub) && Target(pc, a) == Some(w) && Agrees(t, pc, w, v) && Coherent(v)
    ensures UseAgrees(PcAfter(a, pc, v, hub), w, WalletAfter(t, a, pc, v, hub))
  {
    hide LocksAgree, Coherent;
  }

  /** The thread that moves, and any other wallet. */
  lemma SelfElsewhere(t: int, a: Action, pc: Pc, w: int, v: Wallet, hub: Hub, w': int, v': Wallet)
    requires Ready(a, pc, v, hub) && Target(pc, a) == Some(w) && Agrees(t, pc, w, v) && w' != w && Agrees(t, pc, w', v')
    ensures Agrees(t, PcAfter(a, pc, v, hub), w', v')
  {
  }

  /** Any other thread, at the wallet that changes. */
  lemma OtherStep(t: int, a: Action, pc: Pc, w: int, v: Wallet, hub: Hub, t': int, pc': Pc)
    requires Ready(a, pc, v, hub) && Target(pc, a) == Some(w) && Agrees(t, pc, w, v) && Coherent(v)
    requires t' != t && Agrees(t', pc', w, v) && !(Holds(pc, w) && Holds(pc', w))
    ensures Agrees(t', pc', w, WalletAfter(t, a, pc, v, hub))
  {
  }

  lemma CoherentStep(t: int, a: Action, pc: Pc, w: int, v: Wallet, hub: Hub)
    requires Ready(a, pc, v, hub) && Target(pc, a) == Some(w) && Agrees(t, pc, w, v) && Coherent(v)
    ensures !Panics(a, pc, v) ==> Coherent(WalletAfter(t, a, pc, v, hub))
  {
    if a.Pin? {
      if !Panics(a, pc, v) { CoherentPin(v.(writer := None), pc.addr, pc.path); }
    }
  }

  lemma CoherentPin(v: Wallet, addr: Address, path: Path)
    requires Coherent(v) && v.paths.Some? && v.writer.None? && v.readers == {}
    ensures addr !in v.paths.value ==> Coherent(v.(accounts := v.accounts + [addr], paths := Some(v.paths.value[addr := path])))
    ensures Coherent(v)
  {
    var v' := v.(accounts := v.accounts + [addr], paths := Some(v.paths.value[addr := path]));
    assert forall x :: x in v'.accounts <==> x in v.accounts || x == addr;
  }

  /** Who holds the token of a wallet after the step. */
  lemma HoldsStep(t: int, a: Action, pc: Pc, w: int, v: Wallet, hub: Hub, w': int)
    requires Ready(a, pc, v, hub) && Target(pc, a) == Some(w) && Agrees(t, pc, w, v)
    ensures Holds(PcAfter(a, pc, v, hub), w') ==> w' == w && (Holds(pc, w) || v.token)
    ensures Holds(pc, w') ==> w' == w && (Holds(PcAfter(a, pc, v, hub), w) || WalletAfter(t, a, pc, v, hub).token)
    ensures var v' := WalletAfter(t, a, pc, v, hub);
      v'.device && !v'.token && !Holds(PcAfter(a, pc, v, hub), w) ==> v.device && !v.token
  {
    hide UseAgrees;
  }

  lemma HubStep(t: int, a: Action, pc: Pc, v: Wallet, hub: Hub, onLinux: bool)
    requires Ready(a, pc, v, hub) && HubAgrees(t, pc, hub, onLinux)
    ensures HubAgrees(t, PcAfter(a, pc, v, hub), HubAfter(t, a, hub, onLinux), onLinux)
  {
  }

  lemma HubOther(t: int, a: Action, pc: Pc, hub: Hub, onLinux: bool, t': int, pc': Pc)
    requires (exists v :: Ready(a, pc, v, hub)) || ScanReady(a, pc, hub, onLinux)
    requires HubAgrees(t, pc, hub, onLinux) && t' != t && HubAgrees(t', pc', hub, onLinux)
    ensures HubAgrees(t', pc', HubAfter(t, a, hub, onLinux), onLinux)
  {
  }

  lemma HubScan(t: int, a: Action, pc: Pc, hub: Hub, onLinux: bool)
    requires ScanReady(a, pc, hub, onLinux) && HubAgrees(t, pc, hub, onLinux) && hub.commsPend >= 0
    ensures HubAgrees(t, ScanAfter(a, hub, onLinux), HubAfter(t, a, hub, onLinux), onLinux)
    ensures !Pends(ScanAfter(a, hub, onLinux)) && !Pends(pc) && HubAfter(t, a, hub, onLinux).commsPend == hub.commsPend
  {
  }

  /** commsPend follows the section it counts. */
  lemma PendStep(t: int, a: Action, pc: Pc, w: int, v: Wallet, hub: Hub, onLinux: bool)
    requires Ready(a, pc, v, hub) && Target(pc, a) == Some(w) && Agrees(t, pc, w, v)
    ensures HubAfter(t, a, hub, onLinux).commsPend - hub.commsPend
         == (if Pends(PcAfter(a, pc, v, hub)) then 1 else 0) - (if Pends(pc) then 1 else 0)
  {
  }

  lemma PendingStep(s: State, t: int, pc': Pc)
    requires t in s.threads
    ensures |Pending(s.(threads := s.threads[t := pc']))| - |Pending(s)|
         == (if Pends(pc') then 1 else 0) - (if Pends(s.threads[t]) then 1 else 0)
  {
    hide Pends;
    var s' := s.(threads := s.threads[t := pc']);
    assert Pending(s') == if Pends(pc') then Pending(s) + {t} else Pending(s) - {t};
  }

  // ---- The whole state ---------------------------------------------------------------------------------

  /** The facts about one thread and one wallet. */
  lemma InvAt(s: State, t: int, w: int)
    requires Inv(s) && !s.crashed && t in s.threads && w in s.wallets
    ensures Agrees(t, s.threads[t], w, s.wallets[w]) && Coherent(s.wallets[w])
  {
  }

  lemma InvPair(s: State, t1: int, t2: int, w: int)
    requires Inv(s) && t1 in s.threads && t2 in s.threads && w in s.wallets
    ensures t1 != t2 ==> !(Holds(s.threads[t1], w) && Holds(s.threads[t2], w))
    ensures Holds(s.threads[t1], w) ==> !s.wallets[w].token
  {
    hide UseAgrees, HubAgrees, Coherent, TokenSomewhere, Holds, Writes, Reads;
    assert Agrees(t1, s.threads[t1], w, s.wallets[w]);
  }

  lemma InvHub(s: State, t: int)
    requires Inv(s) && t in s.threads
    ensures HubAgrees(t, s.threads[t], s.hub, s.onLinux) && s.hub.commsPend == |Pending(s)|
  {
    hide Agrees, HubAgrees, Coherent, TokenSomewhere, Holds;
  }

  lemma InvToken(s: State, w: int)
    requires Inv(s) && w in s.wallets
    ensures TokenSomewhere(s, w)
  {
    hide Agrees, HubAgrees, Coherent, Holds;
  }

  lemma AgreesStep(s: State, t: int, a: Action, t': int, w': int)
    requires Inv(s) && Enabled(s, t, a) && t' in s.threads && w' in s.wallets
    ensures Agrees(t', After(s, t, a).threads[t'], w', After(s, t, a).wallets[w'])
  {
    hide Agrees, Coherent, Holds, Inv, PcAfter, WalletAfter, HubAfter, Panics, Ready, ScanReady, Target, ScanAfter;
    InvAt(s, t', w');
    InvAt(s, t, w');
    InvPair(s, t, t', w');
    var pc := s.threads[t];
    match Target(pc, a) {
      case Some(w) =>
        InvAt(s, t, w);
        var v := s.wallets[w];
        if t' == t {
          if w' == w { SelfStep(t, a, pc, w, v, s.hub); } else { SelfElsewhere(t, a, pc, w, v, s.hub, w', s.wallets[w']); }
        } else if w' == w {
          OtherStep(t, a, pc, w, v, s.hub, t', s.threads[t']);
        }
      case None =>
        if t' == t { ScanAgrees(t, a, pc, s.hub, s.onLinux, w', s.wallets[w']); }
    }
  }

  lemma ScanAgrees(t: int, a: Action, pc: Pc, hub: Hub, onLinux: bool, w: int, v: Wallet)
    requires ScanReady(a, pc, hub, onLinux) && Agrees(t, pc, w, v)
    ensures Agrees(t, ScanAfter(a, hub, onLinux), w, v)
    ensures !Holds(ScanAfter(a, hub, onLinux), w) && !Holds(pc, w)
  {
  }

  lemma ExclusiveStep(s: State, t: int, a: Action, t1: int, t2: int, w: int)
    requires Inv(s) && Enabled(s, t, a) && t1 in s.threads && t2 in s.threads && t1 != t2 && w in s.wallets
    ensures !(Holds(After(s, t, a).threads[t1], w) && Holds(After(s, t, a).threads[t2], w))
  {
    hide Agrees, Coherent, Holds, Inv, PcAfter, WalletAfter, HubAfter, Panics, Ready, ScanReady, Target, ScanAfter;
    InvPair(s, t1, t2, w);
    InvPair(s, t2, t1, w);
    InvAt(s, t, w);
    var pc := s.threads[t];
    match Target(pc, a) {
      case Some(w0) =>
        InvAt(s, t, w0);
        HoldsStep(t, a, pc, w0, s.wallets[w0], s.hub, w);
      case None => ScanAgrees(t, a, pc, s.hub, s.onLinux, w, s.wallets[w]);
    }
  }

  lemma TokenStep(s: State, t: int, a: Action, w: int)
    requires Inv(s) && Enabled(s, t, a) && w in s.wallets
    ensures TokenSomewhere(After(s, t, a), w)
  {
    hide Agrees, Coherent, Holds, Inv, PcAfter, WalletAfter, HubAfter, Panics, Ready, ScanReady, Target, ScanAfter;
    InvToken(s, w);
    InvAt(s, t, w);
    var s' := After(s, t, a);
    var pc := s.threads[t];
    match Target(pc, a) {
      case Some(w0) =>
        InvAt(s, t, w0);
        HoldsStep(t, a, pc, w0, s.wallets[w0], s.hub, w);
      case None => ScanAgrees(t, a, pc, s.hub, s.onLinux, w, s.wallets[w]);
    }
    if s'.wallets[w].device && !s'.wallets[w].token && !Holds(s'.threads[t], w) {
      var t' :| t' in s.threads && Holds(s.threads[t'], w);
      assert s'.threads[t'] == s.threads[t'] || t' == t;
    }
  }

  lemma CoherentAll(s: State, t: int, a: Action, w: int)
    requires Inv(s) && Enabled(s, t, a) && w in s.wallets
    ensures !After(s, t, a).crashed ==> Coherent(After(s, t, a).wallets[w])
  {
    hide Agrees, Coherent, Inv, PcAfter, WalletAfter, HubAfter, Ready, ScanReady, Target, ScanAfter;
    InvAt(s, t, w);
    var pc := s.threads[t];
    if Target(pc, a) == Some(w) {
      CoherentStep(t, a, pc, w, s.wallets[w], s.hub);
    }
  }

  lemma HubAll(s: State, t: int, a: Action, t': int)
    requires Inv(s) && Enabled(s, t, a) && t' in s.threads
    ensures HubAgrees(t', After(s, t, a).threads[t'], After(s, t, a).hub, s.onLinux)
  {
    hide HubAgrees, Inv, PcAfter, WalletAfter, HubAfter, ScanAfter, Ready, ScanReady, Target;
    InvHub(s, t);
    InvHub(s, t');
    var pc := s.threads[t];
    if t' != t {
      assert Target(pc, a).Some? ==> Ready(a, pc, s.wallets[Target(pc, a).value], s.hub);
      HubOther(t, a, pc, s.hub, s.onLinux, t', s.threads[t']);
    } else {
      match Target(pc, a) {
        case Some(w) => HubStep(t, a, pc, s.wallets[w], s.hub, s.onLinux);
        case None => HubScan(t, a, pc, s.hub, s.onLinux);
      }
    }
  }

  lemma PendAll(s: State, t: int, a: Action)
    requires Inv(s) && Enabled(s, t, a)
    ensures After(s, t, a).hub.commsPend == |Pending(After(s, t, a))|
  {
    hide Inv, PcAfter, WalletAfter, HubAfter, ScanAfter, Agrees, HubAgrees, Ready, ScanReady, Target, Pends;
    InvHub(s, t);
    var pc := s.threads[t];
    var s' := After(s, t, a);
    PendingStep(s, t, s'.threads[t]);
    assert Pending(s') == Pending(s.(threads := s'.threads));
    match Target(pc, a) {
      case Some(w) =>
        InvAt(s, t, w);
        PendStep(t, a, pc, w, s.wallets[w], s.hub, s.onLinux);
      case None => HubScan(t, a, pc, s.hub, s.onLinux);
    }
  }

  lemma StepInv(s: State, t: int, a: Action)
    requires Inv(s) && Enabled(s, t, a)
    ensures Inv(After(s, t, a))
  {
    hide After, Agrees, HubAgrees, Coherent, TokenSomewhere, Enabled, Pending;
    var s' := After(s, t, a);
    SameNames(s, t, a);
    forall t', w | t' in s.threads && w in s.wallets ensures Agrees(t', s'.threads[t'], w, s'.wallets[w]) { AgreesStep(s, t, a, t', w); }
    forall w | w in s.wallets ensures TokenSomewhere(s', w) && (!s'.crashed ==> Coherent(s'.wallets[w])) {
      TokenStep(s, t, a, w);
      CoherentAll(s, t, a, w);
    }
    forall t' | t' in s.threads ensures HubAgrees(t', s'.threads[t'], s'.hub, s'.onLinux) { HubAll(s, t, a, t'); }
    forall t1, t2, w | t1 in s.threads && t2 in s.threads && t1 != t2 && w in s.wallets && Holds(s'.threads[t1], w)
      ensures !Holds(s'.threads[t2], w)
    {
      ExclusiveStep(s, t, a, t1, t2, w);
    }
    PendAll(s, t, a);
  }

  /** No step adds or removes a thread or a wallet. */
  lemma SameNames(s: State, t: int, a: Action)
    requires Enabled(s, t, a)
    ensures After(s, t, a).threads.Keys == s.threads.Keys && After(s, t, a).wallets.Keys == s.wallets.Keys
    ensures After(s, t, a).onLinux == s.onLinux
  {
    hide PcAfter, WalletAfter, HubAfter, ScanAfter;
  }

  // ---- Theorems over runs ------------------------------------------------------------------------------

  datatype Move = Move(thread: int, action: Action)

  /** A run: any interleaving of the threads. */
  ghost predicate IsRun(run: seq<State>, moves: seq<Move>) {
    && |run| == |moves| + 1 && Init(run[0])
    && forall k :: 0 <= k < |moves| ==>
         Enabled(run[k], moves[k].thread, moves[k].action) && run[k + 1] == After(run[k], moves[k].thread, moves[k].action)
  }

  lemma {:induction false} RunInv(run: seq<State>, moves: seq<Move>, k: nat)
    requires IsRun(run, moves) && k < |run|
    ensures Inv(run[k])
  {
    hide Init, Inv, Enabled, After;
    if k == 0 {
      InitInv(run[0]);
    } else {
      RunInv(run, moves, k - 1);
      StepInv(run[k - 1], moves[k - 1].thread, moves[k - 1].action);
    }
  }

  /** The device or its driver is in use: opened, initialised, talked to, or cleared. */
  predicate Busy(pc: Pc, w: int) {
    (pc.Opening? || pc.Initializing? || pc.Exchanging? || pc.Closing? || pc.ClosingDriver?) && pc.w == w
  }

  /** At most one thread at a time opens, initialises, talks to or clears a wallet's device. */
  lemma AtMostOneBusy(run: seq<State>, moves: seq<Move>, k: nat, t1: int, t2: int, w: int)
    requires IsRun(run, moves) && k < |run| && !run[k].crashed
    requires t1 in run[k].threads && t2 in run[k].threads && t1 != t2 && w in run[k].wallets
    ensures !(Busy(run[k].threads[t1], w) && Busy(run[k].threads[t2], w))
  {
    hide Init, Inv, Enabled, After;
    RunInv(run, moves, k);
    InvAt(run[k], t1, w);
    InvAt(run[k], t2, w);
    InvPair(run[k], t1, t2, w);
  }

  /** Every exchange finds the device open, and a signing uses the path pinned for its account. */
  lemma ExchangeHasDevice(run: seq<State>, moves: seq<Move>, k: nat, t: int, w: int)
    requires IsRun(run, moves) && k < |run| && !run[k].crashed && t in run[k].threads && w in run[k].wallets
    requires (run[k].threads[t].Exchanging? || run[k].threads[t].Initializing?) && run[k].threads[t].w == w
    ensures run[k].wallets[w].device
    ensures run[k].threads[t].Exchanging? ==> SignsPinned(run[k].threads[t].op, run[k].wallets[w])
  {
    hide Init, Inv, Enabled, After, Coherent, LocksAgree;
    RunInv(run, moves, k);
    InvAt(run[k], t, w);
  }

  /** commsPend is the number of threads between raising and lowering it. */
  lemma PendCounts(run: seq<State>, moves: seq<Move>, k: nat)
    requires IsRun(run, moves) && k < |run|
    ensures run[k].hub.commsPend == |Pending(run[k])|
  {
    RunInv(run, moves, k);
  }

  /** On Linux no enumeration overlaps a signing, on any wallet. */
  lemma ScanExcludesSigning(run: seq<State>, moves: seq<Move>, k: nat, t1: int, t2: int)
    requires IsRun(run, moves) && k < |run| && run[k].onLinux && t1 in run[k].threads && t2 in run[k].threads
    requires run[k].threads[t1].Enumerating?
    ensures !(run[k].threads[t2].Exchanging? && run[k].threads[t2].op.Sign?)
  {
    hide Init, Inv, Enabled, After;
    RunInv(run, moves, k);
    InvHub(run[k], t1);
    NonePending(run[k], t2);
  }

  lemma NonePending(s: State, t: int)
    requires |Pending(s)| == 0 && t in s.threads
    ensures !Pends(s.threads[t])
  {
    assert t !in Pending(s);
  }

  /** The token of an open device is in its channel or with exactly one thread; giving it back never
      finds the channel full. */
  lemma TokenNeverLost(run: seq<State>, moves: seq<Move>, k: nat, w: int)
    requires IsRun(run, moves) && k < |run| && w in run[k].wallets && run[k].wallets[w].device
    ensures !run[k].wallets[w].token <==> exists t :: t in run[k].threads && Holds(run[k].threads[t], w)
    ensures forall t1, t2 :: t1 in run[k].threads && t2 in run[k].threads && Holds(run[k].threads[t1], w) && Holds(run[k].threads[t2], w) ==> t1 == t2
  {
    hide Init, Inv, Enabled, After, Holds;
    RunInv(run, moves, k);
    InvToken(run[k], w);
    forall t1, t2 | t1 in run[k].threads && t2 in run[k].threads
      ensures t1 != t2 ==> !(Holds(run[k].threads[t1], w) && Holds(run[k].threads[t2], w))
      ensures Holds(run[k].threads[t1], w) ==> !run[k].wallets[w].token
    {
      InvPair(run[k], t1, t2, w);
    }
  }

  /** The pinned accounts are the keys of the paths, each once; a closed wallet has neither. */
  lemma AccountsAreKeys(run: seq<State>, moves: seq<Move>, k: nat, w: int)
    requires IsRun(run, moves) && k < |run| && w in run[k].wallets && !run[k].crashed
    ensures Coherent(run[k].wallets[w])
  {
    RunInv(run, moves, k);
  }

  // ---- Pinning a derived account ------------------------------------------------------------------------

  /** Move `i` of the run completes an opening of wallet `w`. */
  ghost predicate OpenedAt(run: seq<State>, moves: seq<Move>, i: int, w: int) {
    && 0 <= i < |moves| < |run| && moves[i].thread in run[i].threads
    && moves[i].action == InitDone(true) && Target(run[i].threads[moves[i].thread], moves[i].action) == Some(w)
  }

  /** Move `i` of the run clears wallet `w`. */
  ghost predicate ClearedAt(run: seq<State>, moves: seq<Move>, i: int, w: int) {
    && 0 <= i < |moves| < |run| && moves[i].thread in run[i].threads
    && moves[i].action.CloseDevice? && Target(run[i].threads[moves[i].thread], moves[i].action) == Some(w)
  }

  /** Before move `k`, some opening of the wallet was completed and not followed by a clearing. */
  ghost predicate LeftOpen(run: seq<State>, moves: seq<Move>, k: nat, w: int) {
    exists i :: 0 <= i < k && OpenedAt(run, moves, i, w) && forall j :: i < j < k ==> !ClearedAt(run, moves, j, w)
  }

  lemma PathsOfWallet(t: int, a: Action, pc: Pc, w: int, v: Wallet, hub: Hub)
    requires Ready(a, pc, v, hub) && Target(pc, a) == Some(w) && Coherent(v)
    ensures WalletAfter(t, a, pc, v, hub).paths.Some? <==> a == InitDone(true) || (v.paths.Some? && !a.CloseDevice?)
  {
  }

  /** Paths appear only with a completed opening and disappear exactly with a clearing. */
  lemma PathsStep(s: State, t: int, a: Action, w: int)
    requires Inv(s) && Enabled(s, t, a) && w in s.wallets
    ensures w in After(s, t, a).wallets
    ensures var here := Target(s.threads[t], a) == Some(w);
      After(s, t, a).wallets[w].paths.Some? <==>
      (here && a == InitDone(true)) || (s.wallets[w].paths.Some? && !(here && a.CloseDevice?))
  {
    hide PcAfter, HubAfter, ScanAfter, WalletAfter, Agrees, Inv, Target, Ready, ScanReady, Coherent;
    InvAt(s, t, w);
    if Target(s.threads[t], a) == Some(w) { PathsOfWallet(t, a, s.threads[t], w, s.wallets[w], s.hub); }
  }

  lemma LeftOpenStep(run: seq<State>, moves: seq<Move>, k: nat, w: int)
    requires k >= 1
    ensures LeftOpen(run, moves, k, w) <==>
      OpenedAt(run, moves, k - 1, w) || (LeftOpen(run, moves, k - 1, w) && !ClearedAt(run, moves, k - 1, w))
  {
    hide OpenedAt, ClearedAt;
    if OpenedAt(run, moves, k - 1, w) {
      assert forall j :: k - 1 < j < k ==> !ClearedAt(run, moves, j, w);
    }
    if LeftOpen(run, moves, k - 1, w) && !ClearedAt(run, moves, k - 1, w) {
      var i :| 0 <= i < k - 1 && OpenedAt(run, moves, i, w) && forall j :: i < j < k - 1 ==> !ClearedAt(run, moves, j, w);
      assert forall j :: i < j < k ==> !ClearedAt(run, moves, j, w);
    }
  }

  /** In every state of every run, a wallet has paths exactly when some opening was completed and no
      clearing came after it. */
  lemma {:induction false} PathsExactly(run: seq<State>, moves: seq<Move>, k: nat, w: int)
    requires IsRun(run, moves) && k < |run| && w in run[0].wallets
    ensures w in run[k].wallets && (run[k].wallets[w].paths.Some? <==> LeftOpen(run, moves, k, w))
  {
    if k > 0 {
      hide Enabled, After, Init, Inv, LeftOpen, Target;
      PathsExactly(run, moves, k - 1, w);
      RunInv(run, moves, k - 1);
      EnabledThread(run[k - 1], moves[k - 1].thread, moves[k - 1].action);
      PathsStep(run[k - 1], moves[k - 1].thread, moves[k - 1].action, w);
      LeftOpenStep(run, moves, k, w);
    }
  }

  lemma EnabledThread(s: State, t: int, a: Action)
    requires Enabled(s, t, a)
    ensures t in s.threads && (a.Pin? ==> s.threads[t].Pinning? && s.threads[t].w in s.wallets && Target(s.threads[t], a) == Some(s.threads[t].w))
  {
  }

  lemma {:induction false} SameWallets(run: seq<State>, moves: seq<Move>, k: nat)
    requires IsRun(run, moves) && k < |run|
    ensures run[k].wallets.Keys == run[0].wallets.Keys
  {
    hide Enabled, After, Init;
    if k > 0 {
      SameWallets(run, moves, k - 1);
      SameNames(run[k - 1], moves[k - 1].thread, moves[k - 1].action);
    }
  }

  /** In every run, pinning panics exactly when every completed opening of the wallet so far was followed
      by a clearing: it was never opened, or it was closed since. */
  lemma PinPanics(run: seq<State>, moves: seq<Move>, k: nat)
    requires IsRun(run, moves) && k < |moves| && moves[k].action.Pin?
    ensures moves[k].thread in run[k].threads && run[k].threads[moves[k].thread].Pinning?
    ensures var w := run[k].threads[moves[k].thread].w;
      run[k + 1].crashed <==> forall i :: 0 <= i < k && OpenedAt(run, moves, i, w) ==> exists j :: i < j < k && ClearedAt(run, moves, j, w)
  {
    hide Init, Inv, OpenedAt, ClearedAt, After;
    var t := moves[k].thread;
    EnabledThread(run[k], t, moves[k].action);
    var w := run[k].threads[t].w;
    SameWallets(run, moves, k);
    PathsExactly(run, moves, k, w);
    CrashOfStep(run[k], t, moves[k].action);
  }

  lemma CrashOfStep(s: State, t: int, a: Action)
    requires Enabled(s, t, a)
    ensures After(s, t, a).crashed <==>
      (a.Pin? && s.wallets[s.threads[t].w].paths.None?) || (a.StartRead? && Short(a.op)) || a.DriverPanic?
  {
    hide PcAfter, HubAfter, ScanAfter, WalletAfter;
  }

  /** When a run crashes: with a panic of the driver, with the derivation of a path of fewer than three
      values, or with a pinning on a wallet left without a completed opening. */
  lemma CrashesExactly(run: seq<State>, moves: seq<Move>, k: nat)
    requires IsRun(run, moves) && k < |moves|
    ensures moves[k].action.Pin? ==> moves[k].thread in run[k].threads && run[k].threads[moves[k].thread].Pinning?
    ensures run[k + 1].crashed <==>
      match moves[k].action
      case DriverPanic => true
      case StartRead(_, op) => op.Derive? && |op.path| < 3
      case Pin => !LeftOpen(run, moves, k, run[k].threads[moves[k].thread].w)
      case _ => false
  {
    hide Init, After, Inv, LeftOpen;
    var t, a := moves[k].thread, moves[k].action;
    CrashOfStep(run[k], t, a);
    EnabledThread(run[k], t, a);
    if a.Pin? {
      SameWallets(run, moves, k);
      PathsExactly(run, moves, k, run[k].threads[t].w);
    }
  }

  // ---- Hardened paths ---------------------------------------------------------------------------------------

  /** The paths a thread carries are hardened. */
  predicate Carries(pc: Pc) {
    && (pc.ToPin? || pc.Pinning? ==> IsHardened(pc.path))
    && (pc.Reading? || pc.Unlocking? ==> pc.op.Derive? ==> IsHardened(pc.op.path))
    && (Holds(pc, if AtWallet(pc) then pc.w else 0) || pc.Waiting? ==> pc.op.Beat? || IsHardened(pc.op.path))
  }

  predicate PinsHardened(v: Wallet) {
    v.paths.Some? ==> forall x :: x in v.paths.value ==> IsHardened(v.paths.value[x])
  }

  ghost predicate AllHardened(s: State) {
    (forall t :: t in s.threads ==> Carries(s.threads[t])) && (forall w :: w in s.wallets ==> PinsHardened(s.wallets[w]))
  }

  /** The two lead to the same account once hardened: equal but for the top bit of every value. */
  predicate SameAccount(path: Path, other: Path) {
    |path| == |other| && forall i :: 0 <= i < |path| ==> path[i] as int % 0x8000_0000 == other[i] as int % 0x8000_0000
  }

  lemma HardenHardens(path: Path)
    requires |path| >= 3
    ensures IsHardened(Harden(path)) && |Harden(path)| == |path| && Harden(Harden(path)) == Harden(path)
    ensures forall i :: 3 <= i < |path| ==> Harden(path)[i] == path[i]
    ensures SameAccount(path, Harden(path))
    ensures IsHardened(path) ==> Harden(path) == path
  {
  }

  lemma CarriesStep(a: Action, pc: Pc, v: Wallet, hub: Hub, t: int)
    requires Ready(a, pc, v, hub) && Carries(pc) && PinsHardened(v)
    ensures Carries(PcAfter(a, pc, v, hub)) && PinsHardened(WalletAfter(t, a, pc, v, hub))
  {
    hide Harden, IsHardened;
    if a.StartRead? && a.op.Derive? && !Short(a.op) { HardenHardens(a.op.path); }
  }

  lemma HardenedStep(s: State, t: int, a: Action)
    requires AllHardened(s) && Enabled(s, t, a)
    ensures AllHardened(After(s, t, a))
  {
    hide PcAfter, WalletAfter, HubAfter, Carries, PinsHardened, Ready, Target;
    var pc := s.threads[t];
    match Target(pc, a) {
      case Some(w) => CarriesStep(a, pc, s.wallets[w], s.hub, t);
      case None => ScanCarries(a, s.hub, s.onLinux);
    }
  }

  lemma ScanCarries(a: Action, hub: Hub, onLinux: bool)
    ensures Carries(ScanAfter(a, hub, onLinux))
  {
  }

  /** In every run, every pinned path and every path that is derived or signed with has its first three
      values hardened. */
  lemma {:induction false} PathsHardened(run: seq<State>, moves: seq<Move>, k: nat)
    requires IsRun(run, moves) && k < |run|
    ensures AllHardened(run[k])
  {
    if k > 0 {
      hide Enabled, After, Init, AllHardened;
      PathsHardened(run, moves, k - 1);
      HardenedStep(run[k - 1], moves[k - 1].thread, moves[k - 1].action);
    }
  }

  // ---- A close in between -----------------------------------------------------------------------------------

  ghost predicate Ends(run: seq<State>, moves: seq<Move>, s: State) { IsRun(run, moves) && run[|moves|] == s }

  /** A longer run. */
  ghost predicate Longer(run: seq<State>, moves: seq<Move>, run': seq<State>, moves': seq<Move>) {
    run <= run' && moves <= moves' && |moves| < |moves'|
  }

  lemma LongerTransitive(r1: seq<State>, m1: seq<Move>, r2: seq<State>, m2: seq<Move>, r3: seq<State>, m3: seq<Move>)
    requires Longer(r1, m1, r2, m2) && Longer(r2, m2, r3, m3)
    ensures Longer(r1, m1, r3, m3)
  {
  }

  lemma StillThere(run: seq<State>, moves: seq<Move>, run': seq<State>, moves': seq<Move>, i: nat, w: int)
    requires Longer(run, moves, run', moves') && |run'| > |moves'| && i < |moves|
    ensures OpenedAt(run, moves, i, w) ==> OpenedAt(run', moves', i, w)
    ensures ClearedAt(run, moves, i, w) ==> ClearedAt(run', moves', i, w)
    ensures moves'[i] == moves[i]
  {
    hide Target;
    if i < |run| { assert run'[i] == run[i]; }
  }

  lemma Extend(run: seq<State>, moves: seq<Move>, s: State, t: int, a: Action, s': State) returns (run': seq<State>, moves': seq<Move>)
    requires Ends(run, moves, s) && Enabled(s, t, a) && After(s, t, a) == s'
    ensures Ends(run', moves', s') && Longer(run, moves, run', moves') && |moves'| == |moves| + 1 && moves'[|moves|] == Move(t, a)
  {
    hide Init, Enabled, After;
    run', moves' := run + [s'], moves + [Move(t, a)];
  }

  /** Two threads at one wallet. */
  function Two(pc1: Pc, pc2: Pc, v: Wallet): State {
    State(true, map[1 := pc1, 2 := pc2], map[0 := v], Hub(None, 0), false)
  }

  const QUIET := Hub(None, 0)

  /** m/44'/60'/0'/0/0 */
  const PATH: Path := [0x8000_002c, 0x8000_003c, 0x8000_0000, 0, 0]

  lemma PathStays()
    ensures Hardened(Derive(PATH, true)) == Derive(PATH, true) && !Short(Derive(PATH, true))
  {
    HardenHardens(PATH);
  }

  lemma FirstIs(pc: Pc, other: Pc, v: Wallet, a: Action, next: Pc, v': Wallet)
    requires Target(pc, a) == Some(0) && Ready(a, pc, v, QUIET) && !Panics(a, pc, v)
    requires PcAfter(a, pc, v, QUIET) == next && WalletAfter(1, a, pc, v, QUIET) == v' && HubAfter(1, a, QUIET, true) == QUIET
    ensures Enabled(Two(pc, other, v), 1, a) && After(Two(pc, other, v), 1, a) == Two(next, other, v')
  {
    hide Ready, PcAfter, WalletAfter, HubAfter, Panics, Target;
    assert map[1 := pc, 2 := other][1 := next] == map[1 := next, 2 := other] && map[0 := v][0 := v'] == map[0 := v'];
  }

  /** A step of the first that does not touch the hub. */
  lemma First(run: seq<State>, moves: seq<Move>, pc: Pc, other: Pc, v: Wallet, a: Action, next: Pc, v': Wallet)
    returns (run': seq<State>, moves': seq<Move>)
    requires Ends(run, moves, Two(pc, other, v)) && Target(pc, a) == Some(0) && Ready(a, pc, v, QUIET) && !Panics(a, pc, v)
    requires PcAfter(a, pc, v, QUIET) == next && WalletAfter(1, a, pc, v, QUIET) == v' && HubAfter(1, a, QUIET, true) == QUIET
    ensures Ends(run', moves', Two(next, other, v')) && Longer(run, moves, run', moves')
    ensures |moves'| == |moves| + 1 && moves'[|moves|] == Move(1, a)
  {
    hide Ready, PcAfter, WalletAfter, HubAfter, Panics, Ends, Longer, Target, Enabled, After;
    FirstIs(pc, other, v, a, next, v');
    run', moves' := Extend(run, moves, Two(pc, other, v), 1, a, Two(next, other, v'));
  }

  lemma SecondIs(other: Pc, pc: Pc, v: Wallet, a: Action, next: Pc, v': Wallet)
    requires Target(pc, a) == Some(0) && Ready(a, pc, v, QUIET) && !Panics(a, pc, v)
    requires PcAfter(a, pc, v, QUIET) == next && WalletAfter(2, a, pc, v, QUIET) == v' && HubAfter(2, a, QUIET, true) == QUIET
    ensures Enabled(Two(other, pc, v), 2, a) && After(Two(other, pc, v), 2, a) == Two(other, next, v')
  {
    hide Ready, PcAfter, WalletAfter, HubAfter, Panics, Target;
    assert map[1 := other, 2 := pc][2 := next] == map[1 := other, 2 := next] && map[0 := v][0 := v'] == map[0 := v'];
  }

  /** A step of the second. */
  lemma Second(run: seq<State>, moves: seq<Move>, other: Pc, pc: Pc, v: Wallet, a: Action, next: Pc, v': Wallet)
    returns (run': seq<State>, moves': seq<Move>)
    requires Ends(run, moves, Two(other, pc, v)) && Target(pc, a) == Some(0) && Ready(a, pc, v, QUIET) && !Panics(a, pc, v)
    requires PcAfter(a, pc, v, QUIET) == next && WalletAfter(2, a, pc, v, QUIET) == v' && HubAfter(2, a, QUIET, true) == QUIET
    ensures Ends(run', moves', Two(other, next, v')) && Longer(run, moves, run', moves')
    ensures |moves'| == |moves| + 1 && moves'[|moves|] == Move(2, a)
  {
    hide Ready, PcAfter, WalletAfter, HubAfter, Panics, Ends, Longer, Target, Enabled, After;
    SecondIs(other, pc, v, a, next, v');
    run', moves' := Extend(run, moves, Two(other, pc, v), 2, a, Two(other, next, v'));
  }

  const OPENED := Wallet(None, {}, true, true, Some(map[]), [])
  const SHUT := Wallet(None, {}, true, false, None, [])

  /** The wallet is opened. */
  lemma RunToOpened() returns (run: seq<State>, moves: seq<Move>)
    ensures Ends(run, moves, Two(Idle, Idle, OPENED)) && |moves| > 0 && OpenedAt(run, moves, |moves| - 1, 0)
  {
    run, moves := [Two(Idle, Idle, FRESH)], [];
    assert Ends(run, moves, Two(Idle, Idle, FRESH));
    hide Ends, Longer, Two;
    var v := FRESH.(writer := Some(1));
    run, moves := First(run, moves, Idle, Idle, FRESH, StartOpen(0), Opening(0), v);
    run, moves := First(run, moves, Opening(0), Idle, v, OpenDevice(true), Initializing(0), v.(device := true, token := true));
    run, moves := CompleteOpening(run, moves, v.(device := true, token := true));
  }

  lemma CompleteOpening(run: seq<State>, moves: seq<Move>, v: Wallet) returns (run': seq<State>, moves': seq<Move>)
    requires Ends(run, moves, Two(Initializing(0), Idle, v)) && v == OPENED.(writer := Some(1), paths := None)
    ensures Ends(run', moves', Two(Idle, Idle, OPENED)) && |moves'| > 0 && OpenedAt(run', moves', |moves'| - 1, 0)
  {
    run', moves' := First(run, moves, Initializing(0), Idle, v, InitDone(true), Idle, OPENED);
    assert run'[|moves|] == run[|moves|];
  }

  /** Thread 1 is in the exchange of a derivation that is to be pinned. */
  lemma RunToExchange(run: seq<State>, moves: seq<Move>) returns (run': seq<State>, moves': seq<Move>)
    requires Ends(run, moves, Two(Idle, Idle, OPENED))
    ensures Ends(run', moves', Two(Exchanging(0, Derive(PATH, true)), Idle, OPENED.(readers := {1}, token := false)))
    ensures Longer(run, moves, run', moves')
  {
    PathStays();
    hide Ends, Longer, Two, Hardened, PATH;
    var op, v := Derive(PATH, true), OPENED.(readers := {1});
    var r1, m1 := First(run, moves, Idle, Idle, OPENED, StartRead(0, op), Reading(0, op), v);
    var r2, m2 := First(r1, m1, Reading(0, op), Idle, v, LookUp, Waiting(0, op), v);
    LongerTransitive(run, moves, r1, m1, r2, m2);
    run', moves' := First(r2, m2, Waiting(0, op), Idle, v, TakeToken, Exchanging(0, op), v.(token := false));
    LongerTransitive(run, moves, r2, m2, run', moves');
  }

  /** It has its account and is about to pin it. */
  lemma RunToDerived(run: seq<State>, moves: seq<Move>) returns (run': seq<State>, moves': seq<Move>)
    requires Ends(run, moves, Two(Exchanging(0, Derive(PATH, true)), Idle, OPENED.(readers := {1}, token := false)))
    ensures Ends(run', moves', Two(ToPin(0, 7, PATH), Idle, OPENED))
    ensures Longer(run, moves, run', moves') && moves'[|moves|] == Move(1, Finish(Done(7)))
  {
    hide Ends, Two;
    var op, v := Derive(PATH, true), OPENED.(readers := {1});
    var r1, m1 := First(run, moves, Exchanging(0, op), Idle, v.(token := false), Finish(Done(7)), Returning(0, op, Done(7)), v.(token := false));
    var r2, m2 := First(r1, m1, Returning(0, op, Done(7)), Idle, v.(token := false), ReturnToken, Unlocking(0, op, Done(7)), v);
    run', moves' := First(r2, m2, Unlocking(0, op, Done(7)), Idle, v, RUnlock, ToPin(0, 7, PATH), OPENED);
  }

  /** Thread 2 holds the lock to close. */
  lemma RunToClosing(run: seq<State>, moves: seq<Move>) returns (run': seq<State>, moves': seq<Move>)
    requires Ends(run, moves, Two(ToPin(0, 7, PATH), Idle, OPENED))
    ensures Ends(run', moves', Two(ToPin(0, 7, PATH), Closing(0), OPENED.(writer := Some(2)))) && Longer(run, moves, run', moves')
  {
    hide Ends, Longer, Two, PATH;
    var r1, m1 := Second(run, moves, ToPin(0, 7, PATH), Idle, OPENED, StartClose(0), ToClose(0), OPENED);
    run', moves' := Second(r1, m1, ToPin(0, 7, PATH), ToClose(0), OPENED, LockClose, Closing(0), OPENED.(writer := Some(2)));
    LongerTransitive(run, moves, r1, m1, run', moves');
  }

  /** It clears the wallet. */
  lemma RunToCleared(run: seq<State>, moves: seq<Move>) returns (run': seq<State>, moves': seq<Move>)
    requires Ends(run, moves, Two(ToPin(0, 7, PATH), Closing(0), OPENED.(writer := Some(2))))
    ensures Ends(run', moves', Two(ToPin(0, 7, PATH), ClosingDriver(0), SHUT.(writer := Some(2))))
    ensures Longer(run, moves, run', moves') && |moves'| == |moves| + 1 && ClearedAt(run', moves', |moves|, 0) && moves'[|moves|].thread == 2
  {
    run', moves' := Second(run, moves, ToPin(0, 7, PATH), Closing(0), OPENED.(writer := Some(2)), CloseDevice, ClosingDriver(0), SHUT.(writer := Some(2)));
    assert run'[|moves|] == run[|moves|];
  }

  /** Thread 1 goes on to pin. */
  lemma RunToPinning(run: seq<State>, moves: seq<Move>) returns (run': seq<State>, moves': seq<Move>)
    requires Ends(run, moves, Two(ToPin(0, 7, PATH), ClosingDriver(0), SHUT.(writer := Some(2))))
    ensures Ends(run', moves', Two(Pinning(0, 7, PATH), Idle, SHUT.(writer := Some(1)))) && Longer(run, moves, run', moves')
  {
    hide Ends, Longer, Two, PATH;
    var pc := ToPin(0, 7, PATH);
    var r1, m1 := Second(run, moves, pc, ClosingDriver(0), SHUT.(writer := Some(2)), CloseDriver, Idle, SHUT);
    run', moves' := First(r1, m1, pc, Idle, SHUT, LockPin, Pinning(0, 7, PATH), SHUT.(writer := Some(1)));
    LongerTransitive(run, moves, r1, m1, run', moves');
  }

  /** A run in which a wallet is opened completely, an account is derived on it, another thread clears the
      wallet, and the pinning of the account panics. */
  lemma PinAfterClose() returns (run: seq<State>, moves: seq<Move>, first: nat, derived: nat, cleared: nat)
    ensures IsRun(run, moves) && first < derived < cleared < |moves| - 1
    ensures OpenedAt(run, moves, first, 0) && moves[derived] == Move(1, Finish(Done(7))) && ClearedAt(run, moves, cleared, 0)
    ensures moves[cleared].thread == 2 && moves[|moves| - 1] == Move(1, Pin) && run[|moves|].crashed
  {
    hide Init, Enabled, After, OpenedAt, ClearedAt, Two, PATH;
    var r1, m1 := RunToOpened();
    var r2, m2 := RunToExchange(r1, m1);
    var r3, m3 := RunToDerived(r2, m2);
    var r4, m4 := RunToClosing(r3, m3);
    var r5, m5 := RunToCleared(r4, m4);
    var r6, m6 := RunToPinning(r5, m5);
    first, derived, cleared := |m1| - 1, |m2|, |m4|;
    run, moves := PinOnce(r6, m6);
    StillThere(r1, m1, run, moves, first, 0);
    StillThere(r5, m5, run, moves, cleared, 0);
    StillThere(r3, m3, run, moves, derived, 0);
  }

  lemma PinOnce(run: seq<State>, moves: seq<Move>) returns (run': seq<State>, moves': seq<Move>)
    requires Ends(run, moves, Two(Pinning(0, 7, PATH), Idle, SHUT.(writer := Some(1))))
    ensures IsRun(run', moves') && Longer(run, moves, run', moves') && |moves'| == |moves| + 1
    ensures moves'[|moves|] == Move(1, Pin) && run'[|moves'|].crashed
  {
    hide PcAfter, WalletAfter, HubAfter;
    var s := Two(Pinning(0, 7, PATH), Idle, SHUT.(writer := Some(1)));
    run', moves' := Extend(run, moves, s, 1, Pin, After(s, 1, Pin));
  }
}
