/** The message checks of the Cosmos lane (app/antedl/cosmoslane): no Ethereum messages, no disabled
    messages under authz, and vesting accounts only for proven external owners. */
module CosmosLane {
  import opened Options
  import opened CosmosTx

  const MAX_NESTED_LEVELS: nat := 3

  function TypeUrl(msg: Msg): string {
    match msg
    case MsgEthereumTx(_) => "/ethermint.evm.v1.MsgEthereumTx"
    case MsgCreateVestingAccount(_) => "/cosmos.vesting.v1beta1.MsgCreateVestingAccount"
    case MsgCreatePeriodicVestingAccount(_) => "/cosmos.vesting.v1beta1.MsgCreatePeriodicVestingAccount"
    case MsgCreatePermanentLockedAccount(_) => "/cosmos.vesting.v1beta1.MsgCreatePermanentLockedAccount"
    case MsgExec(_, _) => "/cosmos.authz.v1beta1.MsgExec"
    case MsgGrant(_, _) => "/cosmos.authz.v1beta1.MsgGrant"
    case OtherMsg(url) => url
  }

  /** WithDefaultDisabledNestedMsgs */
  function DefaultDisabled(): set<string> {
    {"/ethermint.evm.v1.MsgEthereumTx",
     "/cosmos.vesting.v1beta1.MsgCreateVestingAccount",
     "/cosmos.vesting.v1beta1.MsgCreatePeriodicVestingAccount",
     "/cosmos.vesting.v1beta1.MsgCreatePermanentLockedAccount"}
  }

  // ---- checkDisabledMsgs ---------------------------------------------------------------------------------

  datatype AuthzError = TooDeep | Malformed | GrantDisabled(url: string) | NestedDisabled(url: string)

  function CheckDisabledMsgs(disabled: set<string>, msgs: seq<Msg>, level: nat): Option<AuthzError>
    decreases msgs, 1
  {
    if level > MAX_NESTED_LEVELS then Some(TooDeep) else CheckEach(disabled, msgs, level)
  }

  /** The first error among the messages. */
  function CheckEach(disabled: set<string>, msgs: seq<Msg>, level: nat): Option<AuthzError>
    decreases msgs, 0
  {
    if msgs == [] then None
    else
      var e := CheckOne(disabled, msgs[0], level);
      if e.Some? then e else CheckEach(disabled, msgs[1..], level)
  }

  function CheckOne(disabled: set<string>, msg: Msg, level: nat): Option<AuthzError>
    decreases msg
  {
    match msg
    case MsgExec(wellFormed, inner) =>
      if !wellFormed then Some(Malformed) else CheckDisabledMsgs(disabled, inner, level + 1)
    case MsgGrant(wellFormed, granted) =>
      if !wellFormed then Some(Malformed) else if granted in disabled then Some(GrantDisabled(granted)) else None
    case _ => if level > 1 && TypeUrl(msg) in disabled then Some(NestedDisabled(TypeUrl(msg))) else None
  }

  // ---- Messages at any depth -----------------------------------------------------------------------------

  /** The message that a path of indices leads to; its depth is the length of the path. */
  function MsgAt(msgs: seq<Msg>, path: seq<nat>): Option<Msg>
    decreases |path|
  {
    if path == [] || path[0] >= |msgs| then None
    else if |path| == 1 then Some(msgs[path[0]])
    else if msgs[path[0]].MsgExec? then MsgAt(msgs[path[0]].inner, path[1..])
    else None
  }

  /** What may stand at a depth. */
  predicate Allowed(disabled: set<string>, msg: Msg, depth: nat) {
    match msg
    case MsgExec(wellFormed, _) => wellFormed && depth < MAX_NESTED_LEVELS
    case MsgGrant(wellFormed, granted) => wellFormed && granted !in disabled
    case _ => depth > 1 ==> TypeUrl(msg) !in disabled
  }

  predicate AllowedAt(disabled: set<string>, msgs: seq<Msg>, above: nat, path: seq<nat>) {
    MsgAt(msgs, path).Some? ==> Allowed(disabled, MsgAt(msgs, path).value, above + |path|)
  }

  /** Every message at every depth is allowed there. */
  ghost predicate AllAllowed(disabled: set<string>, msgs: seq<Msg>, above: nat) {
    forall path :: AllowedAt(disabled, msgs, above, path)
  }

  lemma TailPath(msgs: seq<Msg>, path: seq<nat>)
    requires msgs != [] && path != []
    ensures MsgAt(msgs[1..], path) == MsgAt(msgs, [path[0] + 1] + path[1..])
  {
    var q := [path[0] + 1] + path[1..];
    assert q[0] == path[0] + 1 && q[1..] == path[1..];
    if path[0] < |msgs| - 1 { assert msgs[1..][path[0]] == msgs[q[0]]; }
  }

  lemma InnerPath(msgs: seq<Msg>, i: nat, path: seq<nat>)
    requires i < |msgs| && msgs[i].MsgExec? && path != []
    ensures MsgAt(msgs, [i] + path) == MsgAt(msgs[i].inner, path)
  {
    assert ([i] + path)[1..] == path;
  }

  /** The check passes exactly the trees in which everything is allowed. */
  lemma {:induction false} CheckExact(disabled: set<string>, msgs: seq<Msg>, level: nat)
    requires 1 <= level <= MAX_NESTED_LEVELS
    ensures CheckDisabledMsgs(disabled, msgs, level).None? <==> AllAllowed(disabled, msgs, level - 1)
    decreases msgs, 1
  {
    CheckEachExact(disabled, msgs, level);
  }

  lemma {:induction false} CheckEachExact(disabled: set<string>, msgs: seq<Msg>, level: nat)
    requires 1 <= level <= MAX_NESTED_LEVELS
    ensures CheckEach(disabled, msgs, level).None? <==> AllAllowed(disabled, msgs, level - 1)
    decreases msgs, 0
  {
    hide CheckOne, AllAllowed;
    if msgs == [] {
      NothingAllowed(disabled, level - 1);
    } else {
      CheckOneExact(disabled, msgs[0], level);
      CheckEachExact(disabled, msgs[1..], level);
      SplitAllowed(disabled, msgs, level - 1);
    }
  }

  lemma NothingAllowed(disabled: set<string>, above: nat)
    ensures AllAllowed(disabled, [], above)
  {
  }

  /** The first message with what is below it, and the rest. */
  lemma SplitAllowed(disabled: set<string>, msgs: seq<Msg>, above: nat)
    requires msgs != []
    ensures AllAllowed(disabled, msgs, above) <==> AllAllowed(disabled, [msgs[0]], above) && AllAllowed(disabled, msgs[1..], above)
  {
    hide Allowed;
    if AllAllowed(disabled, msgs, above) {
      forall path ensures AllowedAt(disabled, msgs[1..], above, path) {
        if path != [] {
          TailPath(msgs, path);
          assert AllowedAt(disabled, msgs, above, [path[0] + 1] + path[1..]);
        }
      }
      forall path ensures AllowedAt(disabled, [msgs[0]], above, path) { assert AllowedAt(disabled, msgs, above, path); }
    }
    if AllAllowed(disabled, [msgs[0]], above) && AllAllowed(disabled, msgs[1..], above) {
      forall path ensures AllowedAt(disabled, msgs, above, path) {
        if path != [] && path[0] > 0 {
          var q := [path[0] - 1] + path[1..];
          TailPath(msgs, q);
          assert [q[0] + 1] + q[1..] == path;
          assert AllowedAt(disabled, msgs[1..], above, q);
        } else {
          assert AllowedAt(disabled, [msgs[0]], above, path);
        }
      }
    }
  }

  lemma {:induction false} CheckOneExact(disabled: set<string>, msg: Msg, level: nat)
    requires 1 <= level <= MAX_NESTED_LEVELS
    ensures CheckOne(disabled, msg, level).None? <==> AllAllowed(disabled, [msg], level - 1)
    decreases msg
  {
    hide AllAllowed, TypeUrl, CheckDisabledMsgs;
    SingleAllowed(disabled, msg, level - 1);
    if msg.MsgExec? && msg.wellFormed {
      if level < MAX_NESTED_LEVELS { CheckExact(disabled, msg.inner, level + 1); } else { TooDeepRejected(disabled, msg.inner, level + 1); }
    }
  }

  lemma TooDeepRejected(disabled: set<string>, msgs: seq<Msg>, level: nat)
    requires level > MAX_NESTED_LEVELS
    ensures CheckDisabledMsgs(disabled, msgs, level) == Some(TooDeep)
  {
  }

  lemma SingleAllowed(disabled: set<string>, msg: Msg, above: nat)
    ensures AllAllowed(disabled, [msg], above) <==>
      Allowed(disabled, msg, above + 1) && (msg.MsgExec? ==> AllAllowed(disabled, msg.inner, above + 1))
  {
    hide Allowed;
    assert MsgAt([msg], [0]) == Some(msg);
    if AllAllowed(disabled, [msg], above) {
      assert AllowedAt(disabled, [msg], above, [0]);
      if msg.MsgExec? {
        var up := above + 1;
        forall path ensures AllowedAt(disabled, msg.inner, up, path) {
          if path != [] {
            InnerPath([msg], 0, path);
            assert AllowedAt(disabled, [msg], above, [0] + path);
          }
        }
      }
    }
    if Allowed(disabled, msg, above + 1) && (msg.MsgExec? ==> AllAllowed(disabled, msg.inner, above + 1)) {
      forall path ensures AllowedAt(disabled, [msg], above, path) {
        if |path| > 1 && path[0] == 0 && msg.MsgExec? {
          assert AllowedAt(disabled, msg.inner, above + 1, path[1..]);
        }
      }
    }
  }

  /** A rejection has a reason: some message stands where it is not allowed, and the error says why. */
  predicate Explains(disabled: set<string>, e: AuthzError, msg: Msg, depth: nat) {
    match e
    case TooDeep => msg.MsgExec? && depth >= MAX_NESTED_LEVELS
    case Malformed => (msg.MsgExec? || msg.MsgGrant?) && !msg.wellFormed
    case GrantDisabled(url) => msg.MsgGrant? && msg.granted == url && url in disabled
    case NestedDisabled(url) => !msg.MsgExec? && !msg.MsgGrant? && depth > 1 && TypeUrl(msg) == url && url in disabled
  }

  lemma {:induction false} RejectedFor(disabled: set<string>, msgs: seq<Msg>, level: nat) returns (path: seq<nat>)
    requires 1 <= level <= MAX_NESTED_LEVELS && CheckEach(disabled, msgs, level).Some?
    ensures MsgAt(msgs, path).Some? && Explains(disabled, CheckEach(disabled, msgs, level).value, MsgAt(msgs, path).value, level - 1 + |path|)
    decreases msgs, 0
  {
    hide Explains;
    var e := CheckOne(disabled, msgs[0], level);
    if e.None? {
      var q := RejectedFor(disabled, msgs[1..], level);
      TailPath(msgs, q);
      path := [q[0] + 1] + q[1..];
    } else if msgs[0].MsgExec? && msgs[0].wellFormed && level < MAX_NESTED_LEVELS {
      assert CheckDisabledMsgs(disabled, msgs[0].inner, level + 1) == CheckEach(disabled, msgs[0].inner, level + 1) == e;
      var q := RejectedFor(disabled, msgs[0].inner, level + 1);
      InnerPath(msgs, 0, q);
      path := [0] + q;
    } else {
      path := [0];
      Blamed(disabled, msgs[0], level);
    }
  }

  lemma Blamed(disabled: set<string>, msg: Msg, level: nat)
    requires 1 <= level <= MAX_NESTED_LEVELS && CheckOne(disabled, msg, level).Some?
    requires !(msg.MsgExec? && msg.wellFormed && level < MAX_NESTED_LEVELS)
    ensures Explains(disabled, CheckOne(disabled, msg, level).value, msg, level)
  {
  }

  // ---- The three decorators ---------------------------------------------------------------------------------

  datatype Verdict = Accepted | Rejected | Panicked

  /** CLRejectEthereumMsgsDecorator */
  method RejectEthereumMsgs(tx: Tx) returns (r: Verdict)
    ensures r == if SingleEthereum(tx) || NoEthereumAtTop(tx.msgs) then Accepted else Rejected
  {
    var single := HasSingleEthereumMessage(tx);
    if single { return Accepted; }
    for i := 0 to |tx.msgs|
      invariant NoEthereumAtTop(tx.msgs[..i])
    {
      if tx.msgs[i].MsgEthereumTx? { return Rejected; }
    }
    assert tx.msgs[..|tx.msgs|] == tx.msgs;
    return Accepted;
  }

  predicate NoEthereumAtTop(msgs: seq<Msg>) {
    forall i :: 0 <= i < |msgs| ==> !msgs[i].MsgEthereumTx?
  }

  /** CLRejectAuthzMsgsDecorator */
  method RejectAuthzMsgs(disabled: set<string>, tx: Tx) returns (r: Verdict)
    ensures r.Accepted? <==> SingleEthereum(tx) || AllAllowed(disabled, tx.msgs, 0)
    ensures !r.Accepted? ==> r.Rejected?
  {
    hide AllAllowed, CheckDisabledMsgs;
    var single := HasSingleEthereumMessage(tx);
    if single { return Accepted; }
    CheckExact(disabled, tx.msgs, 1);
    if CheckDisabledMsgs(disabled, tx.msgs, 1).Some? { return Rejected; }
    return Accepted;
  }

  /** Whether an address has a proof of external ownership; None for a text that is no address. */
  type Proofs = string -> Option<bool>

  /** The account a message creates, if it creates one that vests or is locked. */
  function Creates(msg: Msg): Option<string> {
    match msg
    case MsgCreateVestingAccount(account) => Some(account)
    case MsgCreatePeriodicVestingAccount(account) => Some(account)
    case MsgCreatePermanentLockedAccount(account) => Some(account)
    case _ => None
  }

  predicate Proven(proofs: Proofs, msg: Msg) {
    Creates(msg).Some? ==> proofs(Creates(msg).value) == Some(true)
  }

  predicate AllProven(proofs: Proofs, msgs: seq<Msg>) {
    forall i :: 0 <= i < |msgs| ==> Proven(proofs, msgs[i])
  }

  predicate FirstUnproven(proofs: Proofs, msgs: seq<Msg>, i: int, answer: Option<bool>) {
    && 0 <= i < |msgs| && AllProven(proofs, msgs[..i])
    && Creates(msgs[i]).Some? && proofs(Creates(msgs[i]).value) == answer
  }

  lemma AllProvenEach(proofs: Proofs, msgs: seq<Msg>)
    ensures AllProven(proofs, msgs) ==> forall msg :: msg in msgs ==> Proven(proofs, msg)
  {
  }

  /** CLVestingMessagesAuthorizationDecorator: what is not an address panics. */
  method AuthorizeVesting(proofs: Proofs, tx: Tx) returns (r: Verdict)
    ensures r.Accepted? <==> SingleEthereum(tx) || AllProven(proofs, tx.msgs)
    ensures r.Panicked? ==> exists i :: FirstUnproven(proofs, tx.msgs, i, None)
    ensures r.Rejected? ==> exists i :: FirstUnproven(proofs, tx.msgs, i, Some(false))
    ensures r.Accepted? && !SingleEthereum(tx) ==> forall msg :: msg in tx.msgs ==>
      && (msg.MsgCreateVestingAccount? ==> proofs(msg.toAddress) == Some(true))
      && (msg.MsgCreatePeriodicVestingAccount? ==> proofs(msg.toAddress) == Some(true))
      && (msg.MsgCreatePermanentLockedAccount? ==> proofs(msg.toAddress) == Some(true))
  {
    var single := HasSingleEthereumMessage(tx);
    if single { return Accepted; }
    for i := 0 to |tx.msgs|
      invariant AllProven(proofs, tx.msgs[..i])
    {
      var msg, account := tx.msgs[i], "";
      if msg.MsgCreateVestingAccount? {
        account := msg.toAddress;
      } else if msg.MsgCreatePeriodicVestingAccount? {
        account := msg.toAddress;
      } else if msg.MsgCreatePermanentLockedAccount? {
        account := msg.toAddress;
      } else {
        continue;
      }
      var proof := proofs(account);
      if proof.None? {
        assert FirstUnproven(proofs, tx.msgs, i, None);
        return Panicked;
      }
      if !proof.value {
        assert FirstUnproven(proofs, tx.msgs, i, Some(false));
        return Rejected;
      }
    }
    AllProvenEach(proofs, tx.msgs);
    assert tx.msgs[..|tx.msgs|] == tx.msgs;
    return Accepted;
  }

  lemma FirstDecides(proofs: Proofs, msgs: seq<Msg>)
    ensures !((exists i :: FirstUnproven(proofs, msgs, i, None)) && exists i :: FirstUnproven(proofs, msgs, i, Some(false)))
    ensures (exists i :: FirstUnproven(proofs, msgs, i, None)) ==> !AllProven(proofs, msgs)
  {
    if i :| FirstUnproven(proofs, msgs, i, None) {
      if j :| FirstUnproven(proofs, msgs, j, Some(false)) {
        assert i < j ==> msgs[..j][i] == msgs[i];
        assert j < i ==> msgs[..i][j] == msgs[j];
      }
    }
  }

  /** The three in their order in the ante handler. */
  method CheckMessages(disabled: set<string>, proofs: Proofs, tx: Tx) returns (r: Verdict)
    ensures r.Accepted? <==> Passes(disabled, proofs, tx)
    ensures r.Panicked? <==>
      && !SingleEthereum(tx) && NoEthereumAtTop(tx.msgs) && AllAllowed(disabled, tx.msgs, 0)
      && exists i :: FirstUnproven(proofs, tx.msgs, i, None)
  {
    FirstDecides(proofs, tx.msgs);
    hide AllAllowed, AllProven, NoEthereumAtTop, FirstUnproven;
    r := RejectEthereumMsgs(tx);
    if !r.Accepted? { return; }
    r := RejectAuthzMsgs(disabled, tx);
    if !r.Accepted? { return; }
    r := AuthorizeVesting(proofs, tx);
  }

  ghost predicate Passes(disabled: set<string>, proofs: Proofs, tx: Tx) {
    SingleEthereum(tx) || (NoEthereumAtTop(tx.msgs) && AllAllowed(disabled, tx.msgs, 0) && AllProven(proofs, tx.msgs))
  }

  /** A message below the top hangs under an execution. */
  lemma {:induction false} ParentIsExec(msgs: seq<Msg>, path: seq<nat>)
    requires |path| >= 2 && MsgAt(msgs, path).Some?
    ensures MsgAt(msgs, path[..|path| - 1]).Some? && MsgAt(msgs, path[..|path| - 1]).value.MsgExec?
    decreases |path|
  {
    var front := path[..|path| - 1];
    if |path| > 2 {
      ParentIsExec(msgs[path[0]].inner, path[1..]);
      assert path[1..][..|path| - 2] == front[1..];
    }
  }

  /** One of the four types that the default list is meant to disable. */
  ghost predicate Reserved(url: string) {
    exists msg: Msg :: (msg.MsgEthereumTx? || Creates(msg).Some?) && TypeUrl(msg) == url
  }

  lemma DisabledByDefault(url: string)
    ensures url in DefaultDisabled() <==> Reserved(url)
  {
    if url in DefaultDisabled() {
      assert TypeUrl(MsgEthereumTx(EthTx(seq(32, _ => 0), 0))) == "/ethermint.evm.v1.MsgEthereumTx";
      assert TypeUrl(MsgCreateVestingAccount("")) == "/cosmos.vesting.v1beta1.MsgCreateVestingAccount";
      assert TypeUrl(MsgCreatePeriodicVestingAccount("")) == "/cosmos.vesting.v1beta1.MsgCreatePeriodicVestingAccount";
      assert TypeUrl(MsgCreatePermanentLockedAccount("")) == "/cosmos.vesting.v1beta1.MsgCreatePermanentLockedAccount";
    }
  }

  /** What the lane admits with the default list, at a depth. */
  ghost predicate Admits(proofs: Proofs, msg: Msg, depth: nat) {
    match msg
    case MsgEthereumTx(_) => false
    case MsgCreateVestingAccount(account) => depth == 1 && proofs(account) == Some(true)
    case MsgCreatePeriodicVestingAccount(account) => depth == 1 && proofs(account) == Some(true)
    case MsgCreatePermanentLockedAccount(account) => depth == 1 && proofs(account) == Some(true)
    case MsgExec(wellFormed, _) => wellFormed && depth <= 2
    case MsgGrant(wellFormed, granted) => wellFormed && !Reserved(granted)
    case OtherMsg(url) => depth == 1 || !Reserved(url)
  }

  ghost predicate AdmitsAt(proofs: Proofs, msgs: seq<Msg>, path: seq<nat>) {
    MsgAt(msgs, path).Some? ==> Admits(proofs, MsgAt(msgs, path).value, |path|)
  }

  lemma AdmitsIs(proofs: Proofs, msg: Msg, depth: nat)
    requires depth > 0
    ensures Admits(proofs, msg, depth) <==>
      Allowed(DefaultDisabled(), msg, depth) && (depth == 1 ==> !msg.MsgEthereumTx? && Proven(proofs, msg))
  {
    hide DefaultDisabled, TypeUrl;
    DisabledByDefault(TypeUrl(msg));
    if msg.MsgGrant? { DisabledByDefault(msg.granted); }
    if msg.OtherMsg? { assert TypeUrl(msg) == msg.url by { OtherUrl(msg); } }
  }

  lemma OtherUrl(msg: Msg)
    requires msg.OtherMsg?
    ensures TypeUrl(msg) == msg.url
  {
  }

  /** With the default list, what passes is a single Ethereum message, or a tree in which everything is
      admitted where it stands: no Ethereum message at any depth, accounts that vest or are locked only at the
      top and for proven owners, no grant of a disabled type, and nothing below the third level. */
  lemma DefaultLaneExact(proofs: Proofs, tx: Tx)
    ensures Passes(DefaultDisabled(), proofs, tx) <==> SingleEthereum(tx) || forall path :: AdmitsAt(proofs, tx.msgs, path)
  {
    hide DefaultDisabled, Allowed, Admits, Proven, SingleEthereum;
    if Passes(DefaultDisabled(), proofs, tx) && !SingleEthereum(tx) {
      forall path | MsgAt(tx.msgs, path).Some? ensures AdmitsAt(proofs, tx.msgs, path) {
        assert AllowedAt(DefaultDisabled(), tx.msgs, 0, path);
        AdmitsIs(proofs, MsgAt(tx.msgs, path).value, |path|);
        if |path| == 1 { assert Proven(proofs, tx.msgs[path[0]]); }
      }
    }
    if forall path :: AdmitsAt(proofs, tx.msgs, path) {
      forall path ensures AllowedAt(DefaultDisabled(), tx.msgs, 0, path) {
        assert AdmitsAt(proofs, tx.msgs, path);
        if MsgAt(tx.msgs, path).Some? { AdmitsIs(proofs, MsgAt(tx.msgs, path).value, |path|); }
      }
      forall i | 0 <= i < |tx.msgs| ensures !tx.msgs[i].MsgEthereumTx? && Proven(proofs, tx.msgs[i]) {
        assert MsgAt(tx.msgs, [i]) == Some(tx.msgs[i]);
        assert AdmitsAt(proofs, tx.msgs, [i]);
        AdmitsIs(proofs, tx.msgs[i], 1);
      }
    }
  }

  /** In particular, of any message at any depth. */
  lemma DefaultLane(proofs: Proofs, tx: Tx, path: seq<nat>)
    requires Passes(DefaultDisabled(), proofs, tx) && !SingleEthereum(tx) && MsgAt(tx.msgs, path).Some?
    ensures var msg := MsgAt(tx.msgs, path).value;
      && !msg.MsgEthereumTx? && |path| <= 3
      && (msg.MsgCreateVestingAccount? || msg.MsgCreatePeriodicVestingAccount? || msg.MsgCreatePermanentLockedAccount? ==>
            |path| == 1 && proofs(msg.toAddress) == Some(true))
      && (msg.MsgGrant? ==> !Reserved(msg.granted))
  {
    hide DefaultDisabled, Passes, Reserved;
    DefaultLaneExact(proofs, tx);
    assert AdmitsAt(proofs, tx.msgs, path);
    if |path| > 1 {
      ParentIsExec(tx.msgs, path);
      assert AdmitsAt(proofs, tx.msgs, path[..|path| - 1]);
    }
  }
}
