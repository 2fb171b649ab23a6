/** The lane tests of the ante handler (app/antedl/ante.go): the two dual-lane decorators that look at the
    messages, and the three of the Cosmos lane behind them. What the decorators of the SDK and the other
    ones in between answer is an input. */
module AnteChain {
  import opened Options
  import opened CosmosTx
  import opened CosmosLane

  /** The answers of the code that is not modelled: the SDK's check of extension options and its basic
      validation for Cosmos transactions, the rest of the basic validation of Ethereum ones, and every
      other decorator of the chain. */
  datatype Answers = Answers(extensionOptions: bool, cosmosBasic: bool, ethereumBasic: bool, others: bool)

  /** DLExtensionOptionsDecorator */
  method CheckExtensionOptions(answers: Answers, tx: Tx) returns (ok: bool)
    ensures ok <==> if SingleEthereum(tx) then EthereumLane(tx) else answers.extensionOptions
  {
    var single := HasSingleEthereumMessage(tx);
    if !single { return answers.extensionOptions; }
    ok := IsEthereumTx(tx);
  }

  /** DLValidateBasicDecorator, which does nothing on a re-check */
  method ValidateBasic(answers: Answers, isReCheckTx: bool, tx: Tx) returns (ok: bool)
    ensures ok <==>
      || isReCheckTx
      || (if SingleEthereum(tx) then EthereumLane(tx) && answers.ethereumBasic else NoEthereumAtTop(tx.msgs) && answers.cosmosBasic)
  {
    if isReCheckTx { return true; }
    var single := HasSingleEthereumMessage(tx);
    if !single {
      for i := 0 to |tx.msgs|
        invariant NoEthereumAtTop(tx.msgs[..i])
      {
        if tx.msgs[i].MsgEthereumTx? { return false; }
      }
      assert tx.msgs[..|tx.msgs|] == tx.msgs;
      return answers.cosmosBasic;
    }
    var lane := IsEthereumTx(tx);
    return lane && answers.ethereumBasic;
  }

  /** What the chain accepts. */
  ghost predicate Accepts(answers: Answers, isReCheckTx: bool, disabled: set<string>, proofs: Proofs, tx: Tx) {
    && answers.others
    && if SingleEthereum(tx) then EthereumLane(tx) && (isReCheckTx || answers.ethereumBasic)
       else
         && answers.extensionOptions && (isReCheckTx || answers.cosmosBasic)
         && NoEthereumAtTop(tx.msgs) && AllAllowed(disabled, tx.msgs, 0) && AllProven(proofs, tx.msgs)
  }

  /** NewAnteHandler, as far as messages decide */
  method AnteHandle(answers: Answers, isReCheckTx: bool, disabled: set<string>, proofs: Proofs, tx: Tx) returns (r: Verdict)
    ensures r.Accepted? <==> Accepts(answers, isReCheckTx, disabled, proofs, tx)
  {
    hide AllAllowed, AllProven, NoEthereumAtTop, EthereumLane, SingleEthereum;
    var ok := CheckExtensionOptions(answers, tx);
    if !ok { return Rejected; }
    ok := ValidateBasic(answers, isReCheckTx, tx);
    if !ok { return Rejected; }
    if !answers.others { return Rejected; }
    r := CheckMessages(disabled, proofs, tx);
  }

  /** Some message at some depth is an Ethereum one. */
  ghost predicate HoldsEthereum(tx: Tx) {
    exists path :: MsgAt(tx.msgs, path).Some? && MsgAt(tx.msgs, path).value.MsgEthereumTx?
  }

  /** A transaction that is accepted holds an Ethereum message at some depth if and only if it is an
      Ethereum transaction; then that message is all it holds. */
  lemma EthereumOnlyInItsLane(answers: Answers, isReCheckTx: bool, proofs: Proofs, tx: Tx)
    requires Accepts(answers, isReCheckTx, DefaultDisabled(), proofs, tx)
    ensures HoldsEthereum(tx) <==> EthereumLane(tx)
    ensures HoldsEthereum(tx) ==> forall path :: MsgAt(tx.msgs, path).Some? <==> path == [0]
  {
    hide AllAllowed, AllProven, DefaultDisabled, EthereumExtensions;
    if SingleEthereum(tx) {
      assert MsgAt(tx.msgs, [0]) == Some(tx.msgs[0]);
      forall path ensures MsgAt(tx.msgs, path).Some? <==> path == [0] { OnlyTop(tx.msgs, path); }
    } else {
      forall path | MsgAt(tx.msgs, path).Some? ensures !MsgAt(tx.msgs, path).value.MsgEthereumTx? {
        DefaultLane(proofs, tx, path);
      }
    }
  }

  lemma OnlyTop(msgs: seq<Msg>, path: seq<nat>)
    requires |msgs| == 1 && !msgs[0].MsgExec?
    ensures MsgAt(msgs, path).Some? <==> path == [0]
  {
  }
}
