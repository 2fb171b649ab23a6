/** Decoded transactions, and the test that tells Ethereum transactions from Cosmos ones
    (app/antedl/utils/tx.go). */
module CosmosTx {
  import opened GoInt
  import opened Options

  type Hash = h: bytes | |h| == 32 witness seq(32, i => 0)

  /** What the index and the receipts need of an Ethereum transaction. */
  datatype EthTx = EthTx(hash: Hash, gas: uint64)

  /** A message. `MsgExec` and `MsgGrant` carry packed content; `wellFormed` says whether it
      unpacks. */
  datatype Msg =
    | MsgEthereumTx(tx: EthTx)
    | MsgCreateVestingAccount(toAddress: string)
    | MsgCreatePeriodicVestingAccount(toAddress: string)
    | MsgCreatePermanentLockedAccount(toAddress: string)
    | MsgExec(wellFormed: bool, inner: seq<Msg>)
    | MsgGrant(wellFormed: bool, granted: string)
    | OtherMsg(url: string)

  datatype Extensions = Extensions(nonCritical: nat, optionUrls: seq<string>)

  /** `extensions` is None for a transaction type without extension options. */
  datatype Tx = Tx(msgs: seq<Msg>, extensions: Option<Extensions>)

  const EXTENSION_OPTIONS_ETHEREUM_TX: string := "/ethermint.evm.v1.ExtensionOptionsEthereumTx"

  predicate SingleEthereum(tx: Tx) {
    |tx.msgs| == 1 && tx.msgs[0].MsgEthereumTx?
  }

  method HasSingleEthereumMessage(tx: Tx) returns (r: bool)
    ensures r <==> SingleEthereum(tx)
  {
    var foundEthMsg := false;
    for i := 0 to |tx.msgs|
      invariant i <= 1
      invariant foundEthMsg <==> i == 1
      invariant i == 1 ==> tx.msgs[0].MsgEthereumTx?
    {
      if !tx.msgs[i].MsgEthereumTx? { return false; }
      if foundEthMsg { return false; }
      foundEthMsg := true;
    }
    return foundEthMsg;
  }

  predicate EthereumExtensions(e: Option<Extensions>) {
    e.None? || (e.value.nonCritical == 0 && e.value.optionUrls <= [EXTENSION_OPTIONS_ETHEREUM_TX])
  }

  /** The lane test: one Ethereum message, and no extension options or just the Ethereum one. */
  predicate EthereumLane(tx: Tx) {
    SingleEthereum(tx) && EthereumExtensions(tx.extensions)
  }

  method IsEthereumTx(tx: Tx) returns (r: bool)
    ensures r <==> EthereumLane(tx)
  {
    var single := HasSingleEthereumMessage(tx);
    if !single { return false; }
    if tx.extensions.None? { return true; }
    if tx.extensions.value.nonCritical != 0 { return false; }
    var opts := tx.extensions.value.optionUrls;
    if |opts| == 0 { return true; }
    if |opts| != 1 { return false; }
    return opts[0] == EXTENSION_OPTIONS_ETHEREUM_TX;
  }
}
