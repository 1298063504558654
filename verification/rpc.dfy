/** The transaction submitter.  The ledger is seen through the client as the
    ordered log of transactions submitted to it. */
module Rpc {
  import opened Types

  /** One submitted transaction: its instructions in order, the fee payer,
      the signing keypairs (by public key), and whether the call blocked
      until the transaction was confirmed. */
  datatype Sent = Sent(instructions: seq<Instruction>, feePayer: Pubkey, signers: seq<Pubkey>, wait: bool)

  class RpcClient {
    var sent: seq<Sent>

    constructor ()
      ensures sent == []
    {
      sent := [];
    }
  }

  /** What every operation receives: the client, the pool address given on
      the command line and the payer's public key. */
  datatype Data = Data(client: RpcClient, stakePoolAddress: Pubkey, payer: Pubkey)

  /** Builds one transaction from `instructions` with `feePayer`, signs it with
      `signers` and submits it; with `wait` it also waits for confirmation.
      Exactly one transaction is added to the log and nothing else changes. */
  method SendInstructions(client: RpcClient, instructions: seq<Instruction>, feePayer: Pubkey, signers: seq<Pubkey>, wait: bool)
    modifies client
    ensures client.sent == old(client.sent) + [Sent(instructions, feePayer, signers, wait)]
  {
    client.sent := client.sent + [Sent(instructions, feePayer, signers, wait)];
  }

  /** All instructions of a log, in submission order. */
  function Instructions(log: seq<Sent>): (instructions: seq<Instruction>)
  {
    if log == [] then [] else Instructions(log[..|log| - 1]) + log[|log| - 1].instructions
  }
}
