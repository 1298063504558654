/** The top-level flow: every invocation first brings the pool up to date and
    then runs the requested command. */
module Cli {
  import opened Wrappers
  import opened Types
  import opened Rpc
  import Maintenance
  import Deposit
  import Adjust

  /** The subcommands, with the amount already converted to lamports. */
  datatype Command =
    | DepositSol(lamports: u64)
    | IncreaseValidatorStake(voteAccount: Pubkey, lamports: u64)
    | DecreaseValidatorStake(voteAccount: Pubkey, lamports: u64)

  /** The pool and validator list as decoded by one fetch. */
  datatype Snapshot = Snapshot(stakePool: StakePool, validatorList: ValidatorList)

  /** The maintenance transactions for the state read at `snapshot`. */
  function MaintenanceFor(env: Env, data: Data, snapshot: Snapshot): (log: seq<Sent>)
  {
    var (updates, finals) := Maintenance.UpdateInstructions(env, data, snapshot.stakePool, snapshot.validatorList);
    Maintenance.MaintenanceSends(updates, finals, data.payer)
  }

  /** The dispatch in `main`: maintenance on the state read at `atUpdate`, then
      the command on the state read again at `atCommand`; `ephemeral` is the
      fresh keypair a deposit creates. */
  method Run(env: Env, data: Data, command: Command, atUpdate: Snapshot, atCommand: Snapshot, ephemeral: Pubkey)
    returns (r: Result<(), Adjust.Error>)
    modifies data.client
    // the maintenance transactions come first, unchanged
    ensures var m := MaintenanceFor(env, data, atUpdate);
      && |data.client.sent| >= |old(data.client.sent)| + |m|
      && data.client.sent[..|old(data.client.sent)| + |m|] == old(data.client.sent) + m
    // the command's transaction, if any, comes right after the final
    // maintenance transaction, which was waited for
    ensures var m := MaintenanceFor(env, data, atUpdate);
      |data.client.sent| > |old(data.client.sent)| + |m| ==>
        data.client.sent[|old(data.client.sent)| + |m| - 1].wait
    // and is exactly the command's transaction
    ensures var m := MaintenanceFor(env, data, atUpdate);
      var pool, list := atCommand.stakePool, atCommand.validatorList;
      match command
      case DepositSol(lamports) =>
        r.Success? && data.client.sent == old(data.client.sent) + m + [Deposit.DepositSend(env, data, pool, lamports, ephemeral)]
      case IncreaseValidatorStake(vote, lamports) =>
        (match Adjust.AdjustSend(Adjust.Increase, env, data, pool, list, vote, lamports)
         case Failure(e) => r == Failure(e) && data.client.sent == old(data.client.sent) + m
         case Success(s) => r.Success? && data.client.sent == old(data.client.sent) + m + [s])
      case DecreaseValidatorStake(vote, lamports) =>
        (match Adjust.AdjustSend(Adjust.Decrease, env, data, pool, list, vote, lamports)
         case Failure(e) => r == Failure(e) && data.client.sent == old(data.client.sent) + m
         case Success(s) => r.Success? && data.client.sent == old(data.client.sent) + m + [s])
  {
    Maintenance.UpdateStakePool(env, data, atUpdate.stakePool, atUpdate.validatorList);
    ghost var afterUpdate := data.client.sent;
    match command {
    case DepositSol(lamports) =>
      Deposit.DepositSol(env, data, atCommand.stakePool, lamports, ephemeral);
      r := Success(());
    case IncreaseValidatorStake(vote, lamports) =>
      r := Adjust.IncreaseValidatorStakeWithVote(env, data, atCommand.stakePool, atCommand.validatorList, lamports, vote);
    case DecreaseValidatorStake(vote, lamports) =>
      r := Adjust.DecreaseValidatorStakeWithVote(env, data, atCommand.stakePool, atCommand.validatorList, lamports, vote);
    }
    assert data.client.sent[..|afterUpdate|] == afterUpdate;
  }
}
