/** Depositing SOL: move the amount from the payer to a fresh ephemeral
    account and deposit it from there into the pool, both in one transaction. */
module Deposit {
  import opened Types
  import opened Rpc

  /** The deposit transaction for `lamports`, with `ephemeral` the fresh
      account that holds the amount between the two instructions. */
  function DepositSend(env: Env, data: Data, stakePool: StakePool, lamports: u64, ephemeral: Pubkey): (r: Sent)
    // one transaction of two instructions, paid by the payer and waited for
    ensures |r.instructions| == 2 && r.feePayer == data.payer && r.wait
    // signed by the payer (twice, once as its clone) and by the ephemeral account
    ensures r.signers == [data.payer, ephemeral, data.payer]
    // first the transfer of the amount from the payer to the ephemeral account
    ensures r.instructions[0] == SystemTransfer(data.payer, ephemeral, lamports)
    // then the deposit of that same amount, spent from the account the transfer filled
    ensures var t, d := r.instructions[0], r.instructions[1];
      && d.StakePoolDepositSol?
      && d.lamports == t.lamports
      && d.lamportsFrom == t.toPubkey
    // the pool tokens go to the payer's token account for the pool mint, which is also the referrer
    ensures var d := r.instructions[1];
      && d.poolTokensTo == env.associatedTokenAddress(data.payer, stakePool.poolMint)
      && d.referrerPoolTokensAccount == d.poolTokensTo
    // the pool's own accounts, as recorded in the pool
    ensures var d := r.instructions[1];
      && d.programId == env.stakePoolProgram
      && d.stakePoolAddress == data.stakePoolAddress
      && d.withdrawAuthority == env.withdrawAuthority(env.stakePoolProgram, data.stakePoolAddress)
      && d.reserveStake == stakePool.reserveStake
      && d.managerFeeAccount == stakePool.managerFeeAccount
      && d.poolMint == stakePool.poolMint
      && d.tokenProgramId == env.tokenProgram
  {
    var receiver := env.associatedTokenAddress(data.payer, stakePool.poolMint);
    Sent(
      [ SystemTransfer(data.payer, ephemeral, lamports),
        StakePoolDepositSol(
          env.stakePoolProgram, data.stakePoolAddress,
          env.withdrawAuthority(env.stakePoolProgram, data.stakePoolAddress),
          stakePool.reserveStake, ephemeral, receiver, stakePool.managerFeeAccount,
          receiver, stakePool.poolMint, env.tokenProgram, lamports) ],
      data.payer, [data.payer, ephemeral, data.payer], true)
  }

  /** `deposit_sol`: builds the two instructions one after the other and sends
      them as one transaction. */
  method DepositSol(env: Env, data: Data, stakePool: StakePool, lamports: u64, ephemeral: Pubkey)
    modifies data.client
    ensures data.client.sent == old(data.client.sent) + [DepositSend(env, data, stakePool, lamports, ephemeral)]
  {
    var signers := [data.payer, ephemeral, data.payer];
    var instructions: seq<Instruction> := [];
    instructions := instructions + [SystemTransfer(data.payer, ephemeral, lamports)];
    var receiver := env.associatedTokenAddress(data.payer, stakePool.poolMint);
    var referrer := receiver;
    var withdrawAuthority := env.withdrawAuthority(env.stakePoolProgram, data.stakePoolAddress);
    var deposit := StakePoolDepositSol(
      env.stakePoolProgram, data.stakePoolAddress, withdrawAuthority, stakePool.reserveStake,
      ephemeral, receiver, stakePool.managerFeeAccount, referrer, stakePool.poolMint,
      env.tokenProgram, lamports);
    instructions := instructions + [deposit];
    assert Sent(instructions, data.payer, signers, true) == DepositSend(env, data, stakePool, lamports, ephemeral);
    SendInstructions(data.client, instructions, data.payer, signers, true);
  }
}
