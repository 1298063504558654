/** Increasing and decreasing a validator's stake through its vote account:
    look the vote account up in the validator list, derive the seeds from the
    entry found, and send the single encoded instruction. */
module Adjust {
  import opened Wrappers
  import opened Types
  import opened Rpc

  datatype Direction = Increase | Decrease

  datatype Error = VoteAccountNotFound(voteAccount: Pubkey)

  /** Entry `i` is the first one whose vote account is `vote`. */
  predicate FirstMatch(validators: seq<ValidatorStakeInfo>, i: int, vote: Pubkey)
  {
    && 0 <= i < |validators|
    && validators[i].voteAccountAddress == vote
    && forall j :: 0 <= j < i ==> validators[j].voteAccountAddress != vote
  }

  /** `ValidatorList::find`: the first entry whose vote account is `vote`. */
  function Find(validators: seq<ValidatorStakeInfo>, vote: Pubkey): (r: Option<ValidatorStakeInfo>)
    ensures r.None? <==> forall e :: e in validators ==> e.voteAccountAddress != vote
    ensures r.Some? ==> r.value in validators && r.value.voteAccountAddress == vote
    ensures r.Some? ==> exists i :: FirstMatch(validators, i, vote) && validators[i] == r.value
  {
    if validators == [] then None
    else if validators[0].voteAccountAddress == vote then Some(validators[0])
    else Find(validators[1..], vote)
  }

  /** In a list whose vote accounts are unique, the lookup returns the one
      entry for that vote account. */
  lemma FindUnique(list: ValidatorList, i: nat)
    requires UniqueVoteAccounts(list)
    requires i < |list.validators|
    ensures Find(list.validators, list.validators[i].voteAccountAddress) == Some(list.validators[i])
  {
  }

  /** `NonZeroU32::new(suffix)`: no seed for a zero suffix, the suffix itself
      otherwise. */
  function ValidatorSeed(suffix: u32): (r: Option<NonZeroU32>)
    ensures r.None? <==> suffix == 0
    ensures r.Some? ==> r.value == suffix
  {
    if suffix == 0 then None else Some(suffix)
  }

  /** The encoder call for one direction; the last argument is always 0. */
  function AdjustInstruction(direction: Direction, env: Env, data: Data, stakePool: StakePool, vote: Pubkey, lamports: u64, info: ValidatorStakeInfo): (ix: Instruction)
  {
    var seed := ValidatorSeed(info.validatorSeedSuffix);
    match direction
    case Increase =>
      StakePoolIncreaseAdditionalValidatorStakeWithVote(
        env.stakePoolProgram, stakePool, data.stakePoolAddress, vote, lamports, seed, info.transientSeedSuffix, 0)
    case Decrease =>
      StakePoolDecreaseAdditionalValidatorStakeWithVote(
        env.stakePoolProgram, stakePool, data.stakePoolAddress, vote, lamports, seed, info.transientSeedSuffix, 0)
  }

  /** The one transaction a stake adjustment sends, or the reason it aborts. */
  function AdjustSend(direction: Direction, env: Env, data: Data, stakePool: StakePool, validatorList: ValidatorList, vote: Pubkey, lamports: u64): (r: Result<Sent, Error>)
    // aborts exactly when the vote account is not in the list
    ensures r.Failure? <==> forall e :: e in validatorList.validators ==> e.voteAccountAddress != vote
    ensures r.Failure? ==> r.error == VoteAccountNotFound(vote)
    // otherwise one single-instruction transaction, paid and signed by the payer, waited for
    ensures r.Success? ==>
      && |r.value.instructions| == 1
      && r.value.feePayer == data.payer
      && r.value.signers == [data.payer, data.payer]
      && r.value.wait
    ensures r.Success? ==>
      var ix := r.value.instructions[0];
      var info := Find(validatorList.validators, vote).value;
      // the instruction matches the direction
      && (ix.StakePoolIncreaseAdditionalValidatorStakeWithVote? || ix.StakePoolDecreaseAdditionalValidatorStakeWithVote?)
      && (direction == Increase <==> ix.StakePoolIncreaseAdditionalValidatorStakeWithVote?)
      && (direction == Decrease <==> ix.StakePoolDecreaseAdditionalValidatorStakeWithVote?)
      // it targets an entry of the list that has the requested vote account
      && info in validatorList.validators
      && ix.voteAccountAddress == vote == info.voteAccountAddress
      && ix.stakePoolAddress == data.stakePoolAddress
      && ix.stakePool == stakePool
      && ix.programId == env.stakePoolProgram
      && ix.lamports == lamports
      // no validator seed exactly when the entry's suffix is zero, else the suffix
      && (ix.validatorStakeSeed.None? <==> info.validatorSeedSuffix == 0)
      && (ix.validatorStakeSeed.Some? ==> ix.validatorStakeSeed.value == info.validatorSeedSuffix)
      // the transient seed passes through and the last argument is fixed at 0
      && ix.transientStakeSeed == info.transientSeedSuffix
      && ix.ephemeralStakeSeed == 0
  {
    match Find(validatorList.validators, vote)
    case None => Failure(VoteAccountNotFound(vote))
    case Some(info) =>
      Success(Sent([AdjustInstruction(direction, env, data, stakePool, vote, lamports, info)], data.payer, [data.payer, data.payer], true))
  }

  /** The body shared by both directions. */
  method AdjustValidatorStakeWithVote(direction: Direction, env: Env, data: Data, stakePool: StakePool, validatorList: ValidatorList, lamports: u64, vote: Pubkey)
    returns (r: Result<(), Error>)
    modifies data.client
    ensures match AdjustSend(direction, env, data, stakePool, validatorList, vote, lamports)
      case Failure(e) => r == Failure(e) && data.client.sent == old(data.client.sent)
      case Success(s) => r == Success(()) && data.client.sent == old(data.client.sent) + [s]
  {
    var found := Find(validatorList.validators, vote);
    if found.None? {
      return Failure(VoteAccountNotFound(vote));
    }
    var info := found.value;
    var instructions := [AdjustInstruction(direction, env, data, stakePool, vote, lamports, info)];
    var signers := [data.payer, data.payer];
    SendInstructions(data.client, instructions, data.payer, signers, true);
    r := Success(());
  }

  /** `increase_validator_stake_with_vote` */
  method IncreaseValidatorStakeWithVote(env: Env, data: Data, stakePool: StakePool, validatorList: ValidatorList, lamports: u64, vote: Pubkey)
    returns (r: Result<(), Error>)
    modifies data.client
    ensures match AdjustSend(Increase, env, data, stakePool, validatorList, vote, lamports)
      case Failure(e) => r == Failure(e) && data.client.sent == old(data.client.sent)
      case Success(s) => r == Success(()) && data.client.sent == old(data.client.sent) + [s]
  {
    r := AdjustValidatorStakeWithVote(Increase, env, data, stakePool, validatorList, lamports, vote);
  }

  /** `decrease_validator_stake_with_vote` */
  method DecreaseValidatorStakeWithVote(env: Env, data: Data, stakePool: StakePool, validatorList: ValidatorList, lamports: u64, vote: Pubkey)
    returns (r: Result<(), Error>)
    modifies data.client
    ensures match AdjustSend(Decrease, env, data, stakePool, validatorList, vote, lamports)
      case Failure(e) => r == Failure(e) && data.client.sent == old(data.client.sent)
      case Success(s) => r == Success(()) && data.client.sent == old(data.client.sent) + [s]
  {
    r := AdjustValidatorStakeWithVote(Decrease, env, data, stakePool, validatorList, lamports, vote);
  }
}
