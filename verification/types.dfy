/** The on-chain records and the instructions the tool handles.  The records
    are the decoded forms of the stake pool account and its validator list;
    the instructions are the values returned by the library encoders, each
    recorded with the arguments it was built from. */
module Types {
  import opened Wrappers

  newtype u32 = x: int | 0 <= x < 0x1_0000_0000
  newtype u64 = x: int | 0 <= x < 0x1_0000_0000_0000_0000

  /** Rust's `NonZeroU32`. */
  type NonZeroU32 = x: u32 | x != 0 witness 1

  /** A 32-byte account address. */
  type Pubkey = b: seq<bv8> | |b| == 32 witness seq(32, _ => 0 as bv8)

  /** The decoded stake pool account (the fields the tool reads). */
  datatype StakePool = StakePool(
    manager: Pubkey,
    validatorList: Pubkey,
    reserveStake: Pubkey,
    poolMint: Pubkey,
    managerFeeAccount: Pubkey,
    totalLamports: u64,
    poolTokenSupply: u64)

  /** One entry of the validator list. */
  datatype ValidatorStakeInfo = ValidatorStakeInfo(
    activeStakeLamports: u64,
    transientStakeLamports: u64,
    transientSeedSuffix: u64,
    validatorSeedSuffix: u32,
    voteAccountAddress: Pubkey)

  /** The decoded validator list account, in its on-chain order. */
  datatype ValidatorList = ValidatorList(validators: seq<ValidatorStakeInfo>)

  /** The pool's invariant on its list: a vote account appears at most once. */
  predicate UniqueVoteAccounts(list: ValidatorList)
  {
    forall i, j :: 0 <= i < j < |list.validators| ==>
      list.validators[i].voteAccountAddress != list.validators[j].voteAccountAddress
  }

  /** An instruction as produced by an encoder.  Distinct constructors and
      distinct arguments give distinct instructions; nothing else about the
      encoded bytes is modelled. */
  datatype Instruction =
    | SystemTransfer(fromPubkey: Pubkey, toPubkey: Pubkey, lamports: u64)
    | StakePoolDepositSol(
        programId: Pubkey,
        stakePoolAddress: Pubkey,
        withdrawAuthority: Pubkey,
        reserveStake: Pubkey,
        lamportsFrom: Pubkey,
        poolTokensTo: Pubkey,
        managerFeeAccount: Pubkey,
        referrerPoolTokensAccount: Pubkey,
        poolMint: Pubkey,
        tokenProgramId: Pubkey,
        lamports: u64)
    | StakePoolIncreaseAdditionalValidatorStakeWithVote(
        programId: Pubkey,
        stakePool: StakePool,
        stakePoolAddress: Pubkey,
        voteAccountAddress: Pubkey,
        lamports: u64,
        validatorStakeSeed: Option<NonZeroU32>,
        transientStakeSeed: u64,
        ephemeralStakeSeed: u64)
    | StakePoolDecreaseAdditionalValidatorStakeWithVote(
        programId: Pubkey,
        stakePool: StakePool,
        stakePoolAddress: Pubkey,
        voteAccountAddress: Pubkey,
        lamports: u64,
        validatorStakeSeed: Option<NonZeroU32>,
        transientStakeSeed: u64,
        ephemeralStakeSeed: u64)
    /** An instruction whose contents the tool never inspects (the pool
        maintenance instructions the library returns). */
    | Encoded(programId: Pubkey, data: seq<bv8>)

  /** The foreign pieces the tool calls into: program ids, the address
      derivations and the library's maintenance planner.  Each is a fixed
      but unknown function; the model only relies on it being a function. */
  datatype Env = Env(
    stakePoolProgram: Pubkey,
    tokenProgram: Pubkey,
    /** `find_withdraw_authority_program_address(program, pool).0` */
    withdrawAuthority: (Pubkey, Pubkey) -> Pubkey,
    /** `get_associated_token_address(owner, mint)` */
    associatedTokenAddress: (Pubkey, Pubkey) -> Pubkey,
    /** `instruction::update_stake_pool(program, pool, list, address, no_merge)`:
        the per-validator update instructions and the final pool instructions */
    updateStakePool: (Pubkey, StakePool, ValidatorList, Pubkey, bool) -> (seq<Instruction>, seq<Instruction>))
}
