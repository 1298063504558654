# Stake pool client: transaction orchestration model

This project models the decision logic of a small command-line client for an
SPL stake pool on Solana. On every invocation the client brings the pool up to
date and then runs one of three commands: deposit SOL, increase a validator's
stake, or decrease a validator's stake. The model covers which transactions the
client sends, in what order, with which fee payer and signers, and whether each
send waits for confirmation. It also covers how the deposit and
stake-adjustment instructions are put together from the pool and
validator-list records.

The ledger is seen through the RPC client as a log of submitted transactions
(`Rpc.RpcClient.sent`). `Rpc.SendInstructions` appends one `Sent` record to
that log: the instructions, the fee payer, the signers and the wait flag. Every
operation is a method over this log. Each method is proved against a
specification function that gives the exact transactions it appends. The
properties the client relies on are stated on those functions and in lemmas
about them.

Modules:

- `Wrappers`: `Option` and `Result`.
- `Types`: the `u32`/`u64` widths, `NonZeroU32`, 32-byte `Pubkey`, the
  decoded `StakePool`, `ValidatorStakeInfo` and `ValidatorList` records, and
  the `Instruction` values the encoders return. `Env` holds the foreign
  derivations and the library's maintenance planner.
- `Rpc`: the send log and `send_instructions`.
- `Maintenance`: `update_stake_pool`.
- `Deposit`: `deposit_sol`.
- `Adjust`: the validator-list lookup, the seed derivation, and
  `increase_`/`decrease_validator_stake_with_vote`.
- `Cli`: the dispatch in `main`. Maintenance always runs before the requested
  command.

Foreign calls are handled in two ways:

- The encoders of the stake-pool and system programs become `Instruction`
  constructors that record their arguments. Two instructions are therefore
  equal exactly when they come from the same encoder with the same arguments.
- `find_withdraw_authority_program_address`, `get_associated_token_address`
  and `instruction::update_stake_pool` become function-valued fields of `Env`.
  They are fixed but otherwise unknown.

## Model

| member | source | states |
|---|---|---|
| `Rpc.SendInstructions` | src/main.rs:151-177 | one send adds exactly one transaction to the log, carrying the given instructions in order, the fee payer, the signers and the wait flag; nothing else changes |
| `Maintenance.SplitOff` | src/main.rs:201 | `split_off(at)` keeps the first `at` elements and returns the rest; together they are the original vector |
| `Maintenance.UnconfirmedSends` | src/main.rs:202-210 | the loop sends one transaction per instruction, in order, each holding only that instruction, paid and signed by the payer, with no wait |
| `Maintenance.MaintenanceSends` | src/main.rs:198-226 | with N update instructions there are exactly N+1 transactions; transaction i holds update instruction i alone and waits only when i = N-1; the final instructions always go last, together, with wait; with N = 0 the final transaction is the only one |
| `Maintenance.MaintenanceWaits` | src/main.rs:200-226 | the transactions that wait for confirmation are exactly the last update transaction and the final one |
| `Maintenance.MaintenancePayerOnly` | src/main.rs:199-223 | every maintenance transaction has the payer as fee payer and the payer as its only signer |
| `Maintenance.UpdatePrefixInstructions` | src/main.rs:198-217 | the first k update transactions carry exactly the first k update instructions, in order |
| `Maintenance.MaintenanceInstructions` | src/main.rs:198-226 | concatenating the update transactions gives back the update list, so splitting loses, duplicates and reorders nothing; all maintenance transactions together carry the update list followed by the final list |
| `Maintenance.UpdateStakePool` | src/main.rs:187-227 | the split-and-loop implementation appends exactly the maintenance transactions for the library's two instruction lists |
| `Deposit.DepositSend` | src/main.rs:240-278 | one transaction of two instructions, paid by the payer, signed by payer, ephemeral account and payer, with wait; the transfer from payer to ephemeral account comes first; the deposit spends the same amount from the account the transfer filled; the pool tokens go to the payer's associated token account, which is also the referrer; the pool accounts come from the pool record |
| `Deposit.DepositSol` | src/main.rs:229-280 | building the instruction vector by pushes and sending it appends exactly the deposit transaction |
| `Adjust.Find` | src/main.rs:303-305 | the lookup finds nothing exactly when no entry has the vote account; an entry it finds is in the list, has the requested vote account, and is the first entry with that vote account |
| `Adjust.FindUnique` | src/main.rs:303-305 | when vote accounts are unique in the list, the lookup returns the one entry for that vote account |
| `Adjust.ValidatorSeed` | src/main.rs:307 | `NonZeroU32::new`: no seed exactly when the suffix is zero, else the suffix itself |
| `Adjust.AdjustSend` | src/main.rs:303-327 | the instruction is built by the helper `AdjustInstruction`, which models the seed derivation and the encoder call with the literal 0 (src/main.rs:307-318, 341-352). AdjustSend aborts with `VoteAccountNotFound` exactly when the vote account is not in the list. Otherwise it sends one single-instruction transaction with wait, paid by the payer and signed by it twice. The instruction is the increase or decrease encoder matching the direction. It uses the requested vote account (equal to the found entry's), the pool, the pool address and the amount. The validator seed is absent exactly when the entry's suffix is zero, else that suffix. The transient seed is the entry's transient suffix and the last argument is 0 |
| `Adjust.AdjustValidatorStakeWithVote` | src/main.rs:337-362 | on a missing vote account nothing is sent and the error is returned; otherwise exactly the adjustment transaction is appended |
| `Adjust.IncreaseValidatorStakeWithVote` | src/main.rs:298-330 | the increase command sends exactly the increase transaction, or nothing when the vote account is not listed |
| `Adjust.DecreaseValidatorStakeWithVote` | src/main.rs:332-365 | the decrease command sends exactly the decrease transaction, or nothing when the vote account is not listed |
| `Cli.Run` | src/main.rs:102-112 | the maintenance transactions are sent first and unchanged; the command's transaction, if any, comes right after the final maintenance transaction, which waits for confirmation; it is exactly the deposit or adjustment transaction for the state read for the command |

## Left out

- Argument parsing with clap, `parse_address` and `pubkey_from_path` (src/main.rs:17-68, 77): argument plumbing. Commands arrive as a `Cli.Command` value.
- Loading the payer keypair from the home directory (src/main.rs:84-87): file access. The payer appears only as its public key, and signers are recorded by public key.
- `Keypair::new` for the deposit's ephemeral account (src/main.rs:237): randomness. The fresh key is a parameter of `Deposit.DepositSol`.
- `sol_to_lamports` (src/main.rs:232, 301, 335): floating-point conversion in a foreign crate. Amounts arrive in lamports as a `u64`.
- Reading the pool and validator list over RPC and decoding them with Borsh (src/main.rs:115-121, 179-185): network I/O and a foreign decoder. The decoded records are inputs. `Cli.Run` takes one snapshot for maintenance and a second, re-read snapshot for the command. Missing or malformed accounts are not modelled. In the source they panic: the payer account read at src/main.rs:89, the pool read and the validator-list read. A panic at src/main.rs:89 stops the run before any maintenance send.
- Fetching the recent blockhash, building and signing the `Transaction`, and submitting it with or without the confirmation spinner (src/main.rs:158-176): network I/O. The wait flag records which RPC call is used.
- Rpc.SendInstructions: always succeeds. In the source, a failed RPC call, a confirmation timeout or a signer mismatch in `Transaction::new` panics and stops the remaining sends. The model does not capture that abort.
- The payer balance read (src/main.rs:89-91), apart from its panic on a missing payer account noted above, and all printing (`print_stake_pool_related_addresses`, `print_stake_pool_financials`, `print_validator_stake_info`): output only.
- The instruction encoders, `find_withdraw_authority_program_address`, `get_associated_token_address` and the library's `update_stake_pool` planner (src/main.rs:126-130, 191-197, 249-269, 309-318, 343-352): foreign code. They are modelled as free constructors or unknown functions, so the model cannot say which validators need an update.
- `ValidatorList.validators` holds only the entry fields the client reads. The list header and each entry's status and last-update epoch are not modelled.

How the model treats three details of the code:

- `find(...).expect(...)` (src/main.rs:303-305, 337-339) aborts the process when the vote account is missing. The model returns `Failure(VoteAccountNotFound(vote))` and sends nothing.
- Signer lists are recorded as the code passes them: `[payer]` for maintenance, `[payer, payer]` for adjustments, `[payer clone, ephemeral, payer]` for the deposit.
- The eighth encoder argument of the increase and decrease encoders is the library's `ephemeral_stake_seed`. The code passes the literal 0, and the model records `ephemeralStakeSeed == 0`.
