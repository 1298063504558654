/** Pool maintenance: the per-validator update instructions are sent one per
    transaction, only the last of them waiting for confirmation, and then the
    final pool-level instructions are sent together and waited for. */
module Maintenance {
  import opened Types
  import opened Rpc

  /** `Vec::split_off(at)`: the vector keeps its first `at` elements and the
      rest is returned.  Panics unless `at <= len`. */
  function SplitOff<T>(v: seq<T>, at: nat): (r: (seq<T>, seq<T>))
    requires at <= |v|
    ensures |r.0| == at && |r.1| == |v| - at
    ensures r.0 + r.1 == v
  {
    (v[..at], v[at..])
  }

  /** The transactions of the loop over all but the last update instruction:
      one transaction per instruction, paid and signed by `payer` alone, sent
      without waiting. */
  function UnconfirmedSends(updates: seq<Instruction>, payer: Pubkey): (r: seq<Sent>)
    ensures |r| == |updates|
    ensures forall i :: 0 <= i < |updates| ==> r[i] == Sent([updates[i]], payer, [payer], false)
  {
    if updates == [] then []
    else UnconfirmedSends(updates[..|updates| - 1], payer) + [Sent([updates[|updates| - 1]], payer, [payer], false)]
  }

  /** The whole maintenance log for the library's two instruction lists. */
  function MaintenanceSends(updates: seq<Instruction>, finals: seq<Instruction>, payer: Pubkey): (r: seq<Sent>)
    // one transaction per update instruction plus the final one
    ensures |r| == |updates| + 1
    // update instructions go one per transaction, in their order; only the last one waits
    ensures forall i :: 0 <= i < |updates| ==> r[i] == Sent([updates[i]], payer, [payer], i == |updates| - 1)
    // the final instructions always go last, together, and are waited for
    ensures r[|updates|] == Sent(finals, payer, [payer], true)
    // with no update instructions only the final transaction is sent
    ensures updates == [] ==> r == [Sent(finals, payer, [payer], true)]
  {
    var final := Sent(finals, payer, [payer], true);
    if |updates| > 0 then
      var n := |updates|;
      UnconfirmedSends(updates[..n - 1], payer) + [Sent(updates[n - 1..], payer, [payer], true)] + [final]
    else
      [final]
  }

  /** The two lists the library returns for this pool. */
  function UpdateInstructions(env: Env, data: Data, stakePool: StakePool, validatorList: ValidatorList): (lists: (seq<Instruction>, seq<Instruction>))
  {
    env.updateStakePool(env.stakePoolProgram, stakePool, validatorList, data.stakePoolAddress, false)
  }

  /** Exactly the transactions that wait for confirmation are the last update
      transaction and the final one. */
  lemma MaintenanceWaits(updates: seq<Instruction>, finals: seq<Instruction>, payer: Pubkey)
    ensures var r := MaintenanceSends(updates, finals, payer);
      forall i :: 0 <= i < |r| ==> (r[i].wait <==> i >= |updates| - 1)
  {
  }

  /** Every maintenance transaction is paid by `payer` and signed by it alone. */
  lemma MaintenancePayerOnly(updates: seq<Instruction>, finals: seq<Instruction>, payer: Pubkey)
    ensures forall s :: s in MaintenanceSends(updates, finals, payer) ==> s.feePayer == payer && s.signers == [payer]
  {
  }

  /** The update transactions carry the update list back, in order: splitting
      off the last instruction loses, duplicates and reorders nothing. */
  lemma {:induction false} UpdatePrefixInstructions(updates: seq<Instruction>, finals: seq<Instruction>, payer: Pubkey, k: nat)
    requires k <= |updates|
    ensures Instructions(MaintenanceSends(updates, finals, payer)[..k]) == updates[..k]
  {
    var r := MaintenanceSends(updates, finals, payer);
    if k > 0 {
      UpdatePrefixInstructions(updates, finals, payer, k - 1);
      assert r[..k][..k - 1] == r[..k - 1];
      assert updates[..k] == updates[..k - 1] + [updates[k - 1]];
    }
  }

  /** All maintenance instructions are sent, in order: the update list and then
      the final list. */
  lemma MaintenanceInstructions(updates: seq<Instruction>, finals: seq<Instruction>, payer: Pubkey)
    ensures Instructions(MaintenanceSends(updates, finals, payer)[..|updates|]) == updates
    ensures Instructions(MaintenanceSends(updates, finals, payer)) == updates + finals
  {
    var r := MaintenanceSends(updates, finals, payer);
    UpdatePrefixInstructions(updates, finals, payer, |updates|);
    assert r[..|r| - 1] == r[..|updates|];
    assert updates[..|updates|] == updates;
  }

  /** `update_stake_pool`: asks the library for the maintenance instructions
      and sends them. */
  method UpdateStakePool(env: Env, data: Data, stakePool: StakePool, validatorList: ValidatorList)
    modifies data.client
    ensures var (updates, finals) := UpdateInstructions(env, data, stakePool, validatorList);
      data.client.sent == old(data.client.sent) + MaintenanceSends(updates, finals, data.payer)
  {
    var (updateList, finals) := env.updateStakePool(env.stakePoolProgram, stakePool, validatorList, data.stakePoolAddress, false);
    var n := |updateList|;
    var signers := [data.payer];
    if n > 0 {
      var (rest, last) := SplitOff(updateList, n - 1);
      for i := 0 to |rest|
        invariant data.client.sent == old(data.client.sent) + UnconfirmedSends(rest[..i], data.payer)
      {
        SendInstructions(data.client, [rest[i]], data.payer, signers, false);
        assert rest[..i + 1][..i] == rest[..i];
      }
      assert rest[..|rest|] == updateList[..n - 1];
      SendInstructions(data.client, last, data.payer, signers, true);
    }
    SendInstructions(data.client, finals, data.payer, signers, true);
  }
}
