/** `process_enqueue_withdrawal` (program/src/enqueue_withdrawal.rs): the gate, then `enqueue_withdrawal`. */
module EnqueueWithdrawalHandler {
  import opened Primitives
  import opened Wrappers
  import opened Errors
  import opened Runtime
  import WhitelistAccount
  import WhitelistGate

  /** Accounts, by position: 1 vault, 4 staker, 9 config, 10 whitelist, and eight passed through. */
  const AccountCount: nat := 12

  /** The forwarded `enqueue_withdrawal`, signed by the Whitelist's seeds. */
  function Forwarded(env: Env, metas: seq<AccountMeta>, vrtAmount: u64, bump: byte): Call
    requires |metas| == AccountCount
  {
    Call(env.vaultProgramId, metas[1].key, EnqueueWithdrawal(metas[4].key, vrtAmount),
         SignerSeeds(WhitelistAccount.Seeds(metas[1].key), bump))
  }

  function Step(env: Env, s: LedgerState, metas: seq<AccountMeta>, proof: seq<Hash>, vrtAmount: u64): (o: Outcome)
    ensures |metas| != AccountCount ==> o == Outcome(Err(NotEnoughAccountKeys), s)
    ensures o.result.Err? ==> o.post == s
    ensures |metas| == AccountCount ==>
              (o.result.Ok? <==> WhitelistGate.Checks(env, s, metas[9], metas[1], metas[10], metas[4], false, proof).Ok?)
    ensures |metas| == AccountCount && WhitelistGate.Checks(env, s, metas[9], metas[1], metas[10], metas[4], false, proof).Err? ==>
              o.result == Err(WhitelistGate.Checks(env, s, metas[9], metas[1], metas[10], metas[4], false, proof).error)
    ensures o.result.Ok? ==>
              && |metas| == AccountCount
              && o.post == s.(calls := s.calls + [Forwarded(env, metas, vrtAmount,
                   WhitelistAccount.FindProgramAddress(env.derive, env.programId, metas[1].key).1)])
  {
    if |metas| != AccountCount then Outcome(Err(NotEnoughAccountKeys), s)
    else
      match WhitelistGate.Checks(env, s, metas[9], metas[1], metas[10], metas[4], false, proof)
      case Err(e) => Outcome(Err(e), s)
      case Ok(bump) => Outcome(Ok(()), s.(calls := s.calls + [Forwarded(env, metas, vrtAmount, bump)]))
  }
}
