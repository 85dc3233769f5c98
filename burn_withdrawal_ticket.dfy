/** `process_burn_withdrawal_ticket` (program/src/burn_withdrawal_ticket.rs): the gate, then `burn_withdrawal_ticket`. */
module BurnWithdrawalTicketHandler {
  import opened Primitives
  import opened Wrappers
  import opened Errors
  import opened Runtime
  import WhitelistAccount
  import WhitelistGate

  /** Accounts, by position: 1 vault, 4 staker, 12 config, 13 whitelist, and eleven passed through. */
  const AccountCount: nat := 15

  /** The forwarded `burn_withdrawal_ticket`, with the Whitelist as burn signer, signed by its seeds. */
  function Forwarded(env: Env, metas: seq<AccountMeta>, bump: byte): Call
    requires |metas| == AccountCount
  {
    Call(env.vaultProgramId, metas[1].key, BurnWithdrawalTicket(metas[4].key, Some(metas[13].key)),
         SignerSeeds(WhitelistAccount.Seeds(metas[1].key), bump))
  }

  function Step(env: Env, s: LedgerState, metas: seq<AccountMeta>, proof: seq<Hash>): (o: Outcome)
    ensures |metas| != AccountCount ==> o == Outcome(Err(NotEnoughAccountKeys), s)
    ensures o.result.Err? ==> o.post == s
    ensures |metas| == AccountCount ==>
              (o.result.Ok? <==> WhitelistGate.Checks(env, s, metas[12], metas[1], metas[13], metas[4], false, proof).Ok?)
    ensures |metas| == AccountCount && WhitelistGate.Checks(env, s, metas[12], metas[1], metas[13], metas[4], false, proof).Err? ==>
              o.result == Err(WhitelistGate.Checks(env, s, metas[12], metas[1], metas[13], metas[4], false, proof).error)
    ensures o.result.Ok? ==>
              && |metas| == AccountCount
              && o.post == s.(calls := s.calls + [Forwarded(env, metas,
                   WhitelistAccount.FindProgramAddress(env.derive, env.programId, metas[1].key).1)])
  {
    if |metas| != AccountCount then Outcome(Err(NotEnoughAccountKeys), s)
    else
      match WhitelistGate.Checks(env, s, metas[12], metas[1], metas[13], metas[4], false, proof)
      case Err(e) => Outcome(Err(e), s)
      case Ok(bump) => Outcome(Ok(()), s.(calls := s.calls + [Forwarded(env, metas, bump)]))
  }
}
