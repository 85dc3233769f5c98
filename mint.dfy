/** `process_mint` (program/src/mint.rs): the whitelist gate, then `mint_to` on the vault program. */
module MintHandler {
  import opened Primitives
  import opened Wrappers
  import opened Errors
  import opened Runtime
  import WhitelistAccount
  import WhitelistGate

  /** Accounts, by position: 0 config, 2 vault, 4 depositor, 9 whitelist, and eight passed through. */
  const AccountCount: nat := 12

  /** The forwarded `mint_to`, with the Whitelist as mint signer, signed by the Whitelist's seeds. */
  function Forwarded(env: Env, metas: seq<AccountMeta>, amountIn: u64, minAmountOut: u64, bump: byte): Call
    requires |metas| == AccountCount
  {
    Call(env.vaultProgramId, metas[2].key, MintTo(metas[4].key, amountIn, minAmountOut, Some(metas[9].key)),
         SignerSeeds(WhitelistAccount.Seeds(metas[2].key), bump))
  }

  function Step(env: Env, s: LedgerState, metas: seq<AccountMeta>, proof: seq<Hash>, amountIn: u64, minAmountOut: u64)
    : (o: Outcome)
    ensures |metas| != AccountCount ==> o == Outcome(Err(NotEnoughAccountKeys), s)
    ensures o.result.Err? ==> o.post == s
    ensures |metas| == AccountCount ==>
              (o.result.Ok? <==> WhitelistGate.Checks(env, s, metas[0], metas[2], metas[9], metas[4], true, proof).Ok?)
    ensures |metas| == AccountCount && WhitelistGate.Checks(env, s, metas[0], metas[2], metas[9], metas[4], true, proof).Err? ==>
              o.result == Err(WhitelistGate.Checks(env, s, metas[0], metas[2], metas[9], metas[4], true, proof).error)
    ensures o.result.Ok? ==>
              && |metas| == AccountCount
              && o.post == s.(calls := s.calls + [Forwarded(env, metas, amountIn, minAmountOut,
                   WhitelistAccount.FindProgramAddress(env.derive, env.programId, metas[2].key).1)])
  {
    if |metas| != AccountCount then Outcome(Err(NotEnoughAccountKeys), s)
    else
      match WhitelistGate.Checks(env, s, metas[0], metas[2], metas[9], metas[4], true, proof)
      case Err(e) => Outcome(Err(e), s)
      case Ok(bump) => Outcome(Ok(()), s.(calls := s.calls + [Forwarded(env, metas, amountIn, minAmountOut, bump)]))
  }
}
