/** `process_close_whitelist` (program/src/close_whitelist.rs) as a state transition. */
module CloseWhitelistHandler {
  import opened Primitives
  import opened Wrappers
  import opened Errors
  import opened Runtime
  import ConfigAccount
  import WhitelistAccount

  /** Accounts: config, vault config, whitelist, vault, vault admin, vault program, system program. */
  const AccountCount: nat := 7

  /**
    * What the guard chain accepts: the Config loads, the vault's Whitelist loads writable,
    * the vault loads, the signer is its admin, and the admin signs and is writable.
    */
  predicate Admissible(env: Env, s: LedgerState, metas: seq<AccountMeta>) {
    && |metas| == AccountCount
    && ConfigAccount.Load(env.programId, env.derive, Info(s, metas[0]), false).Ok?
    && WhitelistAccount.Load(env.programId, env.derive, Info(s, metas[2]), metas[3].key, true).Ok?
    && LoadVault(s, metas[3], false).Ok?
    && CheckAdmin(LoadVault(s, metas[3], false).value, metas[4].key).Ok?
    && LoadSigner(Info(s, metas[4]), true).Ok?
  }

  function Checks(env: Env, s: LedgerState, metas: seq<AccountMeta>): (r: Result<(), ProgramError>)
    ensures r.Ok? <==> Admissible(env, s, metas)
  {
    if |metas| != AccountCount then Err(NotEnoughAccountKeys)
    else
      var config, whitelist, admin := Info(s, metas[0]), Info(s, metas[2]), Info(s, metas[4]);
      var _ :- ConfigAccount.Load(env.programId, env.derive, config, false);
      var _ :- WhitelistAccount.Load(env.programId, env.derive, whitelist, metas[3].key, true);
      var vault :- LoadVault(s, metas[3], false);
      var _ :- CheckAdmin(vault, admin.key);
      LoadSigner(admin, true)
  }

  /** The MintBurnAdmin role is reset to the default key first; then the Whitelist is closed. */
  function Effect(env: Env, s: LedgerState, metas: seq<AccountMeta>): LedgerState
    requires |metas| == AccountCount
  {
    var reset := SetSecondaryAdmin(env, s, metas[5].key, metas[3].key, metas[4].key, DefaultPubkey);
    reset.(accounts := reset.accounts - {metas[2].key})
  }

  function Step(env: Env, s: LedgerState, metas: seq<AccountMeta>): (o: Outcome)
    ensures |metas| != AccountCount ==> o == Outcome(Err(NotEnoughAccountKeys), s)
    ensures o.result.Err? ==> o.post == s
    ensures o.result.Ok? <==> Admissible(env, s, metas)
    ensures o.result.Ok? ==>
              && |metas| == AccountCount
              && WhitelistAccount.Load(env.programId, env.derive, Info(s, metas[2]), metas[3].key, true).Ok?
              && metas[3].key in s.vaults && s.vaults[metas[3].key].admin == metas[4].key
              && metas[4].isSigner && metas[4].isWritable
              && o.post == Effect(env, s, metas)
  {
    match Checks(env, s, metas)
    case Err(e) => Outcome(Err(e), s)
    case Ok(_) => Outcome(Ok(()), Effect(env, s, metas))
  }

  /**
    * After a successful close the Whitelist address reads as an empty system account, so
    * loading it as a Whitelist fails with `InvalidAccountOwner`; with the vault program as
    * target the vault's MintBurnAdmin is the default key again.
    */
  lemma ClosedWhitelistNoLongerLoads(env: Env, s: LedgerState, metas: seq<AccountMeta>, m: AccountMeta, vault: Pubkey, writable: bool)
    requires Step(env, s, metas).result.Ok?
    requires m.key == metas[2].key
    requires env.programId != SystemProgramId
    ensures var post := Step(env, s, metas).post;
      && Lookup(post, metas[2].key) == StoredAccount(SystemProgramId, [])
      && WhitelistAccount.Load(env.programId, env.derive, Info(post, m), vault, writable) == Err(InvalidAccountOwner)
      && (metas[5].key == env.vaultProgramId ==> post.vaults[metas[3].key].mintBurnAdmin == DefaultPubkey)
  {
  }
}
