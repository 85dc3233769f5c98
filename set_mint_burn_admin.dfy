/** `process_set_mint_burn_admin` (program/src/set_mint_burn_admin.rs) as a state transition. */
module SetMintBurnAdminHandler {
  import opened Primitives
  import opened Wrappers
  import opened Errors
  import opened Runtime
  import ConfigAccount
  import WhitelistAccount

  /** Accounts: config, vault config, whitelist, vault, vault admin, vault program. */
  const AccountCount: nat := 6

  /**
    * What the guard chain accepts: the Config, the vault config, the vault's Whitelist and
    * the writable vault load, the signer is the vault's admin, and the admin signs.
    */
  predicate Admissible(env: Env, s: LedgerState, metas: seq<AccountMeta>) {
    && |metas| == AccountCount
    && ConfigAccount.Load(env.programId, env.derive, Info(s, metas[0]), false).Ok?
    && LoadVaultConfig(s, metas[1]).Ok?
    && WhitelistAccount.Load(env.programId, env.derive, Info(s, metas[2]), metas[3].key, false).Ok?
    && LoadVault(s, metas[3], true).Ok?
    && CheckAdmin(LoadVault(s, metas[3], true).value, metas[4].key).Ok?
    && LoadSigner(Info(s, metas[4]), false).Ok?
  }

  function Checks(env: Env, s: LedgerState, metas: seq<AccountMeta>): (r: Result<(), ProgramError>)
    ensures r.Ok? <==> Admissible(env, s, metas)
  {
    if |metas| != AccountCount then Err(NotEnoughAccountKeys)
    else
      var config, whitelist, admin := Info(s, metas[0]), Info(s, metas[2]), Info(s, metas[4]);
      var _ :- ConfigAccount.Load(env.programId, env.derive, config, false);
      var _ :- LoadVaultConfig(s, metas[1]);
      var _ :- WhitelistAccount.Load(env.programId, env.derive, whitelist, metas[3].key, false);
      var vault :- LoadVault(s, metas[3], true);
      var _ :- CheckAdmin(vault, admin.key);
      LoadSigner(admin, false)
  }

  function Step(env: Env, s: LedgerState, metas: seq<AccountMeta>): (o: Outcome)
    ensures |metas| != AccountCount ==> o == Outcome(Err(NotEnoughAccountKeys), s)
    ensures o.result.Err? ==> o.post == s
    ensures o.result.Ok? <==> Admissible(env, s, metas)
    ensures o.result.Ok? ==>
              && |metas| == AccountCount
              && ConfigAccount.Load(env.programId, env.derive, Info(s, metas[0]), false).Ok?
              && metas[1].key in s.vaultConfigs
              && WhitelistAccount.Load(env.programId, env.derive, Info(s, metas[2]), metas[3].key, false).Ok?
              && metas[3].key in s.vaults && metas[3].isWritable
              && s.vaults[metas[3].key].admin == metas[4].key && metas[4].isSigner
              && o.post == SetSecondaryAdmin(env, s, metas[5].key, metas[3].key, metas[4].key, metas[2].key)
  {
    match Checks(env, s, metas)
    case Err(e) => Outcome(Err(e), s)
    case Ok(_) => Outcome(Ok(()), SetSecondaryAdmin(env, s, metas[5].key, metas[3].key, metas[4].key, metas[2].key))
  }

  /**
    * With the vault program as target, the vault's MintBurnAdmin becomes the Whitelist's
    * address; and the call can be repeated: a second identical call succeeds and leaves
    * the vaults as the first left them.
    */
  lemma GrantsRoleIdempotently(env: Env, s: LedgerState, metas: seq<AccountMeta>)
    requires Step(env, s, metas).result.Ok?
    requires metas[5].key == env.vaultProgramId
    ensures var post := Step(env, s, metas).post;
      && post.vaults[metas[3].key].mintBurnAdmin == metas[2].key
      && Step(env, post, metas).result.Ok?
      && Step(env, post, metas).post.vaults == post.vaults
  {
    var post := Step(env, s, metas).post;
    assert Info(post, metas[0]) == Info(s, metas[0]) && Info(post, metas[2]) == Info(s, metas[2]);
    assert Checks(env, post, metas).Ok?;
  }
}
