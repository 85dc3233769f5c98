/** `process_set_meta_merkle_root` (program/src/set_meta_merkle_root.rs) as a state transition. */
module SetMetaMerkleRootHandler {
  import opened Primitives
  import opened Wrappers
  import opened Errors
  import opened Runtime
  import opened AccountLayout
  import ConfigAccount
  import WhitelistAccount

  /** Accounts: config, vault, whitelist, vault admin. */
  const AccountCount: nat := 4

  /**
    * What the guard chain accepts: the Config and the vault load, the signer is the vault's
    * admin, the vault's Whitelist loads writable and decodes, and the admin signs and is
    * writable.
    */
  predicate Admissible(env: Env, s: LedgerState, metas: seq<AccountMeta>) {
    && |metas| == AccountCount
    && ConfigAccount.Load(env.programId, env.derive, Info(s, metas[0]), false).Ok?
    && LoadVault(s, metas[1], false).Ok?
    && CheckAdmin(LoadVault(s, metas[1], false).value, metas[3].key).Ok?
    && WhitelistAccount.Load(env.programId, env.derive, Info(s, metas[2]), metas[1].key, true).Ok?
    && WhitelistAccount.Decode(Lookup(s, metas[2].key).data).Ok?
    && LoadSigner(Info(s, metas[3]), true).Ok?
  }

  /** The guard chain, all of it before the write. */
  function Checks(env: Env, s: LedgerState, metas: seq<AccountMeta>): (r: Result<(), ProgramError>)
    ensures r.Ok? <==> Admissible(env, s, metas)
  {
    if |metas| != AccountCount then Err(NotEnoughAccountKeys)
    else
      var config, whitelist, admin := Info(s, metas[0]), Info(s, metas[2]), Info(s, metas[3]);
      var _ :- ConfigAccount.Load(env.programId, env.derive, config, false);
      var vault :- LoadVault(s, metas[1], false);
      var _ :- CheckAdmin(vault, admin.key);
      var _ :- WhitelistAccount.Load(env.programId, env.derive, whitelist, metas[1].key, true);
      var _ :- WhitelistAccount.Decode(whitelist.data);
      LoadSigner(admin, true)
  }

  /** The root's byte offset inside the account data. */
  const RootPosition: nat := HeaderLen + WhitelistAccount.RootOffset

  function Step(env: Env, s: LedgerState, metas: seq<AccountMeta>, root: Hash): (o: Outcome)
    ensures |metas| != AccountCount ==> o == Outcome(Err(NotEnoughAccountKeys), s)
    ensures o.result.Err? ==> o.post == s
    ensures o.result.Ok? <==> Admissible(env, s, metas)
    ensures o.result.Ok? ==>
              && |metas| == AccountCount
              && metas[1].key in s.vaults && s.vaults[metas[1].key].admin == metas[3].key
              && metas[3].isSigner && metas[3].isWritable
              && WhitelistAccount.Load(env.programId, env.derive, Info(s, metas[2]), metas[1].key, true).Ok?
              && |Lookup(s, metas[2].key).data| >= HeaderLen + WhitelistAccount.Size
              && o.post == s.(accounts := s.accounts[metas[2].key := StoredAccount(env.programId,
                   Overwrite(Lookup(s, metas[2].key).data, RootPosition, root))])
  {
    match Checks(env, s, metas)
    case Err(e) => Outcome(Err(e), s)
    case Ok(_) =>
      var data := Lookup(s, metas[2].key).data;
      Outcome(Ok(()), s.(accounts := s.accounts[metas[2].key := StoredAccount(env.programId, Overwrite(data, RootPosition, root))]))
  }

  /**
    * After a successful call the Whitelist still loads at the same address, and its record
    * is the old one with the root replaced: vault and bump are untouched.
    */
  lemma RootIsStored(env: Env, s: LedgerState, metas: seq<AccountMeta>, root: Hash)
    requires Step(env, s, metas, root).result.Ok?
    ensures var post := Step(env, s, metas, root).post;
      && WhitelistAccount.Load(env.programId, env.derive, Info(post, metas[2]), metas[1].key, true).Ok?
      && WhitelistAccount.Decode(Lookup(post, metas[2].key).data)
         == Ok(WhitelistAccount.SetMetaMerkleRoot(WhitelistAccount.Decode(Lookup(s, metas[2].key).data).value, root))
  {
    WhitelistAccount.SetRootInAccountData(Lookup(s, metas[2].key).data, root);
  }
}
