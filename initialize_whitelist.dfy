/** `process_initialize_whitelist` (program/src/initialize_whitelist.rs) as a state transition. */
module InitializeWhitelistHandler {
  import opened Primitives
  import opened Wrappers
  import opened Errors
  import opened Runtime
  import opened AccountLayout
  import ConfigAccount
  import WhitelistAccount

  /** Accounts: config, whitelist, vault, vault admin, system program. */
  const AccountCount: nat := 5

  /**
    * Every account check before the address check: the Config loads, the target is an
    * empty writable system account, the vault loads, the signer is its admin, signing
    * and writable, and the system program is passed.
    */
  predicate AccountsLoad(env: Env, s: LedgerState, metas: seq<AccountMeta>) {
    && |metas| == AccountCount
    && ConfigAccount.Load(env.programId, env.derive, Info(s, metas[0]), false).Ok?
    && LoadSystemAccount(Info(s, metas[1]), true).Ok?
    && LoadVault(s, metas[2], false).Ok?
    && CheckAdmin(LoadVault(s, metas[2], false).value, metas[3].key).Ok?
    && LoadSigner(Info(s, metas[3]), true).Ok?
    && LoadSystemProgram(Info(s, metas[4])).Ok?
  }

  /** What the guard chain accepts: the accounts load and the target is the vault's Whitelist address. */
  predicate Admissible(env: Env, s: LedgerState, metas: seq<AccountMeta>) {
    && AccountsLoad(env, s, metas)
    && metas[1].key == WhitelistAccount.FindProgramAddress(env.derive, env.programId, metas[2].key).0
    && AccountSpace(WhitelistAccount.Size).Ok?
  }

  /** The guard chain; on success, the bump of the vault's canonical Whitelist address. */
  function Checks(env: Env, s: LedgerState, metas: seq<AccountMeta>): (r: Result<byte, ProgramError>)
    ensures r.Ok? <==> Admissible(env, s, metas)
    ensures r.Ok? ==> r.value == WhitelistAccount.FindProgramAddress(env.derive, env.programId, metas[2].key).1
  {
    if |metas| != AccountCount then Err(NotEnoughAccountKeys)
    else
      var config, whitelist, admin, systemProgram := Info(s, metas[0]), Info(s, metas[1]), Info(s, metas[3]), Info(s, metas[4]);
      var _ :- ConfigAccount.Load(env.programId, env.derive, config, false);
      var _ :- LoadSystemAccount(whitelist, true);
      var vault :- LoadVault(s, metas[2], false);
      var _ :- CheckAdmin(vault, admin.key);
      var _ :- LoadSigner(admin, true);
      var _ :- LoadSystemProgram(systemProgram);
      var (address, bump) := WhitelistAccount.FindProgramAddress(env.derive, env.programId, metas[2].key);
      if address != whitelist.key then Err(InvalidAccountData)
      else
        // `create_account`; the target was checked above to be an empty system account
        match AccountSpace(WhitelistAccount.Size)
        case Err(e) => Err(e)
        case Ok(_) => Ok(bump)
  }

  /** The data of the new Whitelist account: header, then the vault, a zero root and the bump. */
  function WhitelistData(metas: seq<AccountMeta>, bump: byte): seq<byte>
    requires |metas| == AccountCount
  {
    AccountData(WhitelistAccount.Discriminator, WhitelistAccount.ToBytes(WhitelistAccount.New(metas[2].key, bump)))
  }

  function Step(env: Env, s: LedgerState, metas: seq<AccountMeta>): (o: Outcome)
    ensures |metas| != AccountCount ==> o == Outcome(Err(NotEnoughAccountKeys), s)
    ensures o.result.Err? ==> o.post == s
    ensures o.result.Ok? <==> Admissible(env, s, metas)
    ensures o.result.Ok? ==>
              && |metas| == AccountCount
              && metas[2].key in s.vaults && s.vaults[metas[2].key].admin == metas[3].key
              && metas[3].isSigner && metas[3].isWritable
              && Lookup(s, metas[1].key) == StoredAccount(SystemProgramId, [])
              && metas[1].key == WhitelistAccount.FindProgramAddress(env.derive, env.programId, metas[2].key).0
              && o.post == s.(accounts := s.accounts[metas[1].key := StoredAccount(env.programId,
                   WhitelistData(metas, WhitelistAccount.FindProgramAddress(env.derive, env.programId, metas[2].key).1))])
    ensures |metas| == AccountCount && ConfigAccount.Load(env.programId, env.derive, Info(s, metas[0]), false).Ok?
            && LoadSystemAccount(Info(s, metas[1]), true).Ok? && metas[2].key in s.vaults
            && s.vaults[metas[2].key].admin != metas[3].key
            ==> o == Outcome(Err(VaultAdminInvalid), s)
    ensures AccountsLoad(env, s, metas)
            && metas[1].key != WhitelistAccount.FindProgramAddress(env.derive, env.programId, metas[2].key).0
            ==> o == Outcome(Err(InvalidAccountData), s)
  {
    match Checks(env, s, metas)
    case Err(e) => Outcome(Err(e), s)
    case Ok(bump) => Outcome(Ok(()), s.(accounts := s.accounts[metas[1].key := StoredAccount(env.programId, WhitelistData(metas, bump))]))
  }
}
