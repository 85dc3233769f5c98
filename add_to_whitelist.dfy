/** `process_add_to_whitelist` (program/src/add_to_whitelist.rs) as a state transition. */
module AddToWhitelistHandler {
  import opened Primitives
  import opened Wrappers
  import opened Errors
  import opened Runtime
  import opened AccountLayout
  import ConfigAccount
  import WhitelistAccount
  import WhitelistUserAccount

  /** Accounts: config, vault, whitelist, whitelist user, vault admin, user, system program. */
  const AccountCount: nat := 7

  /**
    * Every account check before the address check: the Config and the vault load, the
    * signer is the vault's admin, the Whitelist loads, decodes and belongs to the vault,
    * and the admin signs and is writable.
    */
  predicate AccountsLoad(env: Env, s: LedgerState, metas: seq<AccountMeta>) {
    && |metas| == AccountCount
    && ConfigAccount.Load(env.programId, env.derive, Info(s, metas[0]), false).Ok?
    && LoadVault(s, metas[1], false).Ok?
    && CheckAdmin(LoadVault(s, metas[1], false).value, metas[4].key).Ok?
    && WhitelistAccount.Load(env.programId, env.derive, Info(s, metas[2]), metas[1].key, false).Ok?
    && WhitelistAccount.Decode(Lookup(s, metas[2].key).data).Ok?
    && WhitelistAccount.CheckVault(WhitelistAccount.Decode(Lookup(s, metas[2].key).data).value, metas[1].key).Ok?
    && LoadSigner(Info(s, metas[4]), true).Ok?
  }

  /**
    * What the guard chain accepts: the accounts load, the record is at the (whitelist, user)
    * address, the account size fits, and nothing exists at that address yet.
    */
  predicate Admissible(env: Env, s: LedgerState, metas: seq<AccountMeta>) {
    && AccountsLoad(env, s, metas)
    && metas[3].key == WhitelistUserAccount.FindProgramAddress(env.derive, env.programId, metas[2].key, metas[5].key).0
    && AccountSpace(WhitelistUserAccount.Size).Ok?
    && CreateAccountCheck(s, metas[3].key).Ok?
  }

  /** The guard chain; on success, the bump of the (whitelist, user) record's address. */
  function Checks(env: Env, s: LedgerState, metas: seq<AccountMeta>): (r: Result<byte, ProgramError>)
    ensures r.Ok? <==> Admissible(env, s, metas)
    ensures r.Ok? ==> r.value == WhitelistUserAccount.FindProgramAddress(env.derive, env.programId, metas[2].key, metas[5].key).1
  {
    if |metas| != AccountCount then Err(NotEnoughAccountKeys)
    else
      var config, whitelist, record, admin, user := Info(s, metas[0]), Info(s, metas[2]), Info(s, metas[3]), Info(s, metas[4]), Info(s, metas[5]);
      var _ :- ConfigAccount.Load(env.programId, env.derive, config, false);
      var vault :- LoadVault(s, metas[1], false);
      var _ :- CheckAdmin(vault, admin.key);
      var _ :- WhitelistAccount.Load(env.programId, env.derive, whitelist, metas[1].key, false);
      var w :- WhitelistAccount.Decode(whitelist.data);
      var _ :- Lift(WhitelistAccount.CheckVault(w, metas[1].key));
      var _ :- LoadSigner(admin, true);
      var (address, bump) := WhitelistUserAccount.FindProgramAddress(env.derive, env.programId, whitelist.key, user.key);
      if address != record.key then Err(InvalidAccountData)
      else
        match AccountSpace(WhitelistUserAccount.Size)
        case Err(e) => Err(e)
        case Ok(_) =>
          var _ :- CreateAccountCheck(s, record.key);
          Ok(bump)
  }

  /** The data of the new WhitelistUser account: header, then whitelist, user and bump. */
  function RecordData(metas: seq<AccountMeta>, bump: byte): seq<byte>
    requires |metas| == AccountCount
  {
    AccountData(WhitelistUserAccount.Discriminator,
      WhitelistUserAccount.ToBytes(WhitelistUserAccount.New(metas[2].key, metas[5].key, bump)))
  }

  function Step(env: Env, s: LedgerState, metas: seq<AccountMeta>): (o: Outcome)
    ensures |metas| != AccountCount ==> o == Outcome(Err(NotEnoughAccountKeys), s)
    ensures o.result.Err? ==> o.post == s
    ensures o.result.Ok? <==> Admissible(env, s, metas)
    ensures o.result.Ok? ==>
              && |metas| == AccountCount
              && metas[1].key in s.vaults && s.vaults[metas[1].key].admin == metas[4].key
              && metas[4].isSigner && metas[4].isWritable
              && WhitelistAccount.Load(env.programId, env.derive, Info(s, metas[2]), metas[1].key, false).Ok?
              && Lookup(s, metas[3].key) == StoredAccount(SystemProgramId, [])
              && metas[3].key == WhitelistUserAccount.FindProgramAddress(env.derive, env.programId, metas[2].key, metas[5].key).0
              && o.post == s.(accounts := s.accounts[metas[3].key := StoredAccount(env.programId,
                   RecordData(metas, WhitelistUserAccount.FindProgramAddress(env.derive, env.programId, metas[2].key, metas[5].key).1))])
    ensures |metas| == AccountCount && ConfigAccount.Load(env.programId, env.derive, Info(s, metas[0]), false).Ok?
            && metas[1].key in s.vaults && s.vaults[metas[1].key].admin != metas[4].key
            ==> o == Outcome(Err(VaultAdminInvalid), s)
    ensures AccountsLoad(env, s, metas)
            && metas[3].key != WhitelistUserAccount.FindProgramAddress(env.derive, env.programId, metas[2].key, metas[5].key).0
            ==> o == Outcome(Err(InvalidAccountData), s)
  {
    match Checks(env, s, metas)
    case Err(e) => Outcome(Err(e), s)
    case Ok(bump) => Outcome(Ok(()), s.(accounts := s.accounts[metas[3].key := StoredAccount(env.programId, RecordData(metas, bump))]))
  }
}
