/** `process_remove_from_whitelist` (program/src/remove_from_whitelist.rs) as a state transition. */
module RemoveFromWhitelistHandler {
  import opened Primitives
  import opened Wrappers
  import opened Errors
  import opened Runtime
  import opened AccountLayout
  import ConfigAccount
  import WhitelistAccount
  import WhitelistUserAccount

  /** Accounts: config, vault, whitelist, whitelist user, vault admin, user, system program. */
  const AccountCount: nat := 7

  /**
    * Every check before the record's fields are compared: the Config and the vault load,
    * the signer is the vault's admin, the Whitelist loads, decodes and belongs to the vault,
    * the admin signs and is writable, the system program is passed, and the record loads
    * writable at the (whitelist, user) address and decodes.
    */
  predicate RecordLoads(env: Env, s: LedgerState, metas: seq<AccountMeta>) {
    && |metas| == AccountCount
    && ConfigAccount.Load(env.programId, env.derive, Info(s, metas[0]), false).Ok?
    && LoadVault(s, metas[1], false).Ok?
    && CheckAdmin(LoadVault(s, metas[1], false).value, metas[4].key).Ok?
    && WhitelistAccount.Load(env.programId, env.derive, Info(s, metas[2]), metas[1].key, false).Ok?
    && WhitelistAccount.Decode(Lookup(s, metas[2].key).data).Ok?
    && WhitelistAccount.CheckVault(WhitelistAccount.Decode(Lookup(s, metas[2].key).data).value, metas[1].key).Ok?
    && LoadSigner(Info(s, metas[4]), true).Ok?
    && LoadSystemProgram(Info(s, metas[6])).Ok?
    && WhitelistUserAccount.Load(env.programId, env.derive, Info(s, metas[3]), metas[2].key, metas[5].key, true).Ok?
    && WhitelistUserAccount.Decode(Lookup(s, metas[3].key).data).Ok?
  }

  /** The record stored at the WhitelistUser address. */
  function StoredRecord(s: LedgerState, metas: seq<AccountMeta>): WhitelistUserAccount.WhitelistUser
    requires |metas| == AccountCount && WhitelistUserAccount.Decode(Lookup(s, metas[3].key).data).Ok?
  {
    WhitelistUserAccount.Decode(Lookup(s, metas[3].key).data).value
  }

  /** What the guard chain accepts: the record loads and names this whitelist and this user. */
  predicate Admissible(env: Env, s: LedgerState, metas: seq<AccountMeta>) {
    && RecordLoads(env, s, metas)
    && StoredRecord(s, metas).whitelist == metas[2].key
    && StoredRecord(s, metas).user == metas[5].key
  }

  /** The guard chain, all of it before the record is closed. */
  function Checks(env: Env, s: LedgerState, metas: seq<AccountMeta>): (r: Result<(), ProgramError>)
    ensures r.Ok? <==> Admissible(env, s, metas)
    ensures RecordLoads(env, s, metas) && StoredRecord(s, metas).whitelist != metas[2].key
            ==> r == Err(Custom(InvalidWhitelist))
    ensures RecordLoads(env, s, metas) && StoredRecord(s, metas).whitelist == metas[2].key
            && StoredRecord(s, metas).user != metas[5].key
            ==> r == Err(Custom(InvalidWhitelistUser))
  {
    if |metas| != AccountCount then Err(NotEnoughAccountKeys)
    else
      var config, whitelist, record, admin, user, systemProgram :=
        Info(s, metas[0]), Info(s, metas[2]), Info(s, metas[3]), Info(s, metas[4]), Info(s, metas[5]), Info(s, metas[6]);
      var _ :- ConfigAccount.Load(env.programId, env.derive, config, false);
      var vault :- LoadVault(s, metas[1], false);
      var _ :- CheckAdmin(vault, admin.key);
      var _ :- WhitelistAccount.Load(env.programId, env.derive, whitelist, metas[1].key, false);
      var w :- WhitelistAccount.Decode(whitelist.data);
      var _ :- Lift(WhitelistAccount.CheckVault(w, metas[1].key));
      var _ :- LoadSigner(admin, true);
      var _ :- LoadSystemProgram(systemProgram);
      var _ :- WhitelistUserAccount.Load(env.programId, env.derive, record, whitelist.key, user.key, true);
      var u :- WhitelistUserAccount.Decode(record.data);
      var _ :- Lift(WhitelistUserAccount.CheckWhitelist(u, whitelist.key));
      Lift(WhitelistUserAccount.CheckUser(u, user.key))
  }

  function Step(env: Env, s: LedgerState, metas: seq<AccountMeta>): (o: Outcome)
    ensures |metas| != AccountCount ==> o == Outcome(Err(NotEnoughAccountKeys), s)
    ensures o.result.Err? ==> o.post == s
    ensures o.result.Ok? <==> Admissible(env, s, metas)
    ensures o.result.Ok? ==>
              && |metas| == AccountCount
              && metas[1].key in s.vaults && s.vaults[metas[1].key].admin == metas[4].key
              && metas[4].isSigner && metas[4].isWritable
              && metas[6].key == SystemProgramId
              && WhitelistUserAccount.Load(env.programId, env.derive, Info(s, metas[3]), metas[2].key, metas[5].key, true).Ok?
              && WhitelistUserAccount.Decode(Lookup(s, metas[3].key).data).Ok?
              && WhitelistUserAccount.Decode(Lookup(s, metas[3].key).data).value.whitelist == metas[2].key
              && WhitelistUserAccount.Decode(Lookup(s, metas[3].key).data).value.user == metas[5].key
              && o.post == s.(accounts := s.accounts - {metas[3].key})
    ensures RecordLoads(env, s, metas) && StoredRecord(s, metas).whitelist != metas[2].key
            ==> o == Outcome(Err(Custom(InvalidWhitelist)), s)
    ensures RecordLoads(env, s, metas) && StoredRecord(s, metas).whitelist == metas[2].key
            && StoredRecord(s, metas).user != metas[5].key
            ==> o == Outcome(Err(Custom(InvalidWhitelistUser)), s)
  {
    match Checks(env, s, metas)
    case Err(e) => Outcome(Err(e), s)
    case Ok(_) => Outcome(Ok(()), s.(accounts := s.accounts - {metas[3].key}))
  }
}
