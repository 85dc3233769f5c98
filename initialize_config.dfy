/** `process_initialize_config` (program/src/initialize_config.rs) as a state transition. */
module InitializeConfigHandler {
  import opened Primitives
  import opened Wrappers
  import opened Errors
  import opened Runtime
  import opened AccountLayout
  import ConfigAccount

  /** Accounts: config, admin, vault program, system program. */
  const AccountCount: nat := 4

  /**
    * What the guard chain accepts: an empty writable target, a signing writable admin,
    * the system program, the target at the canonical Config address, and an account
    * size that fits.
    */
  predicate Admissible(env: Env, s: LedgerState, metas: seq<AccountMeta>) {
    && |metas| == AccountCount
    && LoadSystemAccount(Info(s, metas[0]), true).Ok?
    && LoadSigner(Info(s, metas[1]), true).Ok?
    && LoadSystemProgram(Info(s, metas[3])).Ok?
    && metas[0].key == ConfigAccount.FindProgramAddress(env.derive, env.programId).0
    && AccountSpace(ConfigAccount.Size).Ok?
  }

  /** The guard chain; on success, the bump of the canonical Config address. */
  function Checks(env: Env, s: LedgerState, metas: seq<AccountMeta>): (r: Result<byte, ProgramError>)
    ensures r.Ok? <==> Admissible(env, s, metas)
    ensures r.Ok? ==> r.value == ConfigAccount.FindProgramAddress(env.derive, env.programId).1
  {
    if |metas| != AccountCount then Err(NotEnoughAccountKeys)
    else
      var config, admin, systemProgram := Info(s, metas[0]), Info(s, metas[1]), Info(s, metas[3]);
      var _ :- LoadSystemAccount(config, true);
      var _ :- LoadSigner(admin, true);
      var _ :- LoadSystemProgram(systemProgram);
      var (address, bump) := ConfigAccount.FindProgramAddress(env.derive, env.programId);
      if address != config.key then Err(InvalidAccountData)
      else
        // `create_account` of `8 + size` bytes; the target was checked above to be an
        // empty system account, which is all the system program asks of it
        match AccountSpace(ConfigAccount.Size)
        case Err(e) => Err(e)
        case Ok(_) => Ok(bump)
  }

  /** The data of the new Config account: header, then admin, vault program and bump. */
  function ConfigData(metas: seq<AccountMeta>, bump: byte): seq<byte>
    requires |metas| == AccountCount
  {
    AccountData(ConfigAccount.Discriminator, ConfigAccount.ToBytes(ConfigAccount.New(metas[1].key, metas[2].key, bump)))
  }

  function Step(env: Env, s: LedgerState, metas: seq<AccountMeta>): (o: Outcome)
    ensures |metas| != AccountCount ==> o == Outcome(Err(NotEnoughAccountKeys), s)
    ensures o.result.Err? ==> o.post == s
    ensures o.result.Ok? <==> Admissible(env, s, metas)
    ensures o.result.Ok? ==>
              && |metas| == AccountCount
              && metas[1].isSigner && metas[1].isWritable
              && metas[0].isWritable
              && metas[3].key == SystemProgramId
              && Lookup(s, metas[0].key) == StoredAccount(SystemProgramId, [])
              && metas[0].key == ConfigAccount.FindProgramAddress(env.derive, env.programId).0
              && o.post == s.(accounts := s.accounts[metas[0].key :=
                   StoredAccount(env.programId, ConfigData(metas, ConfigAccount.FindProgramAddress(env.derive, env.programId).1))])
    ensures && |metas| == AccountCount
            && LoadSystemAccount(Info(s, metas[0]), true).Ok?
            && LoadSigner(Info(s, metas[1]), true).Ok?
            && LoadSystemProgram(Info(s, metas[3])).Ok?
            && metas[0].key != ConfigAccount.FindProgramAddress(env.derive, env.programId).0
            ==> o == Outcome(Err(InvalidAccountData), s)
  {
    match Checks(env, s, metas)
    case Err(e) => Outcome(Err(e), s)
    case Ok(bump) => Outcome(Ok(()), s.(accounts := s.accounts[metas[0].key := StoredAccount(env.programId, ConfigData(metas, bump))]))
  }
}
