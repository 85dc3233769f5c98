/**
  * The chain state the handlers see: accounts by address (owner and data), the records
  * of the vault program's Vault and vault Config accounts, and the log of calls forwarded
  * to other programs. Also the loaders and account helpers of the shared core crate and
  * of the vault program, modelled by the checks they perform.
  */
module Runtime {
  import opened Primitives
  import opened Wrappers
  import opened Errors

  /** What an address holds: its owning program and its data. */
  datatype StoredAccount = StoredAccount(owner: Pubkey, data: seq<byte>)

  /** The fields of a vault-program Vault that this program reads or has the vault program change. */
  datatype VaultRecord = VaultRecord(admin: Pubkey, mintBurnAdmin: Pubkey)

  /** An operation forwarded to the vault program. */
  datatype Operation =
    | MintTo(depositor: Pubkey, amountIn: u64, minAmountOut: u64, mintSigner: Option<Pubkey>)
    | EnqueueWithdrawal(staker: Pubkey, vrtAmount: u64)
    | BurnWithdrawalTicket(staker: Pubkey, burnSigner: Option<Pubkey>)
    | SetMintBurnAdmin(vaultAdmin: Pubkey, newAdmin: Pubkey)

  /** One cross-program call: target program, vault, operation and the signer seeds used. */
  datatype Call = Call(program: Pubkey, vault: Pubkey, op: Operation, signerSeeds: seq<seq<byte>>)

  datatype LedgerState = LedgerState(
    accounts: map<Pubkey, StoredAccount>,
    vaults: map<Pubkey, VaultRecord>,
    vaultConfigs: set<Pubkey>,
    calls: seq<Call>)

  /** Fixed context: this program's id, the vault program's id, the hash and the address derivation. */
  datatype Env = Env(programId: Pubkey, vaultProgramId: Pubkey, hash: Hasher, derive: Deriver)

  /** An account as passed to an instruction: address plus the signer and writable flags. */
  datatype AccountMeta = AccountMeta(key: Pubkey, isSigner: bool, isWritable: bool)

  /** The runtime's `AccountInfo`: the passed flags joined with the stored owner and data. */
  datatype AccountInfo = AccountInfo(key: Pubkey, isSigner: bool, isWritable: bool, owner: Pubkey, data: seq<byte>)

  /** An address nobody has created an account at reads as an empty system account. */
  function Lookup(s: LedgerState, key: Pubkey): (a: StoredAccount)
    ensures key !in s.accounts ==> a == StoredAccount(SystemProgramId, [])
  {
    if key in s.accounts then s.accounts[key] else StoredAccount(SystemProgramId, [])
  }

  function Info(s: LedgerState, m: AccountMeta): (info: AccountInfo)
    ensures info.key == m.key && info.isSigner == m.isSigner && info.isWritable == m.isWritable
    ensures info.owner == Lookup(s, m.key).owner && info.data == Lookup(s, m.key).data
  {
    var a := Lookup(s, m.key);
    AccountInfo(m.key, m.isSigner, m.isWritable, a.owner, a.data)
  }

  /** The result of one instruction: what it returned and the state after it. */
  datatype Outcome = Outcome(result: Result<(), ProgramError>, post: LedgerState)

  /** `load_signer`: the account must sign, and be writable when asked. */
  function LoadSigner(info: AccountInfo, expectWritable: bool): (r: Result<(), ProgramError>)
    ensures r.Ok? <==> info.isSigner && (expectWritable ==> info.isWritable)
    ensures !info.isSigner ==> r == Err(MissingRequiredSignature)
    ensures info.isSigner && r.Err? ==> r == Err(InvalidAccountData)
  {
    if !info.isSigner then Err(MissingRequiredSignature)
    else if expectWritable && !info.isWritable then Err(InvalidAccountData)
    else Ok(())
  }

  /** `load_system_account`: an uninitialized account still owned by the system program. */
  function LoadSystemAccount(info: AccountInfo, expectWritable: bool): (r: Result<(), ProgramError>)
    ensures r.Ok? <==> info.owner == SystemProgramId && info.data == [] && (expectWritable ==> info.isWritable)
    ensures info.owner != SystemProgramId ==> r == Err(InvalidAccountOwner)
    ensures info.owner == SystemProgramId && info.data != [] ==> r == Err(AccountAlreadyInitialized)
  {
    if info.owner != SystemProgramId then Err(InvalidAccountOwner)
    else if info.data != [] then Err(AccountAlreadyInitialized)
    else if expectWritable && !info.isWritable then Err(InvalidAccountData)
    else Ok(())
  }

  /** `load_system_program`: the account must be the system program. */
  function LoadSystemProgram(info: AccountInfo): (r: Result<(), ProgramError>)
    ensures r.Ok? <==> info.key == SystemProgramId
    ensures r.Err? ==> r == Err(IncorrectProgramId)
  {
    if info.key != SystemProgramId then Err(IncorrectProgramId) else Ok(())
  }

  /** `Vault::load` of the vault program: a Vault account, writable when asked. */
  function LoadVault(s: LedgerState, m: AccountMeta, expectWritable: bool): (r: Result<VaultRecord, ProgramError>)
    ensures r.Ok? <==> m.key in s.vaults && (expectWritable ==> m.isWritable)
    ensures r.Ok? ==> r.value == s.vaults[m.key]
    ensures m.key !in s.vaults ==> r == Err(InvalidAccountOwner)
    ensures m.key in s.vaults && r.Err? ==> r == Err(InvalidAccountData)
  {
    if m.key !in s.vaults then Err(InvalidAccountOwner)
    else if expectWritable && !m.isWritable then Err(InvalidAccountData)
    else Ok(s.vaults[m.key])
  }

  /** The vault program's `Config::load`: a vault Config account. */
  function LoadVaultConfig(s: LedgerState, m: AccountMeta): (r: Result<(), ProgramError>)
    ensures r.Ok? <==> m.key in s.vaultConfigs
    ensures r.Err? ==> r == Err(InvalidAccountOwner)
  {
    if m.key !in s.vaultConfigs then Err(InvalidAccountOwner) else Ok(())
  }

  /** `Vault::check_admin`. */
  function CheckAdmin(vault: VaultRecord, admin: Pubkey): (r: Result<(), ProgramError>)
    ensures r.Ok? <==> vault.admin == admin
    ensures r.Err? ==> r == Err(VaultAdminInvalid)
  {
    if vault.admin != admin then Err(VaultAdminInvalid) else Ok(())
  }

  /** `8_u64.checked_add(n)`. */
  function CheckedAdd(a: u64, b: u64): (r: Option<u64>)
    ensures r.Some? <==> a + b <= U64_MAX
    ensures r.Some? ==> r.value == a + b
  {
    if a + b > U64_MAX then None else Some(a + b)
  }

  /**
    * What the system program accepts when `create_account` allocates `key`: an address
    * that no program owns yet and that holds no data.
    */
  function CreateAccountCheck(s: LedgerState, key: Pubkey): (r: Result<(), ProgramError>)
    ensures r.Ok? <==> Lookup(s, key).owner == SystemProgramId && Lookup(s, key).data == []
    ensures r.Err? ==> r == Err(AccountAlreadyInUse)
  {
    var a := Lookup(s, key);
    if a.owner != SystemProgramId || a.data != [] then Err(AccountAlreadyInUse) else Ok(())
  }

  /**
    * `invoke` of the vault program's `set_secondary_admin` for the MintBurnAdmin role: the
    * call is issued to `program`; when that is the vault program and `vault` is one of
    * its vaults, the vault's MintBurnAdmin becomes `newAdmin`.
    */
  function SetSecondaryAdmin(env: Env, s: LedgerState, program: Pubkey, vault: Pubkey, admin: Pubkey, newAdmin: Pubkey)
    : (s': LedgerState)
    ensures s'.calls == s.calls + [Call(program, vault, SetMintBurnAdmin(admin, newAdmin), [])]
    ensures s'.accounts == s.accounts && s'.vaultConfigs == s.vaultConfigs
    ensures program == env.vaultProgramId && vault in s.vaults ==>
              s'.vaults == s.vaults[vault := s.vaults[vault].(mintBurnAdmin := newAdmin)]
    ensures !(program == env.vaultProgramId && vault in s.vaults) ==> s'.vaults == s.vaults
  {
    var vaults := if program == env.vaultProgramId && vault in s.vaults
                  then s.vaults[vault := s.vaults[vault].(mintBurnAdmin := newAdmin)]
                  else s.vaults;
    s.(vaults := vaults, calls := s.calls + [Call(program, vault, SetMintBurnAdmin(admin, newAdmin), [])])
  }

  /** The address and bump of a program-derived address, and the signer seeds with the bump appended. */
  function SignerSeeds(seeds: seq<seq<byte>>, bump: byte): (r: seq<seq<byte>>)
    ensures |r| == |seeds| + 1 && r[..|seeds|] == seeds && r[|seeds|] == [bump]
  {
    seeds + [[bump]]
  }
}
