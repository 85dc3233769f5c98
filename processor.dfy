/**
  * The program's instruction handlers (the `process_*` functions under program/src) as methods of a `Ledger` object
  * that holds the chain state and updates it in place. Each method is proved to produce
  * exactly the outcome its handler's `Step` function specifies.
  */
module Processor {
  import opened Primitives
  import opened Wrappers
  import opened Errors
  import opened Runtime
  import opened AccountLayout
  import MerkleVerify
  import ConfigAccount
  import WhitelistAccount
  import WhitelistUserAccount
  import InitializeConfigHandler
  import InitializeWhitelistHandler
  import SetMetaMerkleRootHandler
  import AddToWhitelistHandler
  import RemoveFromWhitelistHandler
  import SetMintBurnAdminHandler
  import CloseWhitelistHandler
  import WhitelistGate
  import MintHandler
  import EnqueueWithdrawalHandler
  import BurnWithdrawalTicketHandler
  import Entrypoint

  class Ledger {
    var accounts: map<Pubkey, StoredAccount>
    var vaults: map<Pubkey, VaultRecord>
    var vaultConfigs: set<Pubkey>
    var calls: seq<Call>

    function State(): LedgerState
      reads this
    {
      LedgerState(accounts, vaults, vaultConfigs, calls)
    }

    constructor (s: LedgerState)
      ensures State() == s
    {
      accounts, vaults, vaultConfigs, calls := s.accounts, s.vaults, s.vaultConfigs, s.calls;
    }

    /** `create_account`: the address becomes owned by `owner` with `space` zero bytes. */
    method CreateAccount(key: Pubkey, owner: Pubkey, space: nat)
      modifies this
      ensures accounts == old(accounts)[key := StoredAccount(owner, Zeros(space))]
      ensures vaults == old(vaults) && vaultConfigs == old(vaultConfigs) && calls == old(calls)
    {
      accounts := accounts[key := StoredAccount(owner, Zeros(space))];
    }

    /** `process_initialize_config`. */
    method InitializeConfig(env: Env, metas: seq<AccountMeta>) returns (r: Result<(), ProgramError>)
      modifies this
      ensures Outcome(r, State()) == InitializeConfigHandler.Step(env, old(State()), metas)
    {
      if |metas| != InitializeConfigHandler.AccountCount {
        return Err(NotEnoughAccountKeys);
      }
      var s := State();
      var configInfo, adminInfo := Info(s, metas[0]), Info(s, metas[1]);
      var vaultProgramInfo, systemProgramInfo := Info(s, metas[2]), Info(s, metas[3]);
      var _ :- LoadSystemAccount(configInfo, true);
      var _ :- LoadSigner(adminInfo, true);
      var _ :- LoadSystemProgram(systemProgramInfo);

      var (configPubkey, configBump) := ConfigAccount.FindProgramAddress(env.derive, env.programId);
      if configPubkey != configInfo.key {
        return Err(InvalidAccountData);
      }
      var space: nat;
      match AccountSpace(ConfigAccount.Size) {
        case Err(e) => return Err(e);
        case Ok(v) => space := v;
      }
      CreateAccount(configInfo.key, env.programId, space);

      var configData := accounts[configInfo.key].data;
      configData := configData[0 := ConfigAccount.Discriminator];
      var config := ConfigAccount.New(adminInfo.key, vaultProgramInfo.key, configBump);
      configData := Overwrite(configData, HeaderLen, ConfigAccount.ToBytes(config));
      accounts := accounts[configInfo.key := StoredAccount(env.programId, configData)];
      InitializeInPlace(ConfigAccount.Discriminator, ConfigAccount.ToBytes(config));
      return Ok(());
    }

    /** `close_program_account`: the address no longer holds an account. */
    method CloseProgramAccount(key: Pubkey)
      modifies this
      ensures accounts == old(accounts) - {key}
      ensures vaults == old(vaults) && vaultConfigs == old(vaultConfigs) && calls == old(calls)
    {
      accounts := accounts - {key};
    }

    /** `invoke` of the vault program's `set_secondary_admin` for the MintBurnAdmin role. */
    method InvokeSetSecondaryAdmin(env: Env, program: Pubkey, vault: Pubkey, admin: Pubkey, newAdmin: Pubkey)
      modifies this
      ensures State() == SetSecondaryAdmin(env, old(State()), program, vault, admin, newAdmin)
    {
      calls := calls + [Call(program, vault, Runtime.SetMintBurnAdmin(admin, newAdmin), [])];
      if program == env.vaultProgramId && vault in vaults {
        vaults := vaults[vault := vaults[vault].(mintBurnAdmin := newAdmin)];
      }
    }

    /** `process_initialize_whitelist`. */
    method InitializeWhitelist(env: Env, metas: seq<AccountMeta>) returns (r: Result<(), ProgramError>)
      modifies this
      ensures Outcome(r, State()) == InitializeWhitelistHandler.Step(env, old(State()), metas)
    {
      if |metas| != InitializeWhitelistHandler.AccountCount {
        return Err(NotEnoughAccountKeys);
      }
      var s := State();
      var configInfo, whitelistInfo, adminInfo, systemProgramInfo := Info(s, metas[0]), Info(s, metas[1]), Info(s, metas[3]), Info(s, metas[4]);
      var _ :- ConfigAccount.Load(env.programId, env.derive, configInfo, false);
      var _ :- LoadSystemAccount(whitelistInfo, true);
      var vault :- LoadVault(s, metas[2], false);
      var _ :- CheckAdmin(vault, adminInfo.key);
      var _ :- LoadSigner(adminInfo, true);
      var _ :- LoadSystemProgram(systemProgramInfo);

      var (whitelistPubkey, whitelistBump) := WhitelistAccount.FindProgramAddress(env.derive, env.programId, metas[2].key);
      if whitelistPubkey != whitelistInfo.key {
        return Err(InvalidAccountData);
      }
      var space: nat;
      match AccountSpace(WhitelistAccount.Size) {
        case Err(e) => return Err(e);
        case Ok(v) => space := v;
      }
      CreateAccount(whitelistInfo.key, env.programId, space);

      var whitelistData := accounts[whitelistInfo.key].data;
      whitelistData := whitelistData[0 := WhitelistAccount.Discriminator];
      var whitelist := WhitelistAccount.New(metas[2].key, whitelistBump);
      whitelistData := Overwrite(whitelistData, HeaderLen, WhitelistAccount.ToBytes(whitelist));
      accounts := accounts[whitelistInfo.key := StoredAccount(env.programId, whitelistData)];
      InitializeInPlace(WhitelistAccount.Discriminator, WhitelistAccount.ToBytes(whitelist));
      return Ok(());
    }

    /** `process_set_meta_merkle_root`: the root's 32 bytes are overwritten in the account data. */
    method SetMetaMerkleRoot(env: Env, metas: seq<AccountMeta>, root: Hash) returns (r: Result<(), ProgramError>)
      modifies this
      ensures Outcome(r, State()) == SetMetaMerkleRootHandler.Step(env, old(State()), metas, root)
    {
      if |metas| != SetMetaMerkleRootHandler.AccountCount {
        return Err(NotEnoughAccountKeys);
      }
      var s := State();
      var configInfo, whitelistInfo, adminInfo := Info(s, metas[0]), Info(s, metas[2]), Info(s, metas[3]);
      var _ :- ConfigAccount.Load(env.programId, env.derive, configInfo, false);
      var vault :- LoadVault(s, metas[1], false);
      var _ :- CheckAdmin(vault, adminInfo.key);
      var _ :- WhitelistAccount.Load(env.programId, env.derive, whitelistInfo, metas[1].key, true);
      var _ :- WhitelistAccount.Decode(whitelistInfo.data);
      var _ :- LoadSigner(adminInfo, true);

      var whitelistData := whitelistInfo.data;
      whitelistData := Overwrite(whitelistData, SetMetaMerkleRootHandler.RootPosition, root);
      accounts := accounts[whitelistInfo.key := StoredAccount(env.programId, whitelistData)];
      return Ok(());
    }

    /** `process_add_to_whitelist`. */
    method AddToWhitelist(env: Env, metas: seq<AccountMeta>) returns (r: Result<(), ProgramError>)
      modifies this
      ensures Outcome(r, State()) == AddToWhitelistHandler.Step(env, old(State()), metas)
    {
      if |metas| != AddToWhitelistHandler.AccountCount {
        return Err(NotEnoughAccountKeys);
      }
      var s := State();
      var configInfo, whitelistInfo, recordInfo := Info(s, metas[0]), Info(s, metas[2]), Info(s, metas[3]);
      var adminInfo, userInfo := Info(s, metas[4]), Info(s, metas[5]);
      var _ :- ConfigAccount.Load(env.programId, env.derive, configInfo, false);
      var vault :- LoadVault(s, metas[1], false);
      var _ :- CheckAdmin(vault, adminInfo.key);
      var _ :- WhitelistAccount.Load(env.programId, env.derive, whitelistInfo, metas[1].key, false);
      var whitelist :- WhitelistAccount.Decode(whitelistInfo.data);
      var _ :- Lift(WhitelistAccount.CheckVault(whitelist, metas[1].key));
      var _ :- LoadSigner(adminInfo, true);

      var (recordPubkey, recordBump) := WhitelistUserAccount.FindProgramAddress(env.derive, env.programId, whitelistInfo.key, userInfo.key);
      if recordPubkey != recordInfo.key {
        return Err(InvalidAccountData);
      }
      var space: nat;
      match AccountSpace(WhitelistUserAccount.Size) {
        case Err(e) => return Err(e);
        case Ok(v) => space := v;
      }
      var _ :- CreateAccountCheck(s, recordInfo.key);
      CreateAccount(recordInfo.key, env.programId, space);

      var recordData := accounts[recordInfo.key].data;
      recordData := recordData[0 := WhitelistUserAccount.Discriminator];
      var record := WhitelistUserAccount.New(whitelistInfo.key, userInfo.key, recordBump);
      recordData := Overwrite(recordData, HeaderLen, WhitelistUserAccount.ToBytes(record));
      accounts := accounts[recordInfo.key := StoredAccount(env.programId, recordData)];
      InitializeInPlace(WhitelistUserAccount.Discriminator, WhitelistUserAccount.ToBytes(record));
      return Ok(());
    }

    /** `process_remove_from_whitelist`. */
    method RemoveFromWhitelist(env: Env, metas: seq<AccountMeta>) returns (r: Result<(), ProgramError>)
      modifies this
      ensures Outcome(r, State()) == RemoveFromWhitelistHandler.Step(env, old(State()), metas)
    {
      if |metas| != RemoveFromWhitelistHandler.AccountCount {
        return Err(NotEnoughAccountKeys);
      }
      var s := State();
      var configInfo, whitelistInfo, recordInfo := Info(s, metas[0]), Info(s, metas[2]), Info(s, metas[3]);
      var adminInfo, userInfo, systemProgramInfo := Info(s, metas[4]), Info(s, metas[5]), Info(s, metas[6]);
      var _ :- ConfigAccount.Load(env.programId, env.derive, configInfo, false);
      var vault :- LoadVault(s, metas[1], false);
      var _ :- CheckAdmin(vault, adminInfo.key);
      var _ :- WhitelistAccount.Load(env.programId, env.derive, whitelistInfo, metas[1].key, false);
      var whitelist :- WhitelistAccount.Decode(whitelistInfo.data);
      var _ :- Lift(WhitelistAccount.CheckVault(whitelist, metas[1].key));
      var _ :- LoadSigner(adminInfo, true);
      var _ :- LoadSystemProgram(systemProgramInfo);
      var _ :- WhitelistUserAccount.Load(env.programId, env.derive, recordInfo, whitelistInfo.key, userInfo.key, true);
      var record :- WhitelistUserAccount.Decode(recordInfo.data);
      var _ :- Lift(WhitelistUserAccount.CheckWhitelist(record, whitelistInfo.key));
      var _ :- Lift(WhitelistUserAccount.CheckUser(record, userInfo.key));

      CloseProgramAccount(recordInfo.key);
      return Ok(());
    }

    /** `process_set_mint_burn_admin`. */
    method SetMintBurnAdmin(env: Env, metas: seq<AccountMeta>) returns (r: Result<(), ProgramError>)
      modifies this
      ensures Outcome(r, State()) == SetMintBurnAdminHandler.Step(env, old(State()), metas)
    {
      if |metas| != SetMintBurnAdminHandler.AccountCount {
        return Err(NotEnoughAccountKeys);
      }
      var s := State();
      var configInfo, whitelistInfo, adminInfo := Info(s, metas[0]), Info(s, metas[2]), Info(s, metas[4]);
      var _ :- ConfigAccount.Load(env.programId, env.derive, configInfo, false);
      var _ :- LoadVaultConfig(s, metas[1]);
      var _ :- WhitelistAccount.Load(env.programId, env.derive, whitelistInfo, metas[3].key, false);
      var vault :- LoadVault(s, metas[3], true);
      var _ :- CheckAdmin(vault, adminInfo.key);
      var _ :- LoadSigner(adminInfo, false);

      InvokeSetSecondaryAdmin(env, metas[5].key, metas[3].key, adminInfo.key, whitelistInfo.key);
      return Ok(());
    }

    /** `process_close_whitelist`: the role is reset first, then the Whitelist is closed. */
    method CloseWhitelist(env: Env, metas: seq<AccountMeta>) returns (r: Result<(), ProgramError>)
      modifies this
      ensures Outcome(r, State()) == CloseWhitelistHandler.Step(env, old(State()), metas)
    {
      if |metas| != CloseWhitelistHandler.AccountCount {
        return Err(NotEnoughAccountKeys);
      }
      var s := State();
      var configInfo, whitelistInfo, adminInfo := Info(s, metas[0]), Info(s, metas[2]), Info(s, metas[4]);
      var _ :- ConfigAccount.Load(env.programId, env.derive, configInfo, false);
      var _ :- WhitelistAccount.Load(env.programId, env.derive, whitelistInfo, metas[3].key, true);
      var vault :- LoadVault(s, metas[3], false);
      var _ :- CheckAdmin(vault, adminInfo.key);
      var _ :- LoadSigner(adminInfo, true);

      InvokeSetSecondaryAdmin(env, metas[5].key, metas[3].key, adminInfo.key, DefaultPubkey);
      CloseProgramAccount(whitelistInfo.key);
      return Ok(());
    }

    /** The whitelist gate, with the proof checked by the `verify` loop; on success, the Whitelist's bump. */
    method Gate(env: Env, config: AccountMeta, vault: AccountMeta, whitelist: AccountMeta, signer: AccountMeta,
                signerWritable: bool, proof: seq<Hash>) returns (r: Result<byte, ProgramError>)
      ensures r == WhitelistGate.Checks(env, State(), config, vault, whitelist, signer, signerWritable, proof)
    {
      var s := State();
      var _ :- ConfigAccount.Load(env.programId, env.derive, Info(s, config), false);
      var _ :- LoadVault(s, vault, true);
      var whitelistInfo := Info(s, whitelist);
      var _ :- WhitelistAccount.Load(env.programId, env.derive, whitelistInfo, vault.key, true);
      var whitelistRecord :- WhitelistAccount.Decode(whitelistInfo.data);
      var _ :- LoadSigner(Info(s, signer), signerWritable);

      var node := MerkleVerify.MemberLeaf(env.hash, signer.key);
      var ok := MerkleVerify.Verify(env.hash, proof, whitelistRecord.metaMerkleRoot, node);
      if !ok {
        return Err(Custom(InvalidProof));
      }
      var (_, whitelistBump) := WhitelistAccount.FindProgramAddress(env.derive, env.programId, vault.key);
      return Ok(whitelistBump);
    }

    /** `invoke_signed`: the call is forwarded and recorded. */
    method InvokeSigned(call: Call)
      modifies this
      ensures calls == old(calls) + [call]
      ensures accounts == old(accounts) && vaults == old(vaults) && vaultConfigs == old(vaultConfigs)
    {
      calls := calls + [call];
    }

    /** `process_mint`. */
    method Mint(env: Env, metas: seq<AccountMeta>, proof: seq<Hash>, amountIn: u64, minAmountOut: u64)
      returns (r: Result<(), ProgramError>)
      modifies this
      ensures Outcome(r, State()) == MintHandler.Step(env, old(State()), metas, proof, amountIn, minAmountOut)
    {
      if |metas| != MintHandler.AccountCount {
        return Err(NotEnoughAccountKeys);
      }
      var whitelistBump :- Gate(env, metas[0], metas[2], metas[9], metas[4], true, proof);
      var whitelistSeeds := WhitelistAccount.Seeds(metas[2].key);
      whitelistSeeds := whitelistSeeds + [[whitelistBump]];
      var op := MintTo(metas[4].key, amountIn, minAmountOut, Some(metas[9].key));
      InvokeSigned(Call(env.vaultProgramId, metas[2].key, op, whitelistSeeds));
      return Ok(());
    }

    /** `process_enqueue_withdrawal`. */
    method EnqueueWithdrawal(env: Env, metas: seq<AccountMeta>, proof: seq<Hash>, vrtAmount: u64)
      returns (r: Result<(), ProgramError>)
      modifies this
      ensures Outcome(r, State()) == EnqueueWithdrawalHandler.Step(env, old(State()), metas, proof, vrtAmount)
    {
      if |metas| != EnqueueWithdrawalHandler.AccountCount {
        return Err(NotEnoughAccountKeys);
      }
      var whitelistBump :- Gate(env, metas[9], metas[1], metas[10], metas[4], false, proof);
      var whitelistSeeds := WhitelistAccount.Seeds(metas[1].key);
      whitelistSeeds := whitelistSeeds + [[whitelistBump]];
      var op := Runtime.EnqueueWithdrawal(metas[4].key, vrtAmount);
      InvokeSigned(Call(env.vaultProgramId, metas[1].key, op, whitelistSeeds));
      return Ok(());
    }

    /** `process_burn_withdrawal_ticket`. */
    method BurnWithdrawalTicket(env: Env, metas: seq<AccountMeta>, proof: seq<Hash>) returns (r: Result<(), ProgramError>)
      modifies this
      ensures Outcome(r, State()) == BurnWithdrawalTicketHandler.Step(env, old(State()), metas, proof)
    {
      if |metas| != BurnWithdrawalTicketHandler.AccountCount {
        return Err(NotEnoughAccountKeys);
      }
      var whitelistBump :- Gate(env, metas[12], metas[1], metas[13], metas[4], false, proof);
      var whitelistSeeds := WhitelistAccount.Seeds(metas[1].key);
      whitelistSeeds := whitelistSeeds + [[whitelistBump]];
      var op := Runtime.BurnWithdrawalTicket(metas[4].key, Some(metas[13].key));
      InvokeSigned(Call(env.vaultProgramId, metas[1].key, op, whitelistSeeds));
      return Ok(());
    }

    /** `process_instruction`: the program-id guard, decoding, then one handler per variant. */
    method ProcessInstruction(env: Env, programId: Pubkey, metas: seq<AccountMeta>, data: seq<byte>,
                              decode: seq<byte> -> Result<Entrypoint.Instruction, ProgramError>)
      returns (r: Result<(), ProgramError>)
      modifies this
      ensures Outcome(r, State()) == Entrypoint.Process(env, old(State()), programId, metas, data, decode)
    {
      if programId != env.programId {
        return Err(IncorrectProgramId);
      }
      var instruction :- decode(data);
      match instruction {
        case InitializeConfig => r := InitializeConfig(env, metas);
        case InitializeWhitelist => r := InitializeWhitelist(env, metas);
        case SetMintBurnAdmin => r := SetMintBurnAdmin(env, metas);
        case AddToWhitelist => r := AddToWhitelist(env, metas);
        case RemoveFromWhitelist => r := RemoveFromWhitelist(env, metas);
        case Mint(proof, amountIn, minAmountOut) => r := Mint(env, metas, proof, amountIn, minAmountOut);
        case EnqueueWithdrawal(proof, amount) => r := EnqueueWithdrawal(env, metas, proof, amount);
        case BurnWithdrawalTicket(proof) => r := BurnWithdrawalTicket(env, metas, proof);
        case CloseWhitelist => r := CloseWhitelist(env, metas);
      }
    }
  }
}
