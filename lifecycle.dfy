/**
  * Properties that span several instructions: each record is created at most once, adding
  * and then removing a user restores the accounts, a new root or a closed Whitelist locks
  * out the gates, and the entrypoint never rewrites an initialized account.
  */
module Lifecycle {
  import opened Primitives
  import opened Wrappers
  import opened Errors
  import opened Runtime
  import opened MerkleVerify
  import ConfigAccount
  import WhitelistAccount
  import WhitelistUserAccount
  import MetaTreeNode
  import GeneratedTree
  import InitializeConfigHandler
  import InitializeWhitelistHandler
  import SetMetaMerkleRootHandler
  import AddToWhitelistHandler
  import RemoveFromWhitelistHandler
  import CloseWhitelistHandler
  import WhitelistGate
  import Entrypoint

  /**
    * Once the Config exists, every further `InitializeConfig` fails; naming the Config's
    * address, it fails at the first check, the target no longer being a system account.
    */
  lemma ConfigInitializedOnce(env: Env, s: LedgerState, metas: seq<AccountMeta>, again: seq<AccountMeta>)
    requires env.programId != SystemProgramId
    requires InitializeConfigHandler.Step(env, s, metas).result.Ok?
    ensures InitializeConfigHandler.Step(env, InitializeConfigHandler.Step(env, s, metas).post, again).result.Err?
    ensures |again| == InitializeConfigHandler.AccountCount && again[0].key == metas[0].key ==>
              InitializeConfigHandler.Step(env, InitializeConfigHandler.Step(env, s, metas).post, again).result
              == Err(InvalidAccountOwner)
  {
  }

  /** Once a vault's Whitelist exists, every further `InitializeWhitelist` for that vault fails. */
  lemma WhitelistInitializedOncePerVault(env: Env, s: LedgerState, metas: seq<AccountMeta>, again: seq<AccountMeta>)
    requires InitializeWhitelistHandler.Step(env, s, metas).result.Ok?
    requires |again| == InitializeWhitelistHandler.AccountCount && again[2].key == metas[2].key
    ensures InitializeWhitelistHandler.Step(env, InitializeWhitelistHandler.Step(env, s, metas).post, again).result.Err?
  {
  }

  /**
    * A freshly initialized Whitelist holds the zero root, and its vault's admin can then set
    * a root: the call succeeds with the same Config and admin, and the Whitelist decodes to
    * the new root.
    */
  lemma InitializedWhitelistTakesRoot(env: Env, s: LedgerState, init: seq<AccountMeta>, rotate: seq<AccountMeta>, root: Hash)
    requires env.programId != SystemProgramId
    requires InitializeWhitelistHandler.Step(env, s, init).result.Ok?
    requires |rotate| == SetMetaMerkleRootHandler.AccountCount
    requires rotate[0] == init[0] && rotate[1].key == init[2].key && rotate[3] == init[3]
    requires rotate[2].key == init[1].key && rotate[2].isWritable
    ensures var post := InitializeWhitelistHandler.Step(env, s, init).post;
      && WhitelistAccount.Decode(Lookup(post, init[1].key).data).Ok?
      && WhitelistAccount.Decode(Lookup(post, init[1].key).data).value.metaMerkleRoot == DefaultPubkey
      && SetMetaMerkleRootHandler.Step(env, post, rotate, root).result.Ok?
      && WhitelistAccount.Decode(Lookup(SetMetaMerkleRootHandler.Step(env, post, rotate, root).post, init[1].key).data)
         == Ok(WhitelistAccount.Decode(Lookup(post, init[1].key).data).value.(metaMerkleRoot := root))
  {
    var post := InitializeWhitelistHandler.Step(env, s, init).post;
    var bump := WhitelistAccount.FindProgramAddress(env.derive, env.programId, init[2].key).1;
    WhitelistAccount.DecodeAccountData(WhitelistAccount.New(init[2].key, bump));
    assert init[0].key != init[1].key;
    assert Info(post, rotate[0]) == Info(s, init[0]);
    SetMetaMerkleRootHandler.RootIsStored(env, post, rotate, root);
  }

  /** Adding the same user to the same Whitelist a second time fails. */
  lemma AddTwiceFails(env: Env, s: LedgerState, metas: seq<AccountMeta>, again: seq<AccountMeta>)
    requires AddToWhitelistHandler.Step(env, s, metas).result.Ok?
    requires |again| == AddToWhitelistHandler.AccountCount
    requires again[2].key == metas[2].key && again[5].key == metas[5].key
    ensures AddToWhitelistHandler.Step(env, AddToWhitelistHandler.Step(env, s, metas).post, again).result.Err?
  {
  }

  /**
    * Adding a user and then removing it with the same accounts succeeds, and afterwards
    * every address reads as it did before the add: the user has no record.
    */
  lemma AddThenRemove(env: Env, s: LedgerState, metas: seq<AccountMeta>)
    requires env.programId != SystemProgramId
    requires AddToWhitelistHandler.Step(env, s, metas).result.Ok?
    requires metas[3].isWritable && metas[6].key == SystemProgramId
    ensures var added := AddToWhitelistHandler.Step(env, s, metas).post;
      var removed := RemoveFromWhitelistHandler.Step(env, added, metas);
      && removed.result.Ok?
      && Lookup(removed.post, metas[3].key) == StoredAccount(SystemProgramId, [])
      && (forall k :: Lookup(removed.post, k) == Lookup(s, k))
      && removed.post.vaults == s.vaults && removed.post.calls == s.calls
  {
    var added := AddToWhitelistHandler.Step(env, s, metas).post;
    var record := metas[3].key;
    var bump := WhitelistUserAccount.FindProgramAddress(env.derive, env.programId, metas[2].key, metas[5].key).1;
    var u := WhitelistUserAccount.New(metas[2].key, metas[5].key, bump);
    assert Lookup(added, record).data == AddToWhitelistHandler.RecordData(metas, bump);
    WhitelistUserAccount.DecodeAccountData(u);
    // the record was an empty system account, so it is none of the program accounts loaded
    assert metas[0].key != record && metas[2].key != record;
    assert Info(added, metas[0]) == Info(s, metas[0]) && Info(added, metas[2]) == Info(s, metas[2]);
    assert RemoveFromWhitelistHandler.Checks(env, added, metas).Ok?;
    var removed := RemoveFromWhitelistHandler.Step(env, added, metas).post;
    forall k
      ensures Lookup(removed, k) == Lookup(s, k)
    {
    }
  }

  /**
    * Rotation: after the admin stores the root of a new member list, only members of that
    * list pass the vault's gate, unless (x, y) is a collision of the hash. A proof made for
    * the old list thus fails for a user the new list leaves out.
    */
  lemma RotationRevokesAccess(env: Env, s: LedgerState, metas: seq<AccountMeta>,
                              members: seq<MetaTreeNode.VaultWhitelistMeta>,
                              config: AccountMeta, whitelist: AccountMeta, signer: AccountMeta,
                              signerWritable: bool, vault: AccountMeta, proof: seq<Hash>)
    returns (x: seq<byte>, y: seq<byte>)
    requires |members| > 0
    requires SetMetaMerkleRootHandler.Step(env, s, metas, GeneratedTree.MemberRoot(env.hash, members)).result.Ok?
    requires whitelist.key == metas[2].key
    requires (forall j :: 0 <= j < |members| ==> members[j].user != signer.key)
    ensures var post := SetMetaMerkleRootHandler.Step(env, s, metas, GeneratedTree.MemberRoot(env.hash, members)).post;
      WhitelistGate.Checks(env, post, config, vault, whitelist, signer, signerWritable, proof).Err? || Collision(env.hash, x, y)
    ensures var post := SetMetaMerkleRootHandler.Step(env, s, metas, GeneratedTree.MemberRoot(env.hash, members)).post;
      WhitelistGate.Admissible(env, post, config, vault, whitelist, signer, signerWritable) ==>
        WhitelistGate.Checks(env, post, config, vault, whitelist, signer, signerWritable, proof) == Err(Custom(InvalidProof))
        || Collision(env.hash, x, y)
  {
    x, y := [], [];
    var root := GeneratedTree.MemberRoot(env.hash, members);
    var post := SetMetaMerkleRootHandler.Step(env, s, metas, root).post;
    SetMetaMerkleRootHandler.RootIsStored(env, s, metas, root);
    if WhitelistGate.Checks(env, post, config, vault, whitelist, signer, signerWritable, proof).Ok? {
      assert WhitelistGate.StoredRoot(post, whitelist) == root;
      x, y := WhitelistGate.GateAdmitsOnlyMembers(env, post, config, vault, whitelist, signer, signerWritable, proof, members);
    }
  }

  /** After a Whitelist is closed, every gate that names it fails, whatever the proof. */
  lemma ClosedWhitelistBlocksGates(env: Env, s: LedgerState, metas: seq<AccountMeta>,
                                   config: AccountMeta, vault: AccountMeta, whitelist: AccountMeta,
                                   signer: AccountMeta, signerWritable: bool, proof: seq<Hash>)
    requires env.programId != SystemProgramId
    requires CloseWhitelistHandler.Step(env, s, metas).result.Ok?
    requires whitelist.key == metas[2].key
    ensures var post := CloseWhitelistHandler.Step(env, s, metas).post;
      WhitelistGate.Checks(env, post, config, vault, whitelist, signer, signerWritable, proof).Err?
  {
    CloseWhitelistHandler.ClosedWhitelistNoLongerLoads(env, s, metas, whitelist, vault.key, true);
  }

  /** An account this program owns that holds data. */
  predicate Initialized(env: Env, s: LedgerState, k: Pubkey) {
    Lookup(s, k).owner == env.programId && Lookup(s, k).data != []
  }

  /**
    * Every dispatched instruction leaves an initialized account as it was or closes it:
    * the entrypoint only creates accounts at empty addresses and closes accounts.
    */
  lemma DispatchKeepsInitializedData(env: Env, s: LedgerState, programId: Pubkey, metas: seq<AccountMeta>,
                                     data: seq<byte>, decode: seq<byte> -> Result<Entrypoint.Instruction, ProgramError>,
                                     k: Pubkey)
    requires Initialized(env, s, k)
    ensures var post := Entrypoint.Process(env, s, programId, metas, data, decode).post;
      k !in post.accounts || Lookup(post, k) == Lookup(s, k)
  {
    if programId == env.programId && decode(data).Ok? {
      match decode(data).value
      case InitializeConfig =>
        assert InitializeConfigHandler.Step(env, s, metas).result.Ok? ==> k != metas[0].key;
      case InitializeWhitelist =>
        assert InitializeWhitelistHandler.Step(env, s, metas).result.Ok? ==> k != metas[1].key;
      case AddToWhitelist =>
        assert AddToWhitelistHandler.Step(env, s, metas).result.Ok? ==> k != metas[3].key;
      case _ =>
    }
  }

  /**
    * Root rotation is out of the entrypoint's reach: a Whitelist that decodes before a
    * dispatched instruction and is still open after it holds the same root.
    */
  lemma DispatchKeepsRoot(env: Env, s: LedgerState, programId: Pubkey, metas: seq<AccountMeta>,
                          data: seq<byte>, decode: seq<byte> -> Result<Entrypoint.Instruction, ProgramError>,
                          whitelist: AccountMeta)
    requires Lookup(s, whitelist.key).owner == env.programId
    requires WhitelistAccount.Decode(Lookup(s, whitelist.key).data).Ok?
    ensures var post := Entrypoint.Process(env, s, programId, metas, data, decode).post;
      whitelist.key in post.accounts ==>
        && WhitelistAccount.Decode(Lookup(post, whitelist.key).data).Ok?
        && WhitelistGate.StoredRoot(post, whitelist) == WhitelistGate.StoredRoot(s, whitelist)
  {
    DispatchKeepsInitializedData(env, s, programId, metas, data, decode, whitelist.key);
  }
}
