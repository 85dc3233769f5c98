/**
  * The whitelist gate shared by the three forwarding handlers (program/src/mint.rs,
  * enqueue_withdrawal.rs, burn_withdrawal_ticket.rs): load the program Config, the
  * vault, and the vault's Whitelist, require the signer, then check the signer's Merkle
  * proof against the root stored in the Whitelist.
  */
module WhitelistGate {
  import opened Primitives
  import opened Wrappers
  import opened Errors
  import opened Runtime
  import opened MerkleVerify
  import ConfigAccount
  import WhitelistAccount
  import MetaTreeNode
  import GeneratedTree

  /** Every check before the proof passes, the stored Whitelist decoding included. */
  predicate Admissible(env: Env, s: LedgerState, config: AccountMeta, vault: AccountMeta, whitelist: AccountMeta,
                       signer: AccountMeta, signerWritable: bool)
  {
    && ConfigAccount.Load(env.programId, env.derive, Info(s, config), false).Ok?
    && LoadVault(s, vault, true).Ok?
    && WhitelistAccount.Load(env.programId, env.derive, Info(s, whitelist), vault.key, true).Ok?
    && WhitelistAccount.Decode(Lookup(s, whitelist.key).data).Ok?
    && LoadSigner(Info(s, signer), signerWritable).Ok?
  }

  /** The meta Merkle root held in the Whitelist account. */
  function StoredRoot(s: LedgerState, whitelist: AccountMeta): Hash
    requires WhitelistAccount.Decode(Lookup(s, whitelist.key).data).Ok?
  {
    WhitelistAccount.Decode(Lookup(s, whitelist.key).data).value.metaMerkleRoot
  }

  /**
    * The gate. It succeeds exactly when the accounts are admissible and the proof takes
    * the signer's leaf to the stored root; a bad proof is `InvalidProof`. On success it
    * yields the bump that signs for the Whitelist address.
    */
  function Checks(env: Env, s: LedgerState, config: AccountMeta, vault: AccountMeta, whitelist: AccountMeta,
                  signer: AccountMeta, signerWritable: bool, proof: seq<Hash>): (r: Result<byte, ProgramError>)
    ensures r.Ok? <==> Admissible(env, s, config, vault, whitelist, signer, signerWritable)
                       && Verifies(env.hash, proof, StoredRoot(s, whitelist), MemberLeaf(env.hash, signer.key))
    ensures Admissible(env, s, config, vault, whitelist, signer, signerWritable)
            && !Verifies(env.hash, proof, StoredRoot(s, whitelist), MemberLeaf(env.hash, signer.key))
            ==> r == Err(Custom(InvalidProof))
    ensures r.Ok? ==> r.value == WhitelistAccount.FindProgramAddress(env.derive, env.programId, vault.key).1
  {
    var _ :- ConfigAccount.Load(env.programId, env.derive, Info(s, config), false);
    var _ :- LoadVault(s, vault, true);
    var whitelistInfo := Info(s, whitelist);
    var _ :- WhitelistAccount.Load(env.programId, env.derive, whitelistInfo, vault.key, true);
    var w :- WhitelistAccount.Decode(whitelistInfo.data);
    var _ :- LoadSigner(Info(s, signer), signerWritable);
    var node := MemberLeaf(env.hash, signer.key);
    if !Verifies(env.hash, proof, w.metaMerkleRoot, node) then Err(Custom(InvalidProof))
    else Ok(WhitelistAccount.FindProgramAddress(env.derive, env.programId, vault.key).1)
  }

  /**
    * Completeness: when the Whitelist holds the root of a member list, every member passes
    * the gate with the proof the off-chain tree generates for it.
    */
  lemma MemberPassesGate(env: Env, s: LedgerState, config: AccountMeta, vault: AccountMeta, whitelist: AccountMeta,
                         signer: AccountMeta, signerWritable: bool, metas: seq<MetaTreeNode.VaultWhitelistMeta>, i: nat)
    requires Admissible(env, s, config, vault, whitelist, signer, signerWritable)
    requires i < |metas| && signer.key == metas[i].user
    requires StoredRoot(s, whitelist) == GeneratedTree.MemberRoot(env.hash, metas)
    ensures Checks(env, s, config, vault, whitelist, signer, signerWritable, GeneratedTree.MemberProof(env.hash, metas, i)).Ok?
  {
  }

  /**
    * Soundness: when the Whitelist holds the root of a member list, whoever passes the
    * gate is a member, unless (x, y) is a collision of the hash.
    */
  lemma GateAdmitsOnlyMembers(env: Env, s: LedgerState, config: AccountMeta, vault: AccountMeta, whitelist: AccountMeta,
                              signer: AccountMeta, signerWritable: bool, proof: seq<Hash>,
                              metas: seq<MetaTreeNode.VaultWhitelistMeta>)
    returns (x: seq<byte>, y: seq<byte>)
    requires Checks(env, s, config, vault, whitelist, signer, signerWritable, proof).Ok?
    requires |metas| > 0 && StoredRoot(s, whitelist) == GeneratedTree.MemberRoot(env.hash, metas)
    ensures (exists j :: 0 <= j < |metas| && metas[j].user == signer.key) || Collision(env.hash, x, y)
  {
    x, y := GeneratedTree.NonMemberNeedsCollision(env.hash, metas, proof, signer.key);
  }
}
