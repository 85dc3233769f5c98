# Jito vault whitelist — a verified Dafny model

The vault whitelist program puts a Merkle-proof allowlist in front of three operations of
the Jito vault program: minting VRT, enqueueing a withdrawal and burning a withdrawal
ticket. A vault's admin creates a per-vault **Whitelist** account that stores the root of
a Merkle tree over the approved users. The admin can rotate that root, and can hand the
vault's MintBurnAdmin role to the Whitelist. Each gated instruction recomputes the
caller's leaf `H(0x00 ‖ H(user))`, folds the supplied proof over it with the sorted-pair
step `H(0x01 ‖ min ‖ max)`, and forwards the operation to the vault program, signed by the
Whitelist's address, only when the fold ends at the stored root. The program also keeps
explicit per-user **WhitelistUser** records (add, remove) and a global **Config**.

This project models, in Dafny:

- **The off-chain Merkle side**: proof verification (`MerkleVerify`), the tree the
  generator builds (`Merkle`), sibling extraction (`ProofUtils`), tree nodes
  (`MetaTreeNode`) and the generated tree with per-member proofs (`GeneratedTree`).
  - Proved: every member's generated proof is accepted against the root (inclusion).
  - Proved: a proof accepted for a non-member exhibits a collision of the hash
    (soundness).
- **The account records**: `ConfigAccount`, `WhitelistAccount` and `WhitelistUserAccount`,
  with their byte layout (`AccountLayout`), their five-step `load` checks, seeds,
  constructors and field checks.
  - Proved: byte encodings round-trip.
  - Proved: different vaults, and different (whitelist, user) pairs, have different seed
    lists. Whether the derived addresses differ is up to `find_program_address`, which is
    a parameter here.
- **Errors**: the error codes and their conversions (`Errors`).
- **The instruction handlers**: each handler is a pure `Step` on a chain state
  (`Runtime.LedgerState`: accounts, vault records, vault configs and the log of forwarded
  calls). Each handler is also an imperative method of `Processor.Ledger`, which updates
  that state in place and is proved to produce exactly its `Step`. The dispatcher is
  `Entrypoint.Process`, implemented by `Processor.Ledger.ProcessInstruction`.
- **Lifecycle properties across instructions** (`Lifecycle`):
  - a record cannot be created again while it exists. Closing a Whitelist or removing a
    user is not terminal: the address then reads as an empty system account, and the
    record can be initialized again;
  - a newly created Whitelist accepts a root from its vault's admin;
  - add then remove restores every account;
  - a rotated root locks out users left off the new list;
  - a closed Whitelist blocks the gates;
  - the dispatcher never rewrites an initialized account.

The hash and `find_program_address` are parameters (`Hasher`, `Deriver`); no property
of them is assumed. Every soundness statement instead returns a concrete pair of distinct
inputs with equal digests whenever the desired conclusion fails.

## Model

| member | source | states |
|---|---|---|
| MerkleVerify.Verify | meta-merkle-tree/src/verify.rs:18-31 | the loop's result is true exactly when folding the proof left to right from the leaf with the sorted-pair step yields the root |
| MerkleVerify.NodePreimage | meta-merkle-tree/src/verify.rs:21-27 | a combine input is 65 bytes starting with 0x01 |
| MerkleVerify.CombineCommutes | meta-merkle-tree/src/verify.rs:21-27 | the combine step gives the same hash whichever child comes first |
| MerkleVerify.SamePreimageSameChildren | meta-merkle-tree/src/verify.rs:21-27 | equal combine inputs come from the same unordered pair of children |
| MerkleVerify.FoldAppend | meta-merkle-tree/src/verify.rs:19-28 | folding a concatenated proof is folding the second part over the fold of the first |
| MerkleVerify.FoldSnoc | meta-merkle-tree/src/verify.rs:19-28 | the last proof element is combined with the fold of the rest |
| MerkleVerify.EmptyProof | meta-merkle-tree/src/verify.rs:19-30 | an empty proof verifies exactly when the leaf equals the root |
| MerkleVerify.LeafIsNotNode | program/src/mint.rs:43-46 | a leaf input (0x00 prefix) never equals a node input (0x01 prefix), so a leaf equal to a node is a hash collision |
| MerkleVerify.LeafPreimage | program/src/mint.rs:43-46 | a leaf input is 33 bytes starting with 0x00 |
| MetaTreeNode.ToVec | meta-merkle-tree/src/vault_whitelist_meta_tree_node.rs:20-32 | one node per meta, in order, with the meta's user as depositor and no proof |
| MetaTreeNode.NodeLeafIsMemberLeaf | meta-merkle-tree/src/vault_whitelist_meta_tree_node.rs:34-38 | a node's hash depends only on its depositor, and its tree leaf is the leaf the gates compute for that user |
| Merkle.NextLevel | meta-merkle-tree/src/generated_merkle_tree.rs:40 | each level above the leaves has half as many nodes, rounded up, and fewer than the level below |
| Merkle.Levels | meta-merkle-tree/src/generated_merkle_tree.rs:40 | the tree's levels start at the leaf level, and each level is the combine of the level below, pairwise |
| Merkle.LeafLevel | meta-merkle-tree/src/generated_merkle_tree.rs:40 | leaf j is the 0x00-prefixed hash of item j |
| Merkle.New | meta-merkle-tree/src/generated_merkle_tree.rs:40 | the tree has one leaf per item and is built from the leaf level |
| Merkle.GetRoot | meta-merkle-tree/src/generated_merkle_tree.rs:67 | there is a root exactly when there is at least one leaf |
| Merkle.FindPath | meta-merkle-tree/src/utils.rs:24 | a path exists exactly for indices below the leaf count |
| Merkle.PathFrom | meta-merkle-tree/src/utils.rs:24-27 | a path has one entry per level below the root |
| Merkle.Siblings | meta-merkle-tree/src/utils.rs:27-37 | one proof hash per path entry |
| Merkle.PathHasSiblings | meta-merkle-tree/src/utils.rs:27-37 | every entry of a path has a sibling |
| Merkle.LevelsStep | meta-merkle-tree/src/generated_merkle_tree.rs:40 | level k of the tree is the next level of level k-1 |
| Merkle.TopIsLast | meta-merkle-tree/src/generated_merkle_tree.rs:67 | the root is the single node of the last level |
| Merkle.StepToParent | meta-merkle-tree/src/utils.rs:27-37 | combining a node with the sibling its entry records gives its parent |
| Merkle.SiblingsOfCons | meta-merkle-tree/src/utils.rs:27-37 | the proof taken from a path is the first entry's sibling followed by the proof taken from the rest of the path, in path order |
| Merkle.PathProofReachesTop | meta-merkle-tree/src/utils.rs:22-40 | the siblings along a leaf's path fold that leaf to the root |
| Merkle.ForgedFoldAtLevel | meta-merkle-tree/src/verify.rs:18-31 | a proof folding some leaf to any node of the tree is a member's leaf, or yields a hash collision |
| Merkle.ForgedProofYieldsCollision | meta-merkle-tree/src/verify.rs:18-31 | a proof verifying some item's leaf against the root means the item is in the tree, or yields a hash collision |
| ProofUtils.GetProof | meta-merkle-tree/src/utils.rs:22-40 | Ok exactly when every path entry has a sibling; then one hash per level in path order, left sibling preferred; otherwise the validation error with no partial proof |
| ProofUtils.FoundPathsHaveSiblings | meta-merkle-tree/src/utils.rs:22-40 | for paths of a built tree the error branch is unreachable |
| ProofUtils.FourLeafExample | meta-merkle-tree/src/utils.rs:12-21 | on four leaves, the path of index 1 has two entries, each with a sibling, so the proof is Ok |
| GeneratedTree.MemberHashes | meta-merkle-tree/src/generated_merkle_tree.rs:38 | the hashed node of member i is the hash of member i's user |
| GeneratedTree.MemberProof | meta-merkle-tree/src/generated_merkle_tree.rs:43-45 | inclusion: member i's extracted proof takes the gate's leaf for member i to the root |
| GeneratedTree.NonMemberNeedsCollision | program/src/mint.rs:43-54 | exclusion: a proof taking w's leaf to the member root means w is a member, or yields a hash collision |
| GeneratedTree.New | meta-merkle-tree/src/generated_merkle_tree.rs:31-71 | the record keeps the user account and node count; the root is the member tree's root; node i has member i's user and its extracted proof, which verifies against the root |
| AccountLayout.Header | core/src/discriminator.rs:8-13 | a header is 8 bytes: the discriminator, then zeros |
| AccountLayout.AccountData | program/src/initialize_config.rs:44-47 | account data is the header followed by the record bytes |
| AccountLayout.InitializeInPlace | program/src/initialize_config.rs:44-47 | writing the discriminator and then the record into freshly zeroed space yields header plus record |
| AccountLayout.LoadAccount | core/src/config.rs:34-61 | Ok exactly when owner, non-empty data, writability, discriminator and address all pass; a wrong owner is `InvalidAccountOwner`, every later failure `InvalidAccountData` |
| AccountLayout.RecordBytes | core/src/config.rs:8-12 | the record is the bytes after the header, available exactly when the data is long enough |
| AccountLayout.AccountSpace | program/src/initialize_config.rs:38-40 | the space is 8 plus the record size, with overflow reported as `ArithmeticOverflow` |
| ConfigAccount.New | core/src/config.rs:16-18 | the record stores the given admin, vault program and bump, with zeroed reserved bytes |
| ConfigAccount.Load | core/src/config.rs:34-61 | the five checks in order against the address derived from "config"; Ok exactly when all pass |
| ConfigAccount.ToBytes | core/src/config.rs:8-12 | the record encodes into exactly its size |
| ConfigAccount.FromToBytes | core/src/config.rs:8-12 | decoding an encoded record gives it back |
| ConfigAccount.ToFromBytes | core/src/config.rs:8-12 | encoding the decoded bytes gives the bytes back |
| ConfigAccount.Decode | core/src/config.rs:8-12 | decoding succeeds exactly when the data holds header plus record |
| ConfigAccount.DecodeAccountData | program/src/initialize_config.rs:44-47 | the data written at initialization decodes to the record written |
| WhitelistAccount.New | core/src/whitelist.rs:26-32 | the record keeps vault and bump; the root and all 263 reserved bytes are zero |
| WhitelistAccount.CheckVault | core/src/whitelist.rs:35-42 | Ok exactly when the stored vault is the given one; otherwise `InvalidVault` |
| WhitelistAccount.SetMetaMerkleRoot | program/src/set_meta_merkle_root.rs:34 | the root becomes the argument; vault, bump and reserved bytes stay |
| WhitelistAccount.SeedsInjective | core/src/whitelist.rs:45-47 | different vaults have different seed lists |
| WhitelistAccount.Load | core/src/whitelist.rs:58-89 | the five checks in order against the vault's derived address; Ok exactly when all pass |
| WhitelistAccount.ToBytes | core/src/whitelist.rs:97-103 | the record encodes into exactly its size, fields without padding |
| WhitelistAccount.FromToBytes | core/src/whitelist.rs:11-22 | decoding an encoded record gives it back |
| WhitelistAccount.ToFromBytes | core/src/whitelist.rs:11-22 | encoding the decoded bytes gives the bytes back |
| WhitelistAccount.RootWriteInPlace | program/src/set_meta_merkle_root.rs:29-34 | overwriting the root's bytes in the encoding is encoding the record with the new root |
| WhitelistAccount.Decode | program/src/mint.rs:37-38 | decoding succeeds exactly when the data holds header plus record |
| WhitelistAccount.SetRootInAccountData | program/src/set_meta_merkle_root.rs:29-34 | writing a root at offset 40 of account data keeps length and discriminator, and the data then decodes to the old record with the new root |
| WhitelistAccount.DecodeAccountData | program/src/initialize_whitelist.rs:62-65 | the data written at initialization decodes to the record written |
| WhitelistUserAccount.New | core/src/whitelist_user.rs:24-31 | the record stores whitelist, user and bump, with zeroed reserved bytes |
| WhitelistUserAccount.CheckWhitelist | core/src/whitelist_user.rs:34-41 | Ok exactly when the back-reference matches; otherwise `InvalidWhitelist` |
| WhitelistUserAccount.CheckUser | core/src/whitelist_user.rs:44-51 | Ok exactly when the user matches; otherwise `InvalidWhitelistUser` |
| WhitelistUserAccount.SeedsInjective | core/src/whitelist_user.rs:54-60 | different (whitelist, user) pairs have different seed lists |
| WhitelistUserAccount.Load | core/src/whitelist_user.rs:75-107 | the five checks in order against the address derived from (whitelist, user) |
| WhitelistUserAccount.ToBytes | core/src/whitelist_user.rs:24-31 | the record encodes into exactly its size |
| WhitelistUserAccount.FromToBytes | core/src/whitelist_user.rs:24-31 | decoding an encoded record gives it back |
| WhitelistUserAccount.ToFromBytes | core/src/whitelist_user.rs:24-31 | encoding the decoded bytes gives the bytes back |
| WhitelistUserAccount.Decode | program/src/remove_from_whitelist.rs:53-54 | decoding succeeds exactly when the data holds header plus record |
| WhitelistUserAccount.DecodeAccountData | program/src/add_to_whitelist.rs:64-67 | the data written by add decodes to the record written |
| Errors.Code | sdk/src/error.rs:5-17 | each declared error has its own code: ArithmeticOverflow 3000, ArithmeticUnderflow 3001, DivisionByZero 3002, InvalidProof 3003; the other errors have none |
| Errors.CodeRoundTrip | sdk/src/error.rs:5-17 | a code decodes back to its error, and only declared codes decode |
| Errors.CodeInjective | sdk/src/error.rs:5-17 | distinct declared errors have distinct codes |
| Errors.ToU64 | sdk/src/error.rs:25-35 | the u64 form carries the same code |
| Errors.ToProgramError | sdk/src/error.rs:19-23 | the conversion is `Custom` of the error |
| Errors.Lift | program/src/add_to_whitelist.rs:34 | `?` on a record check keeps success and turns the error into `Custom` of it |
| Errors.ConversionKeepsCode | sdk/src/error.rs:19-23 | the converted error carries the same code, and the conversion is injective |
| Runtime.Lookup | program/src/initialize_config.rs:19 | an address with no account reads as an empty system account |
| Runtime.Info | program/src/lib.rs:32-35 | an account info joins the passed flags with the stored owner and data |
| Runtime.LoadSigner | program/src/initialize_config.rs:20 | Ok exactly for a signer that is writable when asked; `MissingRequiredSignature` first |
| Runtime.LoadSystemAccount | program/src/initialize_config.rs:19 | Ok exactly for an empty system-owned account, writable when asked |
| Runtime.LoadSystemProgram | program/src/initialize_config.rs:21 | Ok exactly for the system program's address; otherwise `IncorrectProgramId` |
| Runtime.LoadVault | program/src/initialize_whitelist.rs:28-30 | Ok exactly for a known vault that is writable when asked, returning its record |
| Runtime.LoadVaultConfig | program/src/set_mint_burn_admin.rs:20 | Ok exactly for a known vault config |
| Runtime.CheckAdmin | program/src/initialize_whitelist.rs:32 | Ok exactly when the caller is the vault's admin; otherwise `VaultAdminInvalid` |
| Runtime.CheckedAdd | program/src/initialize_config.rs:38-40 | the sum when it fits in 64 bits, nothing otherwise |
| Runtime.CreateAccountCheck | program/src/add_to_whitelist.rs:52-62 | account creation is accepted exactly at an empty system-owned address; otherwise `AccountAlreadyInUse` |
| Runtime.SetSecondaryAdmin | program/src/set_mint_burn_admin.rs:35-52 | the call is logged; aimed at the vault program and a known vault, it sets that vault's MintBurnAdmin and nothing else |
| Runtime.SignerSeeds | program/src/mint.rs:56-58 | the signer seeds are the seeds followed by the one-byte bump |
| InitializeConfigHandler.Checks | program/src/initialize_config.rs:15-40 | the guards pass exactly when the target is an empty writable system account at the "config" address, the admin signs and is writable, the system program is passed and the space fits; the bump is the canonical one |
| InitializeConfigHandler.Step | program/src/initialize_config.rs:14-50 | wrong account count is `NotEnoughAccountKeys`; failures change nothing; success exactly when the guards pass; a target off the "config" address is `InvalidAccountData`; success stores exactly the Config of admin, vault program and bump |
| InitializeWhitelistHandler.Checks | program/src/initialize_whitelist.rs:20-58 | the guards pass exactly when the Config and the vault load, the target is an empty writable system account at the vault's Whitelist address, the admin signs, is writable and is the vault's admin, and the system program is passed; the bump is the canonical one |
| InitializeWhitelistHandler.Step | program/src/initialize_whitelist.rs:15-68 | count; failures change nothing; success exactly when the guards pass, and then it stores exactly the new Whitelist; a non-admin caller gets `VaultAdminInvalid`; a target off the vault's Whitelist address gets `InvalidAccountData` |
| SetMetaMerkleRootHandler.Checks | program/src/set_meta_merkle_root.rs:16-32 | the guards pass exactly when the Config and the vault load, the signer is the vault's admin, the vault's Whitelist loads writable and decodes, and the admin signs and is writable |
| SetMetaMerkleRootHandler.Step | program/src/set_meta_merkle_root.rs:11-37 | count; every check precedes the write, so failures change nothing; success exactly when the guards pass, and it overwrites only the root bytes of the Whitelist |
| SetMetaMerkleRootHandler.RootIsStored | program/src/set_meta_merkle_root.rs:34 | after success the Whitelist still loads and holds the old record with the new root |
| AddToWhitelistHandler.Checks | program/src/add_to_whitelist.rs:17-60 | the guards pass exactly when the Config and the vault load, the signer is its admin, the Whitelist loads, decodes and belongs to the vault, the admin signs, and the target is the empty (whitelist, user) address; the bump is the canonical one |
| AddToWhitelistHandler.Step | program/src/add_to_whitelist.rs:14-70 | count; failures change nothing; success exactly when the guards pass, and then it stores exactly the record of whitelist, user and bump; a non-admin gets `VaultAdminInvalid`; a target off the (whitelist, user) address gets `InvalidAccountData` |
| RemoveFromWhitelistHandler.Checks | program/src/remove_from_whitelist.rs:22-58 | the guards pass exactly when every account loads and the stored record names this whitelist and this user; a record naming another whitelist is `InvalidWhitelist`, one naming another user `InvalidWhitelistUser` |
| RemoveFromWhitelistHandler.Step | program/src/remove_from_whitelist.rs:16-69 | count; failures change nothing; success exactly when the guards pass, and then it closes exactly that record; a loaded record naming another whitelist gets `InvalidWhitelist`, one naming another user `InvalidWhitelistUser` |
| SetMintBurnAdminHandler.Checks | program/src/set_mint_burn_admin.rs:15-29 | the guards pass exactly when the Config, the vault config, the vault's Whitelist and the writable vault load, the signer is the vault's admin, and it signs |
| SetMintBurnAdminHandler.Step | program/src/set_mint_burn_admin.rs:12-54 | count; failures change nothing; success exactly when the guards pass, and its effect is the role change towards the Whitelist |
| SetMintBurnAdminHandler.GrantsRoleIdempotently | integration-tests/tests/vault_whitelist/close_whitelist.rs:27-35 | the vault's MintBurnAdmin becomes the Whitelist's address, and repeating the call succeeds without changing the vaults again |
| CloseWhitelistHandler.Checks | program/src/close_whitelist.rs:15-27 | the guards pass exactly when the Config, the vault's writable Whitelist and the vault load, the signer is the vault's admin, and it signs and is writable |
| CloseWhitelistHandler.Step | program/src/close_whitelist.rs:12-60 | count; failures change nothing; success exactly when the guards pass, and it resets the role to the default key and then closes the Whitelist |
| CloseWhitelistHandler.ClosedWhitelistNoLongerLoads | program/src/close_whitelist.rs:57 | after closing, the address reads as an empty system account, loading it as a Whitelist is `InvalidAccountOwner`, and the role is the default key |
| WhitelistGate.Checks | program/src/mint.rs:33-58 | Ok exactly when config, writable vault, writable Whitelist and signer pass and the proof folds the signer's leaf to the stored root; a bad proof is `InvalidProof`; success yields the Whitelist's bump |
| WhitelistGate.MemberPassesGate | integration-tests/tests/vault_whitelist/burn_withdrawal_ticket.rs:72-97 | with a member list's root stored, every member passes with its generated proof |
| WhitelistGate.GateAdmitsOnlyMembers | program/src/mint.rs:43-54 | with a member list's root stored, whoever passes is a member, or a hash collision is returned |
| MintHandler.Step | program/src/mint.rs:13-100 | count; success exactly when the gate passes for the writable depositor; then exactly one `mint_to` is forwarded with the amounts unchanged, the Whitelist as mint signer, signed by its seeds and bump; otherwise the gate's error is returned (`InvalidProof` for a proof that does not verify) and nothing changes |
| EnqueueWithdrawalHandler.Step | program/src/enqueue_withdrawal.rs:13-91 | count; success exactly when the gate passes for the signing staker; then exactly one `enqueue_withdrawal` with the amount unchanged, signed by the Whitelist's seeds and bump; otherwise the gate's error is returned (`InvalidProof` for a proof that does not verify) and nothing changes |
| BurnWithdrawalTicketHandler.Step | program/src/burn_withdrawal_ticket.rs:13-96 | count; success exactly when the gate passes for the signing staker; then exactly one `burn_withdrawal_ticket` naming the Whitelist as burn signer, signed by its seeds and bump; otherwise the gate's error is returned (`InvalidProof` for a proof that does not verify) and nothing changes |
| Entrypoint.Process | program/src/lib.rs:32-92 | a foreign program id is `IncorrectProgramId` before decoding; a decoding error is returned; otherwise exactly the variant's handler runs |
| Processor.Ledger.InitializeConfig | program/src/initialize_config.rs:14-50 | the in-place implementation yields exactly `InitializeConfigHandler.Step` |
| Processor.Ledger.InitializeWhitelist | program/src/initialize_whitelist.rs:15-68 | the in-place implementation yields exactly `InitializeWhitelistHandler.Step` |
| Processor.Ledger.SetMetaMerkleRoot | program/src/set_meta_merkle_root.rs:11-37 | the in-place root write yields exactly `SetMetaMerkleRootHandler.Step` |
| Processor.Ledger.AddToWhitelist | program/src/add_to_whitelist.rs:14-70 | the in-place implementation yields exactly `AddToWhitelistHandler.Step` |
| Processor.Ledger.RemoveFromWhitelist | program/src/remove_from_whitelist.rs:16-69 | the in-place implementation yields exactly `RemoveFromWhitelistHandler.Step` |
| Processor.Ledger.SetMintBurnAdmin | program/src/set_mint_burn_admin.rs:12-54 | the in-place implementation yields exactly `SetMintBurnAdminHandler.Step` |
| Processor.Ledger.CloseWhitelist | program/src/close_whitelist.rs:12-60 | role reset and then closure in place yield exactly `CloseWhitelistHandler.Step` |
| Processor.Ledger.Gate | program/src/mint.rs:33-58 | the gate with the proof checked by the `verify` loop returns exactly `WhitelistGate.Checks` |
| Processor.Ledger.Mint | program/src/mint.rs:13-100 | the implementation with seeds push and forwarded call yields exactly `MintHandler.Step` |
| Processor.Ledger.EnqueueWithdrawal | program/src/enqueue_withdrawal.rs:13-91 | the implementation yields exactly `EnqueueWithdrawalHandler.Step` |
| Processor.Ledger.BurnWithdrawalTicket | program/src/burn_withdrawal_ticket.rs:13-96 | the implementation yields exactly `BurnWithdrawalTicketHandler.Step` |
| Processor.Ledger.ProcessInstruction | program/src/lib.rs:32-92 | the dispatching method yields exactly `Entrypoint.Process` |
| Lifecycle.ConfigInitializedOnce | program/src/initialize_config.rs:19 | after a successful `InitializeConfig` every further one fails, at the Config's address with `InvalidAccountOwner` |
| Lifecycle.WhitelistInitializedOncePerVault | program/src/initialize_whitelist.rs:26 | after a vault's Whitelist is created, creating it again fails |
| Lifecycle.InitializedWhitelistTakesRoot | integration-tests/tests/vault_whitelist/set_meta_merkle_root.rs:20-32 | a newly created Whitelist holds the zero root, and the vault admin can then set a new root: the call succeeds and the Whitelist decodes to the new root |
| Lifecycle.AddTwiceFails | program/src/add_to_whitelist.rs:52-62 | adding the same user to the same Whitelist twice fails |
| Lifecycle.AddThenRemove | integration-tests/tests/vault_whitelist/remove_from_whitelist.rs:28-60 | add then remove with the same accounts succeeds and every address, vault and the call log read as before the add |
| Lifecycle.RotationRevokesAccess | integration-tests/tests/vault_whitelist/burn_withdrawal_ticket.rs:353-368 | after the root is set to a list without the user, the user's gate fails whatever the proof, and with admissible accounts it fails with `InvalidProof`, or a hash collision is returned |
| Lifecycle.ClosedWhitelistBlocksGates | program/src/close_whitelist.rs:57 | after a Whitelist is closed, every gate naming it fails |
| Lifecycle.DispatchKeepsInitializedData | program/src/lib.rs:43-91 | every dispatched instruction leaves an initialized program account unchanged or closes it |
| Lifecycle.DispatchKeepsRoot | program/src/lib.rs:17-25 | a Whitelist still open after any dispatched instruction holds the same root, so root rotation is out of the entrypoint's reach |

## Left out

- SHA-256 and `find_program_address` are parameters; no property of them is assumed.
- Rent, lamports, the `Rent` sysvar and the transfer of rent on closing are not modelled. Closing an account removes it, and the address then reads as an empty system account.
- `create_account`'s signer seeds and payer are not modelled. It succeeds exactly at an empty system-owned address, and it is not checked that the system program account was passed to `add_to_whitelist`.
- `msg!` logging is not modelled.
- The vault program's internals are not modelled. `Vault::load`, `VaultConfig::load` and `check_admin` are modelled by the checks they perform on a map of vault records. Forwarded calls (`mint_to`, `enqueue_withdrawal`, `burn_withdrawal_ticket`, `set_secondary_admin`) are appended to a call log, and the vault program is assumed to accept them. Only `set_secondary_admin`'s MintBurnAdmin effect is applied.
- Only the accounts the checks read are named. The other accounts the handlers pass through to the vault program are not recorded in the call.
- Instruction decoding (borsh) is a parameter of `Entrypoint.Process`.
- The `MerkleTree` type of the tree crate is not part of this model. It is modelled with that crate's convention:
  - leaves `H(0x00 ‖ item)`;
  - sorted-pair nodes `H(0x01 ‖ min ‖ max)`;
  - the last node of an odd level is paired with itself;
  - one path entry per level below the root, recording the left sibling for a right child and the right sibling otherwise.
- GeneratedTree.New: `max_num_nodes` is a `nat`; the model does not check that the node count fits in 64 bits.
- GeneratedTree.New: requires a non-empty member list, because `get_root().unwrap()` panics on an empty tree.
- JSON reading, the CLI, client logging, the code generators and the integration-test harness are not modelled. The tests' assertions are cited as evidence only.
- Account data is a value (`seq<byte>`) held in the `Ledger` object's map. Borrowing and aliasing of `AccountInfo` data are not modelled.

Where the snapshot of the source does not type-check, the model follows the handlers' use of the records:
- core/src/whitelist.rs has no `meta_merkle_root` field, although the handlers read and set one. The model adds the root after the vault, so the record is 32 + 32 + 1 + 263 bytes. The size test at core/src/whitelist.rs:97-103 sums only vault, bump and reserved.
- core/src/config.rs has only `admin`, and `new` takes one argument, but `process_initialize_config` passes admin, vault program and bump. The model's Config has those three fields plus 263 reserved bytes.
- Whitelist's and WhitelistUser's discriminators are not part of the shown source. The model uses 2 and 3; Config's is 1, as in core/src/discriminator.rs:8.
- `InvalidVault`, `InvalidWhitelist` and `InvalidWhitelistUser` are used by the records but not declared in sdk/src/error.rs. The model gives them no numeric code.
- program/src/lib.rs:74 calls `process_mint` without the proof that program/src/mint.rs:16 takes. The model's `Mint`, `EnqueueWithdrawal` and `BurnWithdrawalTicket` instructions carry the proof.
- meta-merkle-tree/src/generated_merkle_tree.rs:44 stores `Some(get_proof(..))`, a `Result`, in an `Option<Vec<..>>` field. The model stores the proof itself, since for built trees `get_proof` never fails (`ProofUtils.FoundPathsHaveSiblings`).
- `process_set_meta_merkle_root` exists but the dispatcher has no variant for it. `Entrypoint.Process` follows the dispatcher, and `Processor.Ledger.SetMetaMerkleRoot` models the handler on its own.
