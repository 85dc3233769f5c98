/**
  * The per-vault Whitelist account (core/src/whitelist.rs): the vault it guards, the
  * Merkle root of the member list and the address bump.
  */
module WhitelistAccount {
  import opened Primitives
  import opened Wrappers
  import opened Errors
  import opened Runtime
  import opened AccountLayout

  const Discriminator: byte := 2

  /** vault, meta Merkle root, bump, reserved: the sum of the fields, with no padding. */
  const Size: nat := 32 + 32 + 1 + ReservedLen

  datatype Whitelist = Whitelist(vault: Pubkey, metaMerkleRoot: Hash, bump: byte, reserved: Reserved)

  /** `Whitelist::new`: the vault and bump given, the root and the reserved bytes zero. */
  function New(vault: Pubkey, bump: byte): (w: Whitelist)
    ensures w.vault == vault && w.bump == bump && w.metaMerkleRoot == DefaultPubkey
    ensures forall i :: 0 <= i < ReservedLen ==> w.reserved[i] == 0
  {
    Whitelist(vault, DefaultPubkey, bump, Zeros(ReservedLen))
  }

  /** `check_vault`. */
  function CheckVault(w: Whitelist, vault: Pubkey): (r: Result<(), VaultWhitelistError>)
    ensures r.Ok? <==> w.vault == vault
    ensures r.Err? ==> r.error == InvalidVault
  {
    if w.vault != vault then Err(InvalidVault) else Ok(())
  }

  /** `set_meta_merkle_root`: only the root changes. */
  function SetMetaMerkleRoot(w: Whitelist, root: Hash): (w': Whitelist)
    ensures w'.metaMerkleRoot == root
    ensures w'.vault == w.vault && w'.bump == w.bump && w'.reserved == w.reserved
  {
    w.(metaMerkleRoot := root)
  }

  /** `Whitelist::seeds`: "whitelist" and the vault's 32 bytes. */
  function Seeds(vault: Pubkey): seq<seq<byte>> {
    [Ascii("whitelist"), vault]
  }

  /** Different vaults have different seed lists, hence their own Whitelist address. */
  lemma SeedsInjective(v1: Pubkey, v2: Pubkey)
    requires Seeds(v1) == Seeds(v2)
    ensures v1 == v2
  {
    assert Seeds(v1)[1] == v1;
  }

  function FindProgramAddress(derive: Deriver, programId: Pubkey, vault: Pubkey): (Pubkey, byte) {
    derive(Seeds(vault), programId)
  }

  /** `Whitelist::load`, with the canonical address derived from the vault. */
  function Load(programId: Pubkey, derive: Deriver, info: AccountInfo, vault: Pubkey, expectWritable: bool)
    : (r: Result<(), ProgramError>)
    ensures r.Ok? <==>
              && info.owner == programId
              && |info.data| > 0
              && (expectWritable ==> info.isWritable)
              && info.data[0] == Discriminator
              && info.key == FindProgramAddress(derive, programId, vault).0
    ensures info.owner != programId ==> r == Err(InvalidAccountOwner)
    ensures info.owner == programId && r.Err? ==> r == Err(InvalidAccountData)
  {
    LoadAccount(programId, info, expectWritable, Discriminator, FindProgramAddress(derive, programId, vault).0)
  }

  /** Offset of the root inside the record. */
  const RootOffset: nat := 32

  function ToBytes(w: Whitelist): (b: seq<byte>)
    ensures |b| == Size
  {
    w.vault + w.metaMerkleRoot + [w.bump] + w.reserved
  }

  function FromBytes(b: seq<byte>): Whitelist
    requires |b| == Size
  {
    Whitelist(b[..32], b[32..64], b[64], b[65..])
  }

  lemma FromToBytes(w: Whitelist)
    ensures FromBytes(ToBytes(w)) == w
  {
    var b := ToBytes(w);
    assert b[..32] == w.vault && b[32..64] == w.metaMerkleRoot && b[65..] == w.reserved;
  }

  lemma ToFromBytes(b: seq<byte>)
    requires |b| == Size
    ensures ToBytes(FromBytes(b)) == b
  {
    assert b == b[..32] + b[32..64] + [b[64]] + b[65..];
  }

  /** Writing a root over the root's bytes in place is setting the record's root. */
  lemma RootWriteInPlace(w: Whitelist, root: Hash)
    ensures Overwrite(ToBytes(w), RootOffset, root) == ToBytes(SetMetaMerkleRoot(w, root))
  {
    var a, b := Overwrite(ToBytes(w), RootOffset, root), ToBytes(SetMetaMerkleRoot(w, root));
    assert forall i :: 0 <= i < |a| ==> a[i] == b[i];
  }

  function Decode(data: seq<byte>): (r: Result<Whitelist, ProgramError>)
    ensures r.Ok? <==> |data| >= HeaderLen + Size
    ensures r.Err? ==> r.error == InvalidAccountData
  {
    var b :- RecordBytes(data, Size);
    Ok(FromBytes(b))
  }

  /**
    * Writing a root into account data at the root's place changes the decoded record's
    * root and nothing else, and leaves the discriminator byte and the length as they were.
    */
  lemma SetRootInAccountData(data: seq<byte>, root: Hash)
    requires |data| >= HeaderLen + Size
    ensures var data' := Overwrite(data, HeaderLen + RootOffset, root);
      && |data'| == |data| && data'[0] == data[0]
      && Decode(data') == Ok(SetMetaMerkleRoot(Decode(data).value, root))
  {
    var data' := Overwrite(data, HeaderLen + RootOffset, root);
    var rec := data[HeaderLen..HeaderLen + Size];
    assert data'[HeaderLen..HeaderLen + Size] == Overwrite(rec, RootOffset, root);
    ToFromBytes(rec);
    RootWriteInPlace(FromBytes(rec), root);
    FromToBytes(SetMetaMerkleRoot(FromBytes(rec), root));
  }

  lemma DecodeAccountData(w: Whitelist)
    ensures Decode(AccountData(Discriminator, ToBytes(w))) == Ok(w)
  {
    FromToBytes(w);
    var data := AccountData(Discriminator, ToBytes(w));
    assert data[HeaderLen..HeaderLen + Size] == ToBytes(w);
  }
}
