/**
  * The per-member WhitelistUser account (core/src/whitelist_user.rs): a record at the
  * address derived from (whitelist, user) that names both.
  */
module WhitelistUserAccount {
  import opened Primitives
  import opened Wrappers
  import opened Errors
  import opened Runtime
  import opened AccountLayout

  const Discriminator: byte := 3

  /** whitelist, user, bump, reserved. */
  const Size: nat := 32 + 32 + 1 + ReservedLen

  datatype WhitelistUser = WhitelistUser(whitelist: Pubkey, user: Pubkey, bump: byte, reserved: Reserved)

  /** `WhitelistUser::new`: the fields given, reserved bytes zero. */
  function New(whitelist: Pubkey, user: Pubkey, bump: byte): (u: WhitelistUser)
    ensures u.whitelist == whitelist && u.user == user && u.bump == bump
    ensures forall i :: 0 <= i < ReservedLen ==> u.reserved[i] == 0
  {
    WhitelistUser(whitelist, user, bump, Zeros(ReservedLen))
  }

  /** `check_whitelist`. */
  function CheckWhitelist(u: WhitelistUser, whitelist: Pubkey): (r: Result<(), VaultWhitelistError>)
    ensures r.Ok? <==> u.whitelist == whitelist
    ensures r.Err? ==> r.error == InvalidWhitelist
  {
    if u.whitelist != whitelist then Err(InvalidWhitelist) else Ok(())
  }

  /** `check_user`. */
  function CheckUser(u: WhitelistUser, user: Pubkey): (r: Result<(), VaultWhitelistError>)
    ensures r.Ok? <==> u.user == user
    ensures r.Err? ==> r.error == InvalidWhitelistUser
  {
    if u.user != user then Err(InvalidWhitelistUser) else Ok(())
  }

  /** `WhitelistUser::seeds`: "whitelist_user", the whitelist's and the user's 32 bytes. */
  function Seeds(whitelist: Pubkey, user: Pubkey): seq<seq<byte>> {
    [Ascii("whitelist_user"), whitelist, user]
  }

  /** Different (whitelist, user) pairs have different seed lists. */
  lemma SeedsInjective(w1: Pubkey, u1: Pubkey, w2: Pubkey, u2: Pubkey)
    requires Seeds(w1, u1) == Seeds(w2, u2)
    ensures w1 == w2 && u1 == u2
  {
    assert Seeds(w1, u1)[1] == w1 && Seeds(w1, u1)[2] == u1;
  }

  function FindProgramAddress(derive: Deriver, programId: Pubkey, whitelist: Pubkey, user: Pubkey): (Pubkey, byte) {
    derive(Seeds(whitelist, user), programId)
  }

  /** `WhitelistUser::load`, with the canonical address derived from (whitelist, user). */
  function Load(programId: Pubkey, derive: Deriver, info: AccountInfo, whitelist: Pubkey, user: Pubkey, expectWritable: bool)
    : (r: Result<(), ProgramError>)
    ensures r.Ok? <==>
              && info.owner == programId
              && |info.data| > 0
              && (expectWritable ==> info.isWritable)
              && info.data[0] == Discriminator
              && info.key == FindProgramAddress(derive, programId, whitelist, user).0
    ensures info.owner != programId ==> r == Err(InvalidAccountOwner)
    ensures info.owner == programId && r.Err? ==> r == Err(InvalidAccountData)
  {
    LoadAccount(programId, info, expectWritable, Discriminator, FindProgramAddress(derive, programId, whitelist, user).0)
  }

  function ToBytes(u: WhitelistUser): (b: seq<byte>)
    ensures |b| == Size
  {
    u.whitelist + u.user + [u.bump] + u.reserved
  }

  function FromBytes(b: seq<byte>): WhitelistUser
    requires |b| == Size
  {
    WhitelistUser(b[..32], b[32..64], b[64], b[65..])
  }

  lemma FromToBytes(u: WhitelistUser)
    ensures FromBytes(ToBytes(u)) == u
  {
    var b := ToBytes(u);
    assert b[..32] == u.whitelist && b[32..64] == u.user && b[65..] == u.reserved;
  }

  lemma ToFromBytes(b: seq<byte>)
    requires |b| == Size
    ensures ToBytes(FromBytes(b)) == b
  {
    assert b == b[..32] + b[32..64] + [b[64]] + b[65..];
  }

  function Decode(data: seq<byte>): (r: Result<WhitelistUser, ProgramError>)
    ensures r.Ok? <==> |data| >= HeaderLen + Size
    ensures r.Err? ==> r.error == InvalidAccountData
  {
    var b :- RecordBytes(data, Size);
    Ok(FromBytes(b))
  }

  lemma DecodeAccountData(u: WhitelistUser)
    ensures Decode(AccountData(Discriminator, ToBytes(u))) == Ok(u)
  {
    FromToBytes(u);
    var data := AccountData(Discriminator, ToBytes(u));
    assert data[HeaderLen..HeaderLen + Size] == ToBytes(u);
  }
}
