/** The program's Config account (core/src/config.rs). */
module ConfigAccount {
  import opened Primitives
  import opened Wrappers
  import opened Errors
  import opened Runtime
  import opened AccountLayout

  /** The discriminator core/src/discriminator.rs declares for Config. */
  const Discriminator: byte := 1

  /** admin, vault program, bump, reserved. */
  const Size: nat := 32 + 32 + 1 + ReservedLen

  datatype Config = Config(admin: Pubkey, vaultProgram: Pubkey, bump: byte, reserved: Reserved)

  /** `Config::new` as the handler calls it: the given fields, reserved bytes zero. */
  function New(admin: Pubkey, vaultProgram: Pubkey, bump: byte): (c: Config)
    ensures c.admin == admin && c.vaultProgram == vaultProgram && c.bump == bump
    ensures forall i :: 0 <= i < ReservedLen ==> c.reserved[i] == 0
  {
    Config(admin, vaultProgram, bump, Zeros(ReservedLen))
  }

  /** `Config::seeds`: the single seed "config". */
  function Seeds(): seq<seq<byte>> {
    [Ascii("config")]
  }

  /** `Config::find_program_address`: the canonical address and its bump. */
  function FindProgramAddress(derive: Deriver, programId: Pubkey): (Pubkey, byte) {
    derive(Seeds(), programId)
  }

  /** `Config::load`. */
  function Load(programId: Pubkey, derive: Deriver, info: AccountInfo, expectWritable: bool): (r: Result<(), ProgramError>)
    ensures r.Ok? <==>
              && info.owner == programId
              && |info.data| > 0
              && (expectWritable ==> info.isWritable)
              && info.data[0] == Discriminator
              && info.key == FindProgramAddress(derive, programId).0
    ensures info.owner != programId ==> r == Err(InvalidAccountOwner)
    ensures info.owner == programId && r.Err? ==> r == Err(InvalidAccountData)
  {
    LoadAccount(programId, info, expectWritable, Discriminator, FindProgramAddress(derive, programId).0)
  }

  function ToBytes(c: Config): (b: seq<byte>)
    ensures |b| == Size
  {
    c.admin + c.vaultProgram + [c.bump] + c.reserved
  }

  function FromBytes(b: seq<byte>): Config
    requires |b| == Size
  {
    Config(b[..32], b[32..64], b[64], b[65..])
  }

  lemma FromToBytes(c: Config)
    ensures FromBytes(ToBytes(c)) == c
  {
    var b := ToBytes(c);
    assert b[..32] == c.admin && b[32..64] == c.vaultProgram && b[65..] == c.reserved;
  }

  lemma ToFromBytes(b: seq<byte>)
    requires |b| == Size
    ensures ToBytes(FromBytes(b)) == b
  {
    assert b == b[..32] + b[32..64] + [b[64]] + b[65..];
  }

  /** The record stored in account data, if the data is long enough to hold one. */
  function Decode(data: seq<byte>): (r: Result<Config, ProgramError>)
    ensures r.Ok? <==> |data| >= HeaderLen + Size
    ensures r.Err? ==> r.error == InvalidAccountData
  {
    var b :- RecordBytes(data, Size);
    Ok(FromBytes(b))
  }

  /** The data of an initialized Config account decodes to its record. */
  lemma DecodeAccountData(c: Config)
    ensures Decode(AccountData(Discriminator, ToBytes(c))) == Ok(c)
  {
    FromToBytes(c);
    var data := AccountData(Discriminator, ToBytes(c));
    assert data[HeaderLen..HeaderLen + Size] == ToBytes(c);
  }
}
