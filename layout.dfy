/**
  * What the three account records of this program share: an 8-byte header whose first
  * byte is the record's discriminator, the record's fields right after it, 263 reserved
  * bytes at the end of each record, and the five-step structural check every `load` runs.
  */
module AccountLayout {
  import opened Primitives
  import opened Wrappers
  import opened Errors
  import opened Runtime

  const HeaderLen: nat := 8
  const ReservedLen: nat := 263

  type Reserved = s: seq<byte> | |s| == ReservedLen witness Zeros(ReservedLen)

  /** The header a freshly created account gets: the discriminator, then zero bytes. */
  function Header(discriminator: byte): (h: seq<byte>)
    ensures |h| == HeaderLen && h[0] == discriminator
    ensures forall i :: 1 <= i < HeaderLen ==> h[i] == 0
  {
    [discriminator] + Zeros(HeaderLen - 1)
  }

  /** The data of an initialized account: header, then the record's bytes. */
  function AccountData(discriminator: byte, record: seq<byte>): (data: seq<byte>)
    ensures |data| == HeaderLen + |record| && data[0] == discriminator
    ensures data[HeaderLen..] == record
  {
    Header(discriminator) + record
  }

  /**
    * Initializing a freshly created, zeroed account in place (discriminator into byte 0,
    * then the record after the header) yields exactly header plus record.
    */
  lemma InitializeInPlace(discriminator: byte, record: seq<byte>)
    ensures Overwrite(Zeros(HeaderLen + |record|)[0 := discriminator], HeaderLen, record) == AccountData(discriminator, record)
  {
    var a := Overwrite(Zeros(HeaderLen + |record|)[0 := discriminator], HeaderLen, record);
    var b := AccountData(discriminator, record);
    assert forall i :: 0 <= i < |a| ==> a[i] == b[i];
  }

  /**
    * `load` of an account record: owner, non-empty data, writability when asked,
    * discriminator byte and canonical address, in this order; the first failing check
    * decides the error.
    */
  function LoadAccount(programId: Pubkey, info: AccountInfo, expectWritable: bool, discriminator: byte, address: Pubkey)
    : (r: Result<(), ProgramError>)
    ensures r.Ok? <==>
              && info.owner == programId
              && |info.data| > 0
              && (expectWritable ==> info.isWritable)
              && info.data[0] == discriminator
              && info.key == address
    ensures info.owner != programId ==> r == Err(InvalidAccountOwner)
    ensures info.owner == programId && r.Err? ==> r == Err(InvalidAccountData)
  {
    if info.owner != programId then Err(InvalidAccountOwner)
    else if |info.data| == 0 then Err(InvalidAccountData)
    else if expectWritable && !info.isWritable then Err(InvalidAccountData)
    else if info.data[0] != discriminator then Err(InvalidAccountData)
    else if info.key != address then Err(InvalidAccountData)
    else Ok(())
  }

  /** `try_from_slice_unchecked`: the record bytes after the header, if the data is long enough. */
  function RecordBytes(data: seq<byte>, size: nat): (r: Result<seq<byte>, ProgramError>)
    ensures r.Ok? <==> |data| >= HeaderLen + size
    ensures r.Ok? ==> r.value == data[HeaderLen..HeaderLen + size]
    ensures r.Err? ==> r.error == InvalidAccountData
  {
    if |data| < HeaderLen + size then Err(InvalidAccountData) else Ok(data[HeaderLen..HeaderLen + size])
  }

  /** The account space `create_account` allocates: header plus record, with a checked add. */
  function AccountSpace(size: u64): (r: Result<u64, ProgramError>)
    ensures r.Ok? <==> HeaderLen + size <= U64_MAX
    ensures r.Ok? ==> r.value == HeaderLen + size
    ensures r.Err? ==> r.error == Custom(ArithmeticOverflow)
  {
    match CheckedAdd(HeaderLen, size)
    case Some(space) => Ok(space)
    case None => Err(Custom(ArithmeticOverflow))
  }
}
