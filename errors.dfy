/**
  * Error values (sdk/src/error.rs) and the runtime's `ProgramError` variants the
  * handlers return.
  */
module Errors {
  import opened Primitives
  import opened Wrappers

  /**
    * The program's own errors. The last three are used by the account records but have
    * no declared discriminant, so no numeric code is given for them.
    */
  datatype VaultWhitelistError =
    | ArithmeticOverflow
    | ArithmeticUnderflow
    | DivisionByZero
    | InvalidProof
    | InvalidVault
    | InvalidWhitelist
    | InvalidWhitelistUser

  /** The declared discriminants, numbered from 3000 in declaration order. */
  function Code(e: VaultWhitelistError): (c: Option<u32>)
    ensures e == ArithmeticOverflow ==> c == Some(3000)
    ensures e == ArithmeticUnderflow ==> c == Some(3001)
    ensures e == DivisionByZero ==> c == Some(3002)
    ensures e == InvalidProof ==> c == Some(3003)
    ensures c.Some? <==> e in {ArithmeticOverflow, ArithmeticUnderflow, DivisionByZero, InvalidProof}
  {
    match e
    case ArithmeticOverflow => Some(3000)
    case ArithmeticUnderflow => Some(3001)
    case DivisionByZero => Some(3002)
    case InvalidProof => Some(3003)
    case _ => None
  }

  /** The error a declared code stands for. */
  function FromCode(c: u32): Option<VaultWhitelistError> {
    if c == 3000 then Some(ArithmeticOverflow)
    else if c == 3001 then Some(ArithmeticUnderflow)
    else if c == 3002 then Some(DivisionByZero)
    else if c == 3003 then Some(InvalidProof)
    else None
  }

  /** Codes decode back to their error, and only declared codes decode: the codes are distinct. */
  lemma CodeRoundTrip(e: VaultWhitelistError, c: u32)
    ensures Code(e).Some? ==> FromCode(Code(e).value) == Some(e)
    ensures FromCode(c) == Some(e) <==> Code(e) == Some(c)
  {
  }

  lemma CodeInjective(e1: VaultWhitelistError, e2: VaultWhitelistError)
    requires Code(e1).Some? && Code(e1) == Code(e2)
    ensures e1 == e2
  {
    CodeRoundTrip(e1, Code(e1).value);
    CodeRoundTrip(e2, Code(e2).value);
  }

  /** `e as u64`: the same numeric code, widened. */
  function ToU64(e: VaultWhitelistError): (c: Option<u64>)
    ensures c.Some? <==> Code(e).Some?
    ensures c.Some? ==> c.value == Code(e).value as int
  {
    match Code(e)
    case Some(v) => Some(v as u64)
    case None => None
  }

  /**
    * `ProgramError` as far as the handlers produce it. `Custom` carries the program's own
    * error (its numeric form is `Code`); `VaultAdminInvalid` is the vault program's
    * admin-mismatch error as it reaches this program.
    */
  datatype ProgramError =
    | Custom(error: VaultWhitelistError)
    | NotEnoughAccountKeys
    | InvalidAccountOwner
    | InvalidAccountData
    | InvalidInstructionData
    | IncorrectProgramId
    | MissingRequiredSignature
    | AccountAlreadyInitialized
    | AccountAlreadyInUse
    | VaultAdminInvalid

  /** `From<VaultWhitelistError> for ProgramError`. */
  function ToProgramError(e: VaultWhitelistError): (p: ProgramError)
    ensures p.Custom? && p.error == e
  {
    Custom(e)
  }

  /** `?` on a check returning the program's own error: the error becomes `Custom`. */
  function Lift(r: Result<(), VaultWhitelistError>): (p: Result<(), ProgramError>)
    ensures p.Ok? <==> r.Ok?
    ensures r.Err? ==> p == Err(Custom(r.error))
  {
    match r
    case Ok(_) => Ok(())
    case Err(e) => Err(ToProgramError(e))
  }

  /** The custom code a `ProgramError` carries, when it carries a declared one. */
  function CustomCode(p: ProgramError): Option<u32> {
    if p.Custom? then Code(p.error) else None
  }

  /** Converting to `ProgramError` keeps the code, so different errors stay different. */
  lemma ConversionKeepsCode(e: VaultWhitelistError)
    ensures CustomCode(ToProgramError(e)) == Code(e)
    ensures forall e' :: ToProgramError(e') == ToProgramError(e) ==> e' == e
  {
  }
}
