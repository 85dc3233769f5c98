/** `process_instruction` (program/src/lib.rs): the program-id guard and the dispatch. */
module Entrypoint {
  import opened Primitives
  import opened Wrappers
  import opened Errors
  import opened Runtime
  import InitializeConfigHandler
  import InitializeWhitelistHandler
  import AddToWhitelistHandler
  import RemoveFromWhitelistHandler
  import SetMintBurnAdminHandler
  import CloseWhitelistHandler
  import MintHandler
  import EnqueueWithdrawalHandler
  import BurnWithdrawalTicketHandler

  /** The dispatched instructions; the three gated ones carry the caller's Merkle proof. */
  datatype Instruction =
    | InitializeConfig
    | InitializeWhitelist
    | SetMintBurnAdmin
    | AddToWhitelist
    | RemoveFromWhitelist
    | Mint(proof: seq<Hash>, amountIn: u64, minAmountOut: u64)
    | EnqueueWithdrawal(proof: seq<Hash>, amount: u64)
    | BurnWithdrawalTicket(proof: seq<Hash>)
    | CloseWhitelist

  /** The handler an instruction runs. */
  function Handle(env: Env, s: LedgerState, metas: seq<AccountMeta>, ix: Instruction): Outcome {
    match ix
    case InitializeConfig => InitializeConfigHandler.Step(env, s, metas)
    case InitializeWhitelist => InitializeWhitelistHandler.Step(env, s, metas)
    case SetMintBurnAdmin => SetMintBurnAdminHandler.Step(env, s, metas)
    case AddToWhitelist => AddToWhitelistHandler.Step(env, s, metas)
    case RemoveFromWhitelist => RemoveFromWhitelistHandler.Step(env, s, metas)
    case Mint(proof, amountIn, minAmountOut) => MintHandler.Step(env, s, metas, proof, amountIn, minAmountOut)
    case EnqueueWithdrawal(proof, amount) => EnqueueWithdrawalHandler.Step(env, s, metas, proof, amount)
    case BurnWithdrawalTicket(proof) => BurnWithdrawalTicketHandler.Step(env, s, metas, proof)
    case CloseWhitelist => CloseWhitelistHandler.Step(env, s, metas)
  }

  /**
    * The entrypoint. The instruction decoder (borsh) is a parameter. A foreign program id
    * is refused before the data is looked at; a decoding error is returned as is; in both
    * cases nothing changes.
    */
  function Process(env: Env, s: LedgerState, programId: Pubkey, metas: seq<AccountMeta>, data: seq<byte>,
                   decode: seq<byte> -> Result<Instruction, ProgramError>): (o: Outcome)
    ensures programId != env.programId ==> o == Outcome(Err(IncorrectProgramId), s)
    ensures programId == env.programId && decode(data).Err? ==> o == Outcome(Err(decode(data).error), s)
    ensures programId == env.programId && decode(data).Ok? ==> o == Handle(env, s, metas, decode(data).value)
  {
    if programId != env.programId then Outcome(Err(IncorrectProgramId), s)
    else
      match decode(data)
      case Err(e) => Outcome(Err(e), s)
      case Ok(ix) => Handle(env, s, metas, ix)
  }
}
