/** Shared vocabulary of the EID layers: the error enum, result wrappers and bytes. */
module Types {

  /** The EID error enum. Each declared variant carries a message string; the last four
      are the payload-free variants the MLS client state returns, which the shared enum
      does not declare. */
  datatype EidError =
    | DeserializationError(msg: string)
    | SerializationError(msg: string)
    | AddMemberError(msg: string)
    | UpdateMemberError(msg: string)
    | RemoveMemberError(msg: string)
    | InvalidMemberError(msg: string)
    | InvalidEvolvementError(msg: string)
    | InvalidInvitationError(msg: string)
    | CreateTranscriptStateError(msg: string)
    | ExportTranscriptStateError(msg: string)
    | ImportTranscriptStateError(msg: string)
    | CreateClientError(msg: string)
    | CreateCredentialError(msg: string)
    | InvalidMessageError
    | ApplyCommitError
    | ParseMessageError
    | UnverifiedMessageError

  datatype Option<T> = None | Some(value: T)

  /** `Result<T, EidError>` */
  datatype Result<T> = Ok(value: T) | Err(error: EidError)

  /** `Result<(), EidError>` */
  datatype Outcome = Pass | Fail(error: EidError)

  /** What an operation on `&mut self` leaves behind: the new state and what it returned.
      A failing operation may still have changed the state. */
  datatype Step<S> = Step(state: S, outcome: Outcome)

  type Byte = b: int | 0 <= b < 256

  type Bytes = seq<Byte>
}
