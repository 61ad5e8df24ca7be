/**
 What the host runtime and the account framework contribute to every
 instruction: signer identities, the failures raised before or around a
 handler body, and the all-or-nothing outcome of an instruction.
 */
module Host {

  /** A public key. The all-zero key, a field's value until something writes it, is 0. */
  type Pubkey = nat

  const DEFAULT_PUBKEY: Pubkey := 0

  /**
   Failures that do not come from a program's own error enum: the account
   framework validating the instruction's accounts, an arithmetic panic in
   the handler, or the token program refusing a transfer.
   */
  datatype HostError =
    | AccountNotInitialized  // an account the instruction reads was never created
    | AccountAlreadyInUse    // an `init` account already exists at its seeded address
    | ConstraintHasOne       // a `has_one` constraint found a different key in the record
    | ConstraintRaw          // a `constraint = …` without its own error code was false
    | ArithmeticOverflow     // a checked `+`, `*` or `-` overflowed its width and panicked
    | InsufficientFunds      // the token program refused a transfer larger than the balance

  /** Why an instruction failed: the program's own error code `E`, or a host failure. */
  datatype TxError<E> = Program(code: E) | Host(cause: HostError)

  /**
   The result of one instruction. On `Err` the host rolls back every change
   the instruction made, to records and to token balances alike.
   */
  datatype Outcome<E> = Ok | Err(error: TxError<E>)
}
