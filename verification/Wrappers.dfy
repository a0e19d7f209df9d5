/** Optional values, and the outcomes of functions that may fail with one of the library's errors. */
module Wrappers {
  datatype Option<+T> = None | Some(value: T)

  /** The errors of `builtInFunctions/errors.go` and `parsers/errors.go` that the modelled code can return. */
  datatype Error =
    | ErrInvalidArguments | ErrInvalidNumOfArgs | ErrInvalidRcvAddr | ErrInvalidAddressLength
    | ErrInvalidNonce | ErrInvalidTokenID | ErrNegativeValue | ErrNotEnoughGas
    | ErrInsufficientFunds | ErrInsufficientQuantityDCT | ErrInvalidNFTQuantity
    | ErrNewNFTDataOnSenderAddress | ErrNFTDoesNotHaveMetadata | ErrNilDCTData
    | ErrInvalidLiquidityForDCT | ErrNilUserAccount | ErrDCTIsFrozenForAccount | ErrDCTTokenIsPaused
    | ErrCannotWipeAccountNotFrozen | ErrOnlyFungibleTokensHaveBalanceTransfer
    | ErrActionNotAllowed | ErrAccountNotPayable | ErrAddressIsNotDCTSystemSC
    | ErrOperationNotPermitted | ErrTooManyTransferAddresses | ErrOnlySystemAccountAccepted | ErrUnmarshal
    | ErrTokenizeFailed | ErrInvalidDataString | ErrNotEnoughArguments
    | PanicNilMetadata   // not an error value: the program dereferences a missing metadata record here
    | PanicEmptyAddress  // not an error value: the program takes the last byte of an address here
    | PanicSliceTooLong  // not an error value: the program allocates a slice of an impossible length here

  datatype Result<+T> = Ok(value: T) | Err(error: Error) {
    predicate IsFailure() {
      Err?
    }

    function PropagateFailure<U>(): Result<U>
      requires Err?
    {
      Err(error)
    }

    function Extract(): T
      requires Ok?
    {
      value
    }
  }

  /** The outcome of a check that returns nothing but an error. */
  datatype Outcome = Pass | Fail(error: Error)

  function Need(condition: bool, error: Error): Outcome {
    if condition then Pass else Fail(error)
  }
}
