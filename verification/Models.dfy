/** Entities of the wallet (internal/domain/models) and the use cases' replies. */
module Models {
  import opened DecimalUtils

  /** What user, balance and statement lookups filter on. */
  datatype Key = Key(username: string, parentToken: string)

  datatype User = User(username: string, parentToken: string, token: string, active: bool) {
    function Account(): Key {
      Key(username, parentToken)
    }
  }

  datatype TypeAction = Deposit | Withdraw

  datatype WalletStatement = WalletStatement(
    datetime: int,
    username: string,
    parentToken: string,
    amount: Decimal,
    beforeCredit: Decimal,
    afterCredit: Decimal,
    action: TypeAction)
  {
    function Account(): Key {
      Key(username, parentToken)
    }
  }

  datatype TransactionRequest = TransactionRequest(
    parentToken: string,
    token: string,
    username: string,
    amount: real)
  {
    function Account(): Key {
      Key(username, parentToken)
    }
  }

  datatype ServiceError =
    | InvalidAmount
    | UsernameRequired
    | ParentTokenRequired
    | InsufficientFunds
    | NegativeBalance
    | BalanceMismatch

  /** A reply of the use cases: the HTTP status with what distinguishes its message. */
  datatype Reply =
    | Done(before: real, after: real)
    | Created
    | Rejected(error: ServiceError)
    | BadUsername
    | UserNotFound
    | BalanceNotFound
    | ParentNotFound
    | UserExists
    | BalanceInconsistent
    | StorageFailed
    | CommitFailed
  {
    function Status(): int {
      match this
      case Done(_, _) | Created => 200
      case Rejected(_) | BadUsername => 400
      case UserNotFound | BalanceNotFound | ParentNotFound => 404
      case UserExists => 409
      case BalanceInconsistent | StorageFailed | CommitFailed => 500
    }
  }
}
