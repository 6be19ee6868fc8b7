/** Rules of the ledger (internal/domain/services/wallet_service.go).  The clock is a
    parameter; document ids and descriptive fields are not part of this model. */
module WalletService {
  import opened Binary64
  import opened DecimalUtils
  import opened Models
  import opened Wrappers

  function ValidateDepositRequest(req: TransactionRequest): Option<ServiceError> {
    if req.amount <= 0.0 then Some(InvalidAmount)
    else if req.username == "" then Some(UsernameRequired)
    else if req.parentToken == "" then Some(ParentTokenRequired)
    else None
  }

  function ValidateWithdrawRequest(req: TransactionRequest, currentBalance: real): Option<ServiceError> {
    if req.amount <= 0.0 then Some(InvalidAmount)
    else if req.username == "" then Some(UsernameRequired)
    else if req.parentToken == "" then Some(ParentTokenRequired)
    else if currentBalance < req.amount then Some(InsufficientFunds)
    else None
  }

  function CreateDepositStatement(req: TransactionRequest, currentBalance: Decimal, user: User, now: int)
    : Result<WalletStatement, ServiceError>
  {
    var amount := ConvertFloatToDecimal128(req.amount);
    var newBalance := SumDecimal128(currentBalance, amount);
    Success(WalletStatement(now, req.username, user.parentToken, amount, currentBalance, newBalance, Deposit))
  }

  function CreateWithdrawStatement(req: TransactionRequest, currentBalance: Decimal, user: User, now: int)
    : Result<WalletStatement, ServiceError>
  {
    var amount := ConvertFloatToDecimal128(-req.amount);
    var newBalance := SumDecimal128(currentBalance, amount);
    if ConvertDecimal128ToFloat(newBalance) < 0.0 then
      Failure(NegativeBalance)
    else
      Success(WalletStatement(now, req.username, user.parentToken, amount, currentBalance, newBalance, Withdraw))
  }

  function CreateParentWithdrawStatement(req: TransactionRequest, parentBalance: Decimal, parent: User, now: int)
    : Result<WalletStatement, ServiceError>
  {
    var amount := ConvertFloatToDecimal128(-req.amount);
    var newBalance := SumDecimal128(parentBalance, amount);
    if ConvertDecimal128ToFloat(newBalance) < 0.0 then
      Failure(NegativeBalance)
    else
      Success(WalletStatement(now, parent.username, parent.parentToken, amount, parentBalance, newBalance, Withdraw))
  }

  function ValidateBalanceConsistency(accountBalance: Decimal, lastStatementBalance: Decimal): Option<ServiceError> {
    if CompareDecimal128(accountBalance, lastStatementBalance) then None else Some(BalanceMismatch)
  }

  function CalculateNewBalance(currentBalance: Decimal, amount: real, isDeposit: bool): Result<Decimal, ServiceError> {
    var amountDecimal := ConvertFloatToDecimal128(if isDeposit then amount else -amount);
    var newBalance := SumDecimal128(currentBalance, amountDecimal);
    if !isDeposit && ConvertDecimal128ToFloat(newBalance) < 0.0 then
      Failure(NegativeBalance)
    else
      Success(newBalance)
  }

  /** The statement `process{Deposit,Withdraw}` create for a request. */
  function CreateStatement(action: TypeAction, req: TransactionRequest, currentBalance: Decimal, user: User, now: int)
    : Result<WalletStatement, ServiceError>
  {
    match action
    case Deposit => CreateDepositStatement(req, currentBalance, user, now)
    case Withdraw => CreateWithdrawStatement(req, currentBalance, user, now)
  }

  // ----- which requests are valid -----

  /** A deposit is valid exactly when it has an amount, a name and a parent. */
  lemma DepositValidExactly(req: TransactionRequest)
    ensures ValidateDepositRequest(req).None? <==> req.amount > 0.0 && req.username != "" && req.parentToken != ""
    ensures ValidateDepositRequest(req) == Some(InvalidAmount) <==> req.amount <= 0.0
    ensures ValidateDepositRequest(req) == Some(UsernameRequired) <==> req.amount > 0.0 && req.username == ""
    ensures ValidateDepositRequest(req) == Some(ParentTokenRequired) <==>
      req.amount > 0.0 && req.username != "" && req.parentToken == ""
  {}

  /** A withdrawal is so too, when the balance covers it; all of the balance may be withdrawn. */
  lemma WithdrawValidExactly(req: TransactionRequest, currentBalance: real)
    ensures ValidateWithdrawRequest(req, currentBalance).None? <==>
      ValidateDepositRequest(req).None? && req.amount <= currentBalance
    ensures ValidateDepositRequest(req).None? && req.amount == currentBalance ==>
      ValidateWithdrawRequest(req, currentBalance).None?
    ensures ValidateDepositRequest(req).None? && req.amount > currentBalance ==>
      ValidateWithdrawRequest(req, currentBalance) == Some(InsufficientFunds)
    ensures ValidateDepositRequest(req).Some? ==>
      ValidateWithdrawRequest(req, currentBalance) == ValidateDepositRequest(req)
  {}

  /** All of a balance, as it reads, can be withdrawn, and then nothing is left. */
  lemma WithdrawAll(req: TransactionRequest, balance: Decimal, user: User, now: int)
    requires 0 < balance && InRange(balance) && req.amount == ConvertDecimal128ToFloat(balance)
    requires req.username != "" && req.parentToken != ""
    ensures ValidateWithdrawRequest(req, ConvertDecimal128ToFloat(balance)).None?
    ensures var withdrawn := CreateWithdrawStatement(req, balance, user, now);
      withdrawn.Success? && withdrawn.value.afterCredit == 0
  {
    hide SumDecimal128, ConvertFloatToDecimal128, ConvertDecimal128ToFloat;
    ToFloatSign(balance);
    FromFloatOdd(req.amount);
    RoundTrip(balance);
    SumExact(balance, -balance);
    ToFloatSign(0);
  }

  // ----- what a statement promises -----

  /** A line of the ledger: it adds up, never overdraws, and its sign fits its kind. */
  predicate LedgerLine(st: WalletStatement) {
    && st.afterCredit == SumDecimal128(st.beforeCredit, st.amount)
    && st.afterCredit >= 0
    && (st.action == Deposit ==> st.amount >= 0)
    && (st.action == Withdraw ==> st.amount <= 0)
  }

  lemma StatementIsLedgerLine(action: TypeAction, req: TransactionRequest, balance: Decimal, user: User, now: int)
    requires req.amount > 0.0 && balance >= 0
    requires CreateStatement(action, req, balance, user, now).Success?
    ensures var st := CreateStatement(action, req, balance, user, now).value;
      LedgerLine(st) && st.beforeCredit == balance
  {
    hide SumDecimal128, ConvertFloatToDecimal128, ConvertDecimal128ToFloat;
    FromFloatZero();
    FromFloatMonotone(0.0, req.amount);
    FromFloatMonotone(-req.amount, 0.0);
    var st := CreateStatement(action, req, balance, user, now).value;
    if action == Deposit {
      SumNonNegative(balance, st.amount);
    } else {
      ToFloatSign(st.afterCredit);
    }
  }

  /** Statements change the balance as `CalculateNewBalance` says, and fail when it fails. */
  lemma StatementFollowsCalculation(action: TypeAction, req: TransactionRequest, balance: Decimal, user: User, now: int)
    ensures var created := CreateStatement(action, req, balance, user, now);
      var calculated := CalculateNewBalance(balance, req.amount, action == Deposit);
      && created.Success? == calculated.Success?
      && (created.Success? ==> created.value.afterCredit == calculated.value)
  {
    hide SumDecimal128, ConvertFloatToDecimal128, ConvertDecimal128ToFloat;
  }

  /** A withdrawal that passed the check against the balance still passes the guard inside
      the transaction, whatever the magnitudes, as long as the balance is the same. */
  lemma GuardAfterPrecheck(req: TransactionRequest, balance: Decimal, user: User, now: int)
    requires ValidateWithdrawRequest(req, ConvertDecimal128ToFloat(balance)).None?
    ensures CreateWithdrawStatement(req, balance, user, now).Success?
  {
    hide RoundEven, FlPos, ConvertFloatToDecimal128, ConvertDecimal128ToFloat;
    var amount := ConvertFloatToDecimal128(req.amount);
    FromFloatOdd(req.amount);
    StoredFloatNoLarger(req.amount, balance);
    ToFloatOdd(amount);
    var s := ConvertDecimal128ToFloat(balance) + ConvertDecimal128ToFloat(-amount);
    assert s >= 0.0;
    FlSign(s);
    FromFloatZero();
    FromFloatMonotone(0.0, Fl(s));
    ToFloatSign(SumDecimal128(balance, -amount));
  }

  /** The parent's statement is a withdrawal line of the parent, from the parent's balance. */
  lemma ParentStatementIsLedgerLine(req: TransactionRequest, balance: Decimal, parent: User, now: int)
    requires req.amount > 0.0
    ensures var created := CreateParentWithdrawStatement(req, balance, parent, now);
      created.Success? ==>
        && LedgerLine(created.value) && created.value.action == Withdraw && created.value.datetime == now
        && created.value.beforeCredit == balance && created.value.Account() == parent.Account()
    ensures CreateParentWithdrawStatement(req, balance, parent, now).Success? <==>
      SumDecimal128(balance, ConvertFloatToDecimal128(-req.amount)) >= 0
  {
    hide SumDecimal128, ConvertFloatToDecimal128, ConvertDecimal128ToFloat;
    FromFloatZero();
    FromFloatMonotone(-req.amount, 0.0);
    ToFloatSign(SumDecimal128(balance, ConvertFloatToDecimal128(-req.amount)));
  }

  /** Both sides of one request move the same number of units in opposite directions, each
      filed under its own account. */
  lemma AmountsCancel(
    req: TransactionRequest, balance: Decimal, user: User, parentBalance: Decimal, parent: User, now: int)
    requires CreateParentWithdrawStatement(req, parentBalance, parent, now).Success?
    ensures CreateDepositStatement(req, balance, user, now).value.amount
         == -CreateParentWithdrawStatement(req, parentBalance, parent, now).value.amount
    ensures CreateParentWithdrawStatement(req, parentBalance, parent, now).value.Account() == parent.Account()
    ensures user.Account() == req.Account() ==>
      CreateDepositStatement(req, balance, user, now).value.Account() == user.Account()
  {
    hide SumDecimal128, ConvertFloatToDecimal128, ConvertDecimal128ToFloat;
    FromFloatOdd(req.amount);
  }

  /** Within range, moving money from parent to child conserves their total. */
  lemma TransferConserves(
    req: TransactionRequest, balance: Decimal, user: User, parentBalance: Decimal, parent: User, now: int)
    requires InRange(balance) && InRange(parentBalance) && InRange(ConvertFloatToDecimal128(req.amount))
    requires CreateParentWithdrawStatement(req, parentBalance, parent, now).Success?
    ensures CreateDepositStatement(req, balance, user, now).value.afterCredit
          + CreateParentWithdrawStatement(req, parentBalance, parent, now).value.afterCredit
         == balance + parentBalance
  {
    hide SumDecimal128, ConvertFloatToDecimal128, ConvertDecimal128ToFloat;
    AmountsCancel(req, balance, user, parentBalance, parent, now);
    var amount := ConvertFloatToDecimal128(req.amount);
    SumExact(balance, amount);
    SumExact(parentBalance, -amount);
  }

  /** Withdrawing what was just deposited is accepted and restores the balance exactly. */
  lemma WithdrawUndoesDeposit(req: TransactionRequest, balance: Decimal, user: User, now: int, later: int)
    requires balance >= 0
    requires InRange(balance) && InRange(ConvertFloatToDecimal128(req.amount))
    requires InRange(balance + ConvertFloatToDecimal128(req.amount))
    ensures var deposited := CreateDepositStatement(req, balance, user, now).value.afterCredit;
      var withdrawn := CreateWithdrawStatement(req, deposited, user, later);
      withdrawn.Success? && withdrawn.value.afterCredit == balance
  {
    hide SumDecimal128, ConvertFloatToDecimal128, ConvertDecimal128ToFloat;
    var amount := ConvertFloatToDecimal128(req.amount);
    FromFloatOdd(req.amount);
    SumExact(balance, amount);
    SumExact(balance + amount, -amount);
    ToFloatSign(balance);
  }

  // ----- when a deposit raises the balance -----

  function AfterDeposit(req: TransactionRequest, balance: Decimal, user: User, now: int): Decimal {
    CreateDepositStatement(req, balance, user, now).value.afterCredit
  }

  lemma AddingNothing(balance: Decimal)
    requires 0 <= balance <= TWO25_UNITS
    ensures SumDecimal128(balance, 0) == balance
  {
    hide RoundEven, FlPos, ConvertFloatToDecimal128;
    FlIdempotent(Value(balance));
    ToFloatSign(0);
    RoundTrip(balance);
  }

  /** Up to 2^25 a deposit raises the balance exactly when its amount is more than half a
      unit; otherwise it leaves the balance as it was. */
  lemma DepositRaisesExactly(req: TransactionRequest, balance: Decimal, user: User, now: int)
    requires req.amount > 0.0 && 0 <= balance <= TWO25_UNITS
    ensures AfterDeposit(req, balance, user, now) > balance <==> req.amount > 0.000000005
    ensures req.amount <= 0.000000005 ==> AfterDeposit(req, balance, user, now) == balance
  {
    hide SumDecimal128, ConvertFloatToDecimal128;
    var amount := ConvertFloatToDecimal128(req.amount);
    StoresNothing(req.amount);
    if amount == 0 {
      AddingNothing(balance);
    } else {
      OneUnitCounts(balance);
      SumMonotone(balance, 1, amount);
    }
  }

  /** Every deposit of more than half a unit raises every balance up to the bound. */
  ghost predicate DepositsRaiseUpTo(bound: Decimal) {
    forall req: TransactionRequest, balance: Decimal, user: User, now: int
      | req.amount > 0.000000005 && 0 <= balance <= bound ::
      AfterDeposit(req, balance, user, now) > balance
  }

  /** From 2^25 and one unit on, deposits can vanish; up to 2^25 none does. */
  lemma DepositThreshold(user: User, bound: Decimal)
    ensures DepositsRaiseUpTo(bound) <==> bound <= TWO25_UNITS
  {
    hide SumDecimal128, ConvertFloatToDecimal128, AfterDeposit;
    if bound <= TWO25_UNITS {
      forall req: TransactionRequest, balance: Decimal, u: User, now: int
        | req.amount > 0.000000005 && 0 <= balance <= bound
        ensures AfterDeposit(req, balance, u, now) > balance
      {
        DepositRaisesExactly(req, balance, u, now);
      }
    } else {
      OneUnitVanishes(user);
    }
  }

  /** One unit deposited on 2^25 and one unit leaves no mark. */
  lemma OneUnitVanishes(user: User)
    ensures AfterDeposit(TransactionRequest("p", "t", "u", 0.00000001), TWO25_UNITS + 1, user, 0) == TWO25_UNITS + 1
  {
    hide SumDecimal128, ConvertFloatToDecimal128;
    PrintsAs(0.00000001, 1);
    OneUnitAt25();
  }
}
