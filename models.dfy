/** The records and enumerations of the portfolio back end (`app/models.py`).
    Money, share and price columns are `numeric` in the database and
    `Decimal` in Python; here they are exact `real`s. Calendar dates are day
    numbers (`int`), since the engine only compares them. Creation timestamps
    are not part of this model. */
module Models {
  import opened Wrappers
  import DecimalText

  // ---------------------------------------------------------------------
  // Enumerations (the `Literal[...]` types)

  datatype CashMovementType = Deposit | Withdrawal | Fee

  datatype FundShareMovementType = Subscription | Redemption

  datatype AppUserStatus = Invited | Active | Suspended | Disabled

  function CashMovementTypeName(t: CashMovementType): string
  {
    match t
    case Deposit => "deposit"
    case Withdrawal => "withdrawal"
    case Fee => "fee"
  }

  /** Validation of a cash movement type: exactly the three names are
      accepted, each standing for the one type that is written that way. */
  function ParseCashMovementType(s: string): (r: Option<CashMovementType>)
    ensures r.Some? <==> s in {"deposit", "withdrawal", "fee"}
    ensures forall t :: r == Some(t) <==> CashMovementTypeName(t) == s
  {
    if s == "deposit" then Some(Deposit)
    else if s == "withdrawal" then Some(Withdrawal)
    else if s == "fee" then Some(Fee)
    else None
  }

  function FundShareMovementTypeName(t: FundShareMovementType): string
  {
    match t
    case Subscription => "subscription"
    case Redemption => "redemption"
  }

  /** Validation of a share movement type. */
  function ParseFundShareMovementType(s: string): (r: Option<FundShareMovementType>)
    ensures r.Some? <==> s in {"subscription", "redemption"}
    ensures forall t :: r == Some(t) <==> FundShareMovementTypeName(t) == s
  {
    if s == "subscription" then Some(Subscription)
    else if s == "redemption" then Some(Redemption)
    else None
  }

  function AppUserStatusName(t: AppUserStatus): string
  {
    match t
    case Invited => "invited"
    case Active => "active"
    case Suspended => "suspended"
    case Disabled => "disabled"
  }

  /** Validation of a user status. */
  function ParseAppUserStatus(s: string): (r: Option<AppUserStatus>)
    ensures r.Some? <==> s in {"invited", "active", "suspended", "disabled"}
    ensures forall t :: r == Some(t) <==> AppUserStatusName(t) == s
  {
    if s == "invited" then Some(Invited)
    else if s == "active" then Some(Active)
    else if s == "suspended" then Some(Suspended)
    else if s == "disabled" then Some(Disabled)
    else None
  }

  // ---------------------------------------------------------------------
  // Users

  datatype AppUser = AppUser(
    id: int, firebaseUid: string, email: string, fullName: string,
    isAdmin: bool, status: AppUserStatus)

  /** The fields a client sends to create a user; omitted ones are `None`. */
  datatype AppUserCreate = AppUserCreate(
    firebaseUid: string, email: string, fullName: string,
    isAdmin: Option<bool>, status: Option<AppUserStatus>)

  /** The user a create request describes, once the defaults are filled in:
      a user is an administrator only when the request says so, and a user
      whose status is not given starts out invited. */
  function NewUser(c: AppUserCreate, id: int): (u: AppUser)
    ensures u.isAdmin <==> c.isAdmin == Some(true)
    ensures c.status.None? ==> u.status == Invited
    ensures c.status.Some? ==> u.status == c.status.value
    ensures (u.firebaseUid, u.email, u.fullName, u.id) == (c.firebaseUid, c.email, c.fullName, id)
  {
    AppUser(id, c.firebaseUid, c.email, c.fullName, c.isAdmin.GetOr(false), c.status.GetOr(Invited))
  }

  /** A partial update: `None` leaves the field as it is. */
  datatype AppUserUpdate = AppUserUpdate(
    email: Option<string>, fullName: Option<string>,
    isAdmin: Option<bool>, status: Option<AppUserStatus>)

  // ---------------------------------------------------------------------
  // Accounts and ledgers

  /** `commissionRate` is `None` when the column holds NULL. */
  datatype Account = Account(id: int, userId: int, accountNumber: string, commissionRate: Option<real>)

  datatype CashMovement = CashMovement(
    id: int, accountId: int, kind: CashMovementType, amount: real,
    currency: string, effectiveDate: int)

  /** `fundId` is accepted but never written by the update. */
  datatype CashMovementUpdate = CashMovementUpdate(
    kind: Option<CashMovementType>, amount: Option<real>, currency: Option<string>,
    effectiveDate: Option<int>, fundId: Option<int>)

  datatype FundShareMovement = FundShareMovement(
    id: int, accountId: int, fundId: int, cashMovementId: Option<int>,
    kind: FundShareMovementType, sharesChange: real, sharePrice: real,
    totalAmount: real, effectiveDate: int)

  /** The type of a share movement cannot be changed by an update. */
  datatype FundShareMovementUpdate = FundShareMovementUpdate(
    fundId: Option<int>, sharesChange: Option<real>, sharePrice: Option<real>,
    totalAmount: Option<real>, effectiveDate: Option<int>)

  // ---------------------------------------------------------------------
  // Funds and their net asset values

  datatype Fund = Fund(id: int, name: string, currency: string)

  datatype FundNav = FundNav(
    id: int, fundId: int, asOfDate: int, fundAccumulated: real,
    sharesAmount: real, shareValue: real,
    deltaPrevious: Option<real>, deltaSinceOrigin: Option<real>)

  datatype FundNavUpdate = FundNavUpdate(
    asOfDate: Option<int>, fundAccumulated: Option<real>, sharesAmount: Option<real>,
    shareValue: Option<real>, deltaPrevious: Option<real>, deltaSinceOrigin: Option<real>)

  // ---------------------------------------------------------------------
  // Computed records

  datatype FundNavPoint = FundNavPoint(
    asOfDate: int, fundAccumulated: real, sharesAmount: real, shareValue: real,
    deltaPrevious: Option<real>, deltaSinceOrigin: Option<real>)

  /** `navs` is empty and `latestShareValue` absent for a fund without history. */
  datatype FundPerformance = FundPerformance(
    fundId: int, fundName: string, currency: string,
    latestShareValue: Option<real>, navs: seq<FundNavPoint>)

  /** `totalShares` is always present; the value fields only when the fund
      has a net asset value. */
  datatype FundPosition = FundPosition(
    fundId: int, fundName: string, currency: string, totalShares: real,
    latestShareValue: Option<real>, marketValue: Option<real>)

  datatype AccountSummary = AccountSummary(
    accountId: int, accountNumber: string,
    totalDeposits: real, totalWithdrawals: real, totalFees: real, netInvested: real,
    positions: seq<FundPosition>,
    userFullName: Option<string>, userEmail: Option<string>)

  /** The point of a net asset value row that the performance views report. */
  function NavPoint(n: FundNav): FundNavPoint
  {
    FundNavPoint(n.asOfDate, n.fundAccumulated, n.sharesAmount, n.shareValue,
                 n.deltaPrevious, n.deltaSinceOrigin)
  }

  // ---------------------------------------------------------------------
  // The `convert_decimal` field validators

  /** What a decimal-valued field may be given: a `Decimal`, text, or an
      integer. */
  datatype DecimalInput =
    | DecimalValue(d: DecimalText.Decimal)
    | TextValue(s: string)
    | IntValue(i: int)

  /** Every decimal-valued field is stored as text: `None` stays `None`,
      text is kept as given, and a number is written as `str` writes it, so
      that reading the text back yields the same number with the same
      exponent. */
  function ConvertDecimal(v: Option<DecimalInput>): (r: Option<string>)
    ensures r.None? <==> v.None?
    ensures v.Some? && v.value.TextValue? ==> r == Some(v.value.s)
    ensures v.Some? && v.value.DecimalValue? ==> DecimalText.Parse(r.value) == Some(v.value.d)
    ensures v.Some? && v.value.IntValue? ==>
      var i := v.value.i;
      DecimalText.Parse(r.value) == Some(DecimalText.Decimal(i < 0, if i < 0 then -i else i, 0))
  {
    match v
    case None => None
    case Some(DecimalValue(d)) =>
      DecimalText.ParseToText(d);
      Some(DecimalText.ToText(d))
    case Some(TextValue(s)) => Some(s)
    case Some(IntValue(i)) =>
      DecimalText.IntTextAsDecimal(i);
      DecimalText.ParseToText(DecimalText.Decimal(i < 0, if i < 0 then -i else i, 0));
      Some(DecimalText.IntText(i))
  }

  /** An integer and the `Decimal` of the same integer are written alike. */
  lemma ConvertIntAsDecimal(i: int)
    ensures ConvertDecimal(Some(IntValue(i)))
         == ConvertDecimal(Some(DecimalValue(DecimalText.Decimal(i < 0, if i < 0 then -i else i, 0))))
  {
    DecimalText.IntTextAsDecimal(i);
  }
}
