/** `MovementRepository.update_cash_movement` and
    `MovementRepository.update_fund_share_movement` (app/db_models.py): the
    partial updates of the two ledgers. Each table is a map from movement id
    to movement. */
module MovementRepository {
  import opened Wrappers
  import opened Models
  import opened PartialUpdate

  // ---------------------------------------------------------------------
  // Cash movements

  /** One `column = value` item of the `SET` list. */
  datatype CashAssignment =
    | SetKind(kind: CashMovementType)
    | SetAmount(amount: real)
    | SetCurrency(currency: string)
    | SetEffectiveDate(date: int)

  function AssignCash(m: CashMovement, a: CashAssignment): CashMovement
  {
    match a
    case SetKind(k) => m.(kind := k)
    case SetAmount(v) => m.(amount := v)
    case SetCurrency(c) => m.(currency := c)
    case SetEffectiveDate(d) => m.(effectiveDate := d)
  }

  /** No column would be written. `fundId` does not count: it is never
      written. */
  predicate CashUpdateIsEmpty(u: CashMovementUpdate)
  {
    u.kind.None? && u.amount.None? && u.currency.None? && u.effectiveDate.None?
  }

  /** The movement an update describes: every given field replaces the
      stored one, every absent field is kept; the id and the account never
      change. */
  function MergeCash(m: CashMovement, u: CashMovementUpdate): (r: CashMovement)
    ensures r.id == m.id && r.accountId == m.accountId
    ensures CashUpdateIsEmpty(u) ==> r == m
    ensures r.kind == (if u.kind.Some? then u.kind.value else m.kind)
    ensures r.amount == (if u.amount.Some? then u.amount.value else m.amount)
    ensures r.currency == (if u.currency.Some? then u.currency.value else m.currency)
    ensures r.effectiveDate == (if u.effectiveDate.Some? then u.effectiveDate.value else m.effectiveDate)
  {
    m.(kind := u.kind.GetOr(m.kind),
       amount := u.amount.GetOr(m.amount),
       currency := u.currency.GetOr(m.currency),
       effectiveDate := u.effectiveDate.GetOr(m.effectiveDate))
  }

  /** The fund id a client sends with a cash update changes nothing. */
  lemma MergeCashIgnoresFund(m: CashMovement, u: CashMovementUpdate, fundId: Option<int>)
    ensures MergeCash(m, u.(fundId := fundId)) == MergeCash(m, u)
  {
  }

  /** Applying the same update twice writes nothing new. */
  lemma MergeCashIdempotent(m: CashMovement, u: CashMovementUpdate)
    ensures MergeCash(MergeCash(m, u), u) == MergeCash(m, u)
  {
  }

  /** `updates` writes the fields `given` gives. */
  ghost predicate WritesCash(updates: seq<CashAssignment>, given: CashMovementUpdate)
  {
    forall m :: ApplyAll(m, updates, AssignCash) == MergeCash(m, given)
  }

  /** Appending the assignment `a` writes one more field. */
  lemma CashStep(updates: seq<CashAssignment>, given: CashMovementUpdate, a: CashAssignment, given': CashMovementUpdate)
    requires WritesCash(updates, given)
    requires forall m :: MergeCash(m, given') == AssignCash(MergeCash(m, given), a)
    ensures WritesCash(updates + [a], given')
  {
    forall m ensures ApplyAll(m, updates + [a], AssignCash) == MergeCash(m, given') {
      ApplyAllAppend(m, updates, a, AssignCash);
    }
  }

  /** The `SET` list `update_cash_movement` builds: one item per given
      field, in column order, and no item at all for an empty update. */
  method CashSetList(u: CashMovementUpdate) returns (updates: seq<CashAssignment>)
    ensures updates == [] <==> CashUpdateIsEmpty(u)
    ensures |updates| <= 4
    ensures forall m :: ApplyAll(m, updates, AssignCash) == MergeCash(m, u)
  {
    updates := [];
    ghost var given := CashMovementUpdate(None, None, None, None, u.fundId);
    if u.kind.Some? {
      var a := SetKind(u.kind.value);
      CashStep(updates, given, a, given.(kind := u.kind));
      updates := updates + [a];
    }
    given := given.(kind := u.kind);
    if u.amount.Some? {
      var a := SetAmount(u.amount.value);
      CashStep(updates, given, a, given.(amount := u.amount));
      updates := updates + [a];
    }
    given := given.(amount := u.amount);
    if u.currency.Some? {
      var a := SetCurrency(u.currency.value);
      CashStep(updates, given, a, given.(currency := u.currency));
      updates := updates + [a];
    }
    given := given.(currency := u.currency);
    if u.effectiveDate.Some? {
      var a := SetEffectiveDate(u.effectiveDate.value);
      CashStep(updates, given, a, given.(effectiveDate := u.effectiveDate));
      updates := updates + [a];
    }
    given := given.(effectiveDate := u.effectiveDate);
    assert given == u;
  }

  /** The `cash_movements` table after an update: only row `id` may change. */
  function UpdatedCash(rows: map<int, CashMovement>, id: int, u: CashMovementUpdate): (r: map<int, CashMovement>)
    ensures r.Keys == rows.Keys
    ensures forall k :: k in rows && k != id ==> r[k] == rows[k]
    ensures id in rows ==> r[id] == MergeCash(rows[id], u)
  {
    if id in rows && !CashUpdateIsEmpty(u) then rows[id := MergeCash(rows[id], u)] else rows
  }

  // ---------------------------------------------------------------------
  // Fund share movements

  /** One `column = value` item of the `SET` list. */
  datatype ShareAssignment =
    | SetFundId(fundId: int)
    | SetSharesChange(value: real)
    | SetSharePrice(value: real)
    | SetTotalAmount(value: real)
    | SetShareDate(date: int)

  function AssignShare(m: FundShareMovement, a: ShareAssignment): FundShareMovement
  {
    match a
    case SetFundId(f) => m.(fundId := f)
    case SetSharesChange(v) => m.(sharesChange := v)
    case SetSharePrice(v) => m.(sharePrice := v)
    case SetTotalAmount(v) => m.(totalAmount := v)
    case SetShareDate(d) => m.(effectiveDate := d)
  }

  predicate ShareUpdateIsEmpty(u: FundShareMovementUpdate)
  {
    u == FundShareMovementUpdate(None, None, None, None, None)
  }

  /** The movement an update describes: every given field replaces the
      stored one, every absent field is kept. The id, the account, the
      linked cash movement and the type never change. */
  function MergeShare(m: FundShareMovement, u: FundShareMovementUpdate): (r: FundShareMovement)
    ensures r.id == m.id && r.accountId == m.accountId
    ensures r.cashMovementId == m.cashMovementId && r.kind == m.kind
    ensures ShareUpdateIsEmpty(u) ==> r == m
    ensures r.fundId == (if u.fundId.Some? then u.fundId.value else m.fundId)
    ensures r.sharesChange == (if u.sharesChange.Some? then u.sharesChange.value else m.sharesChange)
    ensures r.sharePrice == (if u.sharePrice.Some? then u.sharePrice.value else m.sharePrice)
    ensures r.totalAmount == (if u.totalAmount.Some? then u.totalAmount.value else m.totalAmount)
    ensures r.effectiveDate == (if u.effectiveDate.Some? then u.effectiveDate.value else m.effectiveDate)
  {
    m.(fundId := u.fundId.GetOr(m.fundId),
       sharesChange := u.sharesChange.GetOr(m.sharesChange),
       sharePrice := u.sharePrice.GetOr(m.sharePrice),
       totalAmount := u.totalAmount.GetOr(m.totalAmount),
       effectiveDate := u.effectiveDate.GetOr(m.effectiveDate))
  }

  /** Applying the same update twice writes nothing new. */
  lemma MergeShareIdempotent(m: FundShareMovement, u: FundShareMovementUpdate)
    ensures MergeShare(MergeShare(m, u), u) == MergeShare(m, u)
  {
  }

  /** `updates` writes the fields `given` gives. */
  ghost predicate WritesShare(updates: seq<ShareAssignment>, given: FundShareMovementUpdate)
  {
    forall m :: ApplyAll(m, updates, AssignShare) == MergeShare(m, given)
  }

  /** Appending the assignment `a` writes one more field. */
  lemma ShareStep(updates: seq<ShareAssignment>, given: FundShareMovementUpdate, a: ShareAssignment, given': FundShareMovementUpdate)
    requires WritesShare(updates, given)
    requires forall m :: MergeShare(m, given') == AssignShare(MergeShare(m, given), a)
    ensures WritesShare(updates + [a], given')
  {
    forall m ensures ApplyAll(m, updates + [a], AssignShare) == MergeShare(m, given') {
      ApplyAllAppend(m, updates, a, AssignShare);
    }
  }

  /** The `SET` list `update_fund_share_movement` builds: one item per given
      field, in column order, and no item at all for an empty update. */
  method ShareSetList(u: FundShareMovementUpdate) returns (updates: seq<ShareAssignment>)
    ensures updates == [] <==> ShareUpdateIsEmpty(u)
    ensures |updates| <= 5
    ensures forall m :: ApplyAll(m, updates, AssignShare) == MergeShare(m, u)
  {
    updates := [];
    ghost var given := FundShareMovementUpdate(None, None, None, None, None);
    if u.fundId.Some? {
      var a := SetFundId(u.fundId.value);
      ShareStep(updates, given, a, given.(fundId := u.fundId));
      updates := updates + [a];
    }
    given := given.(fundId := u.fundId);
    if u.sharesChange.Some? {
      var a := SetSharesChange(u.sharesChange.value);
      ShareStep(updates, given, a, given.(sharesChange := u.sharesChange));
      updates := updates + [a];
    }
    given := given.(sharesChange := u.sharesChange);
    if u.sharePrice.Some? {
      var a := SetSharePrice(u.sharePrice.value);
      ShareStep(updates, given, a, given.(sharePrice := u.sharePrice));
      updates := updates + [a];
    }
    given := given.(sharePrice := u.sharePrice);
    if u.totalAmount.Some? {
      var a := SetTotalAmount(u.totalAmount.value);
      ShareStep(updates, given, a, given.(totalAmount := u.totalAmount));
      updates := updates + [a];
    }
    given := given.(totalAmount := u.totalAmount);
    if u.effectiveDate.Some? {
      var a := SetShareDate(u.effectiveDate.value);
      ShareStep(updates, given, a, given.(effectiveDate := u.effectiveDate));
      updates := updates + [a];
    }
    given := given.(effectiveDate := u.effectiveDate);
    assert given == u;
  }

  /** The `fund_share_movements` table after an update: only row `id` may
      change. */
  function UpdatedShares(rows: map<int, FundShareMovement>, id: int, u: FundShareMovementUpdate)
    : (r: map<int, FundShareMovement>)
    ensures r.Keys == rows.Keys
    ensures forall k :: k in rows && k != id ==> r[k] == rows[k]
    ensures id in rows ==> r[id] == MergeShare(rows[id], u)
  {
    if id in rows && !ShareUpdateIsEmpty(u) then rows[id := MergeShare(rows[id], u)] else rows
  }

  // ---------------------------------------------------------------------
  // The two ledgers

  class Ledgers {
    var cash: map<int, CashMovement>
    var shares: map<int, FundShareMovement>

    constructor (cash: map<int, CashMovement>, shares: map<int, FundShareMovement>)
      ensures this.cash == cash && this.shares == shares
    {
      this.cash := cash;
      this.shares := shares;
    }

    /** `update_cash_movement`: with no column to write it returns the
        movement as found; otherwise it writes the given fields and, unless no
        row was hit, returns the movement as now stored. */
    method UpdateCashMovement(id: int, u: CashMovementUpdate) returns (r: Option<CashMovement>)
      modifies this
      ensures cash == UpdatedCash(old(cash), id, u) && shares == old(shares)
      ensures r == if id in cash then Some(cash[id]) else None
    {
      var updates := CashSetList(u);
      if updates == [] {
        r := if id in cash then Some(cash[id]) else None;
        return;
      }
      if id !in cash {
        r := None;
        return;
      }
      cash := cash[id := ApplyAll(cash[id], updates, AssignCash)];
      r := Some(cash[id]);
    }

    /** `update_fund_share_movement`, in the same way. */
    method UpdateFundShareMovement(id: int, u: FundShareMovementUpdate) returns (r: Option<FundShareMovement>)
      modifies this
      ensures shares == UpdatedShares(old(shares), id, u) && cash == old(cash)
      ensures r == if id in shares then Some(shares[id]) else None
    {
      var updates := ShareSetList(u);
      if updates == [] {
        r := if id in shares then Some(shares[id]) else None;
        return;
      }
      if id !in shares {
        r := None;
        return;
      }
      shares := shares[id := ApplyAll(shares[id], updates, AssignShare)];
      r := Some(shares[id]);
    }
  }
}
