/** `AccountRepository._get_account_summaries` and its two wrappers
    (app/db_models.py): each account's cash totals by type, its fund
    positions valued at the latest net asset value, and a commission charged
    on positive gains. The three SQL queries are functions over the tables;
    the Python part that groups positions and builds the summaries is a
    pair of methods with loops. */
module AccountRepository {
  import opened Wrappers
  import opened Models
  import opened Sorting
  import FundRepository

  /** The tables the summaries read. Ledgers and net asset values are
      sequences in storage order; users and funds are keyed by id. */
  datatype Tables = Tables(
    users: map<int, AppUser>,
    accounts: seq<Account>,
    cash: seq<CashMovement>,
    shares: seq<FundShareMovement>,
    funds: map<int, Fund>,
    navs: seq<FundNav>)

  /** Account ids are the primary key of `accounts`. */
  ghost predicate AccountIdsUnique(accounts: seq<Account>)
  {
    forall i, j :: 0 <= i < j < |accounts| ==> accounts[i].id != accounts[j].id
  }

  // ---------------------------------------------------------------------
  // Cash totals:
  //   COALESCE(SUM(CASE WHEN cm.type = <kind> THEN cm.amount ELSE 0 END), 0)

  /** The sum of the amounts of the account's movements of type `kind`;
      0 when there are none. */
  function CashTotal(cash: seq<CashMovement>, accountId: int, kind: CashMovementType): (r: real)
    ensures (forall m :: m in cash ==> m.accountId != accountId || m.kind != kind) ==> r == 0.0
  {
    if cash == [] then 0.0
    else
      var m := cash[|cash| - 1];
      assert cash == cash[..|cash| - 1] + [m];
      CashTotal(cash[..|cash| - 1], accountId, kind) + (if m.accountId == accountId && m.kind == kind then m.amount else 0.0)
  }

  /** Totals over two stretches of the ledger add up. */
  lemma {:induction false} CashTotalAppend(a: seq<CashMovement>, b: seq<CashMovement>, accountId: int, kind: CashMovementType)
    ensures CashTotal(a + b, accountId, kind) == CashTotal(a, accountId, kind) + CashTotal(b, accountId, kind)
    decreases |b|
  {
    if b == [] {
      assert a + b == a;
    } else {
      var b' := b[..|b| - 1];
      assert (a + b)[..|a + b| - 1] == a + b';
      assert (a + b)[|a + b| - 1] == b[|b| - 1];
      CashTotalAppend(a, b', accountId, kind);
    }
  }

  /** Taking the last element of `a` and an equal element of its
      permutation `b` out of both leaves two permutations. */
  lemma RemoveMatching<T>(a: seq<T>, b: seq<T>, k: nat)
    requires a != [] && k < |b| && b[k] == a[|a| - 1] && multiset(a) == multiset(b)
    ensures multiset(a[..|a| - 1]) == multiset(b[..k] + b[k + 1..])
  {
    var x := b[k];
    assert a == a[..|a| - 1] + [x];
    assert b == b[..k] + [x] + b[k + 1..];
    assert multiset(b[..k] + b[k + 1..]) == multiset(b) - multiset{x};
    assert multiset(a[..|a| - 1]) == multiset(a) - multiset{x};
  }

  /** Taking movement `k` out of the ledger takes its amount out of the total. */
  lemma CashTotalRemove(b: seq<CashMovement>, k: nat, accountId: int, kind: CashMovementType)
    requires k < |b|
    ensures CashTotal(b, accountId, kind)
         == CashTotal(b[..k] + b[k + 1..], accountId, kind) + CashTotal([b[k]], accountId, kind)
  {
    assert b == (b[..k] + [b[k]]) + b[k + 1..];
    CashTotalAppend(b[..k] + [b[k]], b[k + 1..], accountId, kind);
    CashTotalAppend(b[..k], [b[k]], accountId, kind);
    CashTotalAppend(b[..k], b[k + 1..], accountId, kind);
  }

  /** A total does not depend on the order of the ledger. */
  lemma {:induction false} CashTotalPermutation(a: seq<CashMovement>, b: seq<CashMovement>, accountId: int, kind: CashMovementType)
    requires multiset(a) == multiset(b)
    ensures CashTotal(a, accountId, kind) == CashTotal(b, accountId, kind)
    decreases |a|
  {
    if a != [] {
      var a' := a[..|a| - 1];
      var x := a[|a| - 1];
      assert a == a' + [x];
      assert x in multiset(b);
      var k :| 0 <= k < |b| && b[k] == x;
      var b' := b[..k] + b[k + 1..];
      RemoveMatching(a, b, k);
      CashTotalPermutation(a', b', accountId, kind);
      CashTotalRemove(b, k, accountId, kind);
      CashTotalAppend(a', [x], accountId, kind);
    }
  }

  // ---------------------------------------------------------------------
  // The account query (accounts JOIN app_users LEFT JOIN cash_movements)

  /** One row of the account query. */
  datatype AccountRow = AccountRow(
    accountId: int, accountNumber: string, commissionRate: Option<real>,
    fullName: string, email: string,
    totalDeposits: real, totalWithdrawals: real, totalFees: real)

  /** The account has a user and passes `WHERE a.user_id = %s`, if any. */
  predicate Selected(a: Account, users: map<int, AppUser>, filterUserId: Option<int>)
  {
    a.userId in users && (filterUserId.None? || a.userId == filterUserId.value)
  }

  /** The row of a selected account. Without a `commission_rate` column the
      query selects `NULL` in its place. */
  function AccountRowOf(a: Account, t: Tables, hasCommissionColumn: bool): AccountRow
    requires a.userId in t.users
  {
    var u := t.users[a.userId];
    AccountRow(a.id, a.accountNumber, if hasCommissionColumn then a.commissionRate else None,
               u.fullName, u.email,
               CashTotal(t.cash, a.id, Deposit), CashTotal(t.cash, a.id, Withdrawal), CashTotal(t.cash, a.id, Fee))
  }

  /** The rows of the selected accounts, in storage order. */
  function SelectedRows(accounts: seq<Account>, t: Tables, filterUserId: Option<int>, hasCommissionColumn: bool)
    : (r: seq<AccountRow>)
    ensures forall row :: row in r ==>
      exists a :: a in accounts && Selected(a, t.users, filterUserId) && row == AccountRowOf(a, t, hasCommissionColumn)
    ensures forall a :: a in accounts && Selected(a, t.users, filterUserId) ==> AccountRowOf(a, t, hasCommissionColumn) in r
  {
    if accounts == [] then []
    else
      var a := accounts[|accounts| - 1];
      var p := SelectedRows(accounts[..|accounts| - 1], t, filterUserId, hasCommissionColumn);
      assert accounts == accounts[..|accounts| - 1] + [a];
      if Selected(a, t.users, filterUserId) then p + [AccountRowOf(a, t, hasCommissionColumn)] else p
  }

  /** `ORDER BY u.full_name, a.account_number`, comparing text by code point. */
  predicate NameThenNumber(x: AccountRow, y: AccountRow)
  {
    if x.fullName == y.fullName then StrLe(x.accountNumber, y.accountNumber)
    else StrLe(x.fullName, y.fullName)
  }

  lemma NameThenNumberIsPreorder()
    ensures TotalPreorder(NameThenNumber)
  {
    forall x, y ensures NameThenNumber(x, y) || NameThenNumber(y, x) {
      StrLeTotal(x.fullName, y.fullName);
      StrLeTotal(x.accountNumber, y.accountNumber);
    }
    forall x, y, z | NameThenNumber(x, y) && NameThenNumber(y, z) ensures NameThenNumber(x, z) {
      if x.fullName == y.fullName && y.fullName == z.fullName {
        StrLeTrans(x.accountNumber, y.accountNumber, z.accountNumber);
      } else if x.fullName == y.fullName {
      } else if y.fullName == z.fullName {
      } else {
        StrLeTrans(x.fullName, y.fullName, z.fullName);
        if x.fullName == z.fullName {
          StrLeAntisymmetric(x.fullName, y.fullName);
        }
      }
    }
  }

  function AccountQuery(t: Tables, filterUserId: Option<int>, hasCommissionColumn: bool): seq<AccountRow>
  {
    SortBy(SelectedRows(t.accounts, t, filterUserId, hasCommissionColumn), NameThenNumber)
  }

  // ---------------------------------------------------------------------
  // The position query (accounts JOIN app_users JOIN fund_share_movements
  // JOIN funds, grouped by account and fund)

  /** `SUM(CASE WHEN type = 'subscription' THEN shares_change WHEN type =
      'redemption' THEN -shares_change ELSE 0 END)` over the account's
      movements in the fund. */
  function NetShares(moves: seq<FundShareMovement>, accountId: int, fundId: int): (r: real)
    ensures (forall m :: m in moves ==> m.accountId != accountId || m.fundId != fundId) ==> r == 0.0
  {
    if moves == [] then 0.0
    else
      var m := moves[|moves| - 1];
      assert moves == moves[..|moves| - 1] + [m];
      var change :=
        if m.accountId != accountId || m.fundId != fundId then 0.0
        else match m.kind
          case Subscription => m.sharesChange
          case Redemption => -m.sharesChange;
      NetShares(moves[..|moves| - 1], accountId, fundId) + change
  }

  /** Net shares over two stretches of the ledger add up; in particular a
      redemption of what was subscribed brings the position back. */
  lemma {:induction false} NetSharesAppend(a: seq<FundShareMovement>, b: seq<FundShareMovement>, accountId: int, fundId: int)
    ensures NetShares(a + b, accountId, fundId) == NetShares(a, accountId, fundId) + NetShares(b, accountId, fundId)
    decreases |b|
  {
    if b == [] {
      assert a + b == a;
    } else {
      var b' := b[..|b| - 1];
      assert (a + b)[..|a + b| - 1] == a + b';
      assert (a + b)[|a + b| - 1] == b[|b| - 1];
      NetSharesAppend(a, b', accountId, fundId);
    }
  }

  /** The funds the account has movements in, each once, in order of first
      movement. */
  function FundsOf(moves: seq<FundShareMovement>, accountId: int): (r: seq<int>)
    ensures forall f :: f in r <==> exists m :: m in moves && m.accountId == accountId && m.fundId == f
    ensures forall i, j :: 0 <= i < j < |r| ==> r[i] != r[j]
  {
    if moves == [] then []
    else
      var m := moves[|moves| - 1];
      var p := FundsOf(moves[..|moves| - 1], accountId);
      assert moves == moves[..|moves| - 1] + [m];
      if m.accountId == accountId && m.fundId !in p then p + [m.fundId] else p
  }

  /** One row of the position query. */
  datatype PositionRow = PositionRow(accountId: int, fundId: int, fundName: string, currency: string, totalShares: real)

  /** The groups of the account whose fund exists, without those whose net
      is exactly zero (`WHERE total_shares <> 0`). */
  function GroupsOf(accountId: int, fundIds: seq<int>, t: Tables): (r: seq<PositionRow>)
    ensures forall row :: row in r ==>
      && row.accountId == accountId && row.fundId in fundIds && row.fundId in t.funds
      && row.fundName == t.funds[row.fundId].name && row.currency == t.funds[row.fundId].currency
      && row.totalShares == NetShares(t.shares, accountId, row.fundId) && row.totalShares != 0.0
    ensures forall f :: f in fundIds && f in t.funds && NetShares(t.shares, accountId, f) != 0.0 ==>
      PositionRow(accountId, f, t.funds[f].name, t.funds[f].currency, NetShares(t.shares, accountId, f)) in r
  {
    if fundIds == [] then []
    else
      var f := fundIds[|fundIds| - 1];
      var p := GroupsOf(accountId, fundIds[..|fundIds| - 1], t);
      assert fundIds == fundIds[..|fundIds| - 1] + [f];
      var net := NetShares(t.shares, accountId, f);
      if f in t.funds && net != 0.0 then p + [PositionRow(accountId, f, t.funds[f].name, t.funds[f].currency, net)]
      else p
  }

  /** The groups of the selected accounts, account by account. */
  function PositionGroups(accounts: seq<Account>, t: Tables, filterUserId: Option<int>): (r: seq<PositionRow>)
    ensures forall row :: row in r ==>
      exists a :: a in accounts && Selected(a, t.users, filterUserId) && row in GroupsOf(a.id, FundsOf(t.shares, a.id), t)
    ensures forall a, row :: a in accounts && Selected(a, t.users, filterUserId) && row in GroupsOf(a.id, FundsOf(t.shares, a.id), t) ==>
      row in r
  {
    if accounts == [] then []
    else
      var a := accounts[|accounts| - 1];
      var p := PositionGroups(accounts[..|accounts| - 1], t, filterUserId);
      assert accounts == accounts[..|accounts| - 1] + [a];
      if Selected(a, t.users, filterUserId) then p + GroupsOf(a.id, FundsOf(t.shares, a.id), t) else p
  }

  /** No fund has two rows. */
  predicate DistinctFunds(rows: seq<PositionRow>)
  {
    forall j, k :: 0 <= j < k < |rows| ==> rows[j].fundId != rows[k].fundId
  }

  /** Distinct funds give groups of distinct funds. */
  lemma {:induction false} GroupsOfDistinct(accountId: int, fundIds: seq<int>, t: Tables)
    requires NoRepeats(fundIds)
    ensures DistinctFunds(GroupsOf(accountId, fundIds, t))
    decreases |fundIds|
  {
    if fundIds != [] {
      var init, f := fundIds[..|fundIds| - 1], fundIds[|fundIds| - 1];
      assert NoRepeats(init) by {
        forall j, k | 0 <= j < k < |init| ensures init[j] != init[k] {
          assert init[j] == fundIds[j] && init[k] == fundIds[k];
        }
      }
      GroupsOfDistinct(accountId, init, t);
      var p := GroupsOf(accountId, init, t);
      var r := GroupsOf(accountId, fundIds, t);
      if r != p {
        var row := r[|r| - 1];
        assert r == p + [row] && row.fundId == f;
        assert f !in init by {
          forall j | 0 <= j < |init| ensures init[j] != f {
            assert init[j] == fundIds[j];
          }
        }
        forall j, k | 0 <= j < k < |r| ensures r[j].fundId != r[k].fundId {
          assert r[j] == p[j] && p[j] in p;
          assert p[j].fundId in init;
          if k < |p| {
            assert r[k] == p[k];
            assert p[j].fundId != p[k].fundId;
          } else {
            assert r[k].fundId == f;
          }
        }
      }
    }
  }

  /** The groups of accounts other than `a` do not belong to `a`. */
  lemma GroupsOfOthers(accounts: seq<Account>, t: Tables, filterUserId: Option<int>, a: Account)
    requires forall b :: b in accounts ==> b.id != a.id
    ensures forall row :: row in PositionGroups(accounts, t, filterUserId) ==> row.accountId != a.id
  {
  }

  /** With account ids unique, the grouped rows hold each (account, fund)
      group once. */
  lemma {:induction false} PositionGroupsNoRepeats(accounts: seq<Account>, t: Tables, filterUserId: Option<int>)
    requires AccountIdsUnique(accounts)
    ensures NoRepeats(PositionGroups(accounts, t, filterUserId))
    decreases |accounts|
  {
    if accounts != [] {
      var n := |accounts| - 1;
      var a, init := accounts[n], accounts[..n];
      assert AccountIdsUnique(init) by {
        forall i, j | 0 <= i < j < |init| ensures init[i].id != init[j].id {
          assert init[i] == accounts[i] && init[j] == accounts[j];
        }
      }
      PositionGroupsNoRepeats(init, t, filterUserId);
      var p := PositionGroups(init, t, filterUserId);
      if Selected(a, t.users, filterUserId) {
        var g := GroupsOf(a.id, FundsOf(t.shares, a.id), t);
        GroupsOfDistinct(a.id, FundsOf(t.shares, a.id), t);
        assert forall b :: b in init ==> b.id != a.id by {
          forall b | b in init ensures b.id != a.id {
            var m :| 0 <= m < n && init[m] == b;
            assert accounts[m].id != accounts[n].id;
          }
        }
        GroupsOfOthers(init, t, filterUserId, a);
        var r := p + g;
        assert PositionGroups(accounts, t, filterUserId) == r;
        forall j, k | 0 <= j < k < |r| ensures r[j] != r[k] {
          if k < |p| {
            assert r[j] == p[j] && r[k] == p[k];
          } else if j >= |p| {
            assert r[j] == g[j - |p|] && r[k] == g[k - |p|];
            assert g[j - |p|].fundId != g[k - |p|].fundId;
          } else {
            assert r[j] == p[j] && p[j] in p;
            assert r[k] == g[k - |p|] && g[k - |p|] in g;
            assert p[j].accountId != a.id == g[k - |p|].accountId;
          }
        }
      } else {
        assert PositionGroups(accounts, t, filterUserId) == p;
      }
    }
  }

  /** `ORDER BY account_id, fund_name` */
  predicate AccountThenFundName(x: PositionRow, y: PositionRow)
  {
    x.accountId < y.accountId || (x.accountId == y.accountId && StrLe(x.fundName, y.fundName))
  }

  lemma AccountThenFundNameIsPreorder()
    ensures TotalPreorder(AccountThenFundName)
  {
    forall x, y ensures AccountThenFundName(x, y) || AccountThenFundName(y, x) {
      StrLeTotal(x.fundName, y.fundName);
    }
    forall x, y, z | AccountThenFundName(x, y) && AccountThenFundName(y, z) ensures AccountThenFundName(x, z) {
      if x.accountId == y.accountId && y.accountId == z.accountId {
        StrLeTrans(x.fundName, y.fundName, z.fundName);
      }
    }
  }

  function PositionQuery(t: Tables, filterUserId: Option<int>): seq<PositionRow>
  {
    SortBy(PositionGroups(t.accounts, t, filterUserId), AccountThenFundName)
  }

  // ---------------------------------------------------------------------
  // Grouping the position rows by account:
  //   positions_map[pos_row["account_id"]].append(pos_row)

  /** The rows of one account, in query order. */
  function PositionsOf(rows: seq<PositionRow>, accountId: int): (r: seq<PositionRow>)
    ensures forall row :: row in r <==> row in rows && row.accountId == accountId
  {
    if rows == [] then []
    else
      var row := rows[|rows| - 1];
      var p := PositionsOf(rows[..|rows| - 1], accountId);
      assert rows == rows[..|rows| - 1] + [row];
      if row.accountId == accountId then p + [row] else p
  }

  /** Taking one account's rows keeps them free of repeats. */
  lemma {:induction false} PositionsOfNoRepeats(rows: seq<PositionRow>, accountId: int)
    requires NoRepeats(rows)
    ensures NoRepeats(PositionsOf(rows, accountId))
    decreases |rows|
  {
    if rows != [] {
      var init, last := rows[..|rows| - 1], rows[|rows| - 1];
      assert NoRepeats(init) by {
        forall j, k | 0 <= j < k < |init| ensures init[j] != init[k] {
          assert init[j] == rows[j] && init[k] == rows[k];
        }
      }
      PositionsOfNoRepeats(init, accountId);
      var p := PositionsOf(init, accountId);
      if last.accountId == accountId {
        assert last !in init by {
          forall j | 0 <= j < |init| ensures init[j] != last {
            assert init[j] == rows[j];
          }
        }
        var r := p + [last];
        assert PositionsOf(rows, accountId) == r;
        forall j, k | 0 <= j < k < |r| ensures r[j] != r[k] {
          assert r[j] == p[j] && p[j] in p;
        }
      }
    }
  }

  /** `positions_map.get(account_id, [])` */
  function Group(positionsMap: map<int, seq<PositionRow>>, accountId: int): seq<PositionRow>
  {
    if accountId in positionsMap then positionsMap[accountId] else []
  }

  /** The `defaultdict(list)` the position rows are appended to: it holds
      exactly the accounts that have rows, each with its rows in order. */
  method GroupPositions(rows: seq<PositionRow>) returns (positionsMap: map<int, seq<PositionRow>>)
    ensures forall id :: id in positionsMap <==> PositionsOf(rows, id) != []
    ensures forall id :: Group(positionsMap, id) == PositionsOf(rows, id)
  {
    positionsMap := map[];
    for i := 0 to |rows|
      invariant forall id :: id in positionsMap <==> PositionsOf(rows[..i], id) != []
      invariant forall id :: Group(positionsMap, id) == PositionsOf(rows[..i], id)
    {
      var row := rows[i];
      assert rows[..i + 1][..i] == rows[..i];
      var group := if row.accountId in positionsMap then positionsMap[row.accountId] else [];
      positionsMap := positionsMap[row.accountId := group + [row]];
    }
    assert rows[..|rows|] == rows;
  }

  // ---------------------------------------------------------------------
  // Building the summaries

  /** `Decimal(total_shares) * Decimal(latest_nav_value)` */
  function MarketValue(shares: real, shareValue: real): real
  {
    shares * shareValue
  }

  /** The position a row describes, valued at the fund's latest share value
      when the fund has one. */
  function Position(row: PositionRow, navMap: map<int, FundNav>): FundPosition
  {
    if row.fundId in navMap then
      var value := navMap[row.fundId].shareValue;
      FundPosition(row.fundId, row.fundName, row.currency, row.totalShares, Some(value), Some(MarketValue(row.totalShares, value)))
    else
      FundPosition(row.fundId, row.fundName, row.currency, row.totalShares, None, None)
  }

  function Positions(rows: seq<PositionRow>, navMap: map<int, FundNav>): (r: seq<FundPosition>)
    ensures |r| == |rows|
  {
    seq(|rows|, j requires 0 <= j < |rows| => Position(rows[j], navMap))
  }

  /** `total_market_value`: the sum of the market values the positions have;
      a position without a net asset value adds nothing. */
  function MarketTotal(ps: seq<FundPosition>): (r: real)
    ensures (forall p :: p in ps ==> p.marketValue.None?) ==> r == 0.0
  {
    if ps == [] then 0.0
    else
      var p := ps[|ps| - 1];
      assert ps == ps[..|ps| - 1] + [p];
      MarketTotal(ps[..|ps| - 1]) + (if p.marketValue.Some? then p.marketValue.value else 0.0)
  }

  /** The value of the rows whose fund has a net asset value, each at its
      shares times that value; rows of unpriced funds add nothing. */
  function PricedValue(rows: seq<PositionRow>, navMap: map<int, FundNav>): real
  {
    if rows == [] then 0.0
    else
      var row := rows[|rows| - 1];
      PricedValue(rows[..|rows| - 1], navMap)
        + (if row.fundId in navMap then MarketValue(row.totalShares, navMap[row.fundId].shareValue) else 0.0)
  }

  /** The running total the valuation loop keeps is the value of the priced
      rows. */
  lemma {:induction false} MarketTotalOfPositions(rows: seq<PositionRow>, navMap: map<int, FundNav>)
    ensures MarketTotal(Positions(rows, navMap)) == PricedValue(rows, navMap)
    decreases |rows|
  {
    if rows != [] {
      var init := rows[..|rows| - 1];
      var ps := Positions(rows, navMap);
      assert ps[..|ps| - 1] == Positions(init, navMap);
      MarketTotalOfPositions(init, navMap);
    }
  }

  /** The commission: the rate applied to a positive gain, nothing otherwise. */
  function Commission(gains: real, rate: real): real
  {
    if gains > 0.0 then gains * rate else 0.0
  }

  /** The summary of one account row and its position rows. A missing rate
      counts as 0. */
  function Summarize(row: AccountRow, rows: seq<PositionRow>, navMap: map<int, FundNav>): AccountSummary
  {
    var positions := Positions(rows, navMap);
    var gains := MarketTotal(positions) - (row.totalDeposits - row.totalWithdrawals - row.totalFees);
    var totalFees := row.totalFees + Commission(gains, row.commissionRate.GetOr(0.0));
    AccountSummary(row.accountId, row.accountNumber, row.totalDeposits, row.totalWithdrawals, totalFees,
                   row.totalDeposits - row.totalWithdrawals - totalFees, positions,
                   Some(row.fullName), Some(row.email))
  }

  /** The inner loop: values the positions of one account and accumulates
      `total_market_value`. */
  method ValuePositions(accountPositions: seq<PositionRow>, navMap: map<int, FundNav>)
    returns (positions: seq<FundPosition>, totalMarketValue: real)
    ensures positions == Positions(accountPositions, navMap)
    ensures totalMarketValue == MarketTotal(positions)
  {
    positions := [];
    totalMarketValue := 0.0;
    for j := 0 to |accountPositions|
      invariant positions == Positions(accountPositions[..j], navMap)
      invariant totalMarketValue == MarketTotal(positions)
    {
      var pos := accountPositions[j];
      var latest: Option<real> := None;
      var marketValue: Option<real> := None;
      if pos.fundId in navMap {
        var value := navMap[pos.fundId].shareValue;
        latest := Some(value);
        marketValue := Some(MarketValue(pos.totalShares, value));
        totalMarketValue := totalMarketValue + marketValue.value;
      }
      var p := FundPosition(pos.fundId, pos.fundName, pos.currency, pos.totalShares, latest, marketValue);
      assert p == Position(pos, navMap);
      assert Positions(accountPositions[..j + 1], navMap) == positions + [p];
      assert (positions + [p])[..|positions|] == positions;
      positions := positions + [p];
    }
    assert accountPositions[..|accountPositions|] == accountPositions;
  }

  /** The loop over the account rows. */
  method BuildSummaries(accountRows: seq<AccountRow>, positionsMap: map<int, seq<PositionRow>>, navMap: map<int, FundNav>)
    returns (summaries: seq<AccountSummary>)
    ensures |summaries| == |accountRows|
    ensures forall i :: 0 <= i < |accountRows| ==>
      summaries[i] == Summarize(accountRows[i], Group(positionsMap, accountRows[i].accountId), navMap)
  {
    summaries := [];
    for i := 0 to |accountRows|
      invariant |summaries| == i
      invariant forall k :: 0 <= k < i ==>
        summaries[k] == Summarize(accountRows[k], Group(positionsMap, accountRows[k].accountId), navMap)
    {
      var row := accountRows[i];
      var accountPositions := if row.accountId in positionsMap then positionsMap[row.accountId] else [];
      var positions, totalMarketValue := ValuePositions(accountPositions, navMap);
      var rate := if row.commissionRate.Some? then row.commissionRate.value else 0.0;
      var netInvestedBeforeCommissions := row.totalDeposits - row.totalWithdrawals - row.totalFees;
      var totalGains := totalMarketValue - netInvestedBeforeCommissions;
      var commission := 0.0;
      if totalGains > 0.0 {
        commission := totalGains * rate;
      }
      assert commission == Commission(totalGains, row.commissionRate.GetOr(0.0));
      var totalFees := row.totalFees + commission;
      var netInvested := row.totalDeposits - row.totalWithdrawals - totalFees;
      var summary := AccountSummary(row.accountId, row.accountNumber, row.totalDeposits,
        row.totalWithdrawals, totalFees, netInvested, positions, Some(row.fullName), Some(row.email));
      assert summary == Summarize(row, Group(positionsMap, row.accountId), navMap);
      summaries := summaries + [summary];
    }
  }

  /** What `_get_account_summaries` returns: one summary per account row,
      in the order of the account query. */
  function AccountSummaries(t: Tables, filterUserId: Option<int>, hasCommissionColumn: bool): (r: seq<AccountSummary>)
    ensures |r| == |SelectedRows(t.accounts, t, filterUserId, hasCommissionColumn)|
  {
    var accountRows := AccountQuery(t, filterUserId, hasCommissionColumn);
    var positionRows := PositionQuery(t, filterUserId);
    var navMap := FundRepository.LatestNavsMap(t.navs);
    seq(|accountRows|, i requires 0 <= i < |accountRows| =>
      Summarize(accountRows[i], PositionsOf(positionRows, accountRows[i].accountId), navMap))
  }

  /** `_get_account_summaries(filter_user_id)`; `hasCommissionColumn` is
      the answer of the `information_schema` probe. The position query runs
      only when there are account rows. */
  method GetAccountSummaries(t: Tables, filterUserId: Option<int>, hasCommissionColumn: bool)
    returns (summaries: seq<AccountSummary>)
    ensures summaries == AccountSummaries(t, filterUserId, hasCommissionColumn)
  {
    var accountRows := AccountQuery(t, filterUserId, hasCommissionColumn);
    var positionsMap: map<int, seq<PositionRow>> := map[];
    if accountRows != [] {
      positionsMap := GroupPositions(PositionQuery(t, filterUserId));
    }
    var navMap := FundRepository.LatestNavsMap(t.navs);
    summaries := BuildSummaries(accountRows, positionsMap, navMap);
  }

  /** `get_account_summaries_by_user`: the summaries of one user's accounts. */
  method GetAccountSummariesByUser(t: Tables, userId: int, hasCommissionColumn: bool)
    returns (summaries: seq<AccountSummary>)
    ensures summaries == AccountSummaries(t, Some(userId), hasCommissionColumn)
  {
    summaries := GetAccountSummaries(t, Some(userId), hasCommissionColumn);
  }

  /** `get_account_summaries_for_admin`: the summaries of every account. */
  method GetAccountSummariesForAdmin(t: Tables, hasCommissionColumn: bool)
    returns (summaries: seq<AccountSummary>)
    ensures summaries == AccountSummaries(t, None, hasCommissionColumn)
  {
    summaries := GetAccountSummaries(t, None, hasCommissionColumn);
  }

  // ---------------------------------------------------------------------
  // What the summaries promise

  /** The summary at position `i` is that of the `i`-th account row and the
      position rows of its account. */
  lemma SummaryAt(t: Tables, filterUserId: Option<int>, hasCommissionColumn: bool, i: nat)
    requires i < |AccountSummaries(t, filterUserId, hasCommissionColumn)|
    ensures i < |AccountQuery(t, filterUserId, hasCommissionColumn)|
    ensures var row := AccountQuery(t, filterUserId, hasCommissionColumn)[i];
      AccountSummaries(t, filterUserId, hasCommissionColumn)[i]
        == Summarize(row, PositionsOf(PositionQuery(t, filterUserId), row.accountId), FundRepository.LatestNavsMap(t.navs))
  {
  }

  /** Every account row is that of a selected account. */
  lemma AccountRowSource(t: Tables, filterUserId: Option<int>, hasCommissionColumn: bool, i: nat) returns (a: Account)
    requires i < |AccountQuery(t, filterUserId, hasCommissionColumn)|
    ensures a in t.accounts && Selected(a, t.users, filterUserId)
    ensures AccountQuery(t, filterUserId, hasCommissionColumn)[i] == AccountRowOf(a, t, hasCommissionColumn)
  {
    var rows := AccountQuery(t, filterUserId, hasCommissionColumn);
    var selected := SelectedRows(t.accounts, t, filterUserId, hasCommissionColumn);
    assert rows[i] in selected by {
      assert rows[i] in multiset(rows);
      assert multiset(rows) == multiset(selected);
    }
    a :| a in t.accounts && Selected(a, t.users, filterUserId) && rows[i] == AccountRowOf(a, t, hasCommissionColumn);
  }

  /** The fees of a summary are the explicit fees, plus the rate (0 when
      there is none) applied to the gain of the market value over the net
      amount invested before commissions when that gain is positive; the
      net amount invested is deposits minus withdrawals minus all fees. */
  lemma SummarizeFees(row: AccountRow, rows: seq<PositionRow>, navMap: map<int, FundNav>)
    ensures var s := Summarize(row, rows, navMap);
      var rate := if row.commissionRate.Some? then row.commissionRate.value else 0.0;
      var gains := MarketTotal(s.positions) - (row.totalDeposits - row.totalWithdrawals - row.totalFees);
      && s.totalDeposits == row.totalDeposits && s.totalWithdrawals == row.totalWithdrawals
      && (gains <= 0.0 ==> s.totalFees == row.totalFees && s.netInvested == row.totalDeposits - row.totalWithdrawals - row.totalFees)
      && (gains > 0.0 ==> s.totalFees == row.totalFees + Commission(gains, rate) && Commission(gains, rate) == gains * rate)
      && s.netInvested == s.totalDeposits - s.totalWithdrawals - s.totalFees
  {
  }

  /** Every summary is that of a selected account: it carries the account's
      number, its user's name and e-mail and its cash totals by type; its
      fees add to the explicit fees the commission on a positive gain, at
      the account's rate when the column exists and 0 otherwise. */
  lemma SummaryTotals(t: Tables, filterUserId: Option<int>, hasCommissionColumn: bool, i: nat) returns (a: Account)
    requires i < |AccountSummaries(t, filterUserId, hasCommissionColumn)|
    ensures a in t.accounts && Selected(a, t.users, filterUserId)
    ensures var s := AccountSummaries(t, filterUserId, hasCommissionColumn)[i];
      && s.accountId == a.id && s.accountNumber == a.accountNumber
      && s.userFullName == Some(t.users[a.userId].fullName) && s.userEmail == Some(t.users[a.userId].email)
      && s.totalDeposits == CashTotal(t.cash, a.id, Deposit)
      && s.totalWithdrawals == CashTotal(t.cash, a.id, Withdrawal)
    ensures var s := AccountSummaries(t, filterUserId, hasCommissionColumn)[i];
      var fees := CashTotal(t.cash, a.id, Fee);
      var rate := if hasCommissionColumn && a.commissionRate.Some? then a.commissionRate.value else 0.0;
      var gains := MarketTotal(s.positions) - (s.totalDeposits - s.totalWithdrawals - fees);
      && s.totalFees == fees + Commission(gains, rate)
      && s.netInvested == s.totalDeposits - s.totalWithdrawals - s.totalFees
  {
    SummaryAt(t, filterUserId, hasCommissionColumn, i);
    a := AccountRowSource(t, filterUserId, hasCommissionColumn, i);
    var row := AccountQuery(t, filterUserId, hasCommissionColumn)[i];
    SummarizeFees(row, PositionsOf(PositionQuery(t, filterUserId), row.accountId), FundRepository.LatestNavsMap(t.navs));
  }

  /** Every selected account has a summary. */
  lemma SummaryOfSelected(t: Tables, filterUserId: Option<int>, hasCommissionColumn: bool, a: Account) returns (i: nat)
    requires a in t.accounts && Selected(a, t.users, filterUserId)
    ensures i < |AccountSummaries(t, filterUserId, hasCommissionColumn)|
    ensures var s := AccountSummaries(t, filterUserId, hasCommissionColumn)[i];
      s.accountId == a.id && s.accountNumber == a.accountNumber && s.userFullName == Some(t.users[a.userId].fullName)
  {
    var rows := AccountQuery(t, filterUserId, hasCommissionColumn);
    var row := AccountRowOf(a, t, hasCommissionColumn);
    assert row in multiset(rows) by {
      assert row in multiset(SelectedRows(t.accounts, t, filterUserId, hasCommissionColumn));
    }
    i :| 0 <= i < |rows| && rows[i] == row;
  }

  /** Summary `x` may be listed before summary `y`: by user name, then by
      account number. */
  predicate ListedBefore(x: AccountSummary, y: AccountSummary)
  {
    && x.userFullName.Some? && y.userFullName.Some?
    && if x.userFullName == y.userFullName then StrLe(x.accountNumber, y.accountNumber)
       else StrLe(x.userFullName.value, y.userFullName.value)
  }

  /** The summaries come ordered by user name, then account number. */
  lemma SummariesOrdered(t: Tables, filterUserId: Option<int>, hasCommissionColumn: bool)
    ensures var s := AccountSummaries(t, filterUserId, hasCommissionColumn);
      forall i, j :: 0 <= i < j < |s| ==> ListedBefore(s[i], s[j])
  {
    NameThenNumberIsPreorder();
    SortBySorted(SelectedRows(t.accounts, t, filterUserId, hasCommissionColumn), NameThenNumber);
  }

  predicate ByFundName(r: seq<PositionRow>)
  {
    forall j, k :: 0 <= j < k < |r| ==> StrLe(r[j].fundName, r[k].fundName)
  }

  /** The rows of one account, taken from rows ordered by account and fund
      name, are ordered by fund name. */
  lemma {:induction false} PositionsOfSorted(rows: seq<PositionRow>, accountId: int)
    requires SortedBy(rows, AccountThenFundName)
    ensures ByFundName(PositionsOf(rows, accountId))
    decreases |rows|
  {
    if rows != [] {
      var init := rows[..|rows| - 1];
      var last := rows[|rows| - 1];
      SortedPrefix(rows, |rows| - 1, AccountThenFundName);
      PositionsOfSorted(init, accountId);
      var p := PositionsOf(init, accountId);
      if last.accountId == accountId {
        var r := p + [last];
        assert PositionsOf(rows, accountId) == r;
        forall j, k | 0 <= j < k < |r| ensures StrLe(r[j].fundName, r[k].fundName) {
          if k < |p| {
            assert r[j] == p[j] && r[k] == p[k];
          } else {
            assert r[k] == last && r[j] == p[j] && p[j] in p;
            assert r[j] in init;
            var m :| 0 <= m < |init| && init[m] == r[j];
            assert rows[m] == r[j] && r[j].accountId == accountId;
            assert AccountThenFundName(rows[m], rows[|rows| - 1]);
          }
        }
      } else {
        assert PositionsOf(rows, accountId) == p;
      }
    }
  }

  /** The position rows behind a summary's positions: the rows of the
      position query for the summary's account. */
  lemma PositionRowOf(t: Tables, filterUserId: Option<int>, hasCommissionColumn: bool, i: nat, p: FundPosition)
    returns (row: PositionRow)
    requires i < |AccountSummaries(t, filterUserId, hasCommissionColumn)|
    requires p in AccountSummaries(t, filterUserId, hasCommissionColumn)[i].positions
    ensures p == Position(row, FundRepository.LatestNavsMap(t.navs))
    ensures row in PositionQuery(t, filterUserId)
    ensures row.accountId == AccountSummaries(t, filterUserId, hasCommissionColumn)[i].accountId
  {
    SummaryAt(t, filterUserId, hasCommissionColumn, i);
    var rows := AccountQuery(t, filterUserId, hasCommissionColumn);
    var own := PositionsOf(PositionQuery(t, filterUserId), rows[i].accountId);
    var ps := Positions(own, FundRepository.LatestNavsMap(t.navs));
    var j :| 0 <= j < |ps| && ps[j] == p;
    row := own[j];
  }

  /** The group behind a row of the position query. */
  lemma PositionGroupOf(t: Tables, filterUserId: Option<int>, row: PositionRow) returns (a: Account)
    requires row in PositionQuery(t, filterUserId)
    ensures a in t.accounts && Selected(a, t.users, filterUserId)
    ensures row in GroupsOf(a.id, FundsOf(t.shares, a.id), t)
  {
    var groups := PositionGroups(t.accounts, t, filterUserId);
    assert row in groups by {
      assert row in multiset(PositionQuery(t, filterUserId));
      assert multiset(PositionQuery(t, filterUserId)) == multiset(groups);
    }
    a :| a in t.accounts && Selected(a, t.users, filterUserId) && row in GroupsOf(a.id, FundsOf(t.shares, a.id), t);
  }

  /** Every position of a summary is a fund that exists and in which the
      account holds a non-zero net number of shares; it carries the fund's
      name and currency, and it has a share value and a market value exactly
      when the fund has a net asset value: the share value of the latest
      one, and the shares times that value. */
  lemma SummaryPositions(t: Tables, filterUserId: Option<int>, hasCommissionColumn: bool, i: nat)
    requires i < |AccountSummaries(t, filterUserId, hasCommissionColumn)|
    ensures var s := AccountSummaries(t, filterUserId, hasCommissionColumn)[i];
      forall p :: p in s.positions ==>
        && p.fundId in t.funds && p.fundName == t.funds[p.fundId].name && p.currency == t.funds[p.fundId].currency
        && p.totalShares == NetShares(t.shares, s.accountId, p.fundId) && p.totalShares != 0.0
        && (p.latestShareValue.Some? <==> exists n :: n in t.navs && n.fundId == p.fundId)
        && (p.marketValue.Some? <==> p.latestShareValue.Some?)
        && (p.latestShareValue.Some? ==>
              && FundRepository.LatestNav(t.navs, p.fundId).Some?
              && p.latestShareValue.value == FundRepository.LatestNav(t.navs, p.fundId).value.shareValue
              && p.marketValue.value == MarketValue(p.totalShares, p.latestShareValue.value))
  {
    var s := AccountSummaries(t, filterUserId, hasCommissionColumn)[i];
    forall p | p in s.positions
      ensures && p.fundId in t.funds && p.fundName == t.funds[p.fundId].name && p.currency == t.funds[p.fundId].currency
        && p.totalShares == NetShares(t.shares, s.accountId, p.fundId) && p.totalShares != 0.0
        && (p.latestShareValue.Some? <==> exists n :: n in t.navs && n.fundId == p.fundId)
        && (p.marketValue.Some? <==> p.latestShareValue.Some?)
        && (p.latestShareValue.Some? ==>
              && FundRepository.LatestNav(t.navs, p.fundId).Some?
              && p.latestShareValue.value == FundRepository.LatestNav(t.navs, p.fundId).value.shareValue
              && p.marketValue.value == MarketValue(p.totalShares, p.latestShareValue.value))
    {
      var row := PositionRowOf(t, filterUserId, hasCommissionColumn, i, p);
      var a := PositionGroupOf(t, filterUserId, row);
    }
  }

  /** Conversely, every fund that exists and in which the account holds a
      non-zero net number of shares is among its positions. */
  lemma SummaryPositionsComplete(t: Tables, filterUserId: Option<int>, hasCommissionColumn: bool, i: nat, f: int)
    requires i < |AccountSummaries(t, filterUserId, hasCommissionColumn)|
    requires f in t.funds
    requires NetShares(t.shares, AccountSummaries(t, filterUserId, hasCommissionColumn)[i].accountId, f) != 0.0
    ensures exists p :: p in AccountSummaries(t, filterUserId, hasCommissionColumn)[i].positions && p.fundId == f
  {
    SummaryAt(t, filterUserId, hasCommissionColumn, i);
    var a := AccountRowSource(t, filterUserId, hasCommissionColumn, i);
    var row := GroupOfFund(t, a.id, f);
    var query := PositionQuery(t, filterUserId);
    assert row in PositionGroups(t.accounts, t, filterUserId);
    assert row in query by {
      assert row in multiset(PositionGroups(t.accounts, t, filterUserId));
      assert multiset(query) == multiset(PositionGroups(t.accounts, t, filterUserId));
    }
    var navMap := FundRepository.LatestNavsMap(t.navs);
    var own := PositionsOf(query, a.id);
    assert row in own;
    var j :| 0 <= j < |own| && own[j] == row;
    var ps := Positions(own, navMap);
    assert ps[j].fundId == f && ps[j] in ps;
  }

  /** The group of a fund the account holds a non-zero net number of
      shares in. */
  lemma GroupOfFund(t: Tables, accountId: int, f: int) returns (row: PositionRow)
    requires f in t.funds && NetShares(t.shares, accountId, f) != 0.0
    ensures row in GroupsOf(accountId, FundsOf(t.shares, accountId), t) && row.fundId == f
  {
    var m :| m in t.shares && m.accountId == accountId && m.fundId == f;
    var funds := FundsOf(t.shares, accountId);
    assert f in funds;
    row := PositionRow(accountId, f, t.funds[f].name, t.funds[f].currency, NetShares(t.shares, accountId, f));
  }

  /** The positions of a summary come ordered by fund name. */
  lemma SummaryPositionsOrdered(t: Tables, filterUserId: Option<int>, hasCommissionColumn: bool, i: nat)
    requires i < |AccountSummaries(t, filterUserId, hasCommissionColumn)|
    ensures var ps := AccountSummaries(t, filterUserId, hasCommissionColumn)[i].positions;
      forall j, k :: 0 <= j < k < |ps| ==> StrLe(ps[j].fundName, ps[k].fundName)
  {
    SummaryAt(t, filterUserId, hasCommissionColumn, i);
    var rows := AccountQuery(t, filterUserId, hasCommissionColumn);
    var query := PositionQuery(t, filterUserId);
    var own := PositionsOf(query, rows[i].accountId);
    AccountThenFundNameIsPreorder();
    SortBySorted(PositionGroups(t.accounts, t, filterUserId), AccountThenFundName);
    PositionsOfSorted(query, rows[i].accountId);
    var ps := Positions(own, FundRepository.LatestNavsMap(t.navs));
    assert forall j :: 0 <= j < |ps| ==> ps[j].fundName == own[j].fundName;
  }

  /** `GROUP BY a.id, f.id`: with account ids unique, a summary holds at
      most one position per fund. */
  lemma SummaryPositionsDistinct(t: Tables, filterUserId: Option<int>, hasCommissionColumn: bool, i: nat)
    requires AccountIdsUnique(t.accounts)
    requires i < |AccountSummaries(t, filterUserId, hasCommissionColumn)|
    ensures var ps := AccountSummaries(t, filterUserId, hasCommissionColumn)[i].positions;
      forall j, k :: 0 <= j < k < |ps| ==> ps[j].fundId != ps[k].fundId
  {
    SummaryAt(t, filterUserId, hasCommissionColumn, i);
    var rows := AccountQuery(t, filterUserId, hasCommissionColumn);
    var query := PositionQuery(t, filterUserId);
    QueryNoRepeats(t, filterUserId);
    var own := PositionsOf(query, rows[i].accountId);
    PositionsOfNoRepeats(query, rows[i].accountId);
    var ps := Positions(own, FundRepository.LatestNavsMap(t.navs));
    forall j, k | 0 <= j < k < |ps| ensures ps[j].fundId != ps[k].fundId {
      assert own[j] in own && own[k] in own;
      SameGroup(t, filterUserId, own[j], own[k]);
    }
  }

  /** With account ids unique, the position query returns no row twice. */
  lemma QueryNoRepeats(t: Tables, filterUserId: Option<int>)
    requires AccountIdsUnique(t.accounts)
    ensures NoRepeats(PositionQuery(t, filterUserId))
  {
    PositionGroupsNoRepeats(t.accounts, t, filterUserId);
    NoRepeatsPermutation(PositionGroups(t.accounts, t, filterUserId), PositionQuery(t, filterUserId));
  }

  /** A row of the position query is fixed by its account and fund. */
  lemma SameGroup(t: Tables, filterUserId: Option<int>, x: PositionRow, y: PositionRow)
    requires x in PositionQuery(t, filterUserId) && y in PositionQuery(t, filterUserId)
    ensures x.accountId == y.accountId && x.fundId == y.fundId ==> x == y
  {
    var a := PositionGroupOf(t, filterUserId, x);
    var b := PositionGroupOf(t, filterUserId, y);
  }

  /** An account without any movement has all totals zero, no commission,
      nothing invested and no positions. */
  lemma AccountWithoutMovements(t: Tables, filterUserId: Option<int>, hasCommissionColumn: bool, i: nat)
    requires i < |AccountSummaries(t, filterUserId, hasCommissionColumn)|
    requires forall m :: m in t.cash ==> m.accountId != AccountSummaries(t, filterUserId, hasCommissionColumn)[i].accountId
    requires forall m :: m in t.shares ==> m.accountId != AccountSummaries(t, filterUserId, hasCommissionColumn)[i].accountId
    ensures var s := AccountSummaries(t, filterUserId, hasCommissionColumn)[i];
      s.totalDeposits == 0.0 && s.totalWithdrawals == 0.0 && s.totalFees == 0.0 && s.netInvested == 0.0
      && s.positions == []
  {
    var s := AccountSummaries(t, filterUserId, hasCommissionColumn)[i];
    var a := SummaryTotals(t, filterUserId, hasCommissionColumn, i);
    SummaryPositions(t, filterUserId, hasCommissionColumn, i);
  }
}
