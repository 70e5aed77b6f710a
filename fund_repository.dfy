/** `FundRepository` (app/db_models.py): the latest net asset value of each
    fund, the performance of one fund or of all funds, and the partial
    update of a net asset value row. The `fund_navs` table is a sequence of
    rows in storage order; the `funds` table is a map from id to fund. */
module FundRepository {
  import opened Wrappers
  import opened Models
  import opened Sorting
  import opened PartialUpdate

  // ---------------------------------------------------------------------
  // Latest net asset value per fund:
  //   SELECT DISTINCT ON (fund_id) ... ORDER BY fund_id, as_of_date DESC

  /** The row of `fundId` with the greatest `as_of_date`. SQL leaves the
      choice among rows of equal date open; this model takes the one stored
      first. */
  function LatestNav(navs: seq<FundNav>, fundId: int): (r: Option<FundNav>)
    ensures r.None? <==> forall n :: n in navs ==> n.fundId != fundId
    ensures r.Some? ==> r.value in navs && r.value.fundId == fundId
    ensures r.Some? ==> forall n :: n in navs && n.fundId == fundId ==> n.asOfDate <= r.value.asOfDate
  {
    if navs == [] then None
    else
      assert navs == [navs[0]] + navs[1..];
      var rest := LatestNav(navs[1..], fundId);
      if navs[0].fundId != fundId then rest
      else if rest.None? || rest.value.asOfDate <= navs[0].asOfDate then Some(navs[0])
      else rest
  }

  /** `get_latest_navs_map`: one entry per fund that has at least one row,
      holding a row of that fund with the greatest date. */
  function LatestNavsMap(navs: seq<FundNav>): (m: map<int, FundNav>)
    ensures forall f :: f in m <==> exists n :: n in navs && n.fundId == f
    ensures forall f :: f in m ==> m[f] in navs && m[f].fundId == f
    ensures forall f, n :: f in m && n in navs && n.fundId == f ==> n.asOfDate <= m[f].asOfDate
    ensures forall f :: f in m ==> LatestNav(navs, f) == Some(m[f])
  {
    var ids := set n | n in navs :: n.fundId;
    map f | f in ids :: LatestNav(navs, f).value
  }

  // ---------------------------------------------------------------------
  // Shared helpers of the two performance views

  function Min(a: int, b: int): int
  {
    if a <= b then a else b
  }

  /** `ORDER BY as_of_date DESC` */
  predicate DateDesc(a: FundNav, b: FundNav)
  {
    a.asOfDate >= b.asOfDate
  }

  /** `sort(key=lambda n: n.as_of_date)` */
  predicate PointDateAsc(a: FundNavPoint, b: FundNavPoint)
  {
    a.asOfDate <= b.asOfDate
  }

  lemma DateOrdersArePreorders()
    ensures TotalPreorder(DateDesc) && TotalPreorder(PointDateAsc)
  {
  }

  function Points(s: seq<FundNav>): (r: seq<FundNavPoint>)
    ensures |r| == |s|
    ensures forall i :: 0 <= i < |s| ==> r[i] == NavPoint(s[i])
  {
    seq(|s|, i requires 0 <= i < |s| => NavPoint(s[i]))
  }

  lemma PointsAppend(s: seq<FundNav>, n: FundNav)
    ensures Points(s + [n]) == Points(s) + [NavPoint(n)]
  {
  }

  /** The rows `kept` are `l` of the rows `rows` (all of them when there are
      fewer), and none of the rows left out is more recent than a kept one:
      `dropped` holds the rows left out. */
  ghost predicate MostRecent(kept: seq<FundNav>, dropped: seq<FundNav>, rows: seq<FundNav>, l: nat)
  {
    && multiset(kept) + multiset(dropped) == multiset(rows)
    && |kept| == Min(l, |rows|)
    && forall a, b :: a in kept && b in dropped ==> a.asOfDate >= b.asOfDate
  }

  /** Cutting a sequence sorted newest first keeps the most recent rows. */
  lemma PrefixIsMostRecent(s: seq<FundNav>, k: nat)
    requires SortedBy(s, DateDesc) && k <= |s|
    ensures MostRecent(s[..k], s[k..], s, Min(k, |s|))
  {
    assert s == s[..k] + s[k..];
    forall a, b | a in s[..k] && b in s[k..] ensures a.asOfDate >= b.asOfDate {
      var i :| 0 <= i < k && s[i] == a;
      var j :| k <= j < |s| && s[j] == b;
      assert DateDesc(s[i], s[j]);
    }
  }

  /** The last point of a sequence sorted oldest first is one of the most
      recent ones. */
  lemma LastIsNewest(p: seq<FundNavPoint>)
    requires SortedBy(p, PointDateAsc) && p != []
    ensures forall x :: x in p ==> x.asOfDate <= p[|p| - 1].asOfDate
  {
  }

  // ---------------------------------------------------------------------
  // Performance of one fund (`get_fund_performance_by_id`)

  const DefaultNavLimit := 365

  /** `limit if limit else 365`: an absent or zero limit means 365. */
  function EffectiveLimit(limit: Option<int>): (l: int)
    ensures limit.Some? && limit.value != 0 ==> l == limit.value
    ensures limit.None? || limit.value == 0 ==> l == DefaultNavLimit
  {
    if limit.None? || limit.value == 0 then DefaultNavLimit else limit.value
  }

  /** `WHERE fn.fund_id = %s`, in storage order. */
  function RowsOfFund(navs: seq<FundNav>, fundId: int): (r: seq<FundNav>)
    ensures forall n :: n in r <==> n in navs && n.fundId == fundId
    ensures |r| <= |navs|
  {
    if navs == [] then []
    else
      var p := navs[..|navs| - 1];
      var n := navs[|navs| - 1];
      assert navs == p + [n];
      if n.fundId == fundId then RowsOfFund(p, fundId) + [n] else RowsOfFund(p, fundId)
  }

  /** The fund's rows, newest first, cut to `limit` rows. The limit is
      never negative: the database refuses a negative `LIMIT`. */
  function RecentRows(navs: seq<FundNav>, fundId: int, limit: Option<int>): seq<FundNav>
    requires limit.None? || limit.value >= 0
  {
    var recent := SortBy(RowsOfFund(navs, fundId), DateDesc);
    recent[..Min(EffectiveLimit(limit), |recent|)]
  }

  /** `None` exactly for an unknown fund. Otherwise the fund's most recent
      points, oldest first, and the share value of the last of them. */
  function PerformanceById(funds: map<int, Fund>, navs: seq<FundNav>, fundId: int, limit: Option<int>)
    : (r: Option<FundPerformance>)
    requires limit.None? || limit.value >= 0
    ensures r.None? <==> fundId !in funds
    ensures r.Some? ==>
      && r.value.fundId == fundId
      && r.value.fundName == funds[fundId].name
      && r.value.currency == funds[fundId].currency
  {
    if fundId !in funds then None
    else
      var points := SortBy(Points(RecentRows(navs, fundId, limit)), PointDateAsc);
      var latest := if points == [] then None else Some(points[|points| - 1].shareValue);
      Some(FundPerformance(fundId, funds[fundId].name, funds[fundId].currency, latest, points))
  }

  /** The points of a known fund are its `limit` (by default 365) most
      recent rows, sorted oldest first. */
  lemma PerformanceByIdNavs(funds: map<int, Fund>, navs: seq<FundNav>, fundId: int, limit: Option<int>)
    returns (kept: seq<FundNav>, dropped: seq<FundNav>)
    requires fundId in funds && (limit.None? || limit.value >= 0)
    ensures MostRecent(kept, dropped, RowsOfFund(navs, fundId), EffectiveLimit(limit))
    ensures multiset(PerformanceById(funds, navs, fundId, limit).value.navs) == multiset(Points(kept))
    ensures SortedBy(PerformanceById(funds, navs, fundId, limit).value.navs, PointDateAsc)
  {
    var rows := RowsOfFund(navs, fundId);
    var recent := SortBy(rows, DateDesc);
    DateOrdersArePreorders();
    SortBySorted(rows, DateDesc);
    var k := Min(EffectiveLimit(limit), |recent|);
    kept, dropped := recent[..k], recent[k..];
    PrefixIsMostRecent(recent, k);
    assert k == Min(EffectiveLimit(limit), |rows|);
    assert kept == RecentRows(navs, fundId, limit);
    var points := SortBy(Points(kept), PointDateAsc);
    assert PerformanceById(funds, navs, fundId, limit).value.navs == points;
    SortBySorted(Points(kept), PointDateAsc);
  }

  /** The latest share value is absent exactly when the fund has no rows;
      otherwise it is the share value of a row with the fund's greatest
      date, however small the limit. */
  lemma PerformanceByIdLatest(funds: map<int, Fund>, navs: seq<FundNav>, fundId: int, limit: Option<int>)
    returns (newest: FundNav)
    requires fundId in funds && (limit.None? || limit.value >= 0)
    ensures var p := PerformanceById(funds, navs, fundId, limit).value;
      && (p.latestShareValue.None? <==> RowsOfFund(navs, fundId) == [])
      && (p.latestShareValue.Some? ==>
            && newest in navs && newest.fundId == fundId
            && p.latestShareValue == Some(newest.shareValue)
            && forall n :: n in navs && n.fundId == fundId ==> n.asOfDate <= newest.asOfDate)
  {
    var rows := RowsOfFund(navs, fundId);
    var recent := SortBy(rows, DateDesc);
    var kept := RecentRows(navs, fundId, limit);
    LatestOfKept(funds, navs, fundId, limit);
    newest := if rows == [] then FundNav(0, 0, 0, 0.0, 0.0, 0.0, None, None) else recent[0];
    if rows != [] {
      DateOrdersArePreorders();
      SortBySorted(rows, DateDesc);
      SortedPrefix(recent, |kept|, DateDesc);
      var i := LastPointOfNewest(kept);
      HeadIsNewest(rows);
      newest := kept[i];
      assert newest == recent[i] && recent[i] in multiset(rows);
    }
  }

  /** The latest share value is that of the last point of the kept rows,
      which are a non-empty prefix of the newest-first order whenever the
      fund has rows. */
  lemma LatestOfKept(funds: map<int, Fund>, navs: seq<FundNav>, fundId: int, limit: Option<int>)
    requires fundId in funds && (limit.None? || limit.value >= 0)
    ensures var kept := RecentRows(navs, fundId, limit);
      && (kept == [] <==> RowsOfFund(navs, fundId) == [])
      && kept == SortBy(RowsOfFund(navs, fundId), DateDesc)[..|kept|]
      && PerformanceById(funds, navs, fundId, limit).value.latestShareValue
         == if kept == [] then None else Some(SortBy(Points(kept), PointDateAsc)[|kept| - 1].shareValue)
  {
    assert EffectiveLimit(limit) >= 1;
  }

  /** The head of a newest-first order has the greatest date. */
  lemma HeadIsNewest(rows: seq<FundNav>)
    requires rows != []
    ensures SortBy(rows, DateDesc)[0] in rows
    ensures forall n :: n in rows ==> n.asOfDate <= SortBy(rows, DateDesc)[0].asOfDate
  {
    var recent := SortBy(rows, DateDesc);
    DateOrdersArePreorders();
    SortBySorted(rows, DateDesc);
    assert recent[0] in multiset(rows);
    forall n | n in rows ensures n.asOfDate <= recent[0].asOfDate {
      assert n in multiset(recent);
      var j :| 0 <= j < |recent| && recent[j] == n;
      assert j == 0 || DateDesc(recent[0], recent[j]);
    }
  }

  /** Re-sorting newest-first rows oldest first ends with the point of a
      row as recent as the first. */
  lemma LastPointOfNewest(kept: seq<FundNav>) returns (i: nat)
    requires kept != [] && SortedBy(kept, DateDesc)
    ensures i < |kept| && kept[i].asOfDate == kept[0].asOfDate
    ensures SortBy(Points(kept), PointDateAsc)[|kept| - 1] == NavPoint(kept[i])
  {
    var points := SortBy(Points(kept), PointDateAsc);
    DateOrdersArePreorders();
    SortBySorted(Points(kept), PointDateAsc);
    var last := points[|points| - 1];
    assert NavPoint(kept[0]) in multiset(points);
    LastIsNewest(points);
    assert last in multiset(Points(kept));
    i :| 0 <= i < |kept| && Points(kept)[i] == last;
    assert i == 0 || DateDesc(kept[0], kept[i]);
  }

  // ---------------------------------------------------------------------
  // Performance of all funds (`get_fund_performance`)

  /** A row of `funds f JOIN fund_navs fn ON fn.fund_id = f.id`. */
  datatype PerfRow = PerfRow(fundId: int, fundName: string, currency: string, nav: FundNav)

  /** The join, in storage order of `fund_navs`: rows of unknown funds drop out. */
  function JoinFunds(funds: map<int, Fund>, navs: seq<FundNav>): (r: seq<PerfRow>)
    ensures forall row :: row in r ==>
      && row.fundId in funds && row.nav.fundId == row.fundId
      && row.fundName == funds[row.fundId].name && row.currency == funds[row.fundId].currency
  {
    if navs == [] then []
    else
      var n := navs[|navs| - 1];
      var p := JoinFunds(funds, navs[..|navs| - 1]);
      if n.fundId in funds then p + [PerfRow(n.fundId, funds[n.fundId].name, funds[n.fundId].currency, n)]
      else p
  }

  /** `ORDER BY f.id, fn.as_of_date DESC` */
  predicate FundThenDateDesc(a: PerfRow, b: PerfRow)
  {
    a.fundId < b.fundId || (a.fundId == b.fundId && a.nav.asOfDate >= b.nav.asOfDate)
  }

  lemma FundThenDateDescIsPreorder()
    ensures TotalPreorder(FundThenDateDesc)
  {
  }

  /** The rows the all-funds query returns. */
  function PerformanceQuery(funds: map<int, Fund>, navs: seq<FundNav>): seq<PerfRow>
  {
    SortBy(JoinFunds(funds, navs), FundThenDateDesc)
  }

  /** Where the first row of fund `f` is. */
  function FirstIndex(rows: seq<PerfRow>, f: int): (k: Option<nat>)
    ensures k.Some? ==> k.value < |rows| && rows[k.value].fundId == f
    ensures k.Some? ==> forall j :: 0 <= j < k.value ==> rows[j].fundId != f
    ensures k.None? ==> forall j :: 0 <= j < |rows| ==> rows[j].fundId != f
  {
    if rows == [] then None
    else
      var p := FirstIndex(rows[..|rows| - 1], f);
      if p.Some? then p
      else if rows[|rows| - 1].fundId == f then Some(|rows| - 1)
      else None
  }

  /** The funds in order of first appearance: the key order of `funds_map`. */
  function FundIdsInOrder(rows: seq<PerfRow>): (ids: seq<int>)
    ensures forall f :: f in ids <==> FirstIndex(rows, f).Some?
    ensures forall i, j :: 0 <= i < j < |ids| ==> ids[i] != ids[j]
  {
    if rows == [] then []
    else
      var p := FundIdsInOrder(rows[..|rows| - 1]);
      var f := rows[|rows| - 1].fundId;
      if f in p then p else p + [f]
  }

  /** The net asset value rows of fund `f`, in row order. */
  function FundRows(rows: seq<PerfRow>, f: int): (r: seq<FundNav>)
    ensures forall n :: n in r ==> exists j :: 0 <= j < |rows| && rows[j].fundId == f && rows[j].nav == n
  {
    if rows == [] then []
    else
      var p := FundRows(rows[..|rows| - 1], f);
      var row := rows[|rows| - 1];
      if row.fundId == f then p + [row.nav] else p
  }

  /** How many points `limit is None or len(navs) < limit` lets through out
      of `n`: all of them without a limit, none for a limit below one. */
  function KeepCount(limit: Option<int>, n: nat): (k: nat)
    ensures k <= n
    ensures limit.None? ==> k == n
    ensures limit.Some? && limit.value <= 0 ==> k == 0
    ensures limit.Some? && limit.value > 0 ==> k == Min(limit.value, n)
  {
    if limit.None? then n else if limit.value <= 0 then 0 else Min(limit.value, n)
  }

  function TakeLimit(s: seq<FundNav>, limit: Option<int>): seq<FundNav>
  {
    s[..KeepCount(limit, |s|)]
  }

  /** The entry of `funds_map` for fund `f` once `rows` are read: the name,
      currency and share value of the fund's first row, and the points of
      the first rows let through by the limit. */
  function Collected(rows: seq<PerfRow>, f: int, limit: Option<int>): FundPerformance
    requires FirstIndex(rows, f).Some?
  {
    var first := rows[FirstIndex(rows, f).value];
    FundPerformance(f, first.fundName, first.currency, Some(first.nav.shareValue),
                    Points(TakeLimit(FundRows(rows, f), limit)))
  }

  function SortedByDate(p: FundPerformance): FundPerformance
  {
    p.(navs := SortBy(p.navs, PointDateAsc))
  }

  /** One performance per fund of the rows, in first-appearance order. */
  function Performances(rows: seq<PerfRow>, limit: Option<int>): (r: seq<FundPerformance>)
    ensures |r| == |FundIdsInOrder(rows)|
  {
    var ids := FundIdsInOrder(rows);
    seq(|ids|, k requires 0 <= k < |ids| => SortedByDate(Collected(rows, ids[k], limit)))
  }

  /** Appending a point: `limit is None or len(navs) < limit`. */
  lemma TakeLimitAppend(s: seq<FundNav>, n: FundNav, limit: Option<int>)
    ensures TakeLimit(s + [n], limit)
         == if limit.None? || |TakeLimit(s, limit)| < limit.value then TakeLimit(s, limit) + [n]
            else TakeLimit(s, limit)
  {
    if limit.Some? && limit.value > 0 && |s| < limit.value {
      assert (s + [n])[..|s| + 1] == s + [n];
    }
  }

  /** A fund not yet seen has no rows. */
  lemma {:induction false} UnseenHasNoRows(rows: seq<PerfRow>, f: int)
    requires FirstIndex(rows, f).None?
    ensures FundRows(rows, f) == []
  {
    if rows != [] {
      UnseenHasNoRows(rows[..|rows| - 1], f);
    }
  }

  /** What reading one more row does to the entry of each fund. */
  lemma CollectStep(s: seq<PerfRow>, row: PerfRow, f: int, limit: Option<int>)
    requires FirstIndex(s + [row], f).Some?
    ensures (s + [row])[..|s|] == s
    ensures f != row.fundId ==> Collected(s + [row], f, limit) == Collected(s, f, limit)
    ensures f == row.fundId ==>
      var c := if FirstIndex(s, f).Some? then Collected(s, f, limit)
               else FundPerformance(f, row.fundName, row.currency, Some(row.nav.shareValue), []);
      Collected(s + [row], f, limit)
        == if limit.None? || |c.navs| < limit.value then c.(navs := c.navs + [NavPoint(row.nav)]) else c
  {
    var s' := s + [row];
    assert s'[..|s|] == s;
    if f == row.fundId {
      var rs := FundRows(s, f);
      assert FundRows(s', f) == rs + [row.nav];
      TakeLimitAppend(rs, row.nav, limit);
      PointsAppend(TakeLimit(rs, limit), row.nav);
      if FirstIndex(s, f).None? {
        UnseenHasNoRows(s, f);
      }
    }
  }

  /** The first loop of `get_fund_performance`: the rows are read once,
      newest first per fund, filling one entry per fund (`setdefault`) and
      appending points while the limit allows. `order` is the order in which
      the entries were made. */
  method CollectRows(rows: seq<PerfRow>, limit: Option<int>)
    returns (fundsMap: map<int, FundPerformance>, order: seq<int>)
    ensures order == FundIdsInOrder(rows)
    ensures forall f :: f in fundsMap <==> FirstIndex(rows, f).Some?
    ensures forall f :: f in fundsMap ==> fundsMap[f] == Collected(rows, f, limit)
  {
    fundsMap, order := map[], [];
    for i := 0 to |rows|
      invariant order == FundIdsInOrder(rows[..i])
      invariant forall f :: f in fundsMap <==> FirstIndex(rows[..i], f).Some?
      invariant forall f :: f in fundsMap ==> fundsMap[f] == Collected(rows[..i], f, limit)
    {
      var row := rows[i];
      assert rows[..i + 1] == rows[..i] + [row];
      forall f | FirstIndex(rows[..i + 1], f).Some? {
        CollectStep(rows[..i], row, f, limit);
      }
      if row.fundId !in fundsMap {
        fundsMap := fundsMap[row.fundId := FundPerformance(row.fundId, row.fundName, row.currency, Some(row.nav.shareValue), [])];
        order := order + [row.fundId];
      }
      var perf := fundsMap[row.fundId];
      if limit.None? || |perf.navs| < limit.value {
        fundsMap := fundsMap[row.fundId := perf.(navs := perf.navs + [NavPoint(row.nav)])];
      }
    }
    assert rows[..|rows|] == rows;
  }

  /** The second loop of `get_fund_performance`: the entries of
      `funds_map`, in the order they were made, each with its points put in
      date order. */
  method SortEntries(rows: seq<PerfRow>, limit: Option<int>, fundsMap: map<int, FundPerformance>, order: seq<int>)
    returns (performances: seq<FundPerformance>)
    requires order == FundIdsInOrder(rows)
    requires forall f :: f in fundsMap <==> FirstIndex(rows, f).Some?
    requires forall f :: f in fundsMap ==> fundsMap[f] == Collected(rows, f, limit)
    ensures performances == Performances(rows, limit)
  {
    ghost var all := Performances(rows, limit);
    performances := [];
    for j := 0 to |order|
      invariant performances == all[..j]
    {
      assert order[j] in order;
      var perf := fundsMap[order[j]];
      assert all[j] == SortedByDate(perf);
      performances := performances + [SortedByDate(perf)];
      assert performances == all[..j + 1];
    }
    assert all[..|order|] == all;
  }

  /** `get_fund_performance`: collect the rows of the query per fund, then
      put each fund's points in date order, funds in first-appearance order. */
  method GetFundPerformance(funds: map<int, Fund>, navs: seq<FundNav>, limit: Option<int>)
    returns (performances: seq<FundPerformance>)
    ensures performances == Performances(PerformanceQuery(funds, navs), limit)
  {
    var rows := PerformanceQuery(funds, navs);
    var fundsMap, order := CollectRows(rows, limit);
    performances := SortEntries(rows, limit, fundsMap, order);
  }

  // ---------------------------------------------------------------------
  // What the all-funds view reports

  /** The performances `get_fund_performance` returns for the tables. */
  function AllFundPerformance(funds: map<int, Fund>, navs: seq<FundNav>, limit: Option<int>): seq<FundPerformance>
  {
    Performances(PerformanceQuery(funds, navs), limit)
  }

  lemma {:induction false} FundRowsOfJoin(funds: map<int, Fund>, navs: seq<FundNav>, f: int)
    ensures FundRows(JoinFunds(funds, navs), f) == if f in funds then RowsOfFund(navs, f) else []
  {
    if navs != [] {
      var n := navs[|navs| - 1];
      var p := JoinFunds(funds, navs[..|navs| - 1]);
      FundRowsOfJoin(funds, navs[..|navs| - 1], f);
      if n.fundId in funds {
        var row := PerfRow(n.fundId, funds[n.fundId].name, funds[n.fundId].currency, n);
        assert (p + [row])[..|p|] == p;
      }
    }
  }

  /** Every row of fund `f` names the fund `name` with currency `cur`. */
  ghost predicate UniformFund(rows: seq<PerfRow>, f: int, name: string, cur: string)
  {
    forall row :: row in rows && row.fundId == f ==> row.fundName == name && row.currency == cur
  }

  lemma {:induction false} FundRowsCount(rows: seq<PerfRow>, f: int, name: string, cur: string, n: FundNav)
    requires UniformFund(rows, f, name, cur)
    ensures multiset(FundRows(rows, f))[n] == multiset(rows)[PerfRow(f, name, cur, n)]
  {
    if rows != [] {
      var p := rows[..|rows| - 1];
      assert rows == p + [rows[|rows| - 1]];
      FundRowsCount(p, f, name, cur, n);
    }
  }

  /** Reordering the rows reorders each fund's rows. */
  lemma FundRowsPermutation(r1: seq<PerfRow>, r2: seq<PerfRow>, f: int, name: string, cur: string)
    requires multiset(r1) == multiset(r2) && UniformFund(r1, f, name, cur)
    ensures multiset(FundRows(r1, f)) == multiset(FundRows(r2, f))
  {
    forall row | row in r2 && row.fundId == f ensures row.fundName == name && row.currency == cur {
      assert row in multiset(r1);
    }
    forall n ensures multiset(FundRows(r1, f))[n] == multiset(FundRows(r2, f))[n] {
      FundRowsCount(r1, f, name, cur, n);
      FundRowsCount(r2, f, name, cur, n);
    }
  }

  /** In the query's order each fund's rows come newest first. */
  lemma {:induction false} FundRowsNewestFirst(rows: seq<PerfRow>, f: int)
    requires SortedBy(rows, FundThenDateDesc)
    ensures SortedBy(FundRows(rows, f), DateDesc)
  {
    if rows != [] {
      var p := rows[..|rows| - 1];
      var last := rows[|rows| - 1];
      FundRowsNewestFirst(p, f);
      if last.fundId == f {
        var fp := FundRows(p, f);
        forall a | a in fp ensures a.asOfDate >= last.nav.asOfDate {
          var j :| 0 <= j < |p| && p[j].fundId == f && p[j].nav == a;
          assert FundThenDateDesc(rows[j], rows[|rows| - 1]);
        }
        var r := fp + [last.nav];
        forall i, j | 0 <= i < j < |r| ensures DateDesc(r[i], r[j]) {
          if j == |r| - 1 {
            assert r[i] in fp;
          } else {
            assert r[i] == fp[i] && r[j] == fp[j];
          }
        }
      }
    }
  }

  /** The first row of a fund carries the first of its rows. */
  lemma {:induction false} FirstRowIsHead(rows: seq<PerfRow>, f: int)
    requires FirstIndex(rows, f).Some?
    ensures FundRows(rows, f) != [] && FundRows(rows, f)[0] == rows[FirstIndex(rows, f).value].nav
  {
    var p := rows[..|rows| - 1];
    if FirstIndex(p, f).Some? {
      FirstRowIsHead(p, f);
    } else {
      UnseenHasNoRows(p, f);
    }
  }

  /** Funds appear in increasing id order when the rows are sorted by id. */
  lemma {:induction false} IdsIncreasing(rows: seq<PerfRow>)
    requires SortedBy(rows, FundThenDateDesc)
    ensures forall i, j :: 0 <= i < j < |FundIdsInOrder(rows)| ==> FundIdsInOrder(rows)[i] < FundIdsInOrder(rows)[j]
  {
    if rows != [] {
      var p := rows[..|rows| - 1];
      var last := rows[|rows| - 1];
      IdsIncreasing(p);
      var ids := FundIdsInOrder(p);
      forall g | g in ids ensures g <= last.fundId {
        var k := FirstIndex(p, g).value;
        assert FundThenDateDesc(rows[k], rows[|rows| - 1]);
      }
      if last.fundId !in ids {
        var r := ids + [last.fundId];
        assert FundIdsInOrder(rows) == r;
        forall i, j | 0 <= i < j < |r| ensures r[i] < r[j] {
          assert r[i] == ids[i] && r[i] in ids;
        }
      }
    }
  }

  /** The facts about the query's rows that the view's lemmas share. */
  lemma QueryRows(funds: map<int, Fund>, navs: seq<FundNav>, f: int)
    ensures SortedBy(PerformanceQuery(funds, navs), FundThenDateDesc)
    ensures SortedBy(FundRows(PerformanceQuery(funds, navs), f), DateDesc)
    ensures f in funds ==> multiset(FundRows(PerformanceQuery(funds, navs), f)) == multiset(RowsOfFund(navs, f))
    ensures f !in funds ==> FundRows(PerformanceQuery(funds, navs), f) == []
    ensures forall row :: row in PerformanceQuery(funds, navs) ==>
      row.fundId in funds && row.fundName == funds[row.fundId].name && row.currency == funds[row.fundId].currency
  {
    var joined := JoinFunds(funds, navs);
    var rows := PerformanceQuery(funds, navs);
    FundThenDateDescIsPreorder();
    SortBySorted(joined, FundThenDateDesc);
    FundRowsNewestFirst(rows, f);
    FundRowsOfJoin(funds, navs, f);
    forall row | row in rows
      ensures row.fundId in funds && row.fundName == funds[row.fundId].name && row.currency == funds[row.fundId].currency
    {
      assert row in multiset(joined);
    }
    if f in funds {
      FundRowsPermutation(joined, rows, f, funds[f].name, funds[f].currency);
    } else {
      forall n ensures multiset(FundRows(rows, f))[n] == 0 {
        FundRowsCount(rows, f, "", "", n);
        assert PerfRow(f, "", "", n) !in rows;
      }
      assert multiset(FundRows(rows, f)) == multiset{};
    }
  }

  /** Every fund that has rows is listed once, in increasing id order, under
      its own name and currency; funds without rows are left out. */
  lemma AllFundsListed(funds: map<int, Fund>, navs: seq<FundNav>, limit: Option<int>)
    ensures var r := AllFundPerformance(funds, navs, limit);
      && (forall i, j :: 0 <= i < j < |r| ==> r[i].fundId < r[j].fundId)
      && (forall k :: 0 <= k < |r| ==>
            r[k].fundId in funds && r[k].fundName == funds[r[k].fundId].name
            && r[k].currency == funds[r[k].fundId].currency)
      && (forall f :: f in funds && RowsOfFund(navs, f) != [] ==> exists k :: 0 <= k < |r| && r[k].fundId == f)
      && (forall k :: 0 <= k < |r| ==> RowsOfFund(navs, r[k].fundId) != [])
  {
    var rows := PerformanceQuery(funds, navs);
    var ids := FundIdsInOrder(rows);
    var r := AllFundPerformance(funds, navs, limit);
    QueryRows(funds, navs, 0);
    IdsIncreasing(rows);
    forall k | 0 <= k < |r|
      ensures r[k].fundId == ids[k] && r[k].fundId in funds
      ensures r[k].fundName == funds[r[k].fundId].name && r[k].currency == funds[r[k].fundId].currency
      ensures RowsOfFund(navs, r[k].fundId) != []
    {
      ListedEntry(funds, navs, limit, k);
    }
    forall f | f in funds && RowsOfFund(navs, f) != [] ensures exists k :: 0 <= k < |r| && r[k].fundId == f {
      var k := FundWithRowsListed(funds, navs, limit, f);
    }
  }

  /** The `k`-th listed fund is the `k`-th key of `funds_map`: a fund that
      exists and has rows, with its name and currency. */
  lemma ListedEntry(funds: map<int, Fund>, navs: seq<FundNav>, limit: Option<int>, k: nat)
    requires k < |AllFundPerformance(funds, navs, limit)|
    ensures var p := AllFundPerformance(funds, navs, limit)[k];
      && k < |FundIdsInOrder(PerformanceQuery(funds, navs))|
      && p.fundId == FundIdsInOrder(PerformanceQuery(funds, navs))[k] && p.fundId in funds
      && p.fundName == funds[p.fundId].name && p.currency == funds[p.fundId].currency
      && RowsOfFund(navs, p.fundId) != []
  {
    var rows := PerformanceQuery(funds, navs);
    var ids := FundIdsInOrder(rows);
    assert ids[k] in ids;
    var first := rows[FirstIndex(rows, ids[k]).value];
    assert first in rows;
    InFundRows(rows, FirstIndex(rows, ids[k]).value);
    QueryRows(funds, navs, ids[k]);
    assert first.nav in multiset(FundRows(rows, ids[k]));
  }

  /** A fund that exists and has rows is listed. */
  lemma FundWithRowsListed(funds: map<int, Fund>, navs: seq<FundNav>, limit: Option<int>, f: int) returns (k: nat)
    requires f in funds && RowsOfFund(navs, f) != []
    ensures k < |AllFundPerformance(funds, navs, limit)| && AllFundPerformance(funds, navs, limit)[k].fundId == f
  {
    var rows := PerformanceQuery(funds, navs);
    var ids := FundIdsInOrder(rows);
    QueryRows(funds, navs, f);
    var fr := FundRows(rows, f);
    assert |fr| == |RowsOfFund(navs, f)| by {
      assert |multiset(fr)| == |multiset(RowsOfFund(navs, f))|;
    }
    if FirstIndex(rows, f).None? {
      UnseenHasNoRows(rows, f);
    }
    assert f in ids;
    k :| 0 <= k < |ids| && ids[k] == f;
  }

  /** Every row's point is among the rows of its own fund. */
  lemma {:induction false} InFundRows(rows: seq<PerfRow>, j: nat)
    requires j < |rows|
    ensures rows[j].nav in FundRows(rows, rows[j].fundId)
    decreases |rows|
  {
    if j < |rows| - 1 {
      InFundRows(rows[..|rows| - 1], j);
    }
  }

  /** Each fund's points are its most recent rows, at most `limit` of them
      (none for a limit below one, all without a limit), oldest first. */
  lemma AllFundsNavs(funds: map<int, Fund>, navs: seq<FundNav>, limit: Option<int>, k: nat)
    returns (kept: seq<FundNav>, dropped: seq<FundNav>)
    requires k < |AllFundPerformance(funds, navs, limit)|
    ensures var p := AllFundPerformance(funds, navs, limit)[k];
      var rows := RowsOfFund(navs, p.fundId);
      && MostRecent(kept, dropped, rows, KeepCount(limit, |rows|))
      && multiset(p.navs) == multiset(Points(kept))
      && SortedBy(p.navs, PointDateAsc)
  {
    var rows := PerformanceQuery(funds, navs);
    var ids := FundIdsInOrder(rows);
    var f := ids[k];
    assert ids[k] in ids;
    var first := rows[FirstIndex(rows, f).value];
    assert first in rows;
    QueryRows(funds, navs, f);
    var fr := FundRows(rows, f);
    var own := RowsOfFund(navs, f);
    assert |fr| == |own| by {
      assert |multiset(fr)| == |multiset(own)|;
    }
    var c := KeepCount(limit, |fr|);
    kept, dropped := fr[..c], fr[c..];
    PrefixIsMostRecent(fr, c);
    assert kept == TakeLimit(fr, limit);
    var p := AllFundPerformance(funds, navs, limit)[k];
    assert p == SortedByDate(Collected(rows, f, limit));
    DateOrdersArePreorders();
    SortBySorted(Points(kept), PointDateAsc);
  }

  /** Each fund's latest share value is that of a row with the fund's
      greatest date, even when the limit cuts the points. */
  lemma AllFundsLatest(funds: map<int, Fund>, navs: seq<FundNav>, limit: Option<int>, k: nat)
    returns (newest: FundNav)
    requires k < |AllFundPerformance(funds, navs, limit)|
    ensures var p := AllFundPerformance(funds, navs, limit)[k];
      && newest in navs && newest.fundId == p.fundId
      && p.latestShareValue == Some(newest.shareValue)
      && forall n :: n in navs && n.fundId == p.fundId ==> n.asOfDate <= newest.asOfDate
  {
    var rows := PerformanceQuery(funds, navs);
    var ids := FundIdsInOrder(rows);
    var f := ids[k];
    assert ids[k] in ids;
    var first := rows[FirstIndex(rows, f).value];
    assert first in rows;
    QueryRows(funds, navs, f);
    FirstRowIsHead(rows, f);
    var fr := FundRows(rows, f);
    newest := fr[0];
    assert newest in multiset(RowsOfFund(navs, f));
    forall n | n in navs && n.fundId == f ensures n.asOfDate <= newest.asOfDate {
      assert n in multiset(fr);
      var j :| 0 <= j < |fr| && fr[j] == n;
      assert j == 0 || DateDesc(fr[0], fr[j]);
    }
    var p := AllFundPerformance(funds, navs, limit)[k];
    assert p == SortedByDate(Collected(rows, f, limit));
  }

  /** When a fund has one share value per date, both views report the same
      latest share value for it. (With two rows on the latest date and
      different values, each view may pick a different one.) */
  lemma LatestAgrees(funds: map<int, Fund>, navs: seq<FundNav>, byIdLimit: Option<int>, limit: Option<int>, k: nat)
    requires k < |AllFundPerformance(funds, navs, limit)|
    requires byIdLimit.None? || byIdLimit.value >= 0
    requires var f := AllFundPerformance(funds, navs, limit)[k].fundId;
      forall a, b :: a in navs && b in navs && a.fundId == f && b.fundId == f && a.asOfDate == b.asOfDate
        ==> a.shareValue == b.shareValue
    ensures var p := AllFundPerformance(funds, navs, limit)[k];
      p.fundId in funds
      && PerformanceById(funds, navs, p.fundId, byIdLimit).value.latestShareValue == p.latestShareValue
  {
    var p := AllFundPerformance(funds, navs, limit)[k];
    AllFundsListed(funds, navs, limit);
    var a := AllFundsLatest(funds, navs, limit, k);
    assert a in RowsOfFund(navs, p.fundId);
    var b := PerformanceByIdLatest(funds, navs, p.fundId, byIdLimit);
  }
  // ---------------------------------------------------------------------
  // Partial update of a net asset value row (`update_nav`)

  /** One `column = value` item of the `SET` list. */
  datatype NavAssignment =
    | SetAsOfDate(date: int)
    | SetFundAccumulated(value: real)
    | SetSharesAmount(value: real)
    | SetShareValue(value: real)
    | SetDeltaPrevious(value: real)
    | SetDeltaSinceOrigin(value: real)

  function AssignNav(n: FundNav, a: NavAssignment): FundNav
  {
    match a
    case SetAsOfDate(d) => n.(asOfDate := d)
    case SetFundAccumulated(v) => n.(fundAccumulated := v)
    case SetSharesAmount(v) => n.(sharesAmount := v)
    case SetShareValue(v) => n.(shareValue := v)
    case SetDeltaPrevious(v) => n.(deltaPrevious := Some(v))
    case SetDeltaSinceOrigin(v) => n.(deltaSinceOrigin := Some(v))
  }

  predicate NavUpdateIsEmpty(u: FundNavUpdate)
  {
    u == FundNavUpdate(None, None, None, None, None, None)
  }

  /** The row an update describes: every given field replaces the stored
      one, every absent field is kept. The id and the fund never change, and
      a delta can be set but not cleared. */
  function MergeNav(n: FundNav, u: FundNavUpdate): (r: FundNav)
    ensures r.id == n.id && r.fundId == n.fundId
    ensures NavUpdateIsEmpty(u) ==> r == n
    ensures r.asOfDate == (if u.asOfDate.Some? then u.asOfDate.value else n.asOfDate)
    ensures r.fundAccumulated == (if u.fundAccumulated.Some? then u.fundAccumulated.value else n.fundAccumulated)
    ensures r.sharesAmount == (if u.sharesAmount.Some? then u.sharesAmount.value else n.sharesAmount)
    ensures r.shareValue == (if u.shareValue.Some? then u.shareValue.value else n.shareValue)
    ensures r.deltaPrevious == (if u.deltaPrevious.Some? then u.deltaPrevious else n.deltaPrevious)
    ensures r.deltaSinceOrigin == (if u.deltaSinceOrigin.Some? then u.deltaSinceOrigin else n.deltaSinceOrigin)
    ensures r.deltaPrevious.None? ==> n.deltaPrevious.None?
    ensures r.deltaSinceOrigin.None? ==> n.deltaSinceOrigin.None?
  {
    n.(asOfDate := u.asOfDate.GetOr(n.asOfDate),
       fundAccumulated := u.fundAccumulated.GetOr(n.fundAccumulated),
       sharesAmount := u.sharesAmount.GetOr(n.sharesAmount),
       shareValue := u.shareValue.GetOr(n.shareValue),
       deltaPrevious := if u.deltaPrevious.Some? then u.deltaPrevious else n.deltaPrevious,
       deltaSinceOrigin := if u.deltaSinceOrigin.Some? then u.deltaSinceOrigin else n.deltaSinceOrigin)
  }

  /** Applying the same update twice writes nothing new. */
  lemma MergeNavIdempotent(n: FundNav, u: FundNavUpdate)
    ensures MergeNav(MergeNav(n, u), u) == MergeNav(n, u)
  {
  }

  /** The `SET` list `update_nav` builds: one item per given field, in
      column order, and no item at all for an empty update. */
  method NavSetList(u: FundNavUpdate) returns (updates: seq<NavAssignment>)
    ensures updates == [] <==> NavUpdateIsEmpty(u)
    ensures |updates| <= 6
    ensures forall n :: ApplyAll(n, updates, AssignNav) == MergeNav(n, u)
  {
    updates := [];
    ghost var given := FundNavUpdate(None, None, None, None, None, None);
    if u.asOfDate.Some? {
      var a := SetAsOfDate(u.asOfDate.value);
      NavStep(updates, given, a, given.(asOfDate := u.asOfDate));
      updates := updates + [a];
    }
    given := given.(asOfDate := u.asOfDate);
    if u.fundAccumulated.Some? {
      var a := SetFundAccumulated(u.fundAccumulated.value);
      NavStep(updates, given, a, given.(fundAccumulated := u.fundAccumulated));
      updates := updates + [a];
    }
    given := given.(fundAccumulated := u.fundAccumulated);
    if u.sharesAmount.Some? {
      var a := SetSharesAmount(u.sharesAmount.value);
      NavStep(updates, given, a, given.(sharesAmount := u.sharesAmount));
      updates := updates + [a];
    }
    given := given.(sharesAmount := u.sharesAmount);
    if u.shareValue.Some? {
      var a := SetShareValue(u.shareValue.value);
      NavStep(updates, given, a, given.(shareValue := u.shareValue));
      updates := updates + [a];
    }
    given := given.(shareValue := u.shareValue);
    if u.deltaPrevious.Some? {
      var a := SetDeltaPrevious(u.deltaPrevious.value);
      NavStep(updates, given, a, given.(deltaPrevious := u.deltaPrevious));
      updates := updates + [a];
    }
    given := given.(deltaPrevious := u.deltaPrevious);
    if u.deltaSinceOrigin.Some? {
      var a := SetDeltaSinceOrigin(u.deltaSinceOrigin.value);
      NavStep(updates, given, a, given.(deltaSinceOrigin := u.deltaSinceOrigin));
      updates := updates + [a];
    }
    given := given.(deltaSinceOrigin := u.deltaSinceOrigin);
    assert given == u;
  }

  /** `updates` writes the fields `given` gives. */
  ghost predicate WritesNav(updates: seq<NavAssignment>, given: FundNavUpdate)
  {
    forall n :: ApplyAll(n, updates, AssignNav) == MergeNav(n, given)
  }

  /** Appending the assignment `a` writes one more field. */
  lemma NavStep(updates: seq<NavAssignment>, given: FundNavUpdate, a: NavAssignment, given': FundNavUpdate)
    requires WritesNav(updates, given)
    requires forall n :: MergeNav(n, given') == AssignNav(MergeNav(n, given), a)
    ensures WritesNav(updates + [a], given')
  {
    forall n ensures ApplyAll(n, updates + [a], AssignNav) == MergeNav(n, given') {
      ApplyAllAppend(n, updates, a, AssignNav);
    }
  }

  /** The `fund_navs` table after an update: only row `id` may change, and
      it changes only when the update gives a field. */
  function UpdatedNavs(rows: map<int, FundNav>, id: int, u: FundNavUpdate): (r: map<int, FundNav>)
    ensures r.Keys == rows.Keys
    ensures forall k :: k in rows && k != id ==> r[k] == rows[k]
    ensures id in rows ==> r[id] == MergeNav(rows[id], u)
  {
    if id in rows && !NavUpdateIsEmpty(u) then rows[id := MergeNav(rows[id], u)] else rows
  }

  /** Updating twice with the same request is the same as updating once. */
  lemma UpdatedNavsIdempotent(rows: map<int, FundNav>, id: int, u: FundNavUpdate)
    ensures UpdatedNavs(UpdatedNavs(rows, id, u), id, u) == UpdatedNavs(rows, id, u)
  {
    if id in rows {
      MergeNavIdempotent(rows[id], u);
    }
  }

  /** The `fund_navs` table, keyed by row id. */
  class NavTable {
    var rows: map<int, FundNav>

    constructor (rows: map<int, FundNav>)
      ensures this.rows == rows
    {
      this.rows := rows;
    }

    /** `update_nav`: with no field given it only reads the row; otherwise it
        writes the given fields and returns the row as stored, or `None`
        when there is no row `id`. */
    method UpdateNav(id: int, u: FundNavUpdate) returns (r: Option<FundNav>)
      modifies this
      ensures rows == UpdatedNavs(old(rows), id, u)
      ensures r == if id in rows then Some(rows[id]) else None
    {
      var updates := NavSetList(u);
      if updates == [] {
        r := if id in rows then Some(rows[id]) else None;
        return;
      }
      if id in rows {
        rows := rows[id := ApplyAll(rows[id], updates, AssignNav)];
        r := Some(rows[id]);
      } else {
        r := None;
      }
    }
  }
}
