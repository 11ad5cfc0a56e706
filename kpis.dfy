/** The KPI aggregator: per-status counts, rates and amount statistics over a
    clean batch, overall and grouped by a tuple of dimensions. */
module Kpis {
  import opened Records

  const APPROVED: string := "APPROVED"
  const DECLINED: string := "DECLINED"
  const REFUNDED: string := "REFUNDED"
  const CHARGEBACK: string := "CHARGEBACK"

  /** A float as the dataframe stores it: a finite value, or the NaN and +inf
      that an unguarded division or the mean of no values produce. */
  datatype Float = Finite(value: real) | NaN | PosInf

  // ---------------------------------------------------------------------------
  // Rates

  /** The guarded rate: numer/denom, and 0.0 when the denominator is zero. */
  function Rate(numer: nat, denom: nat): (r: real)
    ensures denom == 0 ==> r == 0.0
    ensures denom != 0 ==> r * denom as real == numer as real
    ensures numer <= denom ==> 0.0 <= r <= 1.0
  {
    if denom != 0 then numer as real / denom as real else 0.0
  }

  /** The unguarded column division of the grouped rates: 0/0 is NaN and
      n/0 is +inf for n > 0. */
  function Divide(numer: nat, denom: nat): (r: Float)
    ensures denom == 0 ==> (r == NaN <==> numer == 0) && (r == PosInf <==> numer > 0)
    ensures denom != 0 ==> r.Finite? && r.value * denom as real == numer as real
    ensures denom != 0 && numer <= denom ==> 0.0 <= r.value <= 1.0
  {
    if denom != 0 then Finite(numer as real / denom as real)
    else if numer == 0 then NaN
    else PosInf
  }

  // ---------------------------------------------------------------------------
  // Column reductions

  /** The status column. */
  function Statuses(rows: seq<Tx>): (r: seq<Option<string>>)
    ensures |r| == |rows| && forall i :: 0 <= i < |rows| ==> r[i] == rows[i].status
  {
    seq(|rows|, i requires 0 <= i < |rows| => rows[i].status)
  }

  /** Number of rows whose status is exactly `s`; a null status matches nothing. */
  function CountStatus(rows: seq<Tx>, s: string): (n: nat)
    ensures n <= |rows|
    ensures n == 0 <==> forall i :: 0 <= i < |rows| ==> rows[i].status != Some(s)
  {
    if rows == [] then 0
    else (if rows[0].status == Some(s) then 1 else 0) + CountStatus(rows[1..], s)
  }

  /** The count is the multiplicity of `s` in the status column. */
  lemma {:induction false} CountIsMultiplicity(rows: seq<Tx>, s: string)
    ensures CountStatus(rows, s) == multiset(Statuses(rows))[Some(s)]
  {
    if rows != [] {
      CountIsMultiplicity(rows[1..], s);
      assert Statuses(rows) == [rows[0].status] + Statuses(rows[1..]);
    }
  }

  /** Number of non-null tx_ids (the `count` aggregation). */
  function CountIds(rows: seq<Tx>): (n: nat)
    ensures n <= |rows|
    ensures n == 0 <==> forall i :: 0 <= i < |rows| ==> rows[i].txId.None?
  {
    if rows == [] then 0
    else (if rows[0].txId.Some? then 1 else 0) + CountIds(rows[1..])
  }

  lemma {:induction false} CountIdsAllPresent(rows: seq<Tx>)
    requires forall i :: 0 <= i < |rows| ==> rows[i].txId.Some?
    ensures CountIds(rows) == |rows|
  {
    if rows != [] {
      CountIdsAllPresent(rows[1..]);
    }
  }

  /** The non-null amounts, in row order (null amounts are skipped). */
  function Amounts(rows: seq<Tx>): (r: seq<real>)
    ensures |r| <= |rows|
    ensures r == [] <==> forall i :: 0 <= i < |rows| ==> rows[i].amount.None?
  {
    if rows == [] then []
    else (if rows[0].amount.Some? then [rows[0].amount.value] else []) + Amounts(rows[1..])
  }

  /** With no null amount, the amounts are the amount column itself. */
  lemma {:induction false} AmountsAllPresent(rows: seq<Tx>)
    requires forall i :: 0 <= i < |rows| ==> rows[i].amount.Some?
    ensures |Amounts(rows)| == |rows|
    ensures forall i :: 0 <= i < |rows| ==> Amounts(rows)[i] == rows[i].amount.value
  {
    if rows != [] {
      AmountsAllPresent(rows[1..]);
      assert Amounts(rows) == [rows[0].amount.value] + Amounts(rows[1..]);
    }
  }

  /** The plain sum of the values, the reference for `total_amount`. */
  function Sum(xs: seq<real>): real
  {
    if xs == [] then 0.0 else xs[0] + Sum(xs[1..])
  }

  /** Summing a concatenation adds the sums of its parts. */
  lemma {:induction false} SumAppend(xs: seq<real>, ys: seq<real>)
    ensures Sum(xs + ys) == Sum(xs) + Sum(ys)
  {
    if xs == [] {
      assert xs + ys == ys;
    } else {
      assert (xs + ys)[1..] == xs[1..] + ys;
      SumAppend(xs[1..], ys);
    }
  }

  /** A sum of values in [lo, hi] lies between |xs|*lo and |xs|*hi. */
  lemma {:induction false} SumBounds(xs: seq<real>, lo: real, hi: real)
    requires forall i :: 0 <= i < |xs| ==> lo <= xs[i] <= hi
    ensures |xs| as real * lo <= Sum(xs) <= |xs| as real * hi
  {
    if xs != [] {
      SumBounds(xs[1..], lo, hi);
      assert |xs| as real * lo == lo + |xs[1..]| as real * lo;
      assert |xs| as real * hi == hi + |xs[1..]| as real * hi;
    }
  }

  /** The mean that skips nulls: NaN when there is no value. */
  function Mean(xs: seq<real>): (m: Float)
    ensures xs == [] <==> m == NaN
    ensures xs != [] ==> m.Finite? && m.value * |xs| as real == Sum(xs)
  {
    if xs == [] then NaN else Finite(Sum(xs) / |xs| as real)
  }

  /** The mean of values in [lo, hi] lies in [lo, hi]. */
  lemma MeanBounded(xs: seq<real>, lo: real, hi: real)
    requires xs != []
    requires forall i :: 0 <= i < |xs| ==> lo <= xs[i] <= hi
    ensures lo <= Mean(xs).value <= hi
  {
    SumBounds(xs, lo, hi);
    var n := |xs| as real;
    var m := Mean(xs).value;
    assert m * n == Sum(xs);
    assert n > 0.0;
    assert (m - lo) * n >= 0.0;
    assert (hi - m) * n >= 0.0;
  }

  // ---------------------------------------------------------------------------
  // Median

  predicate Sorted(s: seq<real>)
  {
    forall i, j :: 0 <= i < j < |s| ==> s[i] <= s[j]
  }

  /** Inserts `x` into a sorted sequence. */
  function Insert(x: real, s: seq<real>): (r: seq<real>)
    requires Sorted(s)
    ensures |r| == |s| + 1 && r[0] == (if s == [] || x <= s[0] then x else s[0])
    ensures Sorted(r) && multiset(r) == multiset(s) + multiset{x}
  {
    if s == [] then [x]
    else if x <= s[0] then [x] + s
    else
      assert s == [s[0]] + s[1..];
      var rest := Insert(x, s[1..]);
      assert s[0] <= rest[0];
      [s[0]] + rest
  }

  /** The values in ascending order. */
  function Sort(xs: seq<real>): (s: seq<real>)
    ensures Sorted(s) && multiset(s) == multiset(xs)
  {
    if xs == [] then []
    else
      assert xs == [xs[0]] + xs[1..];
      Insert(xs[0], Sort(xs[1..]))
  }

  /** The middle value of the sorted values, or the average of the two middle
      values when their number is even; NaN when there is no value. */
  function Median(xs: seq<real>): (m: Float)
    ensures xs == [] <==> m == NaN
    ensures xs != [] ==> m.Finite?
    ensures |xs| == 1 ==> m == Finite(xs[0])
  {
    if xs == [] then NaN
    else
      var s := Sort(xs);
      var n := |s|;
      assert n == |xs| by { assert |multiset(s)| == |multiset(xs)|; }
      if n % 2 == 1 then Finite(s[n / 2])
      else Finite((s[n / 2 - 1] + s[n / 2]) / 2.0)
  }

  lemma SortedLength(xs: seq<real>)
    ensures |Sort(xs)| == |xs|
  {
    assert |multiset(Sort(xs))| == |multiset(xs)|;
  }

  /** The median lies between the two middle sorted values (which coincide
      when their number is odd). */
  lemma MedianBetweenMiddles(xs: seq<real>)
    requires xs != []
    ensures Median(xs).Finite? && |Sort(xs)| == |xs|
    ensures var s, n := Sort(xs), |xs|;
            (if n % 2 == 1 then s[n / 2] else s[n / 2 - 1]) <= Median(xs).value <= s[n / 2]
  ensures var s, n := Sort(xs), |xs|;
          if n % 2 == 1 then Median(xs).value == s[n / 2]
          else 2.0 * Median(xs).value == s[n / 2 - 1] + s[n / 2]
  {
    SortedLength(xs);
    var s := Sort(xs);
    var n := |s|;
    var m := Median(xs).value;
    if n % 2 == 1 {
      assert m == s[n / 2];
    } else {
      assert m == (s[n / 2 - 1] + s[n / 2]) / 2.0;
      assert s[n / 2 - 1] <= s[n / 2];
    }
  }

  /** The median splits the sorted values: the lower half is at most the
      median and the upper half at least the median. */
  lemma MedianSplits(xs: seq<real>)
    requires xs != []
    ensures Median(xs).Finite?
    ensures var s := Sort(xs);
            (forall i :: 0 <= i < |s| / 2 ==> s[i] <= Median(xs).value)
            && (forall i :: |s| / 2 <= i < |s| ==> Median(xs).value <= s[i])
  {
    MedianBetweenMiddles(xs);
    var s := Sort(xs);
    var n := |s|;
    var m := Median(xs).value;
    forall i | 0 <= i < n / 2 ensures s[i] <= m {
      assert i == n / 2 - 1 || s[i] <= s[n / 2 - 1];
    }
    forall i | n / 2 <= i < n ensures m <= s[i] {
      assert i == n / 2 || s[n / 2] <= s[i];
    }
  }

  /** The median of values in [lo, hi] lies in [lo, hi]. */
  lemma MedianBounded(xs: seq<real>, lo: real, hi: real)
    requires xs != []
    requires forall i :: 0 <= i < |xs| ==> lo <= xs[i] <= hi
    ensures Median(xs).Finite? && lo <= Median(xs).value <= hi
  {
    MedianBetweenMiddles(xs);
    SortedWithin(xs, lo, hi);
  }

  /** Sorting keeps the values, so it keeps their bounds. */
  lemma SortedWithin(xs: seq<real>, lo: real, hi: real)
    requires forall i :: 0 <= i < |xs| ==> lo <= xs[i] <= hi
    ensures forall i :: 0 <= i < |Sort(xs)| ==> lo <= Sort(xs)[i] <= hi
  {
    var s := Sort(xs);
    forall i | 0 <= i < |s| ensures lo <= s[i] <= hi {
      assert s[i] in multiset(s);
      assert s[i] in multiset(xs);
      var j :| 0 <= j < |xs| && xs[j] == s[i];
    }
  }

  // ---------------------------------------------------------------------------
  // Overall KPIs

  datatype Overall = Overall(
    totalTx: nat,
    approvedTx: nat, declinedTx: nat, refundedTx: nat, chargebackTx: nat,
    approvalRate: real, declineRate: real, refundRate: real, chargebackRate: real,
    totalAmount: real, avgTicket: Float, medianTicket: Float)

  /** The one-row overall summary. The total counts rows, null ids included;
      the mean and median are 0.0 for an empty batch and skip null amounts
      otherwise. */
  function KpisOverall(rows: seq<Tx>): (o: Overall)
    ensures o.totalTx == |rows|
    ensures o.approvedTx == multiset(Statuses(rows))[Some(APPROVED)]
    ensures o.declinedTx == multiset(Statuses(rows))[Some(DECLINED)]
    ensures o.refundedTx == multiset(Statuses(rows))[Some(REFUNDED)]
    ensures o.chargebackTx == multiset(Statuses(rows))[Some(CHARGEBACK)]
    ensures o.approvalRate == Rate(o.approvedTx, o.totalTx) && o.declineRate == Rate(o.declinedTx, o.totalTx)
    ensures o.refundRate == Rate(o.refundedTx, o.totalTx) && o.chargebackRate == Rate(o.chargebackTx, o.totalTx)
    ensures o.totalAmount == Sum(Amounts(rows))
    ensures rows == [] ==> o.avgTicket == Finite(0.0) && o.medianTicket == Finite(0.0)
    ensures rows != [] ==> o.avgTicket == Mean(Amounts(rows)) && o.medianTicket == Median(Amounts(rows))
  {
    CountIsMultiplicity(rows, APPROVED);
    CountIsMultiplicity(rows, DECLINED);
    CountIsMultiplicity(rows, REFUNDED);
    CountIsMultiplicity(rows, CHARGEBACK);
    var total := |rows|;
    var approved := CountStatus(rows, APPROVED);
    var declined := CountStatus(rows, DECLINED);
    var refunded := CountStatus(rows, REFUNDED);
    var chargeback := CountStatus(rows, CHARGEBACK);
    var amounts := Amounts(rows);
    Overall(
      total, approved, declined, refunded, chargeback,
      Rate(approved, total), Rate(declined, total), Rate(refunded, total), Rate(chargeback, total),
      Sum(amounts),
      if total != 0 then Mean(amounts) else Finite(0.0),
      if total != 0 then Median(amounts) else Finite(0.0))
  }

  predicate InStatusDomain(t: Tx)
  {
    t.status == Some(APPROVED) || t.status == Some(DECLINED)
    || t.status == Some(REFUNDED) || t.status == Some(CHARGEBACK)
  }

  /** The four status counts add up to at most the number of rows, with
      equality exactly when every status is one of the four. */
  lemma {:induction false} StatusCountsSum(rows: seq<Tx>)
    ensures CountStatus(rows, APPROVED) + CountStatus(rows, DECLINED)
            + CountStatus(rows, REFUNDED) + CountStatus(rows, CHARGEBACK) <= |rows|
    ensures CountStatus(rows, APPROVED) + CountStatus(rows, DECLINED)
            + CountStatus(rows, REFUNDED) + CountStatus(rows, CHARGEBACK) == |rows|
            <==> forall i :: 0 <= i < |rows| ==> InStatusDomain(rows[i])
  {
    if rows != [] {
      StatusCountsSum(rows[1..]);
      if !InStatusDomain(rows[0]) {
        assert !(forall i :: 0 <= i < |rows| ==> InStatusDomain(rows[i]));
      }
      if forall i :: 0 <= i < |rows[1..]| ==> InStatusDomain(rows[1..][i]) {
        if InStatusDomain(rows[0]) {
          forall i | 0 <= i < |rows| ensures InStatusDomain(rows[i]) {
            if i > 0 { assert rows[i] == rows[1..][i - 1]; }
          }
        }
      } else {
        var i :| 0 <= i < |rows[1..]| && !InStatusDomain(rows[1..][i]);
        assert !InStatusDomain(rows[i + 1]);
      }
    }
  }

  /** The overall counts satisfy the same bound. */
  lemma OverallCountsWithinTotal(rows: seq<Tx>)
    ensures var o := KpisOverall(rows);
            o.approvedTx + o.declinedTx + o.refundedTx + o.chargebackTx <= o.totalTx
            && (o.approvedTx + o.declinedTx + o.refundedTx + o.chargebackTx == o.totalTx
                <==> forall i :: 0 <= i < |rows| ==> InStatusDomain(rows[i]))
  {
    StatusCountsSum(rows);
  }

  /** Each overall rate lies in [0, 1], and all are 0.0 on an empty batch. */
  lemma OverallRatesBounded(rows: seq<Tx>)
    ensures var o := KpisOverall(rows);
            && 0.0 <= o.approvalRate <= 1.0 && 0.0 <= o.declineRate <= 1.0
            && 0.0 <= o.refundRate <= 1.0 && 0.0 <= o.chargebackRate <= 1.0
            && (rows == [] ==> o.approvalRate == o.declineRate == o.refundRate == o.chargebackRate == 0.0)
  {
    CountIsMultiplicity(rows, APPROVED);
    CountIsMultiplicity(rows, DECLINED);
    CountIsMultiplicity(rows, REFUNDED);
    CountIsMultiplicity(rows, CHARGEBACK);
  }

  /** With no null amount, the average ticket is the total amount over the
      number of rows and lies between the smallest and largest amounts. */
  lemma OverallAverage(rows: seq<Tx>, lo: real, hi: real)
    requires rows != []
    requires forall i :: 0 <= i < |rows| ==> rows[i].amount.Some?
    requires forall i :: 0 <= i < |rows| ==> lo <= rows[i].amount.value <= hi
    ensures var o := KpisOverall(rows);
            && o.avgTicket.Finite? && o.avgTicket.value == o.totalAmount / o.totalTx as real
            && lo <= o.avgTicket.value <= hi
  {
    AmountsAllPresent(rows);
    var xs := Amounts(rows);
    var o := KpisOverall(rows);
    MeanBounded(xs, lo, hi);
    assert o.avgTicket == Mean(xs) && o.totalAmount == Sum(xs);
    assert |xs| == o.totalTx;
  }

  /** The median ticket of amounts in [lo, hi] lies in [lo, hi]. */
  lemma OverallMedian(rows: seq<Tx>, lo: real, hi: real)
    requires rows != []
    requires forall i :: 0 <= i < |rows| ==> rows[i].amount.Some?
    requires forall i :: 0 <= i < |rows| ==> lo <= rows[i].amount.value <= hi
    ensures KpisOverall(rows).medianTicket.Finite?
    ensures lo <= KpisOverall(rows).medianTicket.value <= hi
  {
    AmountsAllPresent(rows);
    var xs := Amounts(rows);
    MedianBounded(xs, lo, hi);
    assert KpisOverall(rows).medianTicket == Median(xs);
  }

  // ---------------------------------------------------------------------------
  // Grouping

  /** A grouping dimension: a column of the coerced frame, including the
      calendar date and hour derived from the timestamp. */
  datatype Dim =
    | TxIdDim | MerchantDim | ChannelDim | CountryDim | AmountDim | StatusDim
    | TimestampDim | DateDim | HourDim

  /** One component of a grouping key; Null is the missing value, which forms
      a group of its own. */
  datatype Cell = Null | Text(text: string) | Number(number: real) | Whole(whole: int)

  type Key = seq<Cell>

  const SECONDS_PER_DAY: int := 86400
  const SECONDS_PER_HOUR: int := 3600

  /** The calendar day (days since 1970-01-01) of a timestamp. */
  function DateOf(ts: int): (d: int)
    ensures d * SECONDS_PER_DAY <= ts < (d + 1) * SECONDS_PER_DAY
  {
    ts / SECONDS_PER_DAY
  }

  /** The hour of the day of a timestamp. */
  function HourOf(ts: int): (h: int)
    ensures 0 <= h < 24
    ensures DateOf(ts) * SECONDS_PER_DAY + h * SECONDS_PER_HOUR <= ts
            < DateOf(ts) * SECONDS_PER_DAY + (h + 1) * SECONDS_PER_HOUR
  {
    (ts % SECONDS_PER_DAY) / SECONDS_PER_HOUR
  }

  function TextCell(v: Option<string>): Cell
  {
    if v.Some? then Text(v.value) else Null
  }

  /** Whether the column a dimension reads is null in the row (the date and
      hour are read from the timestamp). */
  predicate NullIn(t: Tx, d: Dim)
  {
    || (d == TxIdDim && t.txId.None?)
    || (d == MerchantDim && t.merchantId.None?)
    || (d == ChannelDim && t.channel.None?)
    || (d == CountryDim && t.country.None?)
    || (d == AmountDim && t.amount.None?)
    || (d == StatusDim && t.status.None?)
    || ((d == TimestampDim || d == DateDim || d == HourDim) && t.timestamp.None?)
  }

  /** The value a row holds in a dimension. */
  function CellOf(t: Tx, d: Dim): (c: Cell)
    ensures c == Null <==> NullIn(t, d)
  {
    match d
    case TxIdDim => TextCell(t.txId)
    case MerchantDim => TextCell(t.merchantId)
    case ChannelDim => TextCell(t.channel)
    case CountryDim => TextCell(t.country)
    case AmountDim => if t.amount.Some? then Number(t.amount.value) else Null
    case StatusDim => TextCell(t.status)
    case TimestampDim => if t.timestamp.Some? then Whole(t.timestamp.value) else Null
    case DateDim => if t.timestamp.Some? then Whole(DateOf(t.timestamp.value)) else Null
    case HourDim => if t.timestamp.Some? then Whole(HourOf(t.timestamp.value)) else Null
  }

  /** The row's grouping key: its values in the given dimensions, in order. */
  function KeyOf(t: Tx, dims: seq<Dim>): (k: Key)
    ensures |k| == |dims| && forall i :: 0 <= i < |dims| ==> k[i] == CellOf(t, dims[i])
  {
    seq(|dims|, i requires 0 <= i < |dims| => CellOf(t, dims[i]))
  }

  /** The keys that occur in the batch. */
  function Keys(rows: seq<Tx>, dims: seq<Dim>): (ks: set<Key>)
    ensures forall k :: k in ks <==> exists i :: 0 <= i < |rows| && KeyOf(rows[i], dims) == k
  {
    set i | 0 <= i < |rows| :: KeyOf(rows[i], dims)
  }

  /** The rows with key `k`, in row order. */
  function Group(rows: seq<Tx>, dims: seq<Dim>, k: Key): (g: seq<Tx>)
    ensures |g| <= |rows|
    ensures g == [] <==> k !in Keys(rows, dims)
  {
    WhereMembers(rows, (t: Tx) => KeyOf(t, dims) == k);
    Where(rows, (t: Tx) => KeyOf(t, dims) == k)
  }

  /** A group holds exactly the rows with its key, in row order, so distinct
      keys have disjoint groups and every row is in the group of its key. */
  lemma GroupMembers(rows: seq<Tx>, dims: seq<Dim>, k: Key)
    ensures forall t :: t in Group(rows, dims, k) <==> t in rows && KeyOf(t, dims) == k
    ensures Subseq(Group(rows, dims, k), rows)
  {
    WhereMembers(rows, (t: Tx) => KeyOf(t, dims) == k);
    WhereIsSubseq(rows, (t: Tx) => KeyOf(t, dims) == k);
  }

  datatype GroupKpis = GroupKpis(
    totalTx: nat, totalAmount: real,
    approvedTx: nat, declinedTx: nat, refundedTx: nat, chargebackTx: nat,
    avgTicket: Float,
    approvalRate: Float, declineRate: Float, refundRate: Float, chargebackRate: Float)

  /** The aggregates of one group: total_tx counts non-null ids, the rates
      divide by it without a guard. */
  function GroupKpisOf(g: seq<Tx>): (r: GroupKpis)
    ensures r.totalTx == CountIds(g) && r.totalAmount == Sum(Amounts(g))
    ensures r.approvedTx == multiset(Statuses(g))[Some(APPROVED)]
    ensures r.declinedTx == multiset(Statuses(g))[Some(DECLINED)]
    ensures r.refundedTx == multiset(Statuses(g))[Some(REFUNDED)]
    ensures r.chargebackTx == multiset(Statuses(g))[Some(CHARGEBACK)]
    ensures r.approvedTx <= |g| && r.declinedTx <= |g| && r.refundedTx <= |g| && r.chargebackTx <= |g|
    ensures r.avgTicket == Mean(Amounts(g))
    ensures r.approvalRate == Divide(r.approvedTx, r.totalTx) && r.declineRate == Divide(r.declinedTx, r.totalTx)
    ensures r.refundRate == Divide(r.refundedTx, r.totalTx) && r.chargebackRate == Divide(r.chargebackTx, r.totalTx)
  {
    CountIsMultiplicity(g, APPROVED);
    CountIsMultiplicity(g, DECLINED);
    CountIsMultiplicity(g, REFUNDED);
    CountIsMultiplicity(g, CHARGEBACK);
    var total := CountIds(g);
    var approved := CountStatus(g, APPROVED);
    var declined := CountStatus(g, DECLINED);
    var refunded := CountStatus(g, REFUNDED);
    var chargeback := CountStatus(g, CHARGEBACK);
    GroupKpis(
      total, Sum(Amounts(g)),
      approved, declined, refunded, chargeback,
      Mean(Amounts(g)),
      Divide(approved, total), Divide(declined, total), Divide(refunded, total), Divide(chargeback, total))
  }

  /** The grouped summary: one entry per key occurring in the batch, null
      keys included. Grouping needs at least one dimension. */
  function KpisBy(rows: seq<Tx>, dims: seq<Dim>): (m: map<Key, GroupKpis>)
    requires |dims| > 0
    ensures m.Keys == Keys(rows, dims)
    ensures forall k :: k in m ==> m[k] == GroupKpisOf(Group(rows, dims, k))
  {
    map k | k in Keys(rows, dims) :: GroupKpisOf(Group(rows, dims, k))
  }

  /** Every row, whatever nulls it holds, has its key in the grouped summary,
      and every group there is non-empty. */
  lemma EveryRowIsGrouped(rows: seq<Tx>, dims: seq<Dim>, i: nat)
    requires |dims| > 0 && i < |rows|
    ensures KeyOf(rows[i], dims) in KpisBy(rows, dims)
    ensures rows[i] in Group(rows, dims, KeyOf(rows[i], dims))
  {
    GroupMembers(rows, dims, KeyOf(rows[i], dims));
  }

  /** With every id present, each group's rates are finite and lie in [0, 1]. */
  lemma GroupRatesBounded(rows: seq<Tx>, dims: seq<Dim>, k: Key)
    requires |dims| > 0 && k in KpisBy(rows, dims)
    requires forall i :: 0 <= i < |rows| ==> rows[i].txId.Some?
    ensures var r := KpisBy(rows, dims)[k];
            && r.totalTx == |Group(rows, dims, k)| > 0
            && r.approvalRate.Finite? && 0.0 <= r.approvalRate.value <= 1.0
            && r.declineRate.Finite? && 0.0 <= r.declineRate.value <= 1.0
            && r.refundRate.Finite? && 0.0 <= r.refundRate.value <= 1.0
            && r.chargebackRate.Finite? && 0.0 <= r.chargebackRate.value <= 1.0
  {
    GroupIdsAllPresent(rows, dims, k);
    assert KpisBy(rows, dims)[k] == GroupKpisOf(Group(rows, dims, k));
  }

  /** A group of rows whose ids are all present is non-empty and counts all of its rows. */
  lemma GroupIdsAllPresent(rows: seq<Tx>, dims: seq<Dim>, k: Key)
    requires k in Keys(rows, dims)
    requires forall i :: 0 <= i < |rows| ==> rows[i].txId.Some?
    ensures |Group(rows, dims, k)| > 0 && CountIds(Group(rows, dims, k)) == |Group(rows, dims, k)|
  {
    var g := Group(rows, dims, k);
    GroupMembers(rows, dims, k);
    var i :| 0 <= i < |rows| && KeyOf(rows[i], dims) == k;
    assert rows[i] in g;
    forall j | 0 <= j < |g| ensures g[j].txId.Some? {
      assert g[j] in rows;
    }
    CountIdsAllPresent(g);
  }

  // ---------------------------------------------------------------------------
  // Group totals add up

  /** Non-null ids among the rows whose key is in `ks`. */
  function IdsWithKeyIn(rows: seq<Tx>, dims: seq<Dim>, ks: set<Key>): (n: nat)
    ensures n <= CountIds(rows)
  {
    if rows == [] then 0
    else (if rows[0].txId.Some? && KeyOf(rows[0], dims) in ks then 1 else 0)
         + IdsWithKeyIn(rows[1..], dims, ks)
  }

  lemma {:induction false} IdsWithKeySplit(rows: seq<Tx>, dims: seq<Dim>, ks: set<Key>, k: Key)
    requires k in ks
    ensures IdsWithKeyIn(rows, dims, ks) == IdsWithKeyIn(rows, dims, {k}) + IdsWithKeyIn(rows, dims, ks - {k})
  {
    if rows != [] {
      IdsWithKeySplit(rows[1..], dims, ks, k);
    }
  }

  lemma {:induction false} IdsWithKeyOfGroup(rows: seq<Tx>, dims: seq<Dim>, k: Key)
    ensures CountIds(Group(rows, dims, k)) == IdsWithKeyIn(rows, dims, {k})
  {
    if rows != [] {
      IdsWithKeyOfGroup(rows[1..], dims, k);
      var p := (t: Tx) => KeyOf(t, dims) == k;
      if p(rows[0]) {
        assert Group(rows, dims, k) == [rows[0]] + Group(rows[1..], dims, k);
      } else {
        assert Group(rows, dims, k) == Group(rows[1..], dims, k);
      }
    }
  }

  lemma {:induction false} IdsWithAllKeys(rows: seq<Tx>, dims: seq<Dim>, ks: set<Key>)
    requires forall i :: 0 <= i < |rows| ==> KeyOf(rows[i], dims) in ks
    ensures IdsWithKeyIn(rows, dims, ks) == CountIds(rows)
  {
    if rows != [] {
      IdsWithAllKeys(rows[1..], dims, ks);
    }
  }

  /** The sum of total_tx over the entries of a grouped summary whose keys are in `ks`. */
  ghost function SumTotals(m: map<Key, GroupKpis>, ks: set<Key>): nat
    requires ks <= m.Keys
  {
    if ks == {} then 0
    else
      var k :| k in ks;
      m[k].totalTx + SumTotals(m, ks - {k})
  }

  /** The key whose total SumTotals adds first. */
  lemma FirstSummand(m: map<Key, GroupKpis>, ks: set<Key>) returns (k: Key)
    requires ks != {} && ks <= m.Keys
    ensures k in ks && SumTotals(m, ks) == m[k].totalTx + SumTotals(m, ks - {k})
  {
    k :| k in ks && SumTotals(m, ks) == m[k].totalTx + SumTotals(m, ks - {k});
  }

  /** A group's total counts the non-null ids of the rows with its key. */
  lemma GroupTotalIsIdsWithKey(rows: seq<Tx>, dims: seq<Dim>, k: Key)
    requires |dims| > 0 && k in Keys(rows, dims)
    ensures KpisBy(rows, dims)[k].totalTx == IdsWithKeyIn(rows, dims, {k})
  {
    assert KpisBy(rows, dims)[k] == GroupKpisOf(Group(rows, dims, k));
    IdsWithKeyOfGroup(rows, dims, k);
  }

  lemma {:induction false} SumTotalsOfGroups(rows: seq<Tx>, dims: seq<Dim>, ks: set<Key>)
    requires |dims| > 0 && ks <= Keys(rows, dims)
    ensures SumTotals(KpisBy(rows, dims), ks) == IdsWithKeyIn(rows, dims, ks)
  {
    var m := KpisBy(rows, dims);
    if ks == {} {
      IdsWithAllKeysEmpty(rows, dims);
    } else {
      var k := FirstSummand(m, ks);
      SumTotalsOfGroups(rows, dims, ks - {k});
      GroupTotalIsIdsWithKey(rows, dims, k);
      IdsWithKeySplit(rows, dims, ks, k);
    }
  }

  lemma {:induction false} IdsWithAllKeysEmpty(rows: seq<Tx>, dims: seq<Dim>)
    ensures IdsWithKeyIn(rows, dims, {}) == 0
  {
    if rows != [] {
      IdsWithAllKeysEmpty(rows[1..], dims);
    }
  }

  /** The group totals add up to the number of non-null ids, and so to the
      overall total when every id is present. */
  lemma GroupTotalsAddUp(rows: seq<Tx>, dims: seq<Dim>)
    requires |dims| > 0
    ensures SumTotals(KpisBy(rows, dims), Keys(rows, dims)) == CountIds(rows)
    ensures (forall i :: 0 <= i < |rows| ==> rows[i].txId.Some?) ==>
              SumTotals(KpisBy(rows, dims), Keys(rows, dims)) == KpisOverall(rows).totalTx
  {
    SumTotalsOfGroups(rows, dims, Keys(rows, dims));
    IdsWithAllKeys(rows, dims, Keys(rows, dims));
    if forall i :: 0 <= i < |rows| ==> rows[i].txId.Some? {
      CountIdsAllPresent(rows);
    }
  }

  // ---------------------------------------------------------------------------
  // Reports

  /** The dimension tuples of the exported reports: by date, channel,
      country, merchant, and date and hour. */
  const REPORT_DIMS: seq<seq<Dim>> := [[DateDim], [ChannelDim], [CountryDim], [MerchantDim], [DateDim, HourDim]]

  /** The overall summary and the grouped summaries for REPORT_DIMS, in that
      order (by_date, by_channel, by_country, by_merchant, by_hour). */
  datatype Reports = Reports(overall: Overall, grouped: seq<map<Key, GroupKpis>>)

  function ExportReports(rows: seq<Tx>): (r: Reports)
    ensures |r.grouped| == |REPORT_DIMS|
  {
    Reports(KpisOverall(rows),
            seq(|REPORT_DIMS|, j requires 0 <= j < |REPORT_DIMS| => KpisBy(rows, REPORT_DIMS[j])))
  }

  /** In every exported grouping the group totals add up to the overall total
      when every id is present. */
  lemma ReportTotalsAgree(rows: seq<Tx>, j: nat)
    requires j < |REPORT_DIMS|
    requires forall i :: 0 <= i < |rows| ==> rows[i].txId.Some?
    ensures var r := ExportReports(rows);
            SumTotals(r.grouped[j], Keys(rows, REPORT_DIMS[j])) == r.overall.totalTx
  {
    GroupTotalsAddUp(rows, REPORT_DIMS[j]);
  }

  // ---------------------------------------------------------------------------
  // Scenarios

  /** Rows whose keys are k1 up to position n and k2 from there on form
      exactly two groups: the prefix and the suffix. */
  lemma SplitGroups(rows: seq<Tx>, dims: seq<Dim>, n: nat, k1: Key, k2: Key)
    requires n <= |rows| && k1 != k2
    requires forall i :: 0 <= i < n ==> KeyOf(rows[i], dims) == k1
    requires forall i :: n <= i < |rows| ==> KeyOf(rows[i], dims) == k2
    ensures Group(rows, dims, k1) == rows[..n] && Group(rows, dims, k2) == rows[n..]
  {
    var first, second := rows[..n], rows[n..];
    assert rows == first + second;
    var p1 := (t: Tx) => KeyOf(t, dims) == k1;
    var p2 := (t: Tx) => KeyOf(t, dims) == k2;
    WhereAppend(first, second, p1);
    WhereAppend(first, second, p2);
    WhereKeepsAll(first, p1);
    WhereKeepsAll(second, p2);
    WhereMembers(first, p2);
    WhereMembers(second, p1);
  }

  /** Five transactions on 2025-01-01 (10:00, 11:00, 12:00) and 2025-01-02
      (13:00, 14:00). */
  function MiniBatch(): seq<Tx>
  {
    [ Tx(Some("T1"), Some("M001"), Some("WEB"), Some("CO"), Some(100.0), Some(APPROVED), Some(1735725600)),
      Tx(Some("T2"), Some("M001"), Some("APP"), Some("CO"), Some(50.0), Some(DECLINED), Some(1735729200)),
      Tx(Some("T3"), Some("M002"), Some("WEB"), Some("MX"), Some(75.0), Some(APPROVED), Some(1735732800)),
      Tx(Some("T4"), Some("M002"), Some("POS"), Some("CO"), Some(25.0), Some(REFUNDED), Some(1735822800)),
      Tx(Some("T5"), Some("M003"), Some("APP"), Some("CL"), Some(10.0), Some(CHARGEBACK), Some(1735826400)) ]
  }

  /** The status column of the five transactions, counted. */
  lemma MiniBatchCounts(rows: seq<Tx>)
    requires rows == MiniBatch()
    ensures var ms := multiset(Statuses(rows));
            && ms[Some(APPROVED)] == 2 && ms[Some(DECLINED)] == 1
            && ms[Some(REFUNDED)] == 1 && ms[Some(CHARGEBACK)] == 1
  {
    var a := Some(APPROVED);
    var d := Some(DECLINED);
    var f := Some(REFUNDED);
    var c := Some(CHARGEBACK);
    assert Statuses(rows) == [a, d, a, f, c];
    assert a != d && a != f && a != c && d != f && d != c && f != c;
    MultiplicitiesOfFive(a, d, f, c);
  }

  /** In [a, d, a, f, c] with four distinct values, a occurs twice and the
      others once. */
  lemma MultiplicitiesOfFive<T>(a: T, d: T, f: T, c: T)
    requires a != d && a != f && a != c && d != f && d != c && f != c
    ensures var ms := multiset([a, d, a, f, c]);
            ms[a] == 2 && ms[d] == 1 && ms[f] == 1 && ms[c] == 1
  {
    assert multiset([a, d, a, f, c]) == multiset{a, a, d, f, c};
  }

  /** The overall summary of the five transactions. */
  lemma MiniBatchOverall(rows: seq<Tx>)
    requires rows == MiniBatch()
    ensures var o := KpisOverall(rows);
            && o.totalTx == 5 && o.approvedTx == 2 && o.declinedTx == 1
            && o.refundedTx == 1 && o.chargebackTx == 1
            && o.approvalRate == 0.4 && o.declineRate == 0.2
  {
    MiniBatchCounts(rows);
    var o := KpisOverall(rows);
    assert o.approvalRate == Rate(2, 5) == 0.4;
    assert o.declineRate == Rate(1, 5) == 0.2;
  }

  /** The first three transactions fall on day 20089 (2025-01-01), the
      last two on day 20090. */
  lemma MiniBatchDates(rows: seq<Tx>)
    requires rows == MiniBatch()
    ensures forall i :: 0 <= i < 3 ==> KeyOf(rows[i], [DateDim]) == [Whole(20089)]
    ensures forall i :: 3 <= i < 5 ==> KeyOf(rows[i], [DateDim]) == [Whole(20090)]
    ensures Keys(rows, [DateDim]) == {[Whole(20089)], [Whole(20090)]}
  {
    var dims := [DateDim];
    assert KeyOf(rows[0], dims) == [Whole(20089)];
    assert KeyOf(rows[1], dims) == [Whole(20089)];
    assert KeyOf(rows[2], dims) == [Whole(20089)];
    assert KeyOf(rows[3], dims) == [Whole(20090)];
    assert KeyOf(rows[4], dims) == [Whole(20090)];
  }

  /** Grouped by date, the five transactions form two groups of 3 and 2, and
      the totals add up to 5. */
  lemma MiniBatchByDate(rows: seq<Tx>)
    requires rows == MiniBatch()
    ensures var m := KpisBy(rows, [DateDim]);
            && m.Keys == {[Whole(20089)], [Whole(20090)]}
            && m[[Whole(20089)]].totalTx == 3 && m[[Whole(20090)]].totalTx == 2
            && SumTotals(m, m.Keys) == 5
  {
    var dims := [DateDim];
    var k1: Key := [Whole(20089)];
    var k2: Key := [Whole(20090)];
    MiniBatchDates(rows);
    SplitGroups(rows, dims, 3, k1, k2);
    assert forall i :: 0 <= i < |rows| ==> rows[i].txId.Some?;
    CountIdsAllPresent(rows[..3]);
    CountIdsAllPresent(rows[3..]);
    GroupTotalsAddUp(rows, dims);
    CountIdsAllPresent(rows);
  }

  /** A null id is not counted in total_tx but its status is, so a group's
      rate can exceed 1: two approved rows, one without an id, give 2.0. */
  lemma NullIdInflatesGroupRate(rows: seq<Tx>)
    requires rows == [MiniBatch()[0].(txId := None), MiniBatch()[2]]
    ensures var m := KpisBy(rows, [ChannelDim]);
            && [Text("WEB")] in m
            && m[[Text("WEB")]].totalTx == 1 && m[[Text("WEB")]].approvedTx == 2
            && m[[Text("WEB")]].approvalRate == Finite(2.0)
  {
    var dims := [ChannelDim];
    var k: Key := [Text("WEB")];
    assert KeyOf(rows[0], dims) == k && KeyOf(rows[1], dims) == k;
    WhereKeepsAll(rows, (t: Tx) => KeyOf(t, dims) == k);
    assert Group(rows, dims, k) == rows;
    assert k in Keys(rows, dims);
    NullIdGroupCounts(rows);
    assert KpisBy(rows, dims)[k] == GroupKpisOf(rows);
  }

  /** The two rows of that group: one non-null id, two approvals. */
  lemma NullIdGroupCounts(rows: seq<Tx>)
    requires rows == [MiniBatch()[0].(txId := None), MiniBatch()[2]]
    ensures GroupKpisOf(rows).totalTx == 1 && GroupKpisOf(rows).approvedTx == 2
  {
    assert rows[1..][1..] == [];
    assert CountIds(rows) == 1;
    assert Statuses(rows) == [Some(APPROVED), Some(APPROVED)];
  }
}
