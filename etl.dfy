/** The cleaning transform: a raw batch of transaction records becomes a
    canonical clean batch by dropping rows, coercing and defaulting values,
    filtering amounts and removing duplicate ids, in that order. */
module Etl {
  import opened Records

  /** The raw `amount` cell: a null, a value the numeric parser rejects, or a number. */
  datatype RawAmount = Missing | Unparseable | Num(value: real)

  /** A raw record; the timestamp is already parsed (None when absent or unparseable). */
  datatype RawTx = RawTx(
    txId: Option<string>,
    merchantId: Option<string>,
    channel: Option<string>,
    country: Option<string>,
    amount: RawAmount,
    status: Option<string>,
    timestamp: Option<int>)

  const CHANNELS: seq<string> := ["WEB", "APP", "POS"]
  const STATUSES: seq<string> := ["APPROVED", "DECLINED", "REFUNDED", "CHARGEBACK"]
  const DEFAULT_CHANNEL: string := "WEB"
  const DEFAULT_STATUS: string := "DECLINED"
  const DEFAULT_COUNTRY: string := "CO"
  const AMOUNT_CAP: real := 10000.0

  // ---------------------------------------------------------------------------
  // Upper-casing (ASCII letters only)

  function UpperChar(c: char): char
  {
    if 'a' <= c <= 'z' then (c as int - 32) as char else c
  }

  function Upper(s: string): string
  {
    seq(|s|, i requires 0 <= i < |s| => UpperChar(s[i]))
  }

  predicate IsUpperCase(s: string)
  {
    forall i :: 0 <= i < |s| ==> !('a' <= s[i] <= 'z')
  }

  lemma UpperOfUpperCase(s: string)
    requires IsUpperCase(s)
    ensures Upper(s) == s
  {
  }

  lemma AllowedValuesAreUpperCase()
    ensures forall c :: c in CHANNELS ==> IsUpperCase(c)
    ensures forall s :: s in STATUSES ==> IsUpperCase(s)
  {
    assert IsUpperCase("WEB") && IsUpperCase("APP") && IsUpperCase("POS");
    assert IsUpperCase("APPROVED") && IsUpperCase("DECLINED");
    assert IsUpperCase("REFUNDED") && IsUpperCase("CHARGEBACK");
  }

  // ---------------------------------------------------------------------------
  // Per-column normalisation

  /** Upper-cases the channel, keeping it only where the ORIGINAL value is one
      of CHANNELS; every other value, null included, becomes WEB. */
  function NormalizeChannel(c: Option<string>): (r: string)
    ensures r in CHANNELS
    ensures c.Some? && c.value in CHANNELS ==> r == c.value
    ensures !(c.Some? && c.value in CHANNELS) ==> r == DEFAULT_CHANNEL
  {
    if c.Some? && c.value in CHANNELS then
      AllowedValuesAreUpperCase();
      UpperOfUpperCase(c.value);
      Upper(c.value)
    else DEFAULT_CHANNEL
  }

  /** Upper-cases the status, keeping it only where the ORIGINAL value is one
      of STATUSES; every other value, null included, becomes DECLINED. */
  function NormalizeStatus(s: Option<string>): (r: string)
    ensures r in STATUSES
    ensures s.Some? && s.value in STATUSES ==> r == s.value
    ensures !(s.Some? && s.value in STATUSES) ==> r == DEFAULT_STATUS
  {
    if s.Some? && s.value in STATUSES then
      AllowedValuesAreUpperCase();
      UpperOfUpperCase(s.value);
      Upper(s.value)
    else DEFAULT_STATUS
  }

  /** A null country becomes CO; any other value is kept. */
  function FillCountry(c: Option<string>): (r: string)
    ensures c.None? ==> r == DEFAULT_COUNTRY
    ensures c.Some? ==> r == c.value
  {
    if c.Some? then c.value else DEFAULT_COUNTRY
  }

  /** Numeric coercion followed by filling the nulls it produces with 0.0. */
  function CoerceAmount(a: RawAmount): (r: real)
    ensures a.Num? ==> r == a.value
    ensures !a.Num? ==> r == 0.0
  {
    match a
    case Num(v) => v
    case _ => 0.0
  }

  /** One row after the coercion and domain rules; id, merchant and timestamp pass through. */
  function Normalize(r: RawTx): (t: Tx)
    ensures t.txId == r.txId && t.merchantId == r.merchantId && t.timestamp == r.timestamp
    ensures t.channel.Some? && t.channel.value in CHANNELS
    ensures t.status.Some? && t.status.value in STATUSES
    ensures t.country.Some? && t.amount.Some?
  {
    Tx(r.txId, r.merchantId, Some(NormalizeChannel(r.channel)), Some(FillCountry(r.country)),
       Some(CoerceAmount(r.amount)), Some(NormalizeStatus(r.status)), r.timestamp)
  }

  function NormalizeAll(b: seq<RawTx>): (r: seq<Tx>)
    ensures |r| == |b|
    ensures forall i :: 0 <= i < |b| ==> r[i] == Normalize(b[i])
  {
    if b == [] then [] else [Normalize(b[0])] + NormalizeAll(b[1..])
  }

  // ---------------------------------------------------------------------------
  // Row filters and deduplication

  /** The null test applied BEFORE amount coercion: a null amount drops the
      row, an unparseable one does not. */
  predicate HasTimestampAndAmount(r: RawTx)
    ensures HasTimestampAndAmount(r) ==> Normalize(r).timestamp.Some?
    ensures r.amount.Missing? ==> !HasTimestampAndAmount(r)
    ensures r.timestamp.Some? && r.amount.Unparseable? ==>
              HasTimestampAndAmount(r) && Normalize(r).amount == Some(0.0)
  {
    r.timestamp.Some? && !r.amount.Missing?
  }

  /** The amount filter, applied after coercion; both bounds are inclusive. */
  predicate AmountInBounds(t: Tx)
    ensures AmountInBounds(t) ==> t.amount.Some? && 0.0 <= t.amount.value <= AMOUNT_CAP
    ensures t.amount == Some(0.0) ==> AmountInBounds(t)
    ensures t.amount == Some(AMOUNT_CAP) ==> AmountInBounds(t)
    ensures t.amount.None? ==> !AmountInBounds(t)
  {
    t.amount.Some? && 0.0 <= t.amount.value <= AMOUNT_CAP
  }

  /** Keeps the first row of every `tx_id` whose id is not in `seen`. */
  function DedupFrom(rows: seq<Tx>, seen: set<Option<string>>): (r: seq<Tx>)
    ensures |r| <= |rows|
    ensures forall k :: 0 <= k < |r| ==> r[k] in rows && r[k].txId !in seen
    ensures DistinctIds(r)
    decreases |rows|
  {
    if rows == [] then []
    else if rows[0].txId in seen then DedupFrom(rows[1..], seen)
    else [rows[0]] + DedupFrom(rows[1..], seen + {rows[0].txId})
  }

  function DedupById(rows: seq<Tx>): (r: seq<Tx>)
    ensures |r| <= |rows| && DistinctIds(r)
    ensures forall k :: 0 <= k < |r| ==> r[k] in rows
    ensures DistinctIds(rows) ==> r == rows
  {
    if DistinctIds(rows) then DedupOfDistinct(rows, {}); DedupFrom(rows, {})
    else DedupFrom(rows, {})
  }

  /** Rows that reach the deduplication step: normalised rows that had a
      timestamp and a non-null amount and whose coerced amount is in bounds. */
  function Survivors(b: seq<RawTx>): (r: seq<Tx>)
    ensures |r| <= |b|
    ensures forall k :: 0 <= k < |r| ==> CleanRow(r[k])
  {
    var d := Where(b, HasTimestampAndAmount);
    var n := NormalizeAll(d);
    assert forall t :: t in Where(n, AmountInBounds) ==> CleanRow(t) by {
      forall t | t in Where(n, AmountInBounds) ensures CleanRow(t) {
        WhereMembers(n, AmountInBounds);
        WhereMembers(b, HasTimestampAndAmount);
        assert t in n;
        var i :| 0 <= i < |n| && n[i] == t;
        assert d[i] in d;
      }
    }
    Where(n, AmountInBounds)
  }

  /** The invariants every cleaned row satisfies. */
  predicate CleanRow(t: Tx)
  {
    && t.timestamp.Some?
    && t.amount.Some? && 0.0 <= t.amount.value <= AMOUNT_CAP
    && t.channel.Some? && t.channel.value in CHANNELS
    && t.status.Some? && t.status.value in STATUSES
    && t.country.Some?
  }

  /** The cleaning transform. */
  function Clean(b: seq<RawTx>): (r: seq<Tx>)
    ensures |r| <= |b|
    ensures forall k :: 0 <= k < |r| ==> CleanRow(r[k])
    ensures DistinctIds(r)
  {
    DedupById(Survivors(b))
  }

  // ---------------------------------------------------------------------------
  // Properties of deduplication

  lemma {:induction false} DedupIsSubseq(rows: seq<Tx>, seen: set<Option<string>>)
    ensures Subseq(DedupFrom(rows, seen), rows)
    decreases |rows|
  {
    if rows != [] {
      DedupIsSubseq(rows[1..], seen + {rows[0].txId});
      DedupIsSubseq(rows[1..], seen);
      var r := DedupFrom(rows, seen);
      if rows[0].txId in seen {
        SubseqWeaken(r, rows[1..], rows[0]);
        assert [rows[0]] + rows[1..] == rows;
      } else {
        assert r[1..] == DedupFrom(rows[1..], seen + {rows[0].txId});
      }
    }
  }

  /** Every kept row is the first row of the input with its id. */
  lemma {:induction false} DedupKeepsFirst(rows: seq<Tx>, seen: set<Option<string>>, k: nat)
    requires k < |DedupFrom(rows, seen)|
    ensures exists i :: 0 <= i < |rows| && rows[i] == DedupFrom(rows, seen)[k]
                        && forall j :: 0 <= j < i ==> rows[j].txId != rows[i].txId
    decreases |rows|
  {
    var r := DedupFrom(rows, seen);
    if rows[0].txId in seen {
      DedupKeepsFirst(rows[1..], seen, k);
      var i :| 0 <= i < |rows[1..]| && rows[1..][i] == r[k]
               && forall j :: 0 <= j < i ==> rows[1..][j].txId != rows[1..][i].txId;
      assert rows[i + 1] == r[k];
      forall j | 0 <= j < i + 1 ensures rows[j].txId != rows[i + 1].txId {
        if j > 0 {
          assert rows[j] == rows[1..][j - 1];
        }
      }
    } else if k > 0 {
      var seen' := seen + {rows[0].txId};
      assert r[k] == DedupFrom(rows[1..], seen')[k - 1];
      DedupKeepsFirst(rows[1..], seen', k - 1);
      var i :| 0 <= i < |rows[1..]| && rows[1..][i] == r[k]
               && forall j :: 0 <= j < i ==> rows[1..][j].txId != rows[1..][i].txId;
      assert rows[i + 1] == r[k];
      forall j | 0 <= j < i + 1 ensures rows[j].txId != rows[i + 1].txId {
        if j > 0 {
          assert rows[j] == rows[1..][j - 1];
        }
      }
    } else {
      assert rows[0] == r[0];
    }
  }

  /** Every id of the input that is not in `seen` is kept. */
  lemma {:induction false} DedupKeepsEveryId(rows: seq<Tx>, seen: set<Option<string>>, i: nat)
    requires i < |rows| && rows[i].txId !in seen
    ensures exists k :: 0 <= k < |DedupFrom(rows, seen)| && DedupFrom(rows, seen)[k].txId == rows[i].txId
    decreases |rows|
  {
    var r := DedupFrom(rows, seen);
    if i == 0 {
      assert r[0] == rows[0];
    } else if rows[0].txId in seen {
      DedupKeepsEveryId(rows[1..], seen, i - 1);
    } else if rows[i].txId == rows[0].txId {
      assert r[0] == rows[0];
    } else {
      var seen' := seen + {rows[0].txId};
      DedupKeepsEveryId(rows[1..], seen', i - 1);
      var k :| 0 <= k < |DedupFrom(rows[1..], seen')| && DedupFrom(rows[1..], seen')[k].txId == rows[i].txId;
      assert r[k + 1] == DedupFrom(rows[1..], seen')[k];
    }
  }

  /** A batch whose ids are already distinct (and unseen) is left as it is. */
  lemma {:induction false} DedupOfDistinct(rows: seq<Tx>, seen: set<Option<string>>)
    requires DistinctIds(rows)
    requires forall i :: 0 <= i < |rows| ==> rows[i].txId !in seen
    ensures DedupFrom(rows, seen) == rows
    decreases |rows|
  {
    if rows != [] {
      var tail, seen' := rows[1..], seen + {rows[0].txId};
      DistinctTail(rows);
      forall i | 0 <= i < |tail| ensures tail[i].txId !in seen' {
        assert tail[i] == rows[i + 1];
      }
      DedupOfDistinct(tail, seen');
      assert [rows[0]] + tail == rows;
    }
  }

  // ---------------------------------------------------------------------------
  // Properties of the cleaning transform

  /** Survivors keep their input order: the clean batch is a subsequence of the
      normalised input. */
  lemma CleanKeepsOrder(b: seq<RawTx>)
    ensures Subseq(Clean(b), NormalizeAll(b))
  {
    var d := Where(b, HasTimestampAndAmount);
    var n := NormalizeAll(d);
    var s := Where(n, AmountInBounds);
    var c := Clean(b);
    assert c == DedupFrom(s, {});
    DedupIsSubseq(s, {});
    WhereIsSubseq(n, AmountInBounds);
    WhereIsSubseq(b, HasTimestampAndAmount);
    NormalizeKeepsSubseq(d, b);
    SubseqTransitive(c, s, n);
    SubseqTransitive(c, n, NormalizeAll(b));
  }

  /** No row is invented: every clean row is the normalisation of an input row
      that had a timestamp and a non-null amount. */
  lemma CleanRowsComeFromInput(b: seq<RawTx>, t: Tx)
    requires t in Clean(b)
    ensures exists i :: 0 <= i < |b| && HasTimestampAndAmount(b[i]) && t == Normalize(b[i])
  {
    var d := Where(b, HasTimestampAndAmount);
    var n := NormalizeAll(d);
    var s := Where(n, AmountInBounds);
    assert Clean(b) == DedupFrom(s, {});
    WhereMembers(n, AmountInBounds);
    WhereMembers(b, HasTimestampAndAmount);
    assert t in s;
    assert t in n;
    var k :| 0 <= k < |n| && n[k] == t;
    assert d[k] in d;
    var i :| 0 <= i < |b| && b[i] == d[k];
  }

  lemma {:induction false} NormalizeKeepsSubseq(a: seq<RawTx>, b: seq<RawTx>)
    requires Subseq(a, b)
    ensures Subseq(NormalizeAll(a), NormalizeAll(b))
    decreases |b|
  {
    if a != [] {
      assert NormalizeAll(b)[1..] == NormalizeAll(b[1..]);
      if a[0] == b[0] {
        NormalizeKeepsSubseq(a[1..], b[1..]);
        assert NormalizeAll(a)[1..] == NormalizeAll(a[1..]);
      } else {
        NormalizeKeepsSubseq(a, b[1..]);
        if NormalizeAll(a)[0] == NormalizeAll(b)[0] {
          SubseqDropHead(NormalizeAll(a), NormalizeAll(b[1..]));
          assert NormalizeAll(a)[1..] == NormalizeAll(a[1..]);
        }
      }
    }
  }

  /** First occurrence wins: each clean row is the first surviving row with its
      id. */
  lemma CleanKeepsFirstOccurrence(b: seq<RawTx>)
    ensures forall k :: 0 <= k < |Clean(b)| ==>
              exists i :: 0 <= i < |Survivors(b)| && Survivors(b)[i] == Clean(b)[k]
                          && forall j :: 0 <= j < i ==> Survivors(b)[j].txId != Survivors(b)[i].txId
  {
    var s := Survivors(b);
    var c := Clean(b);
    assert c == DedupFrom(s, {});
    forall k | 0 <= k < |c|
      ensures exists i :: 0 <= i < |s| && s[i] == c[k] && forall j :: 0 <= j < i ==> s[j].txId != s[i].txId
    {
      DedupKeepsFirst(s, {}, k);
    }
  }

  /** No surviving id is lost by deduplication. */
  lemma CleanKeepsEveryId(b: seq<RawTx>)
    ensures forall i :: 0 <= i < |Survivors(b)| ==>
              exists k :: 0 <= k < |Clean(b)| && Clean(b)[k].txId == Survivors(b)[i].txId
  {
    var s := Survivors(b);
    var c := Clean(b);
    assert c == DedupFrom(s, {});
    forall i | 0 <= i < |s|
      ensures exists k :: 0 <= k < |c| && c[k].txId == s[i].txId
    {
      DedupKeepsEveryId(s, {}, i);
    }
  }

  /** Every input row that passes both filters has its id in the clean batch
      (as itself, or as an earlier row with the same id). */
  lemma CleanKeepsEveryInputId(b: seq<RawTx>, i: nat)
    requires i < |b| && HasTimestampAndAmount(b[i]) && AmountInBounds(Normalize(b[i]))
    ensures exists k :: 0 <= k < |Clean(b)| && Clean(b)[k].txId == b[i].txId
  {
    var d := Where(b, HasTimestampAndAmount);
    WhereMembers(b, HasTimestampAndAmount);
    assert b[i] in d;
    var j :| 0 <= j < |d| && d[j] == b[i];
    var n := NormalizeAll(d);
    WhereMembers(n, AmountInBounds);
    assert n[j] in Survivors(b);
    var m :| 0 <= m < |Survivors(b)| && Survivors(b)[m] == n[j];
    CleanKeepsEveryId(b);
  }

  /** A non-null amount that does not parse becomes 0.0 and its row is not
      dropped: its id is present in the clean batch. */
  lemma UnparseableAmountSurvives(b: seq<RawTx>, i: nat)
    requires i < |b| && b[i].timestamp.Some? && b[i].amount.Unparseable?
    ensures Normalize(b[i]).amount == Some(0.0)
    ensures exists k :: 0 <= k < |Clean(b)| && Clean(b)[k].txId == b[i].txId
  {
    CleanKeepsEveryInputId(b, i);
  }

  // ---------------------------------------------------------------------------
  // Idempotence

  /** Writes a clean row back as a raw record (an amount becomes a parsed number). */
  function ToRaw(t: Tx): RawTx
  {
    RawTx(t.txId, t.merchantId, t.channel, t.country,
          if t.amount.Some? then Num(t.amount.value) else Missing,
          t.status, t.timestamp)
  }

  function ToRawAll(rows: seq<Tx>): seq<RawTx>
  {
    seq(|rows|, i requires 0 <= i < |rows| => ToRaw(rows[i]))
  }

  /** Cleaning a batch that is already clean changes nothing. */
  lemma CleanIdempotent(b: seq<RawTx>)
    ensures Clean(ToRawAll(Clean(b))) == Clean(b)
  {
    var c := Clean(b);
    assert c == DedupFrom(Survivors(b), {});
    var raw := ToRawAll(c);
    WhereKeepsAll(raw, HasTimestampAndAmount);
    var n := NormalizeAll(raw);
    assert n == c by {
      forall k | 0 <= k < |c| ensures n[k] == c[k] {
        assert Normalize(ToRaw(c[k])) == c[k];
      }
    }
    WhereKeepsAll(n, AmountInBounds);
    DedupOfDistinct(c, {});
  }

  // ---------------------------------------------------------------------------
  // Scenarios

  /** Membership is tested on the original value, so lower-case spellings of
      allowed values fall back to the defaults instead of being upper-cased. */
  lemma LowerCaseFallsBackToDefault()
    ensures NormalizeChannel(Some("app")) == "WEB"
    ensures NormalizeStatus(Some("approved")) == "DECLINED"
    ensures NormalizeStatus(Some("SOMETHING_ELSE")) == "DECLINED"
    ensures NormalizeChannel(Some("POS")) == "POS"
  {
    assert "app" != "WEB" && "app" != "APP" && "app" != "POS";
    assert "approved" != "APPROVED";
  }

  /** Two rows sharing id A1: only the first survives cleaning. */
  lemma DuplicateIdKeepsFirst()
    ensures var r1 := RawTx(Some("A1"), Some("M1"), Some("WEB"), Some("CO"), Num(100.0), Some("APPROVED"), Some(1735725600));
            var r2 := RawTx(Some("A1"), Some("M1"), Some("APP"), Some("CO"), Num(50.0), Some("DECLINED"), Some(1735729200));
            Clean([r1, r2]) == [Normalize(r1)]
  {
    var r1 := RawTx(Some("A1"), Some("M1"), Some("WEB"), Some("CO"), Num(100.0), Some("APPROVED"), Some(1735725600));
    var r2 := RawTx(Some("A1"), Some("M1"), Some("APP"), Some("CO"), Num(50.0), Some("DECLINED"), Some(1735729200));
    WhereKeepsAll([r1, r2], HasTimestampAndAmount);
    assert NormalizeAll([r1, r2]) == [Normalize(r1), Normalize(r2)];
    WhereKeepsAll([Normalize(r1), Normalize(r2)], AmountInBounds);
    assert Survivors([r1, r2]) == [Normalize(r1), Normalize(r2)];
  }
}
