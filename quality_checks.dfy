/** The quality checker: a fixed battery of eight structural and domain checks
    over a transaction dataframe, each giving PASS or FAIL and the rows that
    failed it, followed by a summary of the failures. */
module QualityChecks {
  import opened Records
  import Etl

  /** A column label of a dataframe: one of the seven the pipeline produces,
      or any other label. */
  datatype Column =
    | TxIdCol | MerchantIdCol | ChannelCol | CountryCol | AmountCol | StatusCol | TimestampCol
    | OtherCol(name: string)

  const EXPECTED_COLS: seq<Column> :=
    [TxIdCol, MerchantIdCol, ChannelCol, CountryCol, AmountCol, StatusCol, TimestampCol]
  /** The labels of EXPECTED_COLS, in the same order. */
  const EXPECTED_LABELS: seq<string> :=
    ["tx_id", "merchant_id", "channel", "country", "amount", "status", "tx_timestamp"]

  /** The label the column carries in the dataframe. */
  function Label(c: Column): string
  {
    match c
    case TxIdCol => "tx_id"
    case MerchantIdCol => "merchant_id"
    case ChannelCol => "channel"
    case CountryCol => "country"
    case AmountCol => "amount"
    case StatusCol => "status"
    case TimestampCol => "tx_timestamp"
    case OtherCol(l) => l
  }

  /** Reads a label as a column: the seven expected labels are recognised,
      every other label is kept as it is. */
  function ColumnOf(l: string): (c: Column)
    ensures Label(c) == l
    ensures c.OtherCol? <==> forall e :: e in EXPECTED_COLS ==> Label(e) != l
  {
    if l == "tx_id" then TxIdCol
    else if l == "merchant_id" then MerchantIdCol
    else if l == "channel" then ChannelCol
    else if l == "country" then CountryCol
    else if l == "amount" then AmountCol
    else if l == "status" then StatusCol
    else if l == "tx_timestamp" then TimestampCol
    else OtherCol(l)
  }

  /** A column read back from its label is itself: this rules out an
      `OtherCol` carrying one of the seven expected labels. */
  predicate IsReadColumn(c: Column)
  {
    match c
    case OtherCol(l) => ColumnOf(l).OtherCol?
    case _ => true
  }

  /** Columns read from labels are determined by their labels, so comparing
      them is comparing their labels. */
  lemma LabelsIdentifyColumns(c: Column, d: Column)
    requires IsReadColumn(c) && IsReadColumn(d)
    ensures Label(c) == Label(d) <==> c == d
  {
    if Label(c) == Label(d) {
      assert ColumnOf(Label(c)) == c && ColumnOf(Label(d)) == d;
    }
  }

  /** The frame columns of a list of labels, in the same order. */
  function ColumnsOf(labels: seq<string>): (cs: seq<Column>)
    ensures |cs| == |labels|
  {
    seq(|labels|, i requires 0 <= i < |labels| => ColumnOf(labels[i]))
  }

  /** Each column read from a label carries that label and is in read form. */
  lemma ColumnsOfLabels(labels: seq<string>)
    ensures var cs := ColumnsOf(labels);
            forall i :: 0 <= i < |labels| ==> Label(cs[i]) == labels[i] && IsReadColumn(cs[i])
  {
  }

  const STATUS_SET: set<string> := {"APPROVED", "DECLINED", "REFUNDED", "CHARGEBACK"}
  /** STATUS_SET in sorted order, as reported in the status_domain entry. */
  const ALLOWED_SORTED: seq<string> := ["APPROVED", "CHARGEBACK", "DECLINED", "REFUNDED"]

  /** 2018-01-01 00:00 and 2030-12-31 00:00 in seconds since 1970-01-01 00:00. */
  const TIME_MIN: int := 1514764800
  const TIME_MAX: int := 1924905600
  const TIME_WINDOW: seq<string> := ["2018-01-01T00:00:00", "2030-12-31T00:00:00"]
  const AMOUNT_MIN: real := 0.0
  const AMOUNT_MAX: real := 100000.0

  const CHECK_NAMES: seq<string> := [
    "schema_columns", "not_null_keys", "not_null_timestamp", "not_null_status",
    "status_domain", "unique_tx_id", "amount_range", "timestamp_window"]

  /** A dataframe: its column labels and its rows. */
  datatype Frame = Frame(columns: seq<string>, rows: seq<Tx>)

  /** The columns the checker indexes directly, each under exactly one label.
      Without one of them it raises; with a label repeated, `df[label]` is a
      frame rather than a column and the check does not report PASS. */
  predicate HasIndexedColumns(f: Frame)
  {
    var labels := multiset(f.columns);
    && labels["tx_id"] == 1 && labels["tx_timestamp"] == 1
    && labels["status"] == 1 && labels["amount"] == 1
  }

  /** A repeated label is never one of the indexed ones. */
  lemma {:induction false} IndexedLabelsNotRepeated(f: Frame, i: nat, j: nat)
    requires HasIndexedColumns(f)
    requires i < j < |f.columns| && f.columns[i] == f.columns[j]
    ensures f.columns[i] !in ["tx_id", "tx_timestamp", "status", "amount"]
  {
    var cs := f.columns;
    assert cs == cs[..j] + cs[j..];
    assert cs[i] in cs[..j] && cs[j] in cs[j..];
    assert multiset(cs)[cs[i]] == multiset(cs[..j])[cs[i]] + multiset(cs[j..])[cs[i]];
  }

  datatype Verdict = Pass | Fail

  /** The check-specific fields of a report entry. */
  datatype Detail =
    | Columns(missing: seq<Column>, extra: seq<Column>)
    | FailedRows(failedRows: Option<seq<Tx>>)
    | Domain(allowed: seq<string>, failedRows: Option<seq<Tx>>)
    | AmountRange(min: real, max: real, failedRows: Option<seq<Tx>>)
    | TimeWindow(window: seq<string>, failedRows: Option<seq<Tx>>)

  datatype Check = Check(name: string, status: Verdict, detail: Detail)
  datatype Summary = Summary(rowsEvaluated: nat, checksTotal: nat, checksFailed: nat, passed: bool)
  datatype Report = Report(checks: seq<Check>, summary: Summary)

  // ---------------------------------------------------------------------------
  // Schema

  /** Expected columns absent from the frame, in the order of EXPECTED_COLS. */
  function MissingColumns(columns: seq<Column>): (r: seq<Column>)
    ensures |r| <= |EXPECTED_COLS|
  {
    Without(EXPECTED_COLS, columns)
  }

  /** Columns of the frame that are not expected, in the frame's order. */
  function ExtraColumns(columns: seq<Column>): (r: seq<Column>)
    ensures Subseq(r, columns)
  {
    var isExtra := (c: Column) => c.OtherCol?;
    WhereIsSubseq(columns, isExtra);
    Where(columns, isExtra)
  }

  /** FAIL exactly when an expected column is missing; extra columns are only listed. */
  function SchemaCheck(columns: seq<Column>): (c: Check)
    ensures c.name == "schema_columns" && c.detail.Columns?
    ensures c.status == Fail <==> exists e :: e in EXPECTED_COLS && e !in columns
  {
    var missing := MissingColumns(columns);
    WithoutIsWhere(EXPECTED_COLS, columns);
    WhereMembers(EXPECTED_COLS, c => c !in columns);
    assert missing != [] ==> missing[0] in missing;
    Check("schema_columns", if missing == [] then Pass else Fail,
          Columns(missing, ExtraColumns(columns)))
  }

  /** A column is expected exactly when it is not an arbitrary label. */
  lemma ExpectedIffNamed(e: Column)
    ensures e in EXPECTED_COLS <==> !e.OtherCol?
  {
    if !e.OtherCol? {
      match e
      case TxIdCol => assert EXPECTED_COLS[0] == e;
      case MerchantIdCol => assert EXPECTED_COLS[1] == e;
      case ChannelCol => assert EXPECTED_COLS[2] == e;
      case CountryCol => assert EXPECTED_COLS[3] == e;
      case AmountCol => assert EXPECTED_COLS[4] == e;
      case StatusCol => assert EXPECTED_COLS[5] == e;
      case TimestampCol => assert EXPECTED_COLS[6] == e;
    }
  }

  /** The schema entry lists exactly the missing expected columns (in the
      expected order) and exactly the unexpected ones (in the frame's order),
      and fails exactly when an expected column is missing, so extra columns
      never cause a failure. */
  lemma SchemaColumnsReported(columns: seq<Column>)
    ensures var c := SchemaCheck(columns);
            && c.detail.Columns?
            && (forall e :: e in c.detail.missing <==> e in EXPECTED_COLS && e !in columns)
            && Subseq(c.detail.missing, EXPECTED_COLS)
            && (forall e :: e in c.detail.extra <==> e in columns && e !in EXPECTED_COLS)
            && Subseq(c.detail.extra, columns)
            && (c.status == Fail <==> exists e :: e in EXPECTED_COLS && e !in columns)
  {
    var isMissing := (c: Column) => c !in columns;
    var isExtra := (c: Column) => c.OtherCol?;
    assert SchemaCheck(columns).detail == Columns(MissingColumns(columns), ExtraColumns(columns));
    WithoutIsWhere(EXPECTED_COLS, columns);
    WhereIsSubseq(EXPECTED_COLS, isMissing);
    WhereMembers(EXPECTED_COLS, isMissing);
    WhereMembers(columns, isExtra);
    forall e: Column ensures e in ExtraColumns(columns) <==> e in columns && e !in EXPECTED_COLS {
      ExpectedIffNamed(e);
    }
  }

  /** An expected column is among the columns of a list of labels exactly
      when its label is in the list. */
  lemma ExpectedAmongLabels(labels: seq<string>, e: Column)
    requires e in EXPECTED_COLS
    ensures e in ColumnsOf(labels) <==> Label(e) in labels
  {
    var cs := ColumnsOf(labels);
    ColumnsOfLabels(labels);
    if Label(e) in labels {
      var i :| 0 <= i < |labels| && labels[i] == Label(e);
      ExpectedIffNamed(e);
      LabelsIdentifyColumns(cs[i], e);
    }
  }

  /** An extra column of a list of labels has a label of the list that no
      expected column carries. */
  lemma ExtraAmongLabels(labels: seq<string>, x: Column)
    requires x in ColumnsOf(labels) && x !in EXPECTED_COLS
    ensures Label(x) in labels && forall e :: e in EXPECTED_COLS ==> Label(e) != Label(x)
  {
    var cs := ColumnsOf(labels);
    ColumnsOfLabels(labels);
    var i :| 0 <= i < |cs| && cs[i] == x;
    forall e | e in EXPECTED_COLS ensures Label(e) != Label(x) {
      ExpectedIffNamed(e);
      LabelsIdentifyColumns(x, e);
    }
  }

  /** The schema entry stated over the frame's labels: FAIL exactly when one
      of the seven expected labels is absent; the extra columns are exactly
      the labels of the frame that no expected column carries. */
  lemma SchemaOverLabels(labels: seq<string>)
    ensures var c := SchemaCheck(ColumnsOf(labels));
            && (c.status == Fail <==> exists e :: e in EXPECTED_COLS && Label(e) !in labels)
            && (forall x :: x in c.detail.extra ==>
                  Label(x) in labels && forall e :: e in EXPECTED_COLS ==> Label(e) != Label(x))
            && (forall i :: 0 <= i < |labels| && (forall e :: e in EXPECTED_COLS ==> Label(e) != labels[i])
                  ==> OtherCol(labels[i]) in c.detail.extra)
  {
    var cs := ColumnsOf(labels);
    var c := SchemaCheck(cs);
    SchemaColumnsReported(cs);
    SchemaFailsOverLabels(labels);
    forall x | x in c.detail.extra
      ensures Label(x) in labels && forall e :: e in EXPECTED_COLS ==> Label(e) != Label(x)
    {
      ExtraAmongLabels(labels, x);
    }
    forall i | 0 <= i < |labels| && (forall e :: e in EXPECTED_COLS ==> Label(e) != labels[i])
      ensures OtherCol(labels[i]) in c.detail.extra
    {
      UnexpectedLabelIsExtra(labels, i);
    }
  }

  /** schema_columns fails exactly when an expected label is absent. */
  lemma SchemaFailsOverLabels(labels: seq<string>)
    ensures SchemaCheck(ColumnsOf(labels)).status == Fail <==> exists e :: e in EXPECTED_COLS && Label(e) !in labels
  {
    var cs := ColumnsOf(labels);
    SchemaColumnsReported(cs);
    forall e | e in EXPECTED_COLS ensures e in cs <==> Label(e) in labels {
      ExpectedAmongLabels(labels, e);
    }
  }

  /** A label that no expected column carries is listed as an extra column. */
  lemma UnexpectedLabelIsExtra(labels: seq<string>, i: nat)
    requires i < |labels| && forall e :: e in EXPECTED_COLS ==> Label(e) != labels[i]
    ensures OtherCol(labels[i]) in SchemaCheck(ColumnsOf(labels)).detail.extra
  {
    var cs := ColumnsOf(labels);
    ColumnsOfLabels(labels);
    SchemaColumnsReported(cs);
    assert cs[i] == OtherCol(labels[i]);
    ExpectedIffNamed(cs[i]);
  }

  // ---------------------------------------------------------------------------
  // Row predicates and failing subsets

  predicate NullTxId(t: Tx) { t.txId.None? }
  predicate NullTimestamp(t: Tx) { t.timestamp.None? }
  predicate NullStatus(t: Tx) { t.status.None? }

  /** A null status is not a member of the set either. */
  predicate BadStatus(t: Tx)
  {
    t.status.None? || t.status.value !in STATUS_SET
  }

  predicate BadAmount(t: Tx)
  {
    t.amount.None? || t.amount.value < AMOUNT_MIN || t.amount.value > AMOUNT_MAX
  }

  predicate BadTime(t: Tx)
  {
    t.timestamp.None? || t.timestamp.value < TIME_MIN || t.timestamp.value > TIME_MAX
  }

  /** A row that no row check rejects on its own. */
  predicate WellFormedRow(t: Tx)
  {
    !NullTxId(t) && !NullTimestamp(t) && !NullStatus(t) && !BadStatus(t) && !BadAmount(t) && !BadTime(t)
  }

  /** Number of rows whose id equals `id` (null ids compare equal to each other). */
  function Occurrences(rows: seq<Tx>, id: Option<string>): (n: nat)
    ensures n <= |rows|
  {
    if rows == [] then 0
    else (if rows[0].txId == id then 1 else 0) + Occurrences(rows[1..], id)
  }

  lemma {:induction false} OccurrencesOfPair(rows: seq<Tx>, i: nat, j: nat)
    requires i < j < |rows| && rows[i].txId == rows[j].txId
    ensures Occurrences(rows, rows[i].txId) >= 2
  {
    if i == 0 {
      OccurrencesAtLeastOne(rows[1..], j - 1);
    } else {
      OccurrencesOfPair(rows[1..], i - 1, j - 1);
    }
  }

  lemma {:induction false} OccurrencesAtLeastOne(rows: seq<Tx>, i: nat)
    requires i < |rows|
    ensures Occurrences(rows, rows[i].txId) >= 1
  {
    if i > 0 {
      OccurrencesAtLeastOne(rows[1..], i - 1);
    }
  }

  lemma {:induction false} PairOfOccurrences(rows: seq<Tx>, id: Option<string>)
    requires Occurrences(rows, id) >= 2
    ensures exists i, j :: 0 <= i < j < |rows| && rows[i].txId == id && rows[j].txId == id
  {
    if rows[0].txId == id {
      OccurrenceWitness(rows[1..], id);
      var j :| 0 <= j < |rows[1..]| && rows[1..][j].txId == id;
      assert rows[j + 1].txId == id;
    } else {
      PairOfOccurrences(rows[1..], id);
      var i, j :| 0 <= i < j < |rows[1..]| && rows[1..][i].txId == id && rows[1..][j].txId == id;
      assert rows[i + 1].txId == id && rows[j + 1].txId == id;
    }
  }

  lemma {:induction false} OccurrenceWitness(rows: seq<Tx>, id: Option<string>)
    requires Occurrences(rows, id) >= 1
    ensures exists j :: 0 <= j < |rows| && rows[j].txId == id
  {
    if rows[0].txId != id {
      OccurrenceWitness(rows[1..], id);
      var j :| 0 <= j < |rows[1..]| && rows[1..][j].txId == id;
      assert rows[j + 1].txId == id;
    }
  }

  /** The row's id occurs at least twice in the batch. */
  predicate IdRepeated(rows: seq<Tx>, t: Tx)
    ensures IdRepeated(rows, t) <==>
              exists i, j :: 0 <= i < j < |rows| && rows[i].txId == t.txId && rows[j].txId == t.txId
  {
    RepeatedIffPair(rows, t.txId);
    Occurrences(rows, t.txId) > 1
  }

  /** An id occurs at least twice exactly when two rows carry it. */
  lemma RepeatedIffPair(rows: seq<Tx>, id: Option<string>)
    ensures Occurrences(rows, id) > 1 <==>
              exists i, j :: 0 <= i < j < |rows| && rows[i].txId == id && rows[j].txId == id
  {
    if Occurrences(rows, id) > 1 {
      PairOfOccurrences(rows, id);
    }
    if exists i, j :: 0 <= i < j < |rows| && rows[i].txId == id && rows[j].txId == id {
      var i, j :| 0 <= i < j < |rows| && rows[i].txId == id && rows[j].txId == id;
      OccurrencesOfPair(rows, i, j);
    }
  }

  /** Every row whose id occurs more than once, the first occurrence included. */
  function DuplicateIdRows(rows: seq<Tx>): (r: seq<Tx>)
    ensures forall t :: t in r ==> t in rows && IdRepeated(rows, t)
    ensures forall t :: t in rows && IdRepeated(rows, t) ==> t in r
    ensures Subseq(r, rows)
  {
    WhereMembers(rows, (t: Tx) => IdRepeated(rows, t));
    WhereIsSubseq(rows, (t: Tx) => IdRepeated(rows, t));
    Where(rows, (t: Tx) => IdRepeated(rows, t))
  }

  /** unique_tx_id exports both rows of every pair that shares an id ... */
  lemma DuplicatesIncludeEveryCopy(rows: seq<Tx>, i: nat, j: nat)
    requires i < j < |rows| && rows[i].txId == rows[j].txId
    ensures rows[i] in DuplicateIdRows(rows) && rows[j] in DuplicateIdRows(rows)
  {
    OccurrencesOfPair(rows, i, j);
    assert IdRepeated(rows, rows[i]) && IdRepeated(rows, rows[j]);
  }

  /** ... and only rows whose id some other row shares. */
  lemma DuplicatesHaveACopy(rows: seq<Tx>, t: Tx)
    requires t in DuplicateIdRows(rows)
    ensures exists i, j :: 0 <= i < j < |rows| && rows[i].txId == t.txId && rows[j].txId == t.txId
  {
    PairOfOccurrences(rows, t.txId);
  }

  /** No row is exported exactly when the ids are pairwise distinct. */
  lemma NoDuplicatesIffDistinct(rows: seq<Tx>)
    ensures DuplicateIdRows(rows) == [] <==> DistinctIds(rows)
  {
    var r := DuplicateIdRows(rows);
    if r != [] {
      assert r[0] in r;
      DuplicatesHaveACopy(rows, r[0]);
    }
    if !DistinctIds(rows) {
      var i, j :| 0 <= i < j < |rows| && rows[i].txId == rows[j].txId;
      DuplicatesIncludeEveryCopy(rows, i, j);
    }
  }

  /** The failing subset as reported: None when no row failed. */
  function FailExport(failing: seq<Tx>): (r: Option<seq<Tx>>)
    ensures r.None? <==> failing == []
    ensures r.Some? ==> r.value == failing
  {
    if failing == [] then None else Some(failing)
  }

  function VerdictOf(failing: seq<Tx>): Verdict
  {
    if failing == [] then Pass else Fail
  }

  lemma VerdictOfWhere(rows: seq<Tx>, p: Tx -> bool)
    ensures VerdictOf(Where(rows, p)) == Fail <==> exists i :: 0 <= i < |rows| && p(rows[i])
  {
    WhereMembers(rows, p);
  }

  // ---------------------------------------------------------------------------
  // The battery

  /** The k-th report entry: the schema entry, then the seven row checks. */
  function Entry(f: Frame, k: nat): (c: Check)
    requires HasIndexedColumns(f) && k < 8
    ensures c.name == CHECK_NAMES[k]
  {
    if k == 0 then SchemaCheck(ColumnsOf(f.columns))
    else if k == 1 then
      var nullKeys := Where(f.rows, NullTxId);
      Check("not_null_keys", VerdictOf(nullKeys), FailedRows(FailExport(nullKeys)))
    else if k == 2 then
      var nullTs := Where(f.rows, NullTimestamp);
      Check("not_null_timestamp", VerdictOf(nullTs), FailedRows(FailExport(nullTs)))
    else if k == 3 then
      var nullStatus := Where(f.rows, NullStatus);
      Check("not_null_status", VerdictOf(nullStatus), FailedRows(FailExport(nullStatus)))
    else if k == 4 then
      var badStatus := Where(f.rows, BadStatus);
      Check("status_domain", VerdictOf(badStatus), Domain(ALLOWED_SORTED, FailExport(badStatus)))
    else if k == 5 then
      var dups := DuplicateIdRows(f.rows);
      Check("unique_tx_id", VerdictOf(dups), FailedRows(FailExport(dups)))
    else if k == 6 then
      var badAmount := Where(f.rows, BadAmount);
      Check("amount_range", VerdictOf(badAmount), AmountRange(AMOUNT_MIN, AMOUNT_MAX, FailExport(badAmount)))
    else
      var badTime := Where(f.rows, BadTime);
      Check("timestamp_window", VerdictOf(badTime), TimeWindow(TIME_WINDOW, FailExport(badTime)))
  }

  /** The eight report entries, in their fixed order. */
  function Checks(f: Frame): (cs: seq<Check>)
    requires HasIndexedColumns(f)
    ensures |cs| == 8
    ensures forall k :: 0 <= k < 8 ==> cs[k].name == CHECK_NAMES[k]
  {
    seq(8, k requires 0 <= k < 8 => Entry(f, k))
  }

  /** The eight entries written out one by one. */
  lemma ChecksListed(f: Frame)
    requires HasIndexedColumns(f)
    ensures Checks(f) == [Entry(f, 0), Entry(f, 1), Entry(f, 2), Entry(f, 3),
                          Entry(f, 4), Entry(f, 5), Entry(f, 6), Entry(f, 7)]
  {
    var cs := Checks(f);
    var listed := [Entry(f, 0), Entry(f, 1), Entry(f, 2), Entry(f, 3),
                   Entry(f, 4), Entry(f, 5), Entry(f, 6), Entry(f, 7)];
    forall k | 0 <= k < 8 ensures cs[k] == listed[k] {
      assert cs[k] == Entry(f, k);
    }
  }

  /** schema_columns fails exactly when an expected column is missing. */
  lemma SchemaVerdict(f: Frame)
    requires HasIndexedColumns(f)
    ensures Checks(f)[0].status == Fail <==> exists e :: e in EXPECTED_COLS && Label(e) !in f.columns
  {
    assert Checks(f)[0] == SchemaCheck(ColumnsOf(f.columns));
    SchemaFailsOverLabels(f.columns);
  }

  /** Each not-null check fails exactly when some row has a null in its column. */
  lemma NotNullVerdicts(f: Frame)
    requires HasIndexedColumns(f)
    ensures Checks(f)[1].status == Fail <==> exists i :: 0 <= i < |f.rows| && f.rows[i].txId.None?
    ensures Checks(f)[2].status == Fail <==> exists i :: 0 <= i < |f.rows| && f.rows[i].timestamp.None?
    ensures Checks(f)[3].status == Fail <==> exists i :: 0 <= i < |f.rows| && f.rows[i].status.None?
  {
    var cs := Checks(f);
    assert cs[1].status == VerdictOf(Where(f.rows, NullTxId));
    assert cs[2].status == VerdictOf(Where(f.rows, NullTimestamp));
    assert cs[3].status == VerdictOf(Where(f.rows, NullStatus));
    VerdictOfWhere(f.rows, NullTxId);
    VerdictOfWhere(f.rows, NullTimestamp);
    VerdictOfWhere(f.rows, NullStatus);
    assert cs[1].status == Fail <==> exists i :: 0 <= i < |f.rows| && NullTxId(f.rows[i]);
    assert cs[2].status == Fail <==> exists i :: 0 <= i < |f.rows| && NullTimestamp(f.rows[i]);
    assert cs[3].status == Fail <==> exists i :: 0 <= i < |f.rows| && NullStatus(f.rows[i]);
  }

  /** status_domain fails exactly when some status is null or outside the set. */
  lemma StatusDomainVerdict(f: Frame)
    requires HasIndexedColumns(f)
    ensures Checks(f)[4].status == Fail <==>
              exists i :: 0 <= i < |f.rows| && (f.rows[i].status.None? || f.rows[i].status.value !in STATUS_SET)
  {
    assert Checks(f)[4].status == VerdictOf(Where(f.rows, BadStatus));
    VerdictOfWhere(f.rows, BadStatus);
    assert Checks(f)[4].status == Fail <==> exists i :: 0 <= i < |f.rows| && BadStatus(f.rows[i]);
  }

  /** unique_tx_id fails exactly when two rows share an id. */
  lemma UniqueIdVerdict(f: Frame)
    requires HasIndexedColumns(f)
    ensures Checks(f)[5].status == Fail <==> !DistinctIds(f.rows)
  {
    NoDuplicatesIffDistinct(f.rows);
  }

  /** amount_range fails exactly when some amount is null, below 0.0 or above
      100000.0; the bounds themselves pass. */
  lemma AmountRangeVerdict(f: Frame)
    requires HasIndexedColumns(f)
    ensures Checks(f)[6].status == Fail <==>
              exists i :: 0 <= i < |f.rows| && (f.rows[i].amount.None? || f.rows[i].amount.value < 0.0
                                                || f.rows[i].amount.value > 100000.0)
  {
    assert Checks(f)[6].status == VerdictOf(Where(f.rows, BadAmount));
    VerdictOfWhere(f.rows, BadAmount);
    assert Checks(f)[6].status == Fail <==> exists i :: 0 <= i < |f.rows| && BadAmount(f.rows[i]);
  }

  /** timestamp_window fails exactly when some timestamp is null, before
      2018-01-01 00:00 or after 2030-12-31 00:00. */
  lemma TimestampWindowVerdict(f: Frame)
    requires HasIndexedColumns(f)
    ensures Checks(f)[7].status == Fail <==>
              exists i :: 0 <= i < |f.rows| && (f.rows[i].timestamp.None? || f.rows[i].timestamp.value < TIME_MIN
                                                || f.rows[i].timestamp.value > TIME_MAX)
  {
    assert Checks(f)[7].status == VerdictOf(Where(f.rows, BadTime));
    VerdictOfWhere(f.rows, BadTime);
    assert Checks(f)[7].status == Fail <==> exists i :: 0 <= i < |f.rows| && BadTime(f.rows[i]);
  }

  /** The rows a report entry exports (none for the schema entry). */
  function ExportedRows(c: Check): seq<Tx>
  {
    match c.detail
    case Columns(_, _) => []
    case FailedRows(rows) => if rows.Some? then rows.value else []
    case Domain(_, rows) => if rows.Some? then rows.value else []
    case AmountRange(_, _, rows) => if rows.Some? then rows.value else []
    case TimeWindow(_, rows) => if rows.Some? then rows.value else []
  }

  /** The row test of the k-th entry (1 to 7): the row is offending. */
  predicate Offends(k: nat, rows: seq<Tx>, t: Tx)
  {
    if k == 1 then NullTxId(t)
    else if k == 2 then NullTimestamp(t)
    else if k == 3 then NullStatus(t)
    else if k == 4 then BadStatus(t)
    else if k == 5 then IdRepeated(rows, t)
    else if k == 6 then BadAmount(t)
    else BadTime(t)
  }

  /** Each row check fails exactly when it exports a row, and what it exports
      is exactly the offending rows, in input order. */
  lemma FailingRowsInInputOrder(f: Frame, k: nat)
    requires HasIndexedColumns(f) && 1 <= k < 8
    ensures Checks(f)[k].status == Fail <==> ExportedRows(Checks(f)[k]) != []
    ensures forall t :: t in ExportedRows(Checks(f)[k]) <==> t in f.rows && Offends(k, f.rows, t)
    ensures Subseq(ExportedRows(Checks(f)[k]), f.rows)
  {
    var p := (t: Tx) => Offends(k, f.rows, t);
    OffendingRowsExported(f, k);
    WhereMembers(f.rows, p);
    WhereIsSubseq(f.rows, p);
  }

  /** The k-th entry exports the rows that pass the filter Offends(k, rows, _). */
  lemma OffendingRowsExported(f: Frame, k: nat)
    requires HasIndexedColumns(f) && 1 <= k < 8
    ensures Checks(f)[k].status == VerdictOf(Where(f.rows, (t: Tx) => Offends(k, f.rows, t)))
    ensures ExportedRows(Checks(f)[k]) == Where(f.rows, (t: Tx) => Offends(k, f.rows, t))
  {
    if k <= 3 {
      NullRowsExported(f, k);
    } else {
      DomainRowsExported(f, k);
    }
  }

  /** The not-null entries export the rows with a null in their column. */
  lemma NullRowsExported(f: Frame, k: nat)
    requires HasIndexedColumns(f) && 1 <= k <= 3
    ensures Checks(f)[k].status == VerdictOf(Where(f.rows, (t: Tx) => Offends(k, f.rows, t)))
    ensures ExportedRows(Checks(f)[k]) == Where(f.rows, (t: Tx) => Offends(k, f.rows, t))
  {
    var cs := Checks(f);
    var p := (t: Tx) => Offends(k, f.rows, t);
    if k == 1 {
      assert cs[1].status == VerdictOf(Where(f.rows, NullTxId)) && ExportedRows(cs[1]) == Where(f.rows, NullTxId);
      WhereSamePredicate(f.rows, NullTxId, p);
    } else if k == 2 {
      assert cs[2].status == VerdictOf(Where(f.rows, NullTimestamp)) && ExportedRows(cs[2]) == Where(f.rows, NullTimestamp);
      WhereSamePredicate(f.rows, NullTimestamp, p);
    } else {
      assert cs[3].status == VerdictOf(Where(f.rows, NullStatus)) && ExportedRows(cs[3]) == Where(f.rows, NullStatus);
      WhereSamePredicate(f.rows, NullStatus, p);
    }
  }

  /** The domain, uniqueness, range and window entries export the rows that violate them. */
  lemma DomainRowsExported(f: Frame, k: nat)
    requires HasIndexedColumns(f) && 4 <= k <= 7
    ensures Checks(f)[k].status == VerdictOf(Where(f.rows, (t: Tx) => Offends(k, f.rows, t)))
    ensures ExportedRows(Checks(f)[k]) == Where(f.rows, (t: Tx) => Offends(k, f.rows, t))
  {
    var cs := Checks(f);
    var p := (t: Tx) => Offends(k, f.rows, t);
    if k == 4 {
      assert cs[4].status == VerdictOf(Where(f.rows, BadStatus)) && ExportedRows(cs[4]) == Where(f.rows, BadStatus);
      WhereSamePredicate(f.rows, BadStatus, p);
    } else if k == 5 {
      assert cs[5].status == VerdictOf(DuplicateIdRows(f.rows)) && ExportedRows(cs[5]) == DuplicateIdRows(f.rows);
      WhereSamePredicate(f.rows, (t: Tx) => IdRepeated(f.rows, t), p);
    } else if k == 6 {
      assert cs[6].status == VerdictOf(Where(f.rows, BadAmount)) && ExportedRows(cs[6]) == Where(f.rows, BadAmount);
      WhereSamePredicate(f.rows, BadAmount, p);
    } else {
      assert cs[7].status == VerdictOf(Where(f.rows, BadTime)) && ExportedRows(cs[7]) == Where(f.rows, BadTime);
      WhereSamePredicate(f.rows, BadTime, p);
    }
  }

  // ---------------------------------------------------------------------------
  // Summary

  /** Number of FAIL entries. */
  function FailCount(cs: seq<Check>): (n: nat)
    ensures n <= |cs|
    ensures n == 0 <==> forall k :: 0 <= k < |cs| ==> cs[k].status == Pass
  {
    if cs == [] then 0
    else FailCount(cs[..|cs| - 1]) + (if cs[|cs| - 1].status == Fail then 1 else 0)
  }

  /** Counts the entries whose verdict is FAIL, one pass over the list. */
  method CountFailed(checks: seq<Check>) returns (failed: nat)
    ensures failed == FailCount(checks)
  {
    failed := 0;
    for i := 0 to |checks|
      invariant failed == FailCount(checks[..i])
    {
      assert checks[..i + 1][..i] == checks[..i];
      if checks[i].status == Fail {
        failed := failed + 1;
      }
    }
    assert checks[..|checks|] == checks;
  }

  /** Builds the report entries one by one, in the fixed order. */
  method BuildChecks(f: Frame) returns (checks: seq<Check>)
    requires HasIndexedColumns(f)
    ensures checks == Checks(f)
  {
    checks := [];
    var schema := SchemaCheck(ColumnsOf(f.columns));
    checks := checks + [schema];

    var nullKeys := Where(f.rows, NullTxId);
    var nullTs := Where(f.rows, NullTimestamp);
    var nullStatus := Where(f.rows, NullStatus);
    var keysCheck := Check("not_null_keys", VerdictOf(nullKeys), FailedRows(FailExport(nullKeys)));
    var tsCheck := Check("not_null_timestamp", VerdictOf(nullTs), FailedRows(FailExport(nullTs)));
    var statusCheck := Check("not_null_status", VerdictOf(nullStatus), FailedRows(FailExport(nullStatus)));
    checks := checks + [keysCheck];
    checks := checks + [tsCheck];
    checks := checks + [statusCheck];

    var badStatus := Where(f.rows, BadStatus);
    var domainCheck := Check("status_domain", VerdictOf(badStatus), Domain(ALLOWED_SORTED, FailExport(badStatus)));
    checks := checks + [domainCheck];

    var dups := DuplicateIdRows(f.rows);
    var uniqueCheck := Check("unique_tx_id", VerdictOf(dups), FailedRows(FailExport(dups)));
    checks := checks + [uniqueCheck];

    var badAmount := Where(f.rows, BadAmount);
    var amountCheck := Check("amount_range", VerdictOf(badAmount), AmountRange(AMOUNT_MIN, AMOUNT_MAX, FailExport(badAmount)));
    checks := checks + [amountCheck];

    var badTime := Where(f.rows, BadTime);
    var timeCheck := Check("timestamp_window", VerdictOf(badTime), TimeWindow(TIME_WINDOW, FailExport(badTime)));
    checks := checks + [timeCheck];

    assert checks == [schema, keysCheck, tsCheck, statusCheck, domainCheck, uniqueCheck, amountCheck, timeCheck];
    assert schema == Entry(f, 0) && keysCheck == Entry(f, 1) && tsCheck == Entry(f, 2) && statusCheck == Entry(f, 3);
    assert domainCheck == Entry(f, 4) && uniqueCheck == Entry(f, 5) && amountCheck == Entry(f, 6) && timeCheck == Entry(f, 7);
    ChecksListed(f);
  }

  /** Builds the report entry by entry, then counts the failures. */
  method RunQualityChecks(f: Frame) returns (report: Report)
    requires HasIndexedColumns(f)
    ensures report.checks == Checks(f)
    ensures report.summary.rowsEvaluated == |f.rows|
    ensures report.summary.checksTotal == 8
    ensures report.summary.checksFailed == FailCount(report.checks)
    ensures report.summary.passed <==> report.summary.checksFailed == 0
    ensures report.summary.passed <==> forall k :: 0 <= k < |report.checks| ==> report.checks[k].status == Pass
  {
    var checks := BuildChecks(f);
    var failed := CountFailed(checks);
    report := Report(checks, Summary(|f.rows|, |checks|, failed, failed == 0));
  }

  // ---------------------------------------------------------------------------
  // Cleaning and checking together

  /** A cleaned batch passes not_null_timestamp, not_null_status, status_domain,
      unique_tx_id and amount_range (the cleaning cap 10000 is inside 100000). */
  lemma CleanedBatchPasses(b: seq<Etl.RawTx>, columns: seq<string>)
    requires HasIndexedColumns(Frame(columns, Etl.Clean(b)))
    ensures var cs := Checks(Frame(columns, Etl.Clean(b)));
            cs[2].status == Pass && cs[3].status == Pass && cs[4].status == Pass
            && cs[5].status == Pass && cs[6].status == Pass
  {
    var f := Frame(columns, Etl.Clean(b));
    NotNullVerdicts(f);
    StatusDomainVerdict(f);
    UniqueIdVerdict(f);
    AmountRangeVerdict(f);
    forall i | 0 <= i < |f.rows| ensures !BadStatus(f.rows[i]) && !BadAmount(f.rows[i]) {
      assert Etl.CleanRow(f.rows[i]);
    }
  }

  // ---------------------------------------------------------------------------
  // Scenarios

  function OkRows(): seq<Tx>
  {
    [ Tx(Some("A1"), Some("M1"), Some("WEB"), Some("CO"), Some(100.0), Some("APPROVED"), Some(1735725600)),
      Tx(Some("A2"), Some("M1"), Some("APP"), Some("CO"), Some(50.0), Some("DECLINED"), Some(1735729200)) ]
  }

  /** What each of the eight checks needs in order to pass. */
  lemma PassConditions(f: Frame)
    requires HasIndexedColumns(f)
    ensures var cs := Checks(f); var rows := f.rows;
            && (cs[0].status == Pass <==> forall e :: e in EXPECTED_COLS ==> Label(e) in f.columns)
            && (cs[1].status == Pass <==> forall i :: 0 <= i < |rows| ==> !NullTxId(rows[i]))
            && (cs[2].status == Pass <==> forall i :: 0 <= i < |rows| ==> !NullTimestamp(rows[i]))
            && (cs[3].status == Pass <==> forall i :: 0 <= i < |rows| ==> !NullStatus(rows[i]))
            && (cs[4].status == Pass <==> forall i :: 0 <= i < |rows| ==> !BadStatus(rows[i]))
            && (cs[5].status == Pass <==> DistinctIds(rows))
            && (cs[6].status == Pass <==> forall i :: 0 <= i < |rows| ==> !BadAmount(rows[i]))
            && (cs[7].status == Pass <==> forall i :: 0 <= i < |rows| ==> !BadTime(rows[i]))
  {
    SchemaVerdict(f);
    NotNullVerdicts(f);
    StatusDomainVerdict(f);
    UniqueIdVerdict(f);
    AmountRangeVerdict(f);
    TimestampWindowVerdict(f);
  }

  /** Every check passes exactly when all expected columns are present and
      every row has a non-null id, timestamp and status, a status in the set,
      an amount within bounds, a timestamp within the window, and no id is
      shared. */
  lemma PassesIffWellFormed(f: Frame)
    requires HasIndexedColumns(f)
    ensures FailCount(Checks(f)) == 0 <==>
              (forall e :: e in EXPECTED_COLS ==> Label(e) in f.columns)
              && (forall i :: 0 <= i < |f.rows| ==> WellFormedRow(f.rows[i]))
              && DistinctIds(f.rows)
  {
    PassConditions(f);
    EightPass(Checks(f));
  }

  /** Eight entries all pass exactly when each of them does. */
  lemma EightPass(cs: seq<Check>)
    requires |cs| == 8
    ensures FailCount(cs) == 0 <==>
              cs[0].status == Pass && cs[1].status == Pass && cs[2].status == Pass && cs[3].status == Pass
              && cs[4].status == Pass && cs[5].status == Pass && cs[6].status == Pass && cs[7].status == Pass
  {
    if cs[0].status == Pass && cs[1].status == Pass && cs[2].status == Pass && cs[3].status == Pass
       && cs[4].status == Pass && cs[5].status == Pass && cs[6].status == Pass && cs[7].status == Pass {
      forall k | 0 <= k < |cs| ensures cs[k].status == Pass {
        assert k in {0, 1, 2, 3, 4, 5, 6, 7};
      }
    }
  }

  /** A frame with exactly the expected labels has every expected column. */
  lemma ExpectedLabelsPresent(f: Frame)
    requires f.columns == EXPECTED_LABELS
    ensures HasIndexedColumns(f)
    ensures forall e :: e in EXPECTED_COLS ==> Label(e) in f.columns
  {
    forall e | e in EXPECTED_COLS ensures Label(e) in f.columns {
      var i :| 0 <= i < |EXPECTED_COLS| && EXPECTED_COLS[i] == e;
      assert f.columns[i] == Label(e);
    }
  }

  /** A well-formed two-row batch passes every check. */
  lemma WellFormedBatchPasses(f: Frame)
    requires f.columns == EXPECTED_LABELS && f.rows == OkRows()
    ensures FailCount(Checks(f)) == 0
  {
    var rows := OkRows();
    assert WellFormedRow(rows[0]) && WellFormedRow(rows[1]);
    assert forall i :: 0 <= i < |f.rows| ==> WellFormedRow(f.rows[i]);
    assert DistinctIds(f.rows);
    ExpectedLabelsPresent(f);
    PassesIffWellFormed(f);
  }

  /** Replacing the first status by SOMETHING_ELSE makes status_domain fail. */
  lemma UnknownStatusFails()
    ensures var rows := [OkRows()[0].(status := Some("SOMETHING_ELSE")), OkRows()[1]];
            Checks(Frame(EXPECTED_LABELS, rows))[4].status == Fail
  {
    var rows := [OkRows()[0].(status := Some("SOMETHING_ELSE")), OkRows()[1]];
    assert BadStatus(rows[0]);
    ExpectedLabelsPresent(Frame(EXPECTED_LABELS, rows));
    StatusDomainVerdict(Frame(EXPECTED_LABELS, rows));
  }

  /** With a copy of the first row appended, both copies, and only they,
      are the duplicates. */
  lemma CopiedRowIsDuplicated(rows: seq<Tx>)
    requires rows == OkRows() + [OkRows()[0]]
    ensures DuplicateIdRows(rows) == [OkRows()[0], OkRows()[0]]
  {
    var r1 := OkRows()[0];
    var r2 := OkRows()[1];
    assert rows == [r1, r2, r1];
    assert r1.txId != r2.txId;
    RepeatedFirstRow(r1, r2);
  }

  /** In [r1, r2, r1] with two different ids, both copies of r1 and only
      they are exported as duplicates. */
  lemma RepeatedFirstRow(r1: Tx, r2: Tx)
    requires r1.txId != r2.txId
    ensures DuplicateIdRows([r1, r2, r1]) == [r1, r1]
  {
    var rows := [r1, r2, r1];
    assert rows[1..] == [r2, r1] && rows[2..] == [r1] && rows[3..] == [];
    assert Occurrences(rows[2..], r1.txId) == 1 && Occurrences(rows[2..], r2.txId) == 0;
    assert Occurrences(rows[1..], r1.txId) == 1 && Occurrences(rows[1..], r2.txId) == 1;
    assert Occurrences(rows, r1.txId) == 2 && Occurrences(rows, r2.txId) == 1;
    var p := (t: Tx) => IdRepeated(rows, t);
    assert Where(rows[2..], p) == [r1] + Where(rows[3..], p);
    assert Where(rows[1..], p) == Where(rows[2..], p);
    assert Where(rows, p) == [r1] + Where(rows[1..], p);
  }

  /** Appending a copy of the first row makes unique_tx_id fail and export both copies. */
  lemma DuplicateIdFails(f: Frame)
    requires f.columns == EXPECTED_LABELS && f.rows == OkRows() + [OkRows()[0]]
    ensures Checks(f)[5].status == Fail
    ensures ExportedRows(Checks(f)[5]) == [OkRows()[0], OkRows()[0]]
  {
    ExpectedLabelsPresent(f);
    CopiedRowIsDuplicated(f.rows);
    DuplicatesExported(f);
  }

  /** unique_tx_id exports the rows whose id is repeated, and fails exactly
      when there is one. */
  lemma DuplicatesExported(f: Frame)
    requires HasIndexedColumns(f)
    ensures Checks(f)[5].status == Fail <==> DuplicateIdRows(f.rows) != []
    ensures ExportedRows(Checks(f)[5]) == DuplicateIdRows(f.rows)
  {
    var dups := DuplicateIdRows(f.rows);
    assert Checks(f)[5] == Check("unique_tx_id", VerdictOf(dups), FailedRows(FailExport(dups)));
  }
}
