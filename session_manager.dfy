/**
 * `SessionManager` (src/services/session_manager.py): the append-only
 * `audit_logs` table in a local SQLite file, and the per-folder summary query
 * `SELECT status, COUNT(*), SUM(amount) ... WHERE folder_id = ? GROUP BY status`.
 */
module Sessions {
  import opened Options
  import opened PyStr

  /** One row of `audit_logs` (the `id` key is left out); `status` is `None` for SQL NULL. */
  datatype Row = Row(timestamp: string, internName: string, folderId: string, fileName: string,
                     utr: string, amount: real, status: Option<string>)

  /** One result row of the summary query: a status, its `COUNT(*)` and `SUM(amount)`. */
  datatype StatRow = StatRow(status: Option<string>, count: nat, total: real)

  // ---------------------------------------------------------------------------
  // Normalisation on insert
  // ---------------------------------------------------------------------------

  /** `str(utr) if utr else "N/A"`: the stored reference is never empty. */
  function StoredUtr(utr: Option<string>): (r: string)
    ensures r != ""
    ensures StrTruthy(utr) ==> r == utr.value
    ensures !StrTruthy(utr) ==> r == "N/A"
  {
    if StrTruthy(utr) then utr.value else "N/A"
  }

  /** `float(amount) if amount else 0.0`: a stored amount is non-zero exactly
      when the given amount was truthy, and then it is that amount. */
  function StoredAmount(amount: Option<real>): (r: real)
    ensures (r != 0.0) <==> NumTruthy(amount)
    ensures NumTruthy(amount) ==> r == amount.value
  {
    if NumTruthy(amount) then amount.value else 0.0
  }

  /** The row `log_transaction` inserts. */
  function NewRow(now: string, internName: string, folderId: string, fileName: string,
                  utr: Option<string>, amount: Option<real>, status: Option<string>): Row
  {
    Row(now, internName, folderId, fileName, StoredUtr(utr), StoredAmount(amount), status)
  }

  // ---------------------------------------------------------------------------
  // The summary query as a function of the table
  // ---------------------------------------------------------------------------

  /** `WHERE folder_id = ?`, keeping table order. */
  function FolderRows(rows: seq<Row>, f: string): (r: seq<Row>)
    ensures |r| <= |rows|
    ensures forall x :: x in r ==> x in rows && x.folderId == f
    ensures forall x :: x in rows && x.folderId == f ==> x in r
  {
    if rows == [] then []
    else
      var last := rows[|rows| - 1];
      assert forall x :: x in rows ==> x in rows[..|rows| - 1] || x == last;
      FolderRows(rows[..|rows| - 1], f) + (if last.folderId == f then [last] else [])
  }

  /** `COUNT(*)` of the rows with status `st`. */
  function CountStatus(rs: seq<Row>, st: Option<string>): nat {
    if rs == [] then 0
    else CountStatus(rs[..|rs| - 1], st) + (if rs[|rs| - 1].status == st then 1 else 0)
  }

  /** `SUM(amount)` of the rows with status `st`. */
  function SumStatus(rs: seq<Row>, st: Option<string>): real {
    if rs == [] then 0.0
    else SumStatus(rs[..|rs| - 1], st) + (if rs[|rs| - 1].status == st then rs[|rs| - 1].amount else 0.0)
  }

  /** The sum of all amounts. */
  function SumAmounts(rs: seq<Row>): real {
    if rs == [] then 0.0 else SumAmounts(rs[..|rs| - 1]) + rs[|rs| - 1].amount
  }

  /** The `GROUP BY` keys: each status present, once, in order of first appearance. */
  function Statuses(rs: seq<Row>): (ks: seq<Option<string>>)
    ensures forall i, j :: 0 <= i < j < |ks| ==> ks[i] != ks[j]
    ensures forall x :: x in rs ==> x.status in ks
    ensures forall k :: k in ks ==> CountStatus(rs, k) > 0
    ensures forall k :: k in ks ==> exists x :: x in rs && x.status == k
  {
    if rs == [] then []
    else
      var init := rs[..|rs| - 1];
      var ks := Statuses(init);
      var s := rs[|rs| - 1].status;
      assert forall x :: x in rs ==> x in init || x == rs[|rs| - 1];
      if s in ks then ks else ks + [s]
  }

  /** One result row per key, in key order. */
  function GroupRows(ks: seq<Option<string>>, rs: seq<Row>): (stats: seq<StatRow>)
    ensures |stats| == |ks|
  {
    if ks == [] then []
    else
      var k := ks[|ks| - 1];
      GroupRows(ks[..|ks| - 1], rs) + [StatRow(k, CountStatus(rs, k), SumStatus(rs, k))]
  }

  /** `GROUP BY status` over the given rows. SQL leaves the order of result rows
      open; the model lists them in order of first appearance. */
  function GroupByStatus(rs: seq<Row>): seq<StatRow> {
    GroupRows(Statuses(rs), rs)
  }

  /** `get_session_stats(folder_id)` as a function of the table. */
  function SessionStats(rows: seq<Row>, f: string): seq<StatRow> {
    GroupByStatus(FolderRows(rows, f))
  }

  /** The counts of a result, added up. */
  function SumCounts(stats: seq<StatRow>): nat {
    if stats == [] then 0 else SumCounts(stats[..|stats| - 1]) + stats[|stats| - 1].count
  }

  /** The sums of a result, added up. */
  function SumTotals(stats: seq<StatRow>): real {
    if stats == [] then 0.0 else SumTotals(stats[..|stats| - 1]) + stats[|stats| - 1].total
  }

  /** How many times `s` occurs in `ks`. */
  function Occurrences(ks: seq<Option<string>>, s: Option<string>): nat {
    if ks == [] then 0 else Occurrences(ks[..|ks| - 1], s) + (if ks[|ks| - 1] == s then 1 else 0)
  }

  /** `a` added up once for every occurrence of `s` in `ks`. */
  function OccurrenceWeight(ks: seq<Option<string>>, s: Option<string>, a: real): real {
    if ks == [] then 0.0 else OccurrenceWeight(ks[..|ks| - 1], s, a) + (if ks[|ks| - 1] == s then a else 0.0)
  }

  // ---------------------------------------------------------------------------
  // The table
  // ---------------------------------------------------------------------------

  /** The recorder: the `audit_logs` table of the database file it opens. */
  class SessionManager {
    /** Whether `audit_logs` exists in the file. */
    var tableExists: bool
    /** The rows of `audit_logs`, in insertion order. */
    var rows: seq<Row>

    /** No table, no rows. */
    ghost predicate Valid()
      reads this
    {
      tableExists || rows == []
    }

    /** `SessionManager()`: opens the file, whose table holds `stored` from
        earlier runs (`None` when there is no table yet), and runs `_init_db`. */
    constructor(stored: Option<seq<Row>>)
      ensures Valid() && tableExists
      ensures rows == stored.GetOr([])
    {
      tableExists := stored.Some?;
      rows := stored.GetOr([]);
      new;
      InitDb();
    }

    /** `_init_db`: `CREATE TABLE IF NOT EXISTS` creates an empty table when
        there is none and leaves an existing table, and its rows, alone; so a
        second call changes nothing. */
    method InitDb()
      requires Valid()
      modifies this
      ensures Valid() && tableExists
      ensures rows == old(rows)
    {
      if !tableExists {
        tableExists := true;
        rows := [];
      }
    }

    /** `log_transaction`: appends exactly one normalised row and leaves every
        existing row unchanged; `now` is `datetime.now().isoformat()`. */
    method LogTransaction(now: string, internName: string, folderId: string, fileName: string,
                          utr: Option<string>, amount: Option<real>, status: Option<string>)
      requires Valid() && tableExists
      modifies this
      ensures Valid() && tableExists
      ensures rows == old(rows) + [NewRow(now, internName, folderId, fileName, utr, amount, status)]
    {
      rows := rows + [NewRow(now, internName, folderId, fileName, utr, amount, status)];
    }

    /** `get_session_stats`: a read-only query over the current rows. */
    method GetSessionStats(folderId: string) returns (stats: seq<StatRow>)
      requires Valid() && tableExists
      ensures stats == SessionStats(rows, folderId)
    {
      stats := GroupByStatus(FolderRows(rows, folderId));
    }
  }

  // ---------------------------------------------------------------------------
  // Properties of the summary query
  // ---------------------------------------------------------------------------

  lemma {:induction false} GroupRowsAt(ks: seq<Option<string>>, rs: seq<Row>, i: nat)
    requires i < |ks|
    ensures GroupRows(ks, rs)[i] == StatRow(ks[i], CountStatus(rs, ks[i]), SumStatus(rs, ks[i]))
    decreases |ks|
  {
    if i < |ks| - 1 {
      GroupRowsAt(ks[..|ks| - 1], rs, i);
    }
  }

  /** Every result row of the summary describes the folder's rows of its
      status: the count (at least one) and the summed amount. */
  lemma StatsRowsDescribeFolder(rows: seq<Row>, f: string)
    ensures forall i :: 0 <= i < |SessionStats(rows, f)| ==>
      var st := SessionStats(rows, f)[i];
      && st.count == CountStatus(FolderRows(rows, f), st.status) >= 1
      && st.total == SumStatus(FolderRows(rows, f), st.status)
  {
    var fr := FolderRows(rows, f);
    var ks := Statuses(fr);
    forall i | 0 <= i < |ks|
      ensures SessionStats(rows, f)[i] == StatRow(ks[i], CountStatus(fr, ks[i]), SumStatus(fr, ks[i]))
    {
      GroupRowsAt(ks, fr, i);
      assert ks[i] in ks;
    }
  }

  /** Each status appears in at most one result row. */
  lemma StatsStatusesDistinct(rows: seq<Row>, f: string)
    ensures forall i, j :: 0 <= i < j < |SessionStats(rows, f)| ==>
      SessionStats(rows, f)[i].status != SessionStats(rows, f)[j].status
  {
    var fr := FolderRows(rows, f);
    var ks := Statuses(fr);
    forall i, j | 0 <= i < j < |SessionStats(rows, f)|
      ensures SessionStats(rows, f)[i].status != SessionStats(rows, f)[j].status
    {
      GroupRowsAt(ks, fr, i);
      GroupRowsAt(ks, fr, j);
    }
  }

  lemma {:induction false} AbsentStatus(rs: seq<Row>, st: Option<string>)
    requires forall x :: x in rs ==> x.status != st
    ensures CountStatus(rs, st) == 0 && SumStatus(rs, st) == 0.0
  {
    if rs != [] {
      assert rs[|rs| - 1] in rs;
      assert forall x :: x in rs[..|rs| - 1] ==> x in rs;
      AbsentStatus(rs[..|rs| - 1], st);
    }
  }

  /** Every status the folder's rows carry has a result row; a status without
      one has no rows in the folder, so its count and sum are zero. */
  lemma StatsCoverFolder(rows: seq<Row>, f: string)
    ensures forall x :: x in FolderRows(rows, f) ==>
      exists i :: 0 <= i < |SessionStats(rows, f)| && SessionStats(rows, f)[i].status == x.status
    ensures forall st :: (forall i :: 0 <= i < |SessionStats(rows, f)| ==> SessionStats(rows, f)[i].status != st) ==>
      CountStatus(FolderRows(rows, f), st) == 0 && SumStatus(FolderRows(rows, f), st) == 0.0
  {
    var fr := FolderRows(rows, f);
    var ks := Statuses(fr);
    forall i | 0 <= i < |ks| ensures SessionStats(rows, f)[i].status == ks[i] {
      GroupRowsAt(ks, fr, i);
    }
    forall x | x in fr
      ensures exists i :: 0 <= i < |SessionStats(rows, f)| && SessionStats(rows, f)[i].status == x.status
    {
      var i :| 0 <= i < |ks| && ks[i] == x.status;
      assert SessionStats(rows, f)[i].status == x.status;
    }
    forall st | (forall i :: 0 <= i < |SessionStats(rows, f)| ==> SessionStats(rows, f)[i].status != st)
      ensures CountStatus(fr, st) == 0 && SumStatus(fr, st) == 0.0
    {
      assert st !in ks;
      AbsentStatus(fr, st);
    }
  }

  lemma {:induction false} OccurrencesDistinct(ks: seq<Option<string>>, s: Option<string>, a: real)
    requires forall i, j :: 0 <= i < j < |ks| ==> ks[i] != ks[j]
    ensures Occurrences(ks, s) == if s in ks then 1 else 0
    ensures OccurrenceWeight(ks, s, a) == if s in ks then a else 0.0
  {
    if ks != [] {
      var init := ks[..|ks| - 1];
      OccurrencesDistinct(init, s, a);
      assert ks == init + [ks[|ks| - 1]];
    }
  }

  lemma CountSumStep(rs: seq<Row>, r: Row, k: Option<string>)
    ensures CountStatus(rs + [r], k) == CountStatus(rs, k) + (if r.status == k then 1 else 0)
    ensures SumStatus(rs + [r], k) == SumStatus(rs, k) + (if r.status == k then r.amount else 0.0)
  {
    assert (rs + [r])[..|rs|] == rs;
  }

  lemma SumsOfAppend(stats: seq<StatRow>, st: StatRow)
    ensures SumCounts(stats + [st]) == SumCounts(stats) + st.count
    ensures SumTotals(stats + [st]) == SumTotals(stats) + st.total
  {
    assert (stats + [st])[..|stats|] == stats;
  }

  lemma {:induction false} GroupRowsStep(ks: seq<Option<string>>, rs: seq<Row>, r: Row)
    ensures SumCounts(GroupRows(ks, rs + [r])) == SumCounts(GroupRows(ks, rs)) + Occurrences(ks, r.status)
    ensures SumTotals(GroupRows(ks, rs + [r])) == SumTotals(GroupRows(ks, rs)) + OccurrenceWeight(ks, r.status, r.amount)
  {
    if ks != [] {
      var init := ks[..|ks| - 1];
      var k := ks[|ks| - 1];
      GroupRowsStep(init, rs, r);
      CountSumStep(rs, r, k);
      SumsOfAppend(GroupRows(init, rs + [r]), StatRow(k, CountStatus(rs + [r], k), SumStatus(rs + [r], k)));
      SumsOfAppend(GroupRows(init, rs), StatRow(k, CountStatus(rs, k), SumStatus(rs, k)));
    }
  }

  lemma {:induction false} GroupRowsEmpty(ks: seq<Option<string>>)
    ensures SumCounts(GroupRows(ks, [])) == 0 && SumTotals(GroupRows(ks, [])) == 0.0
  {
    if ks != [] {
      GroupRowsEmpty(ks[..|ks| - 1]);
      SumsOfAppend(GroupRows(ks[..|ks| - 1], []), StatRow(ks[|ks| - 1], 0, 0.0));
    }
  }

  lemma {:induction false} GroupRowsAddUp(ks: seq<Option<string>>, rs: seq<Row>)
    requires forall i, j :: 0 <= i < j < |ks| ==> ks[i] != ks[j]
    requires forall x :: x in rs ==> x.status in ks
    ensures SumCounts(GroupRows(ks, rs)) == |rs|
    ensures SumTotals(GroupRows(ks, rs)) == SumAmounts(rs)
  {
    if rs == [] {
      GroupRowsEmpty(ks);
    } else {
      var init := rs[..|rs| - 1];
      var r := rs[|rs| - 1];
      assert rs == init + [r];
      GroupRowsAddUp(ks, init);
      GroupRowsStep(ks, init, r);
      OccurrencesDistinct(ks, r.status, r.amount);
    }
  }

  /** The counts of the summary add up to the number of rows logged for the
      folder, and the sums to their total amount. */
  lemma StatsAddUp(rows: seq<Row>, f: string)
    ensures SumCounts(SessionStats(rows, f)) == |FolderRows(rows, f)|
    ensures SumTotals(SessionStats(rows, f)) == SumAmounts(FolderRows(rows, f))
  {
    var fr := FolderRows(rows, f);
    GroupRowsAddUp(Statuses(fr), fr);
  }

  /** Rows of other folders never affect a folder's summary. */
  lemma StatsIgnoreOtherFolders(rows: seq<Row>, r: Row, f: string)
    requires r.folderId != f
    ensures SessionStats(rows + [r], f) == SessionStats(rows, f)
  {
    assert (rows + [r])[..|rows|] == rows;
    assert FolderRows(rows + [r], f) == FolderRows(rows, f);
  }

  /** The summary reads the whole table, so a row logged for the folder in an
      earlier run of the program is counted along with this run's rows. */
  lemma StatsIncludeEarlierRuns(earlier: seq<Row>, current: seq<Row>, f: string)
    requires forall x :: x in current ==> x.folderId == f
    ensures SumCounts(SessionStats(earlier + current, f)) == |FolderRows(earlier, f)| + |current|
  {
    FolderRowsAppend(earlier, current, f);
    StatsAddUp(earlier + current, f);
  }

  lemma {:induction false} FolderRowsAppend(a: seq<Row>, b: seq<Row>, f: string)
    requires forall x :: x in b ==> x.folderId == f
    ensures FolderRows(a + b, f) == FolderRows(a, f) + b
    decreases |b|
  {
    if b == [] {
      assert a + b == a;
    } else {
      var init, last := b[..|b| - 1], b[|b| - 1];
      assert b == init + [last];
      assert last.folderId == f by { assert last in b; }
      forall x | x in init ensures x.folderId == f {
        assert x in b;
      }
      FolderRowsAppend(a, init, f);
      calc {
        FolderRows(a + b, f);
        { AppendAssoc(a, init, [last]); }
        FolderRows((a + init) + [last], f);
        { FolderRowsSnoc(a + init, last, f); }
        FolderRows(a + init, f) + [last];
        (FolderRows(a, f) + init) + [last];
        { AppendAssoc(FolderRows(a, f), init, [last]); }
        FolderRows(a, f) + (init + [last]);
      }
    }
  }

  lemma FolderRowsSnoc(rows: seq<Row>, r: Row, f: string)
    ensures FolderRows(rows + [r], f) == FolderRows(rows, f) + (if r.folderId == f then [r] else [])
  {
    assert (rows + [r])[..|rows|] == rows;
  }

  lemma AppendAssoc<T>(x: seq<T>, y: seq<T>, z: seq<T>)
    ensures (x + y) + z == x + (y + z)
  {
  }
}
