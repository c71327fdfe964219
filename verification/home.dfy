/** The dashboard: the number of stored faces and a table of the five most
    recent entries. The charts show random placeholder figures and are not
    part of this model. */
module Home {
  import opened Wrappers
  import opened Seqs
  import opened Sorting
  import opened Records
  import opened ObjectStore

  /** The number of rows the recent-entries table shows at most. */
  const RecentCount: nat := 5

  /** Sorting key of the comparator `new Date(b.timestamp) - new Date(a.timestamp)`:
      ascending in this key is newest first. */
  function NewestFirst(r: Record): real {
    -(r.timestamp as real)
  }

  /** `data.sort(...)` newest first, then `slice(0, 5)`. */
  function RecentEntries(all: seq<Record>): (r: seq<Record>)
    ensures |r| == if |all| < RecentCount then |all| else RecentCount
    ensures forall i, j :: 0 <= i < j < |r| ==> r[i].timestamp >= r[j].timestamp
    ensures multiset(r) <= multiset(all)
  {
    var sorted := SortBy(all, NewestFirst);
    var r := Take(sorted, RecentCount);
    assert forall i, j :: 0 <= i < j < |r| ==> NewestFirst(r[i]) <= NewestFirst(r[j]);
    assert sorted == r + sorted[|r|..];
    r
  }

  /** No record left out of the table is newer than one the table shows. */
  lemma RecentEntriesAreNewest(all: seq<Record>)
    ensures var r := RecentEntries(all);
      forall rec, i :: rec in multiset(all) - multiset(r) && 0 <= i < |r| ==> rec.timestamp <= r[i].timestamp
  {
    var sorted := SortBy(all, NewestFirst);
    var r := RecentEntries(all);
    assert r == sorted[..|r|];
    PrefixIsNewest(all, sorted, |r|);
  }

  /** The same for any prefix of a newest-first permutation of `all`. */
  lemma PrefixIsNewest(all: seq<Record>, sorted: seq<Record>, n: nat)
    requires SortedBy(sorted, NewestFirst) && multiset(sorted) == multiset(all)
    requires n <= |sorted|
    ensures forall rec, i :: rec in multiset(all) - multiset(sorted[..n]) && 0 <= i < n ==>
      rec.timestamp <= sorted[..n][i].timestamp
  {
    var r := sorted[..n];
    var rest := sorted[n..];
    assert sorted == r + rest;
    assert multiset(all) - multiset(r) == multiset(rest);
    forall rec, i | rec in multiset(all) - multiset(r) && 0 <= i < n
      ensures rec.timestamp <= r[i].timestamp
    {
      assert rec in rest;
      SortedTailNoNewer(sorted, n, rec, i);
    }
  }

  /** In a list sorted newest first, nothing after position `n` is newer
      than anything before it. */
  lemma SortedTailNoNewer(sorted: seq<Record>, n: nat, rec: Record, i: nat)
    requires SortedBy(sorted, NewestFirst)
    requires i < n <= |sorted| && rec in sorted[n..]
    ensures rec.timestamp <= sorted[i].timestamp
  {
    var k :| 0 <= k < |sorted[n..]| && sorted[n..][k] == rec;
    assert sorted[n + k] == rec;
    assert NewestFirst(sorted[i]) <= NewestFirst(sorted[n + k]);
  }

  /** Among records with the same timestamp, the table shows the first
      ones in store order (ascending id for a store's `getAll`), in that
      order. */
  lemma RecentEntriesStable(all: seq<Record>, v: real)
    ensures WithKey(RecentEntries(all), NewestFirst, v) <= WithKey(all, NewestFirst, v)
  {
    var sorted := SortBy(all, NewestFirst);
    var r := RecentEntries(all);
    assert sorted == r + sorted[|r|..];
    WithKeyConcat(r, sorted[|r|..], NewestFirst, v);
    SortByStable(all, NewestFirst, v);
  }

  /** A table cell. */
  datatype Cell = Text(text: string) | Number(value: int)

  const NotAvailable: string := "N/A"

  /** One row: id, `type || 'N/A'` (an empty string counts as missing), the
      timestamp (shown as a local date) and the descriptor length or
      'N/A'. */
  datatype Row = Row(id: nat, kind: string, timestamp: int, descriptorLength: Cell)

  function RowOf(rec: Record): (row: Row)
    ensures row.id == rec.id && row.timestamp == rec.timestamp
    ensures row.kind == NotAvailable <==> rec.kind.None? || rec.kind.value in {"", NotAvailable}
    ensures rec.kind.Some? && rec.kind.value != "" ==> row.kind == rec.kind.value
    ensures row.descriptorLength.Number? <==> HasDescriptor(rec)
    ensures HasDescriptor(rec) ==> row.descriptorLength == Number(|rec.descriptor.value|)
  {
    var kind := if rec.kind.Some? && rec.kind.value != "" then rec.kind.value else NotAvailable;
    var len := if HasDescriptor(rec) then Number(|rec.descriptor.value|) else Text(NotAvailable);
    Row(rec.id, kind, rec.timestamp, len)
  }

  /** The recent-entries table body. */
  datatype Table = NoEntries | Entries(rows: seq<Row>) | LoadFailed

  /** `populateRecentEntriesTable(data)`. */
  function PopulateRecentEntries(all: seq<Record>): (t: Table)
    ensures t.NoEntries? <==> all == []
    ensures t.Entries? ==> 1 <= |t.rows| <= RecentCount
    ensures t.Entries? ==> |t.rows| == |RecentEntries(all)| && forall i :: 0 <= i < |t.rows| ==> t.rows[i] == RowOf(RecentEntries(all)[i])
  {
    if all == [] then NoEntries
    else
      var recent := RecentEntries(all);
      Entries(seq(|recent|, i requires 0 <= i < |recent| => RowOf(recent[i])))
  }

  /** What the dashboard shows. */
  datatype Dashboard = Dashboard(totalFaces: Option<nat>, table: Table)

  /** `loadDashboardData`: the count of stored faces and the table, or the
      error state when the database cannot be opened or read. */
  function LoadDashboard(s: Store, env: Env): (d: Dashboard)
    ensures d.totalFaces.Some? <==> env == Working
    ensures d.totalFaces.Some? ==> d.totalFaces.value == |s.records|
    ensures d.table == LoadFailed <==> env != Working
    ensures d.table == NoEntries <==> env == Working && s.records == map[]
    ensures env == Working ==> d.table == PopulateRecentEntries(GetAll(s))
  {
    match ReadAll(s, env)
    case Success(all) =>
      assert all == [] ==> s.records == map[];
      Dashboard(Some(|all|), PopulateRecentEntries(all))
    case Failure(_) => Dashboard(None, LoadFailed)
  }

  /** Every shown record is one of the records read. */
  lemma RecentEntryRead(all: seq<Record>, i: nat)
    requires i < |RecentEntries(all)|
    ensures exists j :: 0 <= j < |all| && all[j] == RecentEntries(all)[i]
  {
    var recent := RecentEntries(all);
    assert recent[i] in multiset(all);
  }

  /** With a valid store, every row of the table is the row of a stored
      record under its own key. */
  lemma DashboardRowsFromStore(s: Store)
    requires Valid(s)
    ensures var t := PopulateRecentEntries(GetAll(s));
      t.Entries? ==> forall i :: 0 <= i < |t.rows| ==>
        t.rows[i].id in s.records && t.rows[i] == RowOf(s.records[t.rows[i].id])
  {
    var all := GetAll(s);
    var t := PopulateRecentEntries(all);
    if t.Entries? {
      forall i | 0 <= i < |t.rows|
        ensures t.rows[i].id in s.records && t.rows[i] == RowOf(s.records[t.rows[i].id])
      {
        RecentEntryRead(all, i);
        var j :| 0 <= j < |all| && all[j] == RecentEntries(all)[i];
        assert all[j].id in s.records && s.records[all[j].id] == all[j];
      }
    }
  }
}
