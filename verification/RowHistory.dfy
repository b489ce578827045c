/** The versioned row store and how each of its rows came about. */
module RowHistory {
  import opened Common
  import opened Commands

  datatype RowKey = RowKey(table: string, id: string)

  datatype Row = Row(version: int, cells: Cells)

  /** How a row came about: as inserted, then one patch per update. */
  datatype History = History(born: Row, patches: seq<Cells>)

  function Replay(h: History, n: nat): Row
    requires n <= |h.patches|
  {
    if n == 0 then h.born
    else
      var before := Replay(h, n - 1);
      Row(before.version + 1, before.cells + h.patches[n - 1])
  }

  lemma {:induction false} ReplayVersion(h: History, n: nat)
    requires n <= |h.patches|
    ensures Replay(h, n).version == h.born.version + n
  {
    if n > 0 {
      ReplayVersion(h, n - 1);
    }
  }

  lemma {:induction false} ReplayGrows(h: History, patch: Cells, n: nat)
    requires n <= |h.patches|
    ensures Replay(h.(patches := h.patches + [patch]), n) == Replay(h, n)
  {
    if n > 0 {
      ReplayGrows(h, patch, n - 1);
    }
  }

  /** The last patch that sets `c`. */
  function LastPatch(h: History, n: nat, c: string): (r: Option<nat>)
    requires n <= |h.patches|
    ensures r.Some? ==> r.value < n && c in h.patches[r.value] && forall j :: r.value < j < n ==> c !in h.patches[j]
    ensures r.None? ==> forall j :: 0 <= j < n ==> c !in h.patches[j]
  {
    if n == 0 then None else if c in h.patches[n - 1] then Some(n - 1) else LastPatch(h, n - 1, c)
  }

  /** No update is lost: a cell holds what the last patch that sets it says, and
      the inserted value when none does. */
  lemma {:induction false} CellIsLastPatch(h: History, n: nat, c: string)
    requires n <= |h.patches|
    ensures var cells, last := Replay(h, n).cells, LastPatch(h, n, c);
            && (c in cells <==> last.Some? || c in h.born.cells)
            && (c in cells ==> cells[c] == if last.Some? then h.patches[last.value][c] else h.born.cells[c])
  {
    if n > 0 {
      CellIsLastPatch(h, n - 1, c);
    }
  }

  /** Neither the id nor the status nor the version is ever patched. */
  ghost predicate Guarded(patch: Cells) {
    "id" !in patch && "status" !in patch && "version" !in patch
  }

  type Histories = map<RowKey, History>

  /** The row is what its history says; the history starts under its own id. */
  ghost predicate RowOk(k: RowKey, row: Row, h: History) {
    && row == Replay(h, |h.patches|)
    && "id" in h.born.cells && h.born.cells["id"] == Text(k.id)
    && forall i :: 0 <= i < |h.patches| ==> Guarded(h.patches[i])
  }

  ghost predicate StoreOk(rows: map<RowKey, Row>, past: Histories, inserted: seq<RowKey>) {
    && rows.Keys == past.Keys
    && (forall k :: k in past ==> RowOk(k, rows[k], past[k]))
    && Distinct(inserted) && (forall k :: k in inserted <==> k in rows)
  }

  /** Whatever updates ran, id and status are those of the insert, and the version
      has moved once per update. */
  lemma IdAndStatusStay(rows: map<RowKey, Row>, past: Histories, inserted: seq<RowKey>, k: RowKey, c: string)
    requires StoreOk(rows, past, inserted) && k in rows && c in {"id", "status"}
    ensures c in rows[k].cells <==> c in past[k].born.cells
    ensures c in rows[k].cells ==> rows[k].cells[c] == past[k].born.cells[c]
    ensures rows[k].version == past[k].born.version + |past[k].patches|
  {
    var n := |past[k].patches|;
    assert RowOk(k, rows[k], past[k]);
    CellIsLastPatch(past[k], n, c);
    ReplayVersion(past[k], n);
  }

  /** The row as it stood after some of its updates. */
  ghost predicate WasRow(h: History, row: Row) {
    exists n :: 0 <= n <= |h.patches| && row == Replay(h, n)
  }

  /** A row that some call has read. */
  ghost predicate Seen(past: Histories, key: RowKey, row: Row) {
    key in past && WasRow(past[key], row)
  }

  /** The versions agree only if the row read is the row that stands. */
  lemma SameVersionSameRow(rows: map<RowKey, Row>, past: Histories, inserted: seq<RowKey>, key: RowKey, row: Row)
    requires StoreOk(rows, past, inserted) && Seen(past, key, row) && row.version == rows[key].version
    ensures row == rows[key]
  {
    var n :| 0 <= n <= |past[key].patches| && row == Replay(past[key], n);
    assert RowOk(key, rows[key], past[key]);
    ReplayVersion(past[key], n);
    ReplayVersion(past[key], |past[key].patches|);
  }

  lemma StandingIsSeen(rows: map<RowKey, Row>, past: Histories, inserted: seq<RowKey>, key: RowKey)
    requires StoreOk(rows, past, inserted) && key in rows
    ensures Seen(past, key, rows[key])
  {
    assert RowOk(key, rows[key], past[key]);
  }

  predicate HasId(row: Row, id: string) {
    "id" in row.cells && row.cells["id"] == Text(id)
  }

  /** Whatever a call has read under a key carries that key's id. */
  lemma SeenHasId(rows: map<RowKey, Row>, past: Histories, inserted: seq<RowKey>, key: RowKey, row: Row)
    requires StoreOk(rows, past, inserted) && Seen(past, key, row)
    ensures HasId(row, key.id)
  {
    var n :| 0 <= n <= |past[key].patches| && row == Replay(past[key], n);
    assert RowOk(key, rows[key], past[key]);
    CellIsLastPatch(past[key], n, "id");
  }

  function Patch(h: History, patch: Cells): History {
    h.(patches := h.patches + [patch])
  }

  function Update(row: Row, patch: Cells): Row {
    Row(row.version + 1, row.cells + patch)
  }

  lemma PatchKeepsRow(k: RowKey, row: Row, h: History, patch: Cells)
    requires RowOk(k, row, h) && Guarded(patch)
    ensures RowOk(k, Update(row, patch), Patch(h, patch))
    ensures forall r :: WasRow(h, r) ==> WasRow(Patch(h, patch), r)
  {
    ReplayGrows(h, patch, |h.patches|);
    forall r | WasRow(h, r)
      ensures WasRow(Patch(h, patch), r)
    {
      var n :| 0 <= n <= |h.patches| && r == Replay(h, n);
      ReplayGrows(h, patch, n);
    }
  }

  /** Rows once read stay part of their row's history. */
  ghost predicate Remembers(past: Histories, past': Histories) {
    forall k, r :: Seen(past, k, r) ==> Seen(past', k, r)
  }

  lemma InsertKeepsStore(rows: map<RowKey, Row>, past: Histories, inserted: seq<RowKey>, key: RowKey, row: Row)
    requires StoreOk(rows, past, inserted) && key !in rows && "id" in row.cells && row.cells["id"] == Text(key.id)
    ensures StoreOk(rows[key := row], past[key := History(row, [])], inserted + [key])
    ensures Remembers(past, past[key := History(row, [])]) && past.Keys <= past[key := History(row, [])].Keys
  {
    assert RowOk(key, row, History(row, []));
  }

  lemma UpdateKeepsStore(rows: map<RowKey, Row>, past: Histories, inserted: seq<RowKey>, key: RowKey, patch: Cells)
    requires StoreOk(rows, past, inserted) && key in rows && Guarded(patch)
    ensures StoreOk(rows[key := Update(rows[key], patch)], past[key := Patch(past[key], patch)], inserted)
    ensures Remembers(past, past[key := Patch(past[key], patch)])
            && past.Keys <= past[key := Patch(past[key], patch)].Keys
  {
    PatchKeepsRow(key, rows[key], past[key], patch);
  }

  /** Every row was inserted exactly once, and nothing else was. */
  lemma OneInsertPerId(rows: map<RowKey, Row>, past: Histories, inserted: seq<RowKey>, k: RowKey)
    requires StoreOk(rows, past, inserted)
    ensures multiset(inserted)[k] == if k in rows then 1 else 0
    ensures |inserted| == |rows.Keys|
  {
    DistinctCounts(inserted, k);
    assert k in inserted <==> k in multiset(inserted);
    DistinctSize(inserted);
    assert Elements(inserted) == rows.Keys;
  }
}
