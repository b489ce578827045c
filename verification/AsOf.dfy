/** The instance as of a step, folded from the event log, and what the step
    changed. */
module AsOf {
  import opened Common

  datatype Value = Null | Plain(text: string) | Json(text: string)

  type Row = map<string, Value>

  datatype Entry = Entry(eventRef: string, aggregateRoot: string, aggregateId: string, payload: Row)

  /** A reconstructed row; `fields` leaves out its id. */
  datatype OutRow = OutRow(id: string, fields: Row)

  function Key(agg: string, id: string): string {
    agg + "#" + id
  }

  /** One name starts with the other and a hash. */
  predicate Collide(a: string, b: string) {
    a + "#" <= b || b + "#" <= a
  }

  /** The aggregate's name runs into no other name of the log. */
  ghost predicate Fits(chrono: seq<Entry>, agg: string) {
    forall i :: 0 <= i < |chrono| ==> chrono[i].aggregateRoot == agg || !Collide(agg, chrono[i].aggregateRoot)
  }

  /** Keys tell rows apart unless one aggregate name runs into the other. */
  lemma KeyTellsApart(a: string, i: string, b: string, j: string)
    requires a == b || !Collide(a, b)
    ensures Key(a, i) == Key(b, j) <==> a == b && i == j
  {
    if Key(a, i) == Key(b, j) {
      if |a| < |b| {
        HashInside(a, i, b, j);
      } else if |b| < |a| {
        HashInside(b, j, a, i);
      }
      var k := Key(a, i);
      assert k[..|a|] == a && k[..|b|] == b && k[|a| + 1..] == i && k[|b| + 1..] == j;
    }
  }

  lemma HashInside(a: string, i: string, b: string, j: string)
    requires Key(a, i) == Key(b, j) && |a| < |b|
    ensures a + "#" <= b
  {
    assert Key(a, i)[..|a| + 1] == a + "#";
    assert Key(b, j)[..|a| + 1] == b[..|a| + 1];
  }

  /** A longer name that starts with `a` and a hash: its rows are also rows of `a`. */
  lemma LongerCollides(a: string, b: string, j: string) returns (i: string)
    requires a + "#" <= b
    ensures Key(a, i) == Key(b, j) && (j != "" ==> i != "") && i == b[|a| + 1..] + "#" + j
  {
    i := b[|a| + 1..] + "#" + j;
    assert b == a + "#" + b[|a| + 1..];
  }

  /** Two aggregates can share a key exactly if one name runs into the other. */
  lemma KeysCollideIff(a: string, b: string)
    requires a != b
    ensures (exists i, j :: Key(a, i) == Key(b, j)) <==> Collide(a, b)
  {
    if Collide(a, b) {
      if a + "#" <= b {
        var i := LongerCollides(a, b, "1");
      } else {
        var j := LongerCollides(b, a, "1");
        assert Key(a, "1") == Key(b, j);
      }
    } else {
      forall i, j
        ensures Key(a, i) != Key(b, j)
      {
        KeyTellsApart(a, i, b, j);
      }
    }
  }

  // --- the fold, and what it means ----------------------------------------------------------------

  /** Which log entries a reconstruction takes: the declared index of their event
      decides, not their time. */
  datatype Cut = Cut(refIdx: map<string, nat>, limit: nat)

  predicate Takes(cut: Cut, e: Entry) {
    e.aggregateId != "" && e.eventRef in cut.refIdx && cut.refIdx[e.eventRef] < cut.limit && e.payload != map[]
  }

  predicate On(e: Entry, key: string) {
    Key(e.aggregateRoot, e.aggregateId) == key
  }

  /** The row folded for one key; later entries win. */
  function FoldRow(cut: Cut, chrono: seq<Entry>, key: string): Row {
    if chrono == [] then map[]
    else
      var row, last := FoldRow(cut, chrono[..|chrono| - 1], key), chrono[|chrono| - 1];
      if Takes(cut, last) && On(last, key) then row + last.payload else row
  }

  ghost predicate Present(cut: Cut, chrono: seq<Entry>, key: string) {
    exists i :: 0 <= i < |chrono| && Takes(cut, chrono[i]) && On(chrono[i], key)
  }

  /** The row the first taken entry of a key names. */
  function Owner(cut: Cut, chrono: seq<Entry>, key: string): (r: Option<(string, string)>)
    ensures r.Some? ==>
              Key(r.value.0, r.value.1) == key && exists i :: 0 <= i < |chrono| && chrono[i].aggregateRoot == r.value.0
    ensures r.Some? <==> Present(cut, chrono, key)
  {
    if chrono == [] then None
    else
      var front, last := chrono[..|chrono| - 1], chrono[|chrono| - 1];
      assert chrono == front + [last];
      assert forall i :: 0 <= i < |front| ==> front[i] == chrono[i];
      var owner := Owner(cut, front, key);
      if owner.Some? then owner else if Takes(cut, last) && On(last, key)
        then Some((last.aggregateRoot, last.aggregateId)) else None
  }

  /** Under a name that runs into no other, every key belongs to its own row. */
  lemma OwnerOfFitting(cut: Cut, chrono: seq<Entry>, agg: string, id: string)
    requires Fits(chrono, agg)
    ensures Owner(cut, chrono, Key(agg, id)) == if Present(cut, chrono, Key(agg, id)) then Some((agg, id)) else None
  {
    var owner := Owner(cut, chrono, Key(agg, id));
    if owner.Some? {
      KeyTellsApart(agg, id, owner.value.0, owner.value.1);
    }
  }

  predicate Carries(cut: Cut, e: Entry, key: string, c: string) {
    Takes(cut, e) && On(e, key) && c in e.payload
  }

  /** The chronologically last taken entry that carries `c` on this row. */
  function LastCarrier(cut: Cut, chrono: seq<Entry>, key: string, c: string): (r: Option<nat>)
    ensures r.Some? ==>
              && r.value < |chrono| && Carries(cut, chrono[r.value], key, c)
              && forall j :: r.value < j < |chrono| ==> !Carries(cut, chrono[j], key, c)
    ensures r.None? ==> forall j :: 0 <= j < |chrono| ==> !Carries(cut, chrono[j], key, c)
  {
    if chrono == [] then None
    else if Carries(cut, chrono[|chrono| - 1], key, c) then Some(|chrono| - 1)
    else LastCarrier(cut, chrono[..|chrono| - 1], key, c)
  }

  /** The fold holds, for every field, the value carried last. */
  lemma {:induction false} FoldHoldsLast(cut: Cut, chrono: seq<Entry>, key: string, c: string)
    ensures var row, last := FoldRow(cut, chrono, key), LastCarrier(cut, chrono, key, c);
            (c in row <==> last.Some?) && (last.Some? ==> row[c] == chrono[last.value].payload[c])
  {
    if chrono != [] {
      FoldHoldsLast(cut, chrono[..|chrono| - 1], key, c);
    }
  }

  /** Every field some entry ever carried on this row, over the whole log. */
  function EverCarried(chrono: seq<Entry>, key: string): set<string> {
    if chrono == [] then {}
    else
      var fields, last := EverCarried(chrono[..|chrono| - 1], key), chrono[|chrono| - 1];
      if last.aggregateId != "" && On(last, key) then fields + last.payload.Keys else fields
  }

  /** One reconstructed row: folded fields, blanks for what comes only later, the
      live value for what no command ever carries. */
  function Shown(live: Row, asOf: Row, carried: set<string>): Row {
    map c | c in live.Keys + asOf.Keys && c != "id" ::
        if c in asOf then asOf[c] else if c in carried then Null else live[c]
  }

  function LiveRow(live: map<string, Row>, key: string): Row {
    if key in live then live[key] else map[]
  }

  function RowFor(cut: Cut, chrono: seq<Entry>, live: map<string, Row>, id: string, key: string): OutRow {
    OutRow(id, Shown(LiveRow(live, key), FoldRow(cut, chrono, key), EverCarried(chrono, key)))
  }

  ghost function RowAt(cut: Cut, chrono: seq<Entry>, live: map<string, Row>, agg: string, id: string): Option<OutRow> {
    if Present(cut, chrono, Key(agg, id)) then Some(RowFor(cut, chrono, live, id, Key(agg, id))) else None
  }

  // --- reconstruction -------------------------------------------------------------------------------

  datatype Folded = Folded(agg: string, id: string, row: Row)

  datatype Instance = Instance(rootAggregate: string, root: Option<OutRow>, entities: map<string, seq<OutRow>>)

  method CollectCarried(chrono: seq<Entry>) returns (carried: map<string, set<string>>)
    ensures forall key :: EverCarried(chrono, key) == if key in carried then carried[key] else {}
  {
    carried := map[];
    for i := 0 to |chrono|
      invariant forall key :: EverCarried(chrono[..i], key) == if key in carried then carried[key] else {}
    {
      var ev := chrono[i];
      assert chrono[..i + 1][..i] == chrono[..i];
      if ev.aggregateId != "" {
        var key := Key(ev.aggregateRoot, ev.aggregateId);
        carried := carried[key := (if key in carried then carried[key] else {}) + ev.payload.Keys];
      }
    }
    assert chrono[..|chrono|] == chrono;
  }

  /** The map the fold loop has built after these entries, its keys in insertion
      order. */
  ghost predicate IsFold(cut: Cut, chrono: seq<Entry>, keys: seq<string>, folded: map<string, Folded>) {
    && Distinct(keys)
    && (forall k :: k in keys <==> k in folded)
    && (forall k :: k in folded <==> Present(cut, chrono, k))
    && (forall k :: k in folded ==>
          folded[k].row == FoldRow(cut, chrono, k) && Owner(cut, chrono, k) == Some((folded[k].agg, folded[k].id)))
  }

  lemma PresentStep(cut: Cut, chrono: seq<Entry>, i: nat)
    requires i < |chrono|
    ensures forall k ::
              Present(cut, chrono[..i + 1], k) <==>
              Present(cut, chrono[..i], k) || (Takes(cut, chrono[i]) && On(chrono[i], k))
  {
    forall k
      ensures Present(cut, chrono[..i + 1], k)
              <==> Present(cut, chrono[..i], k) || (Takes(cut, chrono[i]) && On(chrono[i], k))
    {
      if Present(cut, chrono[..i], k) {
        var j :| 0 <= j < i && Takes(cut, chrono[..i][j]) && On(chrono[..i][j], k);
        assert chrono[..i + 1][j] == chrono[..i][j];
      }
      if Takes(cut, chrono[i]) && On(chrono[i], k) {
        assert chrono[..i + 1][i] == chrono[i];
      }
      if Present(cut, chrono[..i + 1], k) {
        var j :| 0 <= j < i + 1 && Takes(cut, chrono[..i + 1][j]) && On(chrono[..i + 1][j], k);
        if j < i {
          assert chrono[..i][j] == chrono[..i + 1][j];
        }
      }
    }
  }

  method FoldLog(cut: Cut, chrono: seq<Entry>) returns (keys: seq<string>, folded: map<string, Folded>)
    ensures IsFold(cut, chrono, keys, folded)
  {
    keys, folded := [], map[];
    for i := 0 to |chrono|
      invariant IsFold(cut, chrono[..i], keys, folded)
    {
      var ev := chrono[i];
      assert chrono[..i + 1] == chrono[..i] + [ev];
      if Takes(cut, ev) {
        keys, folded := FoldEntry(cut, chrono[..i], keys, folded, ev);
      } else {
        SkipStep(cut, chrono[..i], ev);
      }
    }
    assert chrono[..|chrono|] == chrono;
  }

  method FoldEntry(ghost cut: Cut, ghost chrono: seq<Entry>, keys: seq<string>, folded: map<string, Folded>, ev: Entry)
    returns (keys': seq<string>, folded': map<string, Folded>)
    requires IsFold(cut, chrono, keys, folded) && Takes(cut, ev)
    ensures IsFold(cut, chrono + [ev], keys', folded')
  {
    var key := Key(ev.aggregateRoot, ev.aggregateId);
    var cur;
    if key in folded {
      keys', cur := keys, folded[key];
    } else {
      keys', cur := keys + [key], Folded(ev.aggregateRoot, ev.aggregateId, map[]);
      NeverFolded(cut, chrono, key);
    }
    folded' := folded[key := cur.(row := cur.row + ev.payload)];
    FoldStep(cut, chrono, ev);
  }

  lemma FoldStep(cut: Cut, chrono: seq<Entry>, ev: Entry)
    requires Takes(cut, ev)
    ensures forall k :: Present(cut, chrono + [ev], k) <==> Present(cut, chrono, k) || On(ev, k)
    ensures forall k ::
              FoldRow(cut, chrono + [ev], k) == FoldRow(cut, chrono, k) + if On(ev, k) then ev.payload else map[]
    ensures forall k :: Owner(cut, chrono + [ev], k) ==
                        if Present(cut, chrono, k) || !On(ev, k) then Owner(cut, chrono, k)
                          else Some((ev.aggregateRoot, ev.aggregateId))
  {
    var grown := chrono + [ev];
    assert grown[..|chrono|] == chrono && grown[..|chrono| + 1] == grown;
    PresentStep(cut, grown, |chrono|);
    forall k
      ensures FoldRow(cut, grown, k) == FoldRow(cut, chrono, k) + if On(ev, k) then ev.payload else map[]
    {
      assert FoldRow(cut, chrono, k) + map[] == FoldRow(cut, chrono, k);
    }
  }

  lemma SkipStep(cut: Cut, chrono: seq<Entry>, ev: Entry)
    requires !Takes(cut, ev)
    ensures forall k :: Present(cut, chrono + [ev], k) <==> Present(cut, chrono, k)
    ensures forall k :: FoldRow(cut, chrono + [ev], k) == FoldRow(cut, chrono, k)
    ensures forall k :: Owner(cut, chrono + [ev], k) == Owner(cut, chrono, k)
  {
    var grown := chrono + [ev];
    assert grown[..|chrono|] == chrono && grown[..|chrono| + 1] == grown;
    PresentStep(cut, grown, |chrono|);
  }

  lemma {:induction false} NeverFolded(cut: Cut, chrono: seq<Entry>, key: string)
    requires !Present(cut, chrono, key)
    ensures FoldRow(cut, chrono, key) == map[]
  {
    if chrono != [] {
      var front := chrono[..|chrono| - 1];
      assert forall i :: 0 <= i < |front| ==> front[i] == chrono[i];
      NeverFolded(cut, front, key);
    }
  }

  method BuildRow(live: Row, asOf: Row, carried: set<string>) returns (fields: Row)
    ensures fields == Shown(live, asOf, carried)
  {
    fields := map[];
    var todo := live.Keys + asOf.Keys;
    while todo != {}
      invariant todo <= live.Keys + asOf.Keys
      invariant fields == map c | c in Shown(live, asOf, carried) && c !in todo :: Shown(live, asOf, carried)[c]
    {
      var c :| c in todo;
      if c != "id" {
        var v := if c in asOf then asOf[c] else if c in carried then Null else live[c];
        fields := fields[c := v];
      }
      todo := todo - {c};
    }
  }

  /** `rows.find((r) => r.id === id)` */
  function Find(rows: seq<OutRow>, id: string): Option<OutRow> {
    if rows == [] then None else if rows[0].id == id then Some(rows[0]) else Find(rows[1..], id)
  }

  lemma {:induction false} FindSnoc(rows: seq<OutRow>, row: OutRow, id: string)
    ensures Find(rows + [row], id) ==
            if Find(rows, id).Some? then Find(rows, id) else if row.id == id then Some(row) else None
  {
    if rows != [] {
      FindSnoc(rows[1..], row, id);
      assert (rows + [row])[1..] == rows[1..] + [row];
    }
  }

  /** How the data view looks a row up in a reconstruction. */
  function LookUp(inst: Instance, agg: string, id: string): Option<OutRow> {
    if agg == inst.rootAggregate && inst.root.Some? && inst.root.value.id == id then inst.root
    else if agg in inst.entities then Find(inst.entities[agg], id)
    else None
  }

  /** Puts one row where it belongs: the root's own, or its aggregate's list. */
  method Place(inst: Instance, rootId: string, agg: string, row: OutRow) returns (r: Instance)
    requires LookUp(inst, agg, row.id).None? && (inst.root.Some? ==> inst.root.value.id == rootId)
    ensures r.rootAggregate == inst.rootAggregate && (r.root.Some? ==> r.root.value.id == rootId)
    ensures forall a, i :: LookUp(r, a, i) == if a == agg && i == row.id then Some(row) else LookUp(inst, a, i)
  {
    if agg == inst.rootAggregate && row.id == rootId {
      r := inst.(root := Some(row));
    } else {
      var rows := if agg in inst.entities then inst.entities[agg] else [];
      r := inst.(entities := inst.entities[agg := rows + [row]]);
      forall i {
        FindSnoc(rows, row, i);
      }
    }
  }

  /** The reconstruction at one cut, row by row: a row is there exactly if the
      first entry of its key names it, and then it is what the log tells about the
      key. Under a name that runs into no other that is every row of the log. */
  method ReconstructInstance(cut: Cut, chrono: seq<Entry>, live: map<string, Row>, carried: map<string, set<string>>,
                             rootAggregate: string, rootId: string)
    returns (inst: Instance)
    requires forall key :: EverCarried(chrono, key) == if key in carried then carried[key] else {}
    ensures inst.rootAggregate == rootAggregate && Tells(cut, chrono, live, inst)
    ensures forall agg, id :: Fits(chrono, agg) ==> LookUp(inst, agg, id) == RowAt(cut, chrono, live, agg, id)
    ensures InstanceTold(cut.refIdx, cut.limit, chrono, live, inst)
  {
    var keys, folded := FoldLog(cut, chrono);
    inst := Instance(rootAggregate, None, map[]);
    for n := 0 to |keys|
      invariant inst.rootAggregate == rootAggregate && (inst.root.Some? ==> inst.root.value.id == rootId)
      invariant TellsOf(cut, chrono, live, keys[..n], inst)
    {
      var key := keys[n];
      DistinctStep(keys, n);
      assert key in folded;
      var f := folded[key];
      var fields := BuildRow(LiveRow(live, key), f.row, if key in carried then carried[key] else {});
      ghost var before := inst;
      inst := Place(inst, rootId, f.agg, OutRow(f.id, fields));
      TellsStep(cut, chrono, live, keys[..n], f.agg, f.id, before, inst);
    }
    assert keys[..|keys|] == keys;
    TellsFitting(cut, chrono, live, inst);
    InstanceIsTold(cut.refIdx, cut.limit, chrono, live, inst);
  }

  ghost predicate Owned(cut: Cut, chrono: seq<Entry>, agg: string, id: string) {
    Owner(cut, chrono, Key(agg, id)) == Some((agg, id))
  }

  ghost predicate Tells(cut: Cut, chrono: seq<Entry>, live: map<string, Row>, inst: Instance) {
    forall agg, id :: LookUp(inst, agg, id) ==
      if Owned(cut, chrono, agg, id) then RowAt(cut, chrono, live, agg, id) else None
  }

  /** The same while only some keys have been placed. */
  ghost predicate TellsOf(cut: Cut, chrono: seq<Entry>, live: map<string, Row>, keys: seq<string>, inst: Instance) {
    forall agg, id :: LookUp(inst, agg, id) ==
      if Key(agg, id) in keys && Owned(cut, chrono, agg, id) then RowAt(cut, chrono, live, agg, id) else None
  }

  lemma TellsStep(cut: Cut, chrono: seq<Entry>, live: map<string, Row>, keys: seq<string>, agg: string, id: string,
                  inst: Instance, r: Instance)
    requires TellsOf(cut, chrono, live, keys, inst) && Owned(cut, chrono, agg, id)
    requires forall a, i ::
               LookUp(r, a, i) == if a == agg && i == id then RowAt(cut, chrono, live, agg, id) else LookUp(inst, a, i)
    ensures TellsOf(cut, chrono, live, keys + [Key(agg, id)], r)
  {
    forall a, i
      ensures LookUp(r, a, i) ==
              if Key(a, i) in keys + [Key(agg, id)] && Owned(cut, chrono, a, i) then RowAt(cut, chrono, live, a, i)
                else None
    {
      assert Key(a, i) == Key(agg, id) && Owned(cut, chrono, a, i) ==> a == agg && i == id;
    }
  }

  lemma TellsFitting(cut: Cut, chrono: seq<Entry>, live: map<string, Row>, inst: Instance)
    requires Tells(cut, chrono, live, inst)
    ensures forall agg, id :: Fits(chrono, agg) ==> LookUp(inst, agg, id) == RowAt(cut, chrono, live, agg, id)
  {
    forall agg, id | Fits(chrono, agg)
      ensures LookUp(inst, agg, id) == RowAt(cut, chrono, live, agg, id)
    {
      OwnerOfFitting(cut, chrono, agg, id);
    }
  }

  // --- what a row says, from the log alone ------------------------------------------------------------

  /** An entry of that row: under a name that runs into no other, one that names
      its aggregate and id (`RowOfFitting`). */
  ghost predicate OfRow(e: Entry, agg: string, id: string) {
    e.aggregateId != "" && e.aggregateRoot + "#" + e.aggregateId == agg + "#" + id
  }

  lemma RowOfFitting(chrono: seq<Entry>, agg: string, id: string, i: nat)
    requires Fits(chrono, agg) && i < |chrono|
    ensures OfRow(chrono[i], agg, id) <==> id != "" && chrono[i].aggregateRoot == agg && chrono[i].aggregateId == id
  {
    KeyTellsApart(agg, id, chrono[i].aggregateRoot, chrono[i].aggregateId);
  }

  ghost predicate FiredBefore(refIdx: map<string, nat>, limit: nat, e: Entry) {
    e.eventRef in refIdx && refIdx[e.eventRef] < limit
  }

  /** What the last entry of this row that carries `c` says, among the events
      declared before `limit`. */
  ghost function LastSaid(refIdx: map<string, nat>, limit: nat, chrono: seq<Entry>, agg: string, id: string, c: string)
    : Option<Value>
  {
    if chrono == [] then None
    else
      var e := chrono[|chrono| - 1];
      if OfRow(e, agg, id) && FiredBefore(refIdx, limit, e) && c in e.payload then Some(e.payload[c])
      else LastSaid(refIdx, limit, chrono[..|chrono| - 1], agg, id, c)
  }

  ghost predicate EverSaid(chrono: seq<Entry>, agg: string, id: string, c: string) {
    exists i :: 0 <= i < |chrono| && OfRow(chrono[i], agg, id) && c in chrono[i].payload
  }

  ghost predicate Appeared(refIdx: map<string, nat>, limit: nat, chrono: seq<Entry>, agg: string, id: string) {
    exists i :: 0 <= i < |chrono| && OfRow(chrono[i], agg, id) && FiredBefore(refIdx, limit, chrono[i])
                && chrono[i].payload != map[]
  }

  /** One field of a row as of a step: what was said last; blank if only later
      events say it; what the live row has if nothing ever says it. */
  ghost predicate FieldTold(refIdx: map<string, nat>, limit: nat, chrono: seq<Entry>, live: Row, agg: string,
                            id: string, fields: Row, c: string) {
    var said := LastSaid(refIdx, limit, chrono, agg, id, c);
    if said.Some? then c in fields && fields[c] == said.value
    else (c in fields <==> c in live)
         && (c in fields ==> fields[c] == if EverSaid(chrono, agg, id, c) then Null else live[c])
  }

  /** A row as of a step: an event before the limit touched it, and every field is
      told. */
  ghost predicate RowTold(refIdx: map<string, nat>, limit: nat, chrono: seq<Entry>, live: map<string, Row>, agg: string,
                          id: string, row: OutRow) {
    var key := agg + "#" + id;
    var now := if key in live then live[key] else map[];
    && Appeared(refIdx, limit, chrono, agg, id)
    && row.id == id && "id" !in row.fields
    && forall c {:trigger FieldTold(refIdx, limit, chrono, now, agg, id, row.fields, c)} ::
         c != "id" ==> FieldTold(refIdx, limit, chrono, now, agg, id, row.fields, c)
  }

  /** Each row found is told; under a name that runs into no other, a row is found
      exactly if an event before the limit touched it. */
  ghost predicate InstanceTold(refIdx: map<string, nat>, limit: nat, chrono: seq<Entry>, live: map<string, Row>,
                               inst: Instance) {
    && (forall agg, id :: LookUp(inst, agg, id).Some? ==>
          RowTold(refIdx, limit, chrono, live, agg, id, LookUp(inst, agg, id).value))
    && (forall agg, id :: Fits(chrono, agg) ==>
          (LookUp(inst, agg, id).Some? <==> Appeared(refIdx, limit, chrono, agg, id)))
  }

  lemma {:induction false} FoldIsSaid(refIdx: map<string, nat>, limit: nat, chrono: seq<Entry>, agg: string, id: string,
                                      c: string)
    ensures var row, said := FoldRow(Cut(refIdx, limit), chrono, Key(agg, id)),
                             LastSaid(refIdx, limit, chrono, agg, id, c);
            (c in row <==> said.Some?) && (said.Some? ==> row[c] == said.value)
  {
    if chrono != [] {
      FoldIsSaid(refIdx, limit, chrono[..|chrono| - 1], agg, id, c);
    }
  }

  lemma {:induction false} CarriedIsSaid(chrono: seq<Entry>, agg: string, id: string, c: string)
    ensures c in EverCarried(chrono, Key(agg, id)) <==> EverSaid(chrono, agg, id, c)
  {
    if chrono != [] {
      var front := chrono[..|chrono| - 1];
      CarriedIsSaid(front, agg, id, c);
      if EverSaid(front, agg, id, c) {
        var i :| 0 <= i < |front| && OfRow(front[i], agg, id) && c in front[i].payload;
        assert chrono[i] == front[i];
      }
      if EverSaid(chrono, agg, id, c) {
        var i :| 0 <= i < |chrono| && OfRow(chrono[i], agg, id) && c in chrono[i].payload;
        assert i < |front| ==> front[i] == chrono[i];
      }
    }
  }

  lemma PresentIsAppeared(refIdx: map<string, nat>, limit: nat, chrono: seq<Entry>, agg: string, id: string)
    ensures Present(Cut(refIdx, limit), chrono, Key(agg, id)) <==> Appeared(refIdx, limit, chrono, agg, id)
  {
    if Present(Cut(refIdx, limit), chrono, Key(agg, id)) {
      var i :| 0 <= i < |chrono| && Takes(Cut(refIdx, limit), chrono[i]) && On(chrono[i], Key(agg, id));
      assert OfRow(chrono[i], agg, id);
    }
    if Appeared(refIdx, limit, chrono, agg, id) {
      var i :| 0 <= i < |chrono| && OfRow(chrono[i], agg, id) && FiredBefore(refIdx, limit, chrono[i])
        && chrono[i].payload != map[];
      assert Takes(Cut(refIdx, limit), chrono[i]);
    }
  }

  /** A reconstructed row shows no value from the future and loses none from the
      past. */
  lemma RowIsTold(refIdx: map<string, nat>, limit: nat, chrono: seq<Entry>, live: map<string, Row>, agg: string,
                  id: string)
    ensures var row := RowAt(Cut(refIdx, limit), chrono, live, agg, id);
            && (row.Some? <==> Appeared(refIdx, limit, chrono, agg, id))
            && (row.Some? ==> RowTold(refIdx, limit, chrono, live, agg, id, row.value))
  {
    PresentIsAppeared(refIdx, limit, chrono, agg, id);
    forall c | c != "id"
      ensures FieldTold(refIdx, limit, chrono, LiveRow(live, Key(agg, id)), agg, id,
                        RowFor(Cut(refIdx, limit), chrono, live, id, Key(agg, id)).fields, c)
    {
      FoldIsSaid(refIdx, limit, chrono, agg, id, c);
      CarriedIsSaid(chrono, agg, id, c);
    }
  }

  lemma InstanceIsTold(refIdx: map<string, nat>, limit: nat, chrono: seq<Entry>, live: map<string, Row>, inst: Instance)
    requires Tells(Cut(refIdx, limit), chrono, live, inst)
    ensures InstanceTold(refIdx, limit, chrono, live, inst)
  {
    TellsFitting(Cut(refIdx, limit), chrono, live, inst);
    forall agg, id
      ensures LookUp(inst, agg, id).Some? ==>
                RowTold(refIdx, limit, chrono, live, agg, id, LookUp(inst, agg, id).value)
      ensures Fits(chrono, agg) ==>
                (LookUp(inst, agg, id).Some? <==> Appeared(refIdx, limit, chrono, agg, id))
    {
      RowIsTold(refIdx, limit, chrono, live, agg, id);
    }
  }

  /** Both reconstructions of a selected step: as of it, and just before it. */
  method ActiveDetailInstance(refIdx: map<string, nat>, sel: nat, chrono: seq<Entry>, live: map<string, Row>,
                              rootAggregate: string, rootId: string)
    returns (asOf: Instance, before: Instance)
    ensures Tells(Cut(refIdx, sel + 1), chrono, live, asOf) && Tells(Cut(refIdx, sel), chrono, live, before)
    ensures forall agg, id :: Fits(chrono, agg) ==>
            LookUp(asOf, agg, id) == RowAt(Cut(refIdx, sel + 1), chrono, live, agg, id)
    ensures forall agg, id :: Fits(chrono, agg) ==>
            LookUp(before, agg, id) == RowAt(Cut(refIdx, sel), chrono, live, agg, id)
    ensures InstanceTold(refIdx, sel + 1, chrono, live, asOf) && InstanceTold(refIdx, sel, chrono, live, before)
  {
    var carried := CollectCarried(chrono);
    asOf := ReconstructInstance(Cut(refIdx, sel + 1), chrono, live, carried, rootAggregate, rootId);
    before := ReconstructInstance(Cut(refIdx, sel), chrono, live, carried, rootAggregate, rootId);
  }

  // --- the diff -------------------------------------------------------------------------------------

  /** Blank-tolerant text of a field; a missing one is blank. */
  function Norm(row: Row, c: string): string {
    if c !in row || row[c].Null? then "" else row[c].text
  }

  function Changed(hidden: set<string>, row: Row, prev: Row): set<string> {
    set c | c in row.Keys + prev.Keys && c != "id" && c !in hidden && Norm(row, c) != Norm(prev, c)
  }

  method AsOfChangedFields(hidden: set<string>, row: OutRow, prev: Option<OutRow>) returns (changed: set<string>)
    ensures changed == Changed(hidden, row.fields, if prev.Some? then prev.value.fields else map[])
  {
    var before := if prev.Some? then prev.value.fields else map[];
    changed := {};
    var todo := row.fields.Keys + before.Keys;
    while todo != {}
      invariant todo <= row.fields.Keys + before.Keys
      invariant changed == set c | c in Changed(hidden, row.fields, before) && c !in todo
    {
      var c :| c in todo;
      if c != "id" && c !in hidden && Norm(row.fields, c) != Norm(before, c) {
        changed := changed + {c};
      }
      todo := todo - {c};
    }
  }

  /** Some firing of the event at index `sel` carried `c` on this row. */
  ghost predicate CarriedBy(refIdx: map<string, nat>, sel: nat, chrono: seq<Entry>, agg: string, id: string,
                            c: string) {
    exists i :: 0 <= i < |chrono| && Carries(Cut(refIdx, sel + 1), chrono[i], Key(agg, id), c)
      && refIdx[chrono[i].eventRef] == sel
  }

  lemma SameLastCarrier(refIdx: map<string, nat>, sel: nat, chrono: seq<Entry>, agg: string, id: string, c: string)
    requires !CarriedBy(refIdx, sel, chrono, agg, id, c)
    ensures LastCarrier(Cut(refIdx, sel + 1), chrono, Key(agg, id), c)
            == LastCarrier(Cut(refIdx, sel), chrono, Key(agg, id), c)
  {
    var later, sooner, key := Cut(refIdx, sel + 1), Cut(refIdx, sel), Key(agg, id);
    forall i | 0 <= i < |chrono|
      ensures Carries(later, chrono[i], key, c) <==> Carries(sooner, chrono[i], key, c)
    {
      if Carries(later, chrono[i], key, c) {
        assert refIdx[chrono[i].eventRef] != sel;
      }
    }
  }

  /** Soundness of the highlight: on a row that existed just before the selected
      event, only fields carried by some firing of that event are reported. */
  lemma DiffIsSound(refIdx: map<string, nat>, sel: nat, chrono: seq<Entry>, live: map<string, Row>, hidden: set<string>,
                    agg: string, id: string, c: string)
    requires RowAt(Cut(refIdx, sel), chrono, live, agg, id).Some?
             && RowAt(Cut(refIdx, sel + 1), chrono, live, agg, id).Some?
    requires c in Changed(hidden, RowAt(Cut(refIdx, sel + 1), chrono, live, agg, id).value.fields,
                          RowAt(Cut(refIdx, sel), chrono, live, agg, id).value.fields)
    ensures CarriedBy(refIdx, sel, chrono, agg, id, c)
  {
    if !CarriedBy(refIdx, sel, chrono, agg, id, c) {
      SameLastCarrier(refIdx, sel, chrono, agg, id, c);
      FoldHoldsLast(Cut(refIdx, sel + 1), chrono, Key(agg, id), c);
      FoldHoldsLast(Cut(refIdx, sel), chrono, Key(agg, id), c);
    }
  }

  /** Entry `i` is a firing of the event at index `sel` on this very row. */
  ghost predicate FiredOn(refIdx: map<string, nat>, sel: nat, chrono: seq<Entry>, agg: string, id: string, i: nat) {
    && i < |chrono| && chrono[i].aggregateRoot == agg && chrono[i].aggregateId == id
    && chrono[i].eventRef in refIdx && refIdx[chrono[i].eventRef] == sel
  }

  lemma OnItsOwnRow(chrono: seq<Entry>, agg: string, id: string, i: nat)
    requires Fits(chrono, agg) && i < |chrono| && On(chrono[i], Key(agg, id))
    ensures chrono[i].aggregateRoot == agg && chrono[i].aggregateId == id
  {
    KeyTellsApart(agg, id, chrono[i].aggregateRoot, chrono[i].aggregateId);
  }

  /** A row that appears with the selected event was touched by a firing of it. */
  lemma NewRowIsFired(refIdx: map<string, nat>, sel: nat, chrono: seq<Entry>, live: map<string, Row>, agg: string,
                      id: string)
    returns (i: nat)
    requires Fits(chrono, agg)
    requires RowAt(Cut(refIdx, sel + 1), chrono, live, agg, id).Some?
             && RowAt(Cut(refIdx, sel), chrono, live, agg, id).None?
    ensures FiredOn(refIdx, sel, chrono, agg, id, i)
  {
    i :| 0 <= i < |chrono| && Takes(Cut(refIdx, sel + 1), chrono[i]) && On(chrono[i], Key(agg, id));
    assert !Takes(Cut(refIdx, sel), chrono[i]);
    OnItsOwnRow(chrono, agg, id, i);
  }

  /** Every highlighted field is due to a firing of the selected event on that very
      row: on a row that was there before, to one that carried the field; on a new
      row, to one that touched the row. */
  lemma HighlightIsSound(refIdx: map<string, nat>, sel: nat, chrono: seq<Entry>, live: map<string, Row>,
                         hidden: set<string>, agg: string, id: string, c: string)
    returns (i: nat)
    requires Fits(chrono, agg) && RowAt(Cut(refIdx, sel + 1), chrono, live, agg, id).Some?
    requires var prev := RowAt(Cut(refIdx, sel), chrono, live, agg, id);
             c in Changed(hidden, RowAt(Cut(refIdx, sel + 1), chrono, live, agg, id).value.fields,
                          if prev.Some? then prev.value.fields else map[])
    ensures FiredOn(refIdx, sel, chrono, agg, id, i)
    ensures RowAt(Cut(refIdx, sel), chrono, live, agg, id).Some? ==> c in chrono[i].payload
  {
    if RowAt(Cut(refIdx, sel), chrono, live, agg, id).Some? {
      DiffIsSound(refIdx, sel, chrono, live, hidden, agg, id, c);
      i :| 0 <= i < |chrono| && Carries(Cut(refIdx, sel + 1), chrono[i], Key(agg, id), c)
        && refIdx[chrono[i].eventRef] == sel;
      OnItsOwnRow(chrono, agg, id, i);
    } else {
      i := NewRowIsFired(refIdx, sel, chrono, live, agg, id);
    }
  }

  /** The text a value is shown as. */
  ghost function Text(said: Option<Value>): string {
    if said.None? || said.value.Null? then "" else said.value.text
  }

  /** A field the selected event gave another text than it had just before: what
      was said last as of the step against what was said last before it. On a row
      the event made, every nonblank field no event ever says counts as well. */
  ghost predicate GaveNewText(refIdx: map<string, nat>, sel: nat, chrono: seq<Entry>, live: map<string, Row>,
                              agg: string, id: string, c: string) {
    var key := agg + "#" + id;
    if EverSaid(chrono, agg, id, c)
    then Text(LastSaid(refIdx, sel + 1, chrono, agg, id, c)) != Text(LastSaid(refIdx, sel, chrono, agg, id, c))
    else !Appeared(refIdx, sel, chrono, agg, id) && key in live && c in live[key] && Text(Some(live[key][c])) != ""
  }

  lemma {:induction false} SaidIsEverSaid(refIdx: map<string, nat>, limit: nat, chrono: seq<Entry>, agg: string,
                                          id: string, c: string)
    ensures LastSaid(refIdx, limit, chrono, agg, id, c).Some? ==>
              EverSaid(chrono, agg, id, c) && Appeared(refIdx, limit, chrono, agg, id)
  {
    if chrono != [] {
      var front := chrono[..|chrono| - 1];
      SaidIsEverSaid(refIdx, limit, front, agg, id, c);
      assert forall i :: 0 <= i < |front| ==> front[i] == chrono[i];
      if EverSaid(front, agg, id, c) && Appeared(refIdx, limit, front, agg, id) {
        var i :| 0 <= i < |front| && OfRow(front[i], agg, id) && c in front[i].payload;
        var j :| 0 <= j < |front| && OfRow(front[j], agg, id) && FiredBefore(refIdx, limit, front[j])
          && front[j].payload != map[];
        assert OfRow(chrono[i], agg, id) && OfRow(chrono[j], agg, id);
      }
    }
  }

  lemma NormIsText(refIdx: map<string, nat>, limit: nat, chrono: seq<Entry>, live: Row, agg: string, id: string,
                   fields: Row, c: string)
    requires FieldTold(refIdx, limit, chrono, live, agg, id, fields, c)
    ensures var said := LastSaid(refIdx, limit, chrono, agg, id, c);
            Norm(fields, c) == if said.Some? || EverSaid(chrono, agg, id, c) || c !in live then Text(said)
                                 else Text(Some(live[c]))
  {
  }

  /** The highlight is exact: the reported fields are the visible ones to which the
      selected event gave a new text. */
  lemma HighlightIff(refIdx: map<string, nat>, sel: nat, chrono: seq<Entry>, live: map<string, Row>,
                     hidden: set<string>, agg: string, id: string, row: OutRow, prev: Option<OutRow>, c: string)
    requires RowTold(refIdx, sel + 1, chrono, live, agg, id, row)
    requires if prev.Some? then RowTold(refIdx, sel, chrono, live, agg, id, prev.value)
             else !Appeared(refIdx, sel, chrono, agg, id)
    ensures c in Changed(hidden, row.fields, if prev.Some? then prev.value.fields else map[]) <==>
            c != "id" && c !in hidden && GaveNewText(refIdx, sel, chrono, live, agg, id, c)
  {
    SaidIsEverSaid(refIdx, sel, chrono, agg, id, c);
    SaidIsEverSaid(refIdx, sel + 1, chrono, agg, id, c);
    if c != "id" {
      var key := agg + "#" + id;
      var now := if key in live then live[key] else map[];
      NormIsText(refIdx, sel + 1, chrono, now, agg, id, row.fields, c);
      if prev.Some? {
        NormIsText(refIdx, sel, chrono, now, agg, id, prev.value.fields, c);
      }
    }
  }

  /** The highlight of one row in the data view, from the log to the changed
      fields. */
  method Highlight(refIdx: map<string, nat>, sel: nat, chrono: seq<Entry>, live: map<string, Row>,
                   rootAggregate: string, rootId: string, hidden: set<string>, agg: string, id: string)
    returns (row: Option<OutRow>, prev: Option<OutRow>, changed: set<string>)
    ensures Fits(chrono, agg) ==> row == RowAt(Cut(refIdx, sel + 1), chrono, live, agg, id)
    ensures Fits(chrono, agg) ==> prev == RowAt(Cut(refIdx, sel), chrono, live, agg, id)
    ensures row.None? ==> changed == {}
    ensures row.Some? ==> changed == Changed(hidden, row.value.fields, if prev.Some? then prev.value.fields else map[])
    ensures Fits(chrono, agg) && row.Some? ==>
              forall c :: c in changed <==>
                          c != "id" && c !in hidden && GaveNewText(refIdx, sel, chrono, live, agg, id, c)
    ensures Fits(chrono, agg) ==>
              forall c :: c in changed ==>
                exists i: nat :: FiredOn(refIdx, sel, chrono, agg, id, i) && (prev.Some? ==> c in chrono[i].payload)
  {
    var asOf, before := ActiveDetailInstance(refIdx, sel, chrono, live, rootAggregate, rootId);
    row, prev, changed := LookUp(asOf, agg, id), LookUp(before, agg, id), {};
    if row.Some? {
      changed := AsOfChangedFields(hidden, row.value, prev);
      forall c | Fits(chrono, agg)
        ensures c in changed <==>
                c != "id" && c !in hidden && GaveNewText(refIdx, sel, chrono, live, agg, id, c)
      {
        HighlightIff(refIdx, sel, chrono, live, hidden, agg, id, row.value, prev, c);
      }
    }
    forall c | Fits(chrono, agg) && c in changed
      ensures exists i: nat :: FiredOn(refIdx, sel, chrono, agg, id, i) && (prev.Some? ==> c in chrono[i].payload)
    {
      var i := HighlightIsSound(refIdx, sel, chrono, live, hidden, agg, id, c);
    }
  }

  /** At a cut past every event, with every reference known, each field a command
      ever carried holds the value carried last, whatever the declared order. */
  lemma LastCutIsFinal(cut: Cut, chrono: seq<Entry>, live: map<string, Row>, agg: string, id: string, c: string, i: nat)
    requires forall e :: e in chrono ==> e.eventRef in cut.refIdx && cut.refIdx[e.eventRef] < cut.limit
    requires i < |chrono| && chrono[i].aggregateRoot == agg && chrono[i].aggregateId == id != ""
             && c in chrono[i].payload && c != "id"
    requires forall j :: i < j < |chrono| && chrono[j].aggregateId != "" && On(chrono[j], Key(agg, id)) ==>
             c !in chrono[j].payload
    ensures var row := RowAt(cut, chrono, live, agg, id);
            row.Some? && c in row.value.fields && row.value.fields[c] == chrono[i].payload[c]
  {
    assert chrono[i] in chrono;
    assert Carries(cut, chrono[i], Key(agg, id), c);
    FoldHoldsLast(cut, chrono, Key(agg, id), c);
  }

  // --- rows never mix -------------------------------------------------------------------------------

  /** The entries of one row alone. */
  function Only(chrono: seq<Entry>, agg: string, id: string): seq<Entry> {
    if chrono == [] then []
    else
      var last := chrono[|chrono| - 1];
      Only(chrono[..|chrono| - 1], agg, id) + if last.aggregateRoot == agg && last.aggregateId == id then [last] else []
  }

  /** Two logs say the same about one key. */
  ghost predicate SameRow(cut: Cut, one: seq<Entry>, two: seq<Entry>, key: string) {
    && FoldRow(cut, one, key) == FoldRow(cut, two, key)
    && EverCarried(one, key) == EverCarried(two, key)
    && (Present(cut, one, key) <==> Present(cut, two, key))
  }

  lemma EntryStep(cut: Cut, front: seq<Entry>, ev: Entry, key: string)
    ensures FoldRow(cut, front + [ev], key) == FoldRow(cut, front, key)
            + if Takes(cut, ev) && On(ev, key) then ev.payload else map[]
    ensures EverCarried(front + [ev], key) == EverCarried(front, key)
            + if ev.aggregateId != "" && On(ev, key) then ev.payload.Keys else {}
    ensures Present(cut, front + [ev], key) <==> Present(cut, front, key) || (Takes(cut, ev) && On(ev, key))
  {
    var all := front + [ev];
    assert all[..|front|] == front && all[..|front| + 1] == all;
    PresentStep(cut, all, |front|);
    assert FoldRow(cut, front, key) + map[] == FoldRow(cut, front, key);
  }

  lemma SameRowStep(cut: Cut, one: seq<Entry>, two: seq<Entry>, ev: Entry, key: string)
    requires SameRow(cut, one, two, key)
    ensures SameRow(cut, one + [ev], two + [ev], key)
    ensures !On(ev, key) ==> SameRow(cut, one + [ev], two, key)
  {
    EntryStep(cut, one, ev, key);
    EntryStep(cut, two, ev, key);
    assert FoldRow(cut, one, key) + map[] == FoldRow(cut, one, key);
  }

  lemma {:induction false} OnlyFolds(cut: Cut, chrono: seq<Entry>, agg: string, id: string)
    requires Fits(chrono, agg)
    ensures SameRow(cut, chrono, Only(chrono, agg, id), Key(agg, id))
  {
    if chrono != [] {
      var n := |chrono| - 1;
      var front, last := chrono[..n], chrono[n];
      OnlyFolds(cut, front, agg, id);
      SameRowStep(cut, front, Only(front, agg, id), last, Key(agg, id));
      assert chrono == front + [last];
      KeyTellsApart(agg, id, last.aggregateRoot, last.aggregateId);
      if last.aggregateRoot != agg || last.aggregateId != id {
        assert Only(front, agg, id) + [] == Only(front, agg, id);
      }
    }
  }

  /** A row depends on its own entries only, even when another aggregate uses the
      same id. */
  lemma RowsNeverMix(cut: Cut, one: seq<Entry>, two: seq<Entry>, live: map<string, Row>, agg: string, id: string)
    requires Fits(one, agg) && Fits(two, agg) && Only(one, agg, id) == Only(two, agg, id)
    ensures RowAt(cut, one, live, agg, id) == RowAt(cut, two, live, agg, id)
  {
    OnlyFolds(cut, one, agg, id);
    OnlyFolds(cut, two, agg, id);
  }

  /** No entry of `b` ever changes what a log tells about a row of `agg`. */
  ghost predicate StaysOut(b: string, agg: string) {
    forall cut, front, e: Entry, id :: e.aggregateRoot == b ==> SameRow(cut, front, front + [e], Key(agg, id))
  }

  /** Another aggregate stays out of these rows exactly if neither name runs into
      the other. */
  lemma StaysOutIff(b: string, agg: string)
    requires b != agg
    ensures StaysOut(b, agg) <==> !Collide(agg, b)
  {
    if Collide(agg, b) {
      SomeEntryMixes(b, agg);
    } else {
      forall cut, front, e: Entry, id | e.aggregateRoot == b
        ensures SameRow(cut, front, front + [e], Key(agg, id))
      {
        KeyTellsApart(agg, id, b, e.aggregateId);
        EntryStep(cut, front, e, Key(agg, id));
        assert FoldRow(cut, front, Key(agg, id)) + map[] == FoldRow(cut, front, Key(agg, id));
      }
    }
  }

  lemma SomeEntryMixes(b: string, agg: string)
    requires Collide(agg, b)
    ensures !StaysOut(b, agg)
  {
    if agg + "#" <= b {
      var id := LongerCollides(agg, b, "1");
      SharedKeyMixes(b, "1", agg, id);
    } else {
      var other := LongerCollides(b, agg, "1");
      SharedKeyMixes(b, other, agg, "1");
    }
  }

  lemma SharedKeyMixes(b: string, other: string, agg: string, id: string)
    requires Key(agg, id) == Key(b, other) && other != ""
    ensures !StaysOut(b, agg)
  {
    var cut, payload: Row, none: seq<Entry> := Cut(map["e" := 0], 1), map["name" := Null], [];
    assert "name" in payload;
    var e := Entry("e", b, other, payload);
    assert Takes(cut, e) && On(e, Key(agg, id));
    EntryStep(cut, none, e, Key(agg, id));
    assert !SameRow(cut, none, none + [e], Key(agg, id));
  }
}
