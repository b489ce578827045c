/** The calls of generic commands in flight: what each waits for, what it was asked,
    and the events that answer it. */
module CommandCalls {
  import opened Common
  import opened Commands
  import opened RowHistory

  datatype Payload = Arg(raw: Raw) | Cell(v: Value) | NullCell

  datatype LogEntry = LogEntry(ref: string, aggregateId: string, role: string, payload: map<string, Payload>)

  /** What a command call waits for. */
  datatype Call =
    | Creating(b: Binding, args: Args, role: string, id: string, data: Cells)
    | Locating(b: Binding, args: Args, role: string, key: RowKey)
    | Writing(b: Binding, args: Args, role: string, key: RowKey, changes: Cells, seen: Row)
    | ReadingBack(b: Binding, args: Args, role: string, key: RowKey)
    | Emitting(b: Binding, args: Args, role: string, key: RowKey, row: Row)

  /** What a call was asked to do, the row it is about, and whether it creates that
      row or updates it. */
  datatype Request = Request(b: Binding, args: Args, role: string, key: RowKey, creates: bool)

  function KeyOf(call: Call): RowKey {
    if call.Creating? then RowKey(call.b.entity.name, call.id) else call.key
  }

  /** The request of a call that begins. */
  function RequestOf(call: Call): Request {
    Request(call.b, call.args, call.role, KeyOf(call), call.Creating?)
  }

  /** The call stands for this request. */
  predicate Fits(r: Request, call: Call) {
    && r.b == call.b && r.args == call.args && r.role == call.role && r.key == KeyOf(call)
    && (call.Creating? ==> r.creates) && (call.Locating? || call.Writing? ==> !r.creates)
  }

  datatype Outcome = Success(row: Row) | Refused(error: Error) | Crashed

  // --- calls in flight --------------------------------------------------------------------------

  ghost predicate CallOk(js: Js, past: Histories, call: Call) {
    match call
    case Creating(b, args, role, id, data) =>
      data == DataOf(js, b.entity, args, id, b.entity.fields)
        && UnfillableOf(js, b.entity, args, id, b.entity.fields) == []
    case Locating(b, args, role, key) => key.table == b.entity.name
    case Writing(b, args, role, key, changes, seen) =>
      && Seen(past, key, seen) && changes != map[]
      && changes == ChangesOf(js, b.entity, args, b.commandFields)
    case ReadingBack(b, args, role, key) => key in past
    case Emitting(b, args, role, key, row) => Seen(past, key, row)
  }

  ghost predicate CallsOk(js: Js, past: Histories, calls: map<nat, Call>, outcomes: map<nat, Outcome>, nextId: nat) {
    && (forall c :: c in calls ==> c < nextId && c !in outcomes && CallOk(js, past, calls[c]))
    && (forall c :: c in outcomes ==> c < nextId)
  }

  /** One log entry per success, in the order they succeeded. */
  ghost predicate LogOk(log: seq<LogEntry>, outcomes: map<nat, Outcome>, succeeded: seq<nat>) {
    |log| == |succeeded| && Distinct(succeeded) && forall c :: c in succeeded <==> c in outcomes && outcomes[c].Success?
  }

  /** Every call in flight still stands for the request it began with. */
  ghost predicate RequestsOk(requests: map<nat, Request>, calls: map<nat, Call>, nextId: nat) {
    && (forall c :: c in calls ==> c in requests && Fits(requests[c], calls[c]))
    && (forall c :: c in requests ==> c < nextId)
  }

  lemma RequestsMove(requests: map<nat, Request>, calls: map<nat, Call>, nextId: nat, c: nat, next: Call)
    requires RequestsOk(requests, calls, nextId) && c in calls && Fits(requests[c], next)
    ensures RequestsOk(requests, calls[c := next], nextId)
  {
  }

  lemma RequestsArrive(requests: map<nat, Request>, calls: map<nat, Call>, nextId: nat, call: Call)
    requires RequestsOk(requests, calls, nextId) && (call.Creating? || call.Locating?)
    ensures nextId !in requests && RequestsOk(requests[nextId := RequestOf(call)], calls[nextId := call], nextId + 1)
  {
  }

  lemma RequestsEnd(requests: map<nat, Request>, calls: map<nat, Call>, nextId: nat, c: nat)
    requires RequestsOk(requests, calls, nextId)
    ensures RequestsOk(requests, calls - {c}, nextId) && RequestsOk(requests, calls, nextId + 1)
  {
  }

  /** Each entry is the bound event of its call, about the row the call returned. */
  ghost predicate Logged(log: seq<LogEntry>, outcomes: map<nat, Outcome>, succeeded: seq<nat>,
                         requests: map<nat, Request>) {
    |log| == |succeeded| && forall i :: 0 <= i < |log| ==> LoggedAt(log[i], succeeded[i], outcomes, requests)
  }

  ghost predicate LoggedAt(entry: LogEntry, c: nat, outcomes: map<nat, Outcome>, requests: map<nat, Request>) {
    && c in outcomes && outcomes[c].Success? && c in requests
    && HasId(outcomes[c].row, requests[c].key.id) && entry == EventOf(requests[c], outcomes[c].row)
  }

  lemma LogStays(log: seq<LogEntry>, outcomes: map<nat, Outcome>, succeeded: seq<nat>, requests: map<nat, Request>,
                 c: nat, outcome: Outcome)
    requires Logged(log, outcomes, succeeded, requests) && c !in outcomes
    ensures Logged(log, outcomes[c := outcome], succeeded, requests)
  {
    forall i | 0 <= i < |log|
      ensures LoggedAt(log[i], succeeded[i], outcomes[c := outcome], requests)
    {
      assert LoggedAt(log[i], succeeded[i], outcomes, requests);
    }
  }

  lemma LogGrows(log: seq<LogEntry>, outcomes: map<nat, Outcome>, succeeded: seq<nat>, requests: map<nat, Request>,
                 c: nat, row: Row)
    requires Logged(log, outcomes, succeeded, requests) && c !in outcomes && c in requests
             && HasId(row, requests[c].key.id)
    ensures Logged(log + [EventOf(requests[c], row)], outcomes[c := Success(row)], succeeded + [c], requests)
  {
    LogStays(log, outcomes, succeeded, requests, c, Success(row));
    assert LoggedAt(EventOf(requests[c], row), c, outcomes[c := Success(row)], requests);
  }

  lemma LogIgnoresRequest(log: seq<LogEntry>, outcomes: map<nat, Outcome>, succeeded: seq<nat>,
                          requests: map<nat, Request>, c: nat, r: Request)
    requires Logged(log, outcomes, succeeded, requests) && c !in outcomes
    ensures Logged(log, outcomes, succeeded, requests[c := r])
  {
    forall i | 0 <= i < |log|
      ensures LoggedAt(log[i], succeeded[i], outcomes, requests[c := r])
    {
      assert LoggedAt(log[i], succeeded[i], outcomes, requests);
    }
  }

  lemma CallsSurvive(js: Js, past: Histories, past': Histories, calls: map<nat, Call>, outcomes: map<nat, Outcome>,
                     nextId: nat)
    requires CallsOk(js, past, calls, outcomes, nextId) && past.Keys <= past'.Keys && Remembers(past, past')
    ensures CallsOk(js, past', calls, outcomes, nextId)
  {
    forall c | c in calls
      ensures CallOk(js, past', calls[c])
    {
      assert CallOk(js, past, calls[c]);
    }
  }

  lemma CallMoves(js: Js, past: Histories, calls: map<nat, Call>, outcomes: map<nat, Outcome>, nextId: nat, c: nat,
                  call: Call)
    requires CallsOk(js, past, calls, outcomes, nextId) && c in calls && CallOk(js, past, call)
    ensures CallsOk(js, past, calls[c := call], outcomes, nextId)
  {
    forall d | d in calls[c := call]
      ensures d < nextId && d !in outcomes && CallOk(js, past, calls[c := call][d])
    {
      assert d == c || CallOk(js, past, calls[d]);
    }
  }

  lemma CallArrives(js: Js, past: Histories, calls: map<nat, Call>, outcomes: map<nat, Outcome>, c: nat, call: Call)
    requires CallsOk(js, past, calls, outcomes, c) && CallOk(js, past, call)
    ensures c !in calls && c !in outcomes && CallsOk(js, past, calls[c := call], outcomes, c + 1)
  {
    forall d | d in calls[c := call]
      ensures d < c + 1 && d !in outcomes && CallOk(js, past, calls[c := call][d])
    {
      assert d == c || CallOk(js, past, calls[d]);
    }
  }

  lemma CallRefused(js: Js, past: Histories, calls: map<nat, Call>, outcomes: map<nat, Outcome>, c: nat,
                    outcome: Outcome, log: seq<LogEntry>, succeeded: seq<nat>)
    requires CallsOk(js, past, calls, outcomes, c) && LogOk(log, outcomes, succeeded) && !outcome.Success?
    ensures c !in calls && c !in outcomes && CallsOk(js, past, calls, outcomes[c := outcome], c + 1)
    ensures LogOk(log, outcomes[c := outcome], succeeded)
  {
  }

  lemma CallEnds(js: Js, past: Histories, calls: map<nat, Call>, outcomes: map<nat, Outcome>, nextId: nat, c: nat,
                 outcome: Outcome)
    requires CallsOk(js, past, calls, outcomes, nextId) && c in calls
    ensures CallsOk(js, past, calls - {c}, outcomes[c := outcome], nextId)
  {
  }

  lemma InsertStep(js: Js, rows: map<RowKey, Row>, past: Histories, inserted: seq<RowKey>, calls: map<nat, Call>,
                   outcomes: map<nat, Outcome>, nextId: nat, c: nat, key: RowKey, row: Row, next: Call)
    requires StoreOk(rows, past, inserted) && CallsOk(js, past, calls, outcomes, nextId)
    requires c in calls && key !in rows && "id" in row.cells && row.cells["id"] == Text(key.id) && next.ReadingBack?
             && next.key == key
    ensures StoreOk(rows[key := row], past[key := History(row, [])], inserted + [key])
    ensures CallsOk(js, past[key := History(row, [])], calls[c := next], outcomes, nextId)
  {
    var past' := past[key := History(row, [])];
    InsertKeepsStore(rows, past, inserted, key, row);
    CallsSurvive(js, past, past', calls, outcomes, nextId);
    CallMoves(js, past', calls, outcomes, nextId, c, next);
  }

  lemma UpdateStep(js: Js, rows: map<RowKey, Row>, past: Histories, inserted: seq<RowKey>, calls: map<nat, Call>,
                   outcomes: map<nat, Outcome>, nextId: nat, c: nat, key: RowKey, patch: Cells, next: Call)
    requires StoreOk(rows, past, inserted) && CallsOk(js, past, calls, outcomes, nextId)
    requires c in calls && key in rows && Guarded(patch) && next.ReadingBack? && next.key == key
    ensures StoreOk(rows[key := Update(rows[key], patch)], past[key := Patch(past[key], patch)], inserted)
    ensures CallsOk(js, past[key := Patch(past[key], patch)], calls[c := next], outcomes, nextId)
  {
    var past' := past[key := Patch(past[key], patch)];
    UpdateKeepsStore(rows, past, inserted, key, patch);
    CallsSurvive(js, past, past', calls, outcomes, nextId);
    CallMoves(js, past', calls, outcomes, nextId, c, next);
  }

  /** The version a call has read is the one that stands. */
  predicate Current(rows: map<RowKey, Row>, call: Call)
    requires call.Writing?
  {
    call.key in rows && rows[call.key].version == call.seen.version
  }

  lemma WriteIsGuarded(js: Js, rows: map<RowKey, Row>, past: Histories, inserted: seq<RowKey>, call: Call)
    requires StoreOk(rows, past, inserted) && call.Writing? && CallOk(js, past, call)
    requires rows[call.key].version == call.seen.version
    ensures rows[call.key] == call.seen && Guarded(call.changes - {"version"})
  {
    SameVersionSameRow(rows, past, inserted, call.key, call.seen);
    ChangesAre(js, call.b.entity, call.args, call.b.commandFields, "id");
    ChangesAre(js, call.b.entity, call.args, call.b.commandFields, "status");
  }

  /** The compare-and-set hits the row that was read, and everything stays in
      order. */
  lemma WriteStep(js: Js, rows: map<RowKey, Row>, past: Histories, inserted: seq<RowKey>, calls: map<nat, Call>,
                  outcomes: map<nat, Outcome>, nextId: nat, c: nat, next: Call, requests: map<nat, Request>)
    requires StoreOk(rows, past, inserted) && CallsOk(js, past, calls, outcomes, nextId)
             && RequestsOk(requests, calls, nextId)
    requires c in calls && calls[c].Writing? && Current(rows, calls[c]) && next.ReadingBack? && Fits(requests[c], next)
    ensures var key, patch := calls[c].key, calls[c].changes - {"version"};
            && key in past && rows[key] == calls[c].seen
            && StoreOk(rows[key := Update(rows[key], patch)], past[key := Patch(past[key], patch)], inserted)
            && CallsOk(js, past[key := Patch(past[key], patch)], calls[c := next], outcomes, nextId)
            && RequestsOk(requests, calls[c := next], nextId)
  {
    var call := calls[c];
    assert CallOk(js, past, call);
    WriteIsGuarded(js, rows, past, inserted, call);
    UpdateStep(js, rows, past, inserted, calls, outcomes, nextId, c, call.key, call.changes - {"version"}, next);
    RequestsMove(requests, calls, nextId, c, next);
  }

  lemma SuccessIsLogged(log: seq<LogEntry>, outcomes: map<nat, Outcome>, succeeded: seq<nat>, c: nat, row: Row,
                        entry: LogEntry)
    requires LogOk(log, outcomes, succeeded) && c !in outcomes
    ensures LogOk(log + [entry], outcomes[c := Success(row)], succeeded + [c])
  {
  }

  /** `{ ...args, id, status }`; the status rides along only if it is declared. */
  function PayloadOf(b: Binding, args: Args, id: string, row: Row): map<string, Payload> {
    var sent: map<string, Payload> := map n | n in args :: Arg(args[n]);
    var named := sent["id" := Cell(Text(id))];
    if exists j :: 0 <= j < |b.entity.fields| && b.entity.fields[j].name == "status"
    then named["status" := if "status" in row.cells then Cell(row.cells["status"]) else NullCell]
    else named
  }

  function EntryOf(b: Binding, args: Args, role: string, id: string, row: Row): LogEntry {
    LogEntry(b.event.ref, id, role, PayloadOf(b, args, id, row))
  }

  /** The event that answers a request once its row stands. */
  function EventOf(r: Request, row: Row): LogEntry {
    EntryOf(r.b, r.args, r.role, r.key.id, row)
  }
}
