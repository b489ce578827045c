/** Any number of generic commands in flight over one versioned row store and one
    append-only event log, step by step. */
module CommandRuntime {
  import opened Common
  import opened Graph
  import opened Commands
  import opened RowHistory
  import opened CommandCalls
  import opened CommandEffects
  import opened CommandAdmission
  import CreateEvents

  // --- the state and its steps ------------------------------------------------------------------

  /** The store, the calls and the log, with what is known of how they came about. */
  datatype State = State(rows: map<RowKey, Row>, past: Histories, stories: Stories, inserted: seq<RowKey>,
                         calls: map<nat, Call>, outcomes: map<nat, Outcome>, nextId: nat,
                         log: seq<LogEntry>, succeeded: seq<nat>, requests: map<nat, Request>,
                         commands: map<nat, Command>)

  /** What there is to keep in order. */
  datatype Aspect = Store | Flight | Asking | Counting | Telling | Effects | Origins

  ghost predicate InOrder(a: Aspect, js: Js, versionOf: Value -> int, s: State) {
    match a
    case Store => StoreOk(s.rows, s.past, s.inserted)
    case Flight => CallsOk(js, s.past, s.calls, s.outcomes, s.nextId)
    case Asking => RequestsOk(s.requests, s.calls, s.nextId)
    case Counting => LogOk(s.log, s.outcomes, s.succeeded)
    case Telling => Logged(s.log, s.outcomes, s.succeeded, s.requests)
    case Effects => EffectsOk(js, versionOf, s.past, s.stories, s.requests, s.calls, s.outcomes)
    case Origins => OriginsOk(s.commands, s.requests)
  }

  /** The invariant of the runtime: every operation keeps it, so it holds after any
      run of them. */
  ghost predicate Sound(js: Js, versionOf: Value -> int, s: State) {
    forall a: Aspect :: InOrder(a, js, versionOf, s)
  }

  lemma Open(js: Js, versionOf: Value -> int, s: State)
    requires Sound(js, versionOf, s)
    ensures StoreOk(s.rows, s.past, s.inserted)
    ensures CallsOk(js, s.past, s.calls, s.outcomes, s.nextId)
    ensures RequestsOk(s.requests, s.calls, s.nextId)
    ensures LogOk(s.log, s.outcomes, s.succeeded)
    ensures Logged(s.log, s.outcomes, s.succeeded, s.requests)
    ensures EffectsOk(js, versionOf, s.past, s.stories, s.requests, s.calls, s.outcomes)
    ensures OriginsOk(s.commands, s.requests)
  {
    assert InOrder(Store, js, versionOf, s) && InOrder(Flight, js, versionOf, s) && InOrder(Asking, js, versionOf, s);
    assert InOrder(Counting, js, versionOf, s) && InOrder(Telling, js, versionOf, s)
        && InOrder(Effects, js, versionOf, s) && InOrder(Origins, js, versionOf, s);
  }

  lemma Close(js: Js, versionOf: Value -> int, s: State)
    requires StoreOk(s.rows, s.past, s.inserted)
    requires CallsOk(js, s.past, s.calls, s.outcomes, s.nextId)
    requires RequestsOk(s.requests, s.calls, s.nextId)
    requires LogOk(s.log, s.outcomes, s.succeeded)
    requires Logged(s.log, s.outcomes, s.succeeded, s.requests)
    requires EffectsOk(js, versionOf, s.past, s.stories, s.requests, s.calls, s.outcomes)
    requires OriginsOk(s.commands, s.requests)
    ensures Sound(js, versionOf, s)
  {
    forall a: Aspect
      ensures InOrder(a, js, versionOf, s)
    {
    }
  }

  /** Call `c` ends. */
  function Ended(s: State, c: nat, outcome: Outcome): State {
    s.(calls := s.calls - {c}, outcomes := s.outcomes[c := outcome])
  }

  function Moved(s: State, c: nat, next: Call): State {
    s.(calls := s.calls[c := next])
  }

  /** A new call joins those in flight, and what it was asked is recorded. */
  function Begun(s: State, cmd: Command, call: Call): State {
    s.(calls := s.calls[s.nextId := call], requests := s.requests[s.nextId := RequestOf(call)],
       commands := s.commands[s.nextId := cmd], nextId := s.nextId + 1)
  }

  function Declined(s: State, cmd: Command, e: Error): State {
    s.(outcomes := s.outcomes[s.nextId := Refused(e)], commands := s.commands[s.nextId := cmd], nextId := s.nextId + 1)
  }

  function Answered(s: State, cmd: Command, r: Result<Call, Error>): State {
    match r
    case Ok(call) => Begun(s, cmd, call)
    case Err(e) => Declined(s, cmd, e)
  }

  /** A command arrives. */
  ghost function Arrived(js: Js, s: State, cmd: Command): State
    requires Wired(cmd.ont)
  {
    Answered(s, cmd, Admission(js, s.rows, cmd))
  }

  predicate Creates(s: State, c: nat) {
    c in s.calls && s.calls[c].Creating?
  }

  /** The insert of call `c`: a history begins, and the call reads the row back. */
  function Added(versionOf: Value -> int, s: State, c: nat): State
    requires Creates(s, c)
  {
    var call := s.calls[c];
    var key, row := KeyOf(call), RowOf(versionOf, call.data);
    s.(rows := s.rows[key := row], past := s.past[key := History(row, [])], stories := s.stories[key := Story(c, [])],
       inserted := s.inserted + [key], calls := s.calls[c := ReadingBack(call.b, call.args, call.role, key)])
  }

  /** `store.insert`: the primary key admits an id once. An entity that declares no
      id gets a row nobody can find, and the call crashes on it. */
  function Inserted(versionOf: Value -> int, s: State, c: nat): State
    requires Creates(s, c)
  {
    if "id" !in s.calls[c].data then Ended(s, c, Crashed)
    else if KeyOf(s.calls[c]) in s.rows then Ended(s, c, Refused(AlreadyExists))
    else Added(versionOf, s, c)
  }

  predicate Locates(s: State, c: nat) {
    c in s.calls && s.calls[c].Locating?
  }

  /** What an update waits for once its row is read. */
  function Found(js: Js, call: Call, row: Row): Call
    requires call.Locating?
  {
    var changes := ChangesOf(js, call.b.entity, call.args, call.b.commandFields);
    if changes == map[] then Emitting(call.b, call.args, call.role, call.key, row)
    else Writing(call.b, call.args, call.role, call.key, changes, row)
  }

  /** An update reads its row and works out its changes; without any it goes straight
      on to its event. */
  function Located(js: Js, s: State, c: nat): State
    requires Locates(s, c)
  {
    var call := s.calls[c];
    if call.key !in s.rows then Ended(s, c, Refused(NotFound)) else Moved(s, c, Found(js, call, s.rows[call.key]))
  }

  predicate Writes(s: State, c: nat) {
    c in s.calls && s.calls[c].Writing?
      && (s.calls[c].key in s.rows ==> s.calls[c].key in s.past && s.calls[c].key in s.stories)
  }

  /** The update of call `c`: one version on, one patch more in the row's history,
      signed by the call. */
  function Updated(s: State, c: nat): State
    requires Writes(s, c) && Current(s.rows, s.calls[c])
  {
    var call := s.calls[c];
    var key, patch := call.key, call.changes - {"version"};
    s.(rows := s.rows[key := Update(s.rows[key], patch)], past := s.past[key := Patch(s.past[key], patch)],
       stories := s.stories[key := Signed(s.stories[key], c)],
       calls := s.calls[c := ReadingBack(call.b, call.args, call.role, key)])
  }

  /** `store.update`: an update if the version read is the one that stands, else the
      call is stale and the store keeps what it has. */
  function Written(s: State, c: nat): State
    requires Writes(s, c)
  {
    if Current(s.rows, s.calls[c]) then Updated(s, c) else Ended(s, c, Refused(Stale))
  }

  predicate ReadsBack(s: State, c: nat) {
    c in s.calls && s.calls[c].ReadingBack? && s.calls[c].key in s.rows
  }

  /** The row as it stands goes to the event. */
  function Returned(s: State, c: nat): State
    requires ReadsBack(s, c)
  {
    var call := s.calls[c];
    Moved(s, c, Emitting(call.b, call.args, call.role, call.key, s.rows[call.key]))
  }

  predicate Emits(s: State, c: nat) {
    c in s.calls && s.calls[c].Emitting? && c in s.requests
  }

  /** The call succeeds with one more event. */
  function Emitted(s: State, c: nat): State
    requires Emits(s, c)
  {
    var row := s.calls[c].row;
    Ended(s, c, Success(row)).(log := s.log + [EventOf(s.requests[c], row)], succeeded := s.succeeded + [c])
  }

  // --- what the steps on the store come to -----------------------------------------------------

  /** The call goes on, or it ends so and nothing is stored. */
  ghost predicate GoesOn(t: State, c: nat) {
    c in t.calls && c !in t.outcomes
  }

  ghost predicate EndsWith(s: State, t: State, c: nat, outcome: Outcome) {
    && c !in t.calls && c in t.outcomes && t.outcomes[c] == outcome
    && t.rows == s.rows && t.past == s.past && t.stories == s.stories && t.log == s.log
  }

  ghost predicate OtherRowsStay(s: State, t: State, key: RowKey) {
    t.rows.Keys == s.rows.Keys + {key} && forall k :: k in s.rows && k != key ==> t.rows[k] == s.rows[k]
  }

  /** An insert is refused exactly if the id is taken; else the row is what was built,
      and no other row is touched. */
  lemma InsertedIs(versionOf: Value -> int, s: State, c: nat)
    requires Creates(s, c) && c !in s.outcomes && "id" in s.calls[c].data
    ensures var t, key := Inserted(versionOf, s, c), RowKey(s.calls[c].b.entity.name, s.calls[c].id);
            if key in s.rows then EndsWith(s, t, c, Refused(AlreadyExists))
            else GoesOn(t, c) && OtherRowsStay(s, t, key)
                 && forall col :: (col in t.rows[key].cells <==> col in s.calls[c].data && col != "version")
                                  && (col in t.rows[key].cells ==> t.rows[key].cells[col] == s.calls[c].data[col])
  {
  }

  /** An update that finds its row goes on with it as it stands: straight to its event
      if nothing is asked for, else to a write that remembers the version read. */
  lemma LocatedIs(js: Js, s: State, c: nat)
    requires Locates(s, c) && c !in s.outcomes
    ensures var t, call := Located(js, s, c), s.calls[c];
            if call.key !in s.rows then EndsWith(s, t, c, Refused(NotFound))
            else
              var changes := ChangesOf(js, call.b.entity, call.args, call.b.commandFields);
              GoesOn(t, c) && t.rows == s.rows
              && (changes == map[] ==> t.calls[c].Emitting? && t.calls[c].row == s.rows[call.key])
              && (changes != map[] ==>
                    t.calls[c].Writing? && t.calls[c].seen == s.rows[call.key] && t.calls[c].changes == changes)
  {
  }

  /** A write is refused exactly if the version read no longer stands; else the row
      moves on by one version and holds the changes, and no other row is touched. */
  lemma WrittenIs(s: State, c: nat)
    requires Writes(s, c) && c !in s.outcomes
    ensures var t, call := Written(s, c), s.calls[c];
            if call.key !in s.rows || s.rows[call.key].version != call.seen.version
            then EndsWith(s, t, c, Refused(Stale))
            else
              var before, now := s.rows[call.key], t.rows[call.key];
              GoesOn(t, c) && OtherRowsStay(s, t, call.key) && now.version == before.version + 1
              && forall col ::
                   (col in now.cells <==> col in before.cells || (col in call.changes && col != "version"))
                   && (col in now.cells ==>
                         now.cells[col] == if col in call.changes && col != "version" then call.changes[col]
                                           else before.cells[col])
  {
  }

  // --- every step keeps everything in order -------------------------------------------------------

  lemma EndedKeeps(js: Js, versionOf: Value -> int, s: State, c: nat, outcome: Outcome)
    requires Sound(js, versionOf, s) && c in s.calls && !outcome.Success?
    requires outcome.Refused? ==> !s.calls[c].ReadingBack? && !s.calls[c].Emitting?
    ensures Sound(js, versionOf, Ended(s, c, outcome))
  {
    Open(js, versionOf, s);
    CallEnds(js, s.past, s.calls, s.outcomes, s.nextId, c, outcome);
    LogStays(s.log, s.outcomes, s.succeeded, s.requests, c, outcome);
    RequestsEnd(s.requests, s.calls, s.nextId, c);
    StageIs(js, versionOf, s.past, s.stories, s.requests, s.calls, s.outcomes, c);
    EffectsEnd(js, versionOf, s.past, s.stories, s.requests, s.calls, s.outcomes, c, outcome);
    Close(js, versionOf, Ended(s, c, outcome));
  }

  lemma MovedKeeps(js: Js, versionOf: Value -> int, s: State, c: nat, next: Call)
    requires Sound(js, versionOf, s) && c in s.calls && c in s.requests && Fits(s.requests[c], next)
    requires CallOk(js, s.past, next) && StageOk(js, s.past, s.stories, s.requests[c], c, next)
    ensures Sound(js, versionOf, Moved(s, c, next))
  {
    Open(js, versionOf, s);
    CallMoves(js, s.past, s.calls, s.outcomes, s.nextId, c, next);
    RequestsMove(s.requests, s.calls, s.nextId, c, next);
    EffectsMove(js, versionOf, s.past, s.stories, s.requests, s.calls, s.outcomes, c, next);
    Close(js, versionOf, Moved(s, c, next));
  }

  lemma BegunKeeps(js: Js, versionOf: Value -> int, s: State, cmd: Command, call: Call)
    requires Sound(js, versionOf, s) && CallOk(js, s.past, call) && (call.Creating? || call.Locating?)
    requires OriginsOk(s.commands[s.nextId := cmd], s.requests[s.nextId := RequestOf(call)])
    ensures Sound(js, versionOf, Begun(s, cmd, call))
  {
    Open(js, versionOf, s);
    CallArrives(js, s.past, s.calls, s.outcomes, s.nextId, call);
    RequestsArrive(s.requests, s.calls, s.nextId, call);
    LogIgnoresRequest(s.log, s.outcomes, s.succeeded, s.requests, s.nextId, RequestOf(call));
    EffectsArrive(js, versionOf, s.past, s.stories, s.requests, s.calls, s.outcomes, s.nextId, call);
    Close(js, versionOf, Begun(s, cmd, call));
  }

  lemma DeclinedKeeps(js: Js, versionOf: Value -> int, s: State, cmd: Command, e: Error)
    requires Sound(js, versionOf, s)
    ensures Sound(js, versionOf, Declined(s, cmd, e))
  {
    Open(js, versionOf, s);
    CallRefused(js, s.past, s.calls, s.outcomes, s.nextId, Refused(e), s.log, s.succeeded);
    LogStays(s.log, s.outcomes, s.succeeded, s.requests, s.nextId, Refused(e));
    RequestsEnd(s.requests, s.calls, s.nextId, s.nextId);
    EffectsDecline(js, versionOf, s.past, s.stories, s.requests, s.calls, s.outcomes, s.nextId, e);
    OriginsStay(s.commands, s.requests, s.nextId, cmd);
    Close(js, versionOf, Declined(s, cmd, e));
  }

  lemma ArrivedKeeps(js: Js, versionOf: Value -> int, s: State, cmd: Command)
    requires Wired(cmd.ont) && Sound(js, versionOf, s)
    ensures Sound(js, versionOf, Arrived(js, s, cmd))
  {
    Open(js, versionOf, s);
    match Admission(js, s.rows, cmd)
    case Ok(call) =>
      AdmittedCalls(js, s.rows, cmd, call);
      OriginsArrive(s.commands, s.requests, s.nextId, cmd, RequestOf(call));
      BegunKeeps(js, versionOf, s, cmd, call);
    case Err(e) => DeclinedKeeps(js, versionOf, s, cmd, e);
  }

  lemma AddedKeeps(js: Js, versionOf: Value -> int, s: State, c: nat)
    requires Sound(js, versionOf, s) && Creates(s, c) && "id" in s.calls[c].data && KeyOf(s.calls[c]) !in s.rows
    ensures Sound(js, versionOf, Added(versionOf, s, c))
  {
    Open(js, versionOf, s);
    var call := s.calls[c];
    var key, row := KeyOf(call), RowOf(versionOf, call.data);
    var next := ReadingBack(call.b, call.args, call.role, key);
    assert CallOk(js, s.past, call) && Fits(s.requests[c], call);
    DataIsDeclared(js, call.b.entity, call.args, call.id, call.b.entity.fields);
    InsertStep(js, s.rows, s.past, s.inserted, s.calls, s.outcomes, s.nextId, c, key, row, next);
    RequestsMove(s.requests, s.calls, s.nextId, c, next);
    EffectsInsert(js, versionOf, s.past, s.stories, s.requests, s.calls, s.outcomes, c, row, next);
    Close(js, versionOf, Added(versionOf, s, c));
  }

  lemma FoundIsSound(js: Js, past: Histories, stories: Stories, r: Request, c: nat, call: Call, row: Row)
    requires call.Locating? && Fits(r, call) && Seen(past, call.key, row) && call.key in stories
             && Untouched(stories, c)
    ensures var next := Found(js, call, row);
            Fits(r, next) && CallOk(js, past, next) && StageOk(js, past, stories, r, c, next)
  {
  }

  lemma LocatedKeeps(js: Js, versionOf: Value -> int, s: State, c: nat)
    requires Sound(js, versionOf, s) && Locates(s, c)
    ensures Sound(js, versionOf, Located(js, s, c))
  {
    var call := s.calls[c];
    if call.key !in s.rows {
      EndedKeeps(js, versionOf, s, c, Refused(NotFound));
    } else {
      Open(js, versionOf, s);
      StandingIsSeen(s.rows, s.past, s.inserted, call.key);
      StageIs(js, versionOf, s.past, s.stories, s.requests, s.calls, s.outcomes, c);
      FoundIsSound(js, s.past, s.stories, s.requests[c], c, call, s.rows[call.key]);
      MovedKeeps(js, versionOf, s, c, Found(js, call, s.rows[call.key]));
    }
  }

  lemma WriterPatches(js: Js, past: Histories, requests: map<nat, Request>, c: nat, call: Call)
    requires c in requests && call.Writing? && Fits(requests[c], call) && CallOk(js, past, call)
    ensures PatchedBy(js, call.key, call.changes - {"version"}, c, requests) && ChangesFor(js, requests[c]) != map[]
  {
  }

  /** The write goes through only if the row that stands is the row that was read. */
  lemma UpdatedKeeps(js: Js, versionOf: Value -> int, s: State, c: nat)
    requires Sound(js, versionOf, s) && Writes(s, c) && Current(s.rows, s.calls[c])
    ensures s.rows[s.calls[c].key] == s.calls[c].seen && Sound(js, versionOf, Updated(s, c))
  {
    Open(js, versionOf, s);
    var call := s.calls[c];
    var patch, next := call.changes - {"version"}, ReadingBack(call.b, call.args, call.role, call.key);
    assert CallOk(js, s.past, call) && Fits(s.requests[c], call);
    StageIs(js, versionOf, s.past, s.stories, s.requests, s.calls, s.outcomes, c);
    WriterPatches(js, s.past, s.requests, c, call);
    WriteStep(js, s.rows, s.past, s.inserted, s.calls, s.outcomes, s.nextId, c, next, s.requests);
    EffectsUpdate(js, versionOf, s.past, s.stories, s.requests, s.calls, s.outcomes, c, patch, next);
    Close(js, versionOf, Updated(s, c));
  }

  lemma MayWrite(js: Js, versionOf: Value -> int, s: State, c: nat)
    requires Sound(js, versionOf, s) && c in s.calls && s.calls[c].Writing?
    ensures Writes(s, c)
  {
    Open(js, versionOf, s);
    StageIs(js, versionOf, s.past, s.stories, s.requests, s.calls, s.outcomes, c);
  }

  /** The row handed on stands and has in it what this call wrote. */
  lemma ReturnedKeeps(js: Js, versionOf: Value -> int, s: State, c: nat)
    requires Sound(js, versionOf, s) && c in s.calls && s.calls[c].ReadingBack?
    ensures ReadsBack(s, c) && Sound(js, versionOf, Returned(s, c))
    ensures c in s.requests && Did(js, s.stories, s.requests[c], c)
    ensures Finished(js, s.past, s.stories, s.requests[c], c, s.rows[s.calls[c].key])
  {
    Open(js, versionOf, s);
    var call := s.calls[c];
    assert CallOk(js, s.past, call) && Fits(s.requests[c], call);
    StageIs(js, versionOf, s.past, s.stories, s.requests, s.calls, s.outcomes, c);
    StandingIsSeen(s.rows, s.past, s.inserted, call.key);
    AllAgree(js, versionOf, s.past, s.stories, s.requests, s.calls, s.outcomes);
    StandingIsFinished(js, versionOf, s.rows, s.past, s.inserted, s.stories, s.requests, c);
    MovedKeeps(js, versionOf, s, c, Emitting(call.b, call.args, call.role, call.key, s.rows[call.key]));
  }

  lemma EmittedKeeps(js: Js, versionOf: Value -> int, s: State, c: nat)
    requires Sound(js, versionOf, s) && c in s.calls && s.calls[c].Emitting?
    ensures Emits(s, c) && EventOf(s.requests[c], s.calls[c].row)
            == EntryOf(s.calls[c].b, s.calls[c].args, s.calls[c].role, s.calls[c].key.id, s.calls[c].row)
    ensures HasId(s.calls[c].row, s.requests[c].key.id) && Sound(js, versionOf, Emitted(s, c))
  {
    Open(js, versionOf, s);
    var call := s.calls[c];
    assert CallOk(js, s.past, call) && Fits(s.requests[c], call);
    StageIs(js, versionOf, s.past, s.stories, s.requests, s.calls, s.outcomes, c);
    SeenHasId(s.rows, s.past, s.inserted, call.key, call.row);
    CallEnds(js, s.past, s.calls, s.outcomes, s.nextId, c, Success(call.row));
    SuccessIsLogged(s.log, s.outcomes, s.succeeded, c, call.row, EventOf(s.requests[c], call.row));
    LogGrows(s.log, s.outcomes, s.succeeded, s.requests, c, call.row);
    RequestsEnd(s.requests, s.calls, s.nextId, c);
    EffectsEnd(js, versionOf, s.past, s.stories, s.requests, s.calls, s.outcomes, c, Success(call.row));
    Close(js, versionOf, Emitted(s, c));
  }

  class Runtime {
    const js: Js
    /** What the version column holds after an insert that supplies one. */
    const versionOf: Value -> int
    var rows: map<RowKey, Row>
    var unkeyed: seq<Cells>
    var log: seq<LogEntry>
    var calls: map<nat, Call>
    var outcomes: map<nat, Outcome>
    var nextId: nat
    ghost var past: Histories
    ghost var stories: Stories
    ghost var inserted: seq<RowKey>
    ghost var succeeded: seq<nat>
    ghost var requests: map<nat, Request>
    ghost var commands: map<nat, Command>

    ghost function Now(): State
      reads this
    {
      State(rows, past, stories, inserted, calls, outcomes, nextId, log, succeeded, requests, commands)
    }

    ghost predicate Valid()
      reads this
    {
      Sound(js, versionOf, Now())
    }

    constructor (js: Js, versionOf: Value -> int)
      ensures Valid() && this.js == js && this.versionOf == versionOf
      ensures Now() == State(map[], map[], map[], [], map[], map[], 0, [], [], map[], map[])
    {
      this.js, this.versionOf := js, versionOf;
      rows, unkeyed, log, calls, outcomes, nextId := map[], [], [], map[], map[], 0;
      past, stories, inserted, succeeded, requests, commands := map[], map[], [], [], map[], map[];
    }

    /** A call that will not go on; only one that has written nothing is refused. */
    method End(c: nat, outcome: Outcome)
      requires Valid() && c in calls && !outcome.Success?
      requires outcome.Refused? ==> !calls[c].ReadingBack? && !calls[c].Emitting?
      modifies this`calls, this`outcomes
      ensures Valid() && Now() == Ended(old(Now()), c, outcome)
    {
      EndedKeeps(js, versionOf, Now(), c, outcome);
      calls := calls - {c};
      outcomes := outcomes[c := outcome];
    }

    /** Binds the command and decides between create and update: a row under the
        given id means update, else only a create-shaped event may go on. */
    method Classify(cmd: Command) returns (r: Result<(Binding, bool), Error>)
      requires Wired(cmd.ont)
      ensures match ResolveBinding(cmd.ont, cmd.name, cmd.eventRef)
              case Err(e) => r == Err(e)
              case Ok(b) =>
                && b.event.key in cmd.ont.preds
                && var stands := IdOf(cmd.args).Some? && RowKey(b.entity.name, IdOf(cmd.args).value) in rows;
                   r == if stands then Ok((b, false))
                        else if CreateEvents.FirstToTouch(cmd.ont.preds, cmd.ont.roots, b.event.key) then Ok((b, true))
                        else Err(if IdOf(cmd.args).Some? then NotFound else NoId)
    {
      BoundEventIs(cmd.ont, cmd.name, cmd.eventRef);
      match ResolveBinding(cmd.ont, cmd.name, cmd.eventRef) {
        case Err(e) => return Err(e);
        case Ok(b) =>
          assert b.event in cmd.ont.events;
          var id := IdOf(cmd.args);
          if id.Some? && RowKey(b.entity.name, id.value) in rows {
            return Ok((b, false));
          }
          var creates := CreateEvents.IsCreateEvent(cmd.ont.preds, cmd.ont.roots, b.event.key);
          if creates {
            return Ok((b, true));
          }
          return Err(if id.Some? then NotFound else NoId);
      }
    }

    /** Classifies a command and gets it ready. */
    method Prepare(cmd: Command) returns (r: Result<Call, Error>)
      requires Wired(cmd.ont)
      ensures r == Admission(js, rows, cmd)
    {
      var bound := Classify(cmd);
      if bound.Err? {
        return Err(bound.error);
      }
      var b, creates := bound.value.0, bound.value.1;
      if !creates {
        return Ok(Locating(b, cmd.args, cmd.role, RowKey(b.entity.name, IdOf(cmd.args).value)));
      }
      var id := if IdOf(cmd.args).Some? then IdOf(cmd.args).value else cmd.freshId;
      var data, unfillable := BuildData(js, b.entity, cmd.args, id);
      return if unfillable != [] then Err(Unfillable(unfillable)) else Ok(Creating(b, cmd.args, cmd.role, id, data));
    }

    /** A command arrives: it is classified, and refused or set going. */
    method Begin(cmd: Command) returns (c: nat)
      requires Valid() && Wired(cmd.ont)
      modifies this`calls, this`outcomes, this`nextId, this`requests, this`commands
      ensures Valid() && c == old(nextId)
      ensures Now() == Arrived(js, old(Now()), cmd)
    {
      c := nextId;
      var call := Prepare(cmd);
      ArrivedKeeps(js, versionOf, Now(), cmd);
      Answer(cmd, call);
    }

    /** The call joins those in flight, or is refused. */
    method Answer(ghost cmd: Command, call: Result<Call, Error>)
      modifies this`calls, this`outcomes, this`nextId, this`requests, this`commands
      ensures Now() == Answered(old(Now()), cmd, call)
    {
      commands := commands[nextId := cmd];
      if call.Ok? {
        calls := calls[nextId := call.value];
        requests := requests[nextId := RequestOf(call.value)];
      } else {
        outcomes := outcomes[nextId := Refused(call.error)];
      }
      nextId := nextId + 1;
    }

    /** `store.insert`. */
    method Insert(c: nat)
      requires Valid() && c in calls && calls[c].Creating?
      modifies this`rows, this`unkeyed, this`calls, this`outcomes, this`past, this`stories, this`inserted
      ensures Valid() && Now() == Inserted(versionOf, old(Now()), c)
      ensures var data := old(calls[c]).data;
              unkeyed == if "id" in data then old(unkeyed) else old(unkeyed) + [RowOf(versionOf, data).cells]
    {
      var call := calls[c];
      if "id" !in call.data {
        unkeyed := unkeyed + [RowOf(versionOf, call.data).cells];
        End(c, Crashed);
        return;
      }
      if KeyOf(call) in rows {
        End(c, Refused(AlreadyExists));
        return;
      }
      AddRow(c);
    }

    /** The insert goes through. */
    method AddRow(c: nat)
      requires Valid() && c in calls && calls[c].Creating? && "id" in calls[c].data && KeyOf(calls[c]) !in rows
      modifies this`rows, this`calls, this`past, this`stories, this`inserted
      ensures Valid() && Now() == Added(versionOf, old(Now()), c)
    {
      AddedKeeps(js, versionOf, Now(), c);
      var call := calls[c];
      var key, row := KeyOf(call), RowOf(versionOf, call.data);
      rows := rows[key := row];
      past, stories, inserted := past[key := History(row, [])], stories[key := Story(c, [])], inserted + [key];
      calls := calls[c := ReadingBack(call.b, call.args, call.role, key)];
    }

    /** `store.findById`, and the changes an update makes. */
    method Locate(c: nat)
      requires Valid() && c in calls && calls[c].Locating?
      modifies this`calls, this`outcomes
      ensures Valid() && Now() == Located(js, old(Now()), c)
    {
      var call := calls[c];
      if call.key !in rows {
        End(c, Refused(NotFound));
        return;
      }
      LocatedKeeps(js, versionOf, Now(), c);
      var changes := BuildChanges(js, call.b.entity, call.args, call.b.commandFields);
      calls := calls[c := if changes == map[] then Emitting(call.b, call.args, call.role, call.key, rows[call.key])
                          else Writing(call.b, call.args, call.role, call.key, changes, rows[call.key])];
    }

    /** `store.update`: a compare-and-set on the version. It succeeds only on the
        very row that was read, so no update in between is overwritten unseen. */
    method Write(c: nat)
      requires Valid() && c in calls && calls[c].Writing?
      modifies this`rows, this`calls, this`outcomes, this`past, this`stories
      ensures Valid() && old(Writes(Now(), c)) && Now() == Written(old(Now()), c)
      ensures Current(old(rows), old(calls[c])) ==> old(rows)[old(calls[c]).key] == old(calls[c]).seen
    {
      MayWrite(js, versionOf, Now(), c);
      if !Current(rows, calls[c]) {
        End(c, Refused(Stale));
        return;
      }
      UpdatedKeeps(js, versionOf, Now(), c);
      var call := calls[c];
      var key, patch := call.key, call.changes - {"version"};
      rows := rows[key := Update(rows[key], patch)];
      past, stories := past[key := Patch(past[key], patch)], stories[key := Signed(stories[key], c)];
      calls := calls[c := ReadingBack(call.b, call.args, call.role, key)];
    }

    /** The store reads the row back; other calls may have moved it on, but what this
        call wrote is in it. */
    method ReadBack(c: nat)
      requires Valid() && c in calls && calls[c].ReadingBack?
      modifies this`calls
      ensures Valid() && old(ReadsBack(Now(), c)) && Now() == Returned(old(Now()), c)
      ensures c in requests && Did(js, stories, requests[c], c)
      ensures Finished(js, past, stories, requests[c], c, rows[old(calls[c]).key])
    {
      ReturnedKeeps(js, versionOf, Now(), c);
      var call := calls[c];
      calls := calls[c := Emitting(call.b, call.args, call.role, call.key, rows[call.key])];
    }

    /** The call succeeds with exactly one more event: the bound one of its own
        request, about the row that bears its id. */
    method EmitEvent(c: nat)
      requires Valid() && c in calls && calls[c].Emitting?
      modifies this`log, this`calls, this`outcomes, this`succeeded
      ensures Valid() && old(Emits(Now(), c)) && Now() == Emitted(old(Now()), c)
      ensures HasId(old(calls[c]).row, requests[c].key.id)
    {
      EmittedKeeps(js, versionOf, Now(), c);
      var call := calls[c];
      log := log + [EntryOf(call.b, call.args, call.role, call.key.id, call.row)];
      calls := calls - {c};
      outcomes := outcomes[c := Success(call.row)];
      succeeded := succeeded + [c];
    }

    /** A database or event-log failure ends a call at any point. What it wrote
        before stays, without an event. */
    method Break(c: nat)
      requires Valid() && c in calls
      modifies this`calls, this`outcomes
      ensures Valid() && Now() == Ended(old(Now()), c, Crashed)
    {
      End(c, Crashed);
    }
  }

  // --- over whole runs ------------------------------------------------------------------------------

  /** The log has exactly one entry per successful call: the bound event of what
      that call was asked, about the row it returned. */
  lemma OneEventPerSuccess(log: seq<LogEntry>, outcomes: map<nat, Outcome>, succeeded: seq<nat>,
                           requests: map<nat, Request>, c: nat)
    requires LogOk(log, outcomes, succeeded) && Logged(log, outcomes, succeeded, requests)
    ensures |log| == |set c | c in outcomes && outcomes[c].Success?|
    ensures c in outcomes && outcomes[c].Success? ==>
              && multiset(succeeded)[c] == 1 && c in requests
              && exists i :: 0 <= i < |log| && succeeded[i] == c && log[i] == EventOf(requests[c], outcomes[c].row)
  {
    DistinctSize(succeeded);
    assert Elements(succeeded) == set c | c in outcomes && outcomes[c].Success?;
    if c in outcomes && outcomes[c].Success? {
      DistinctCounts(succeeded, c);
      var i := IndexOf(succeeded, c);
      assert LoggedAt(log[i], succeeded[i], outcomes, requests);
    }
  }

  /** No update is lost: every successful update with changes stands in the history
      of its row exactly once, and the row it returned has it in it. The row that
      stands is that history replayed. */
  lemma NoUpdateIsLost(js: Js, versionOf: Value -> int, s: State, c: nat) returns (i: nat)
    requires Sound(js, versionOf, s) && c in s.outcomes && s.outcomes[c].Success?
    requires c in s.requests && !s.requests[c].creates && ChangesFor(js, s.requests[c]) != map[]
    ensures var k := s.requests[c].key;
            && k in s.rows && k in s.past && k in s.stories && i < |s.past[k].patches| == |s.stories[k].writers|
            && s.past[k].patches[i] == PatchFor(js, s.requests[c])
            && (forall j :: 0 <= j < |s.stories[k].writers| ==> (s.stories[k].writers[j] == c <==> j == i))
            && (exists n: nat :: ShowsWrite(s.past[k], s.stories[k], c, s.outcomes[c].row, n))
            && s.rows[k] == Replay(s.past[k], |s.past[k].patches|)
  {
    Open(js, versionOf, s);
    AllAgree(js, versionOf, s.past, s.stories, s.requests, s.calls, s.outcomes);
    var k := s.requests[c].key;
    assert EndOk(js, s.past, s.stories, s.requests, c, s.outcomes[c]);
    assert RowOk(k, s.rows[k], s.past[k]);
    var n: nat :| ShowsWrite(s.past[k], s.stories[k], c, s.outcomes[c].row, n);
    i := WriteStands(js, versionOf, s.past, s.stories, s.requests, k, c);
  }

  /** After any run a cell holds what the last call that wrote it was asked for, and
      without one what the call that created the row was asked for. */
  lemma CellIsLastWrite(js: Js, versionOf: Value -> int, s: State, k: RowKey, col: string)
    requires Sound(js, versionOf, s) && k in s.rows
    ensures k in s.past && k in s.stories && |s.stories[k].writers| == |s.past[k].patches|
    ensures var story, cells := s.stories[k], s.rows[k].cells;
            match LastPatch(s.past[k], |s.past[k].patches|, col)
            case Some(i) =>
              var c := story.writers[i];
              && c in s.requests && s.requests[c].key == k
              && col in PatchFor(js, s.requests[c]) && col in cells && cells[col] == PatchFor(js, s.requests[c])[col]
            case None =>
              var c := story.author;
              && c in s.requests && s.requests[c].key == k
              && (col in cells <==> col in BornOf(js, versionOf, s.requests[c]).cells)
              && (col in cells ==> cells[col] == BornOf(js, versionOf, s.requests[c]).cells[col])
  {
    Open(js, versionOf, s);
    AllAgree(js, versionOf, s.past, s.stories, s.requests, s.calls, s.outcomes);
    var h, story := s.past[k], s.stories[k];
    assert RowOk(k, s.rows[k], h) && StoryOk(js, versionOf, k, h, story, s.requests);
    CellIsLastPatch(h, |h.patches|, col);
    var last := LastPatch(h, |h.patches|, col);
    if last.Some? {
      assert PatchedBy(js, k, h.patches[last.value], story.writers[last.value], s.requests);
    }
  }

  /** A refused call has written nothing: it neither made a row nor patched one. */
  lemma RefusedWroteNothing(js: Js, versionOf: Value -> int, s: State, c: nat, k: RowKey)
    requires Sound(js, versionOf, s) && c in s.outcomes && s.outcomes[c].Refused? && k in s.stories
    ensures s.stories[k].author != c && c !in s.stories[k].writers
  {
    Open(js, versionOf, s);
    AllAgree(js, versionOf, s.past, s.stories, s.requests, s.calls, s.outcomes);
    assert EndOk(js, s.past, s.stories, s.requests, c, s.outcomes[c]);
  }

  /** Every stored row still has a value for each field that its creator's model
      requires, outside the platform's own, and was born with one of its type. */
  lemma StoredRowsAreComplete(js: Js, versionOf: Value -> int, s: State, k: RowKey, f: nat)
    requires Sound(js, versionOf, s) && k in s.rows && k in s.stories && s.stories[k].author in s.requests
    requires var entity := s.requests[s.stories[k].author].b.entity;
             f < |entity.fields| && entity.fields[f].name in entity.required && entity.fields[f].name !in PLATFORM
    ensures var fields := s.requests[s.stories[k].author].b.entity.fields;
            var name := fields[f].name;
            && name in s.rows[k].cells && k in s.past && name in s.past[k].born.cells
            && (name != "id" ==>
                  exists j :: 0 <= j < |fields| && fields[j].name == name
                    && Typed(s.past[k].born.cells[name], fields[j].column))
  {
    Open(js, versionOf, s);
    AllAgree(js, versionOf, s.past, s.stories, s.requests, s.calls, s.outcomes);
    var h, r := s.past[k], s.requests[s.stories[k].author];
    assert RowOk(k, s.rows[k], h) && StoryOk(js, versionOf, k, h, s.stories[k], s.requests);
    RequiredAreFilled(js, r.b.entity, r.args, k.id, r.b.entity.fields, f);
    CellIsLastPatch(h, |h.patches|, r.b.entity.fields[f].name);
  }

  /** A caller that pins one of the command's events by its ref finds that very ref
      in the log once its call has succeeded. */
  lemma PinnedEventIsLogged(js: Js, versionOf: Value -> int, s: State, i: nat, c: nat) returns (n: nat)
    requires Sound(js, versionOf, s) && c in s.outcomes && s.outcomes[c].Success? && c in s.commands
    requires var cmd := s.commands[c];
             && Wired(cmd.ont) && i < |cmd.ont.events| && cmd.ont.events[i].commandName == cmd.name
             && '/' !in cmd.ont.events[i].key.name && cmd.eventRef == Some(cmd.ont.events[i].ref)
    ensures n < |s.log| == |s.succeeded| && s.succeeded[n] == c && s.log[n].ref == s.commands[c].ont.events[i].ref
  {
    Open(js, versionOf, s);
    var cmd := s.commands[c];
    PinnedEventIsBound(cmd.ont, i, cmd.name);
    OneEventPerSuccess(s.log, s.outcomes, s.succeeded, s.requests, c);
    assert CameFrom(s.commands, s.requests, c);
    BoundEventIs(cmd.ont, cmd.name, cmd.eventRef);
    BoundOnce(cmd.ont, cmd.name, cmd.eventRef, s.requests[c].b.event, cmd.ont.events[i]);
    n :| 0 <= n < |s.log| && s.succeeded[n] == c && s.log[n] == EventOf(s.requests[c], s.outcomes[c].row);
  }

  // --- what was asked, and what came of it ------------------------------------------------------------

  /** Where the updates of a row stand, told from the command alone: a successful
      update that asks for any column stands in the history of its row exactly once,
      with exactly the columns it asks for. */
  lemma UpdateIsWritten(js: Js, versionOf: Value -> int, s: State, c: nat, event: Event, entity: Entity, asked: string,
                        column: Column)
    returns (i: nat)
    requires Sound(js, versionOf, s) && c in s.outcomes && s.outcomes[c].Success? && c in s.requests
    requires !s.requests[c].creates && c in s.commands && Wired(s.commands[c].ont)
    requires IsAbout(s.commands[c], event, entity) && Asks(js, s.commands[c], entity, asked, column)
    ensures IdOf(s.commands[c].args).Some?
    ensures var k := RowKey(entity.name, IdOf(s.commands[c].args).value);
            && k in s.rows && k in s.past && k in s.stories && i < |s.past[k].patches| == |s.stories[k].writers|
            && WritesWhatIsAsked(js, s.commands[c], entity, s.past[k].patches[i])
            && (forall j :: 0 <= j < |s.stories[k].writers| ==> (s.stories[k].writers[j] == c <==> j == i))
            && (exists n: nat :: ShowsWrite(s.past[k], s.stories[k], c, s.outcomes[c].row, n))
            && s.rows[k] == Replay(s.past[k], |s.past[k].patches|)
  {
    Open(js, versionOf, s);
    assert CameFrom(s.commands, s.requests, c);
    var cmd, r := s.commands[c], s.requests[c];
    BoundOnce(cmd.ont, cmd.name, cmd.eventRef, event, r.b.event);
    PatchIsAsked(js, cmd, r);
    assert asked in PatchFor(js, r);
    i := NoUpdateIsLost(js, versionOf, s, c);
  }

  /** Every patch in every row's history is what some command asks for. */
  lemma EveryPatchWasAsked(js: Js, versionOf: Value -> int, s: State, k: RowKey, i: nat) returns (c: nat)
    requires Sound(js, versionOf, s) && k in s.rows && k in s.past && i < |s.past[k].patches|
    ensures k in s.stories && i < |s.stories[k].writers| && c == s.stories[k].writers[i]
    ensures c in s.requests && c in s.commands && s.requests[c].key == k
    ensures IsAbout(s.commands[c], s.requests[c].b.event, s.requests[c].b.entity)
    ensures WritesWhatIsAsked(js, s.commands[c], s.requests[c].b.entity, s.past[k].patches[i])
  {
    Open(js, versionOf, s);
    AllAgree(js, versionOf, s.past, s.stories, s.requests, s.calls, s.outcomes);
    assert StoryOk(js, versionOf, k, s.past[k], s.stories[k], s.requests);
    c := s.stories[k].writers[i];
    assert PatchedBy(js, k, s.past[k].patches[i], c, s.requests) && CameFrom(s.commands, s.requests, c);
    PatchIsAsked(js, s.commands[c], s.requests[c]);
  }

  /** Every row was born as its creator's command asks. */
  lemma EveryRowWasAsked(js: Js, versionOf: Value -> int, s: State, k: RowKey, f: nat) returns (c: nat)
    requires Sound(js, versionOf, s) && k in s.rows
    ensures k in s.past && k in s.stories && c == s.stories[k].author
    ensures c in s.requests && c in s.commands && s.requests[c].key == k
    ensures IsAbout(s.commands[c], s.requests[c].b.event, s.requests[c].b.entity)
    ensures var entity := s.requests[c].b.entity;
            && f < |entity.fields| && entity.fields[f].name !in {"id", "version"}
            && (forall j :: 0 <= j < |entity.fields| && j != f ==> entity.fields[j].name != entity.fields[f].name) ==>
              BornAsAsked(js, s.commands[c], entity, entity.fields[f], s.past[k].born.cells)
  {
    Open(js, versionOf, s);
    AllAgree(js, versionOf, s.past, s.stories, s.requests, s.calls, s.outcomes);
    c := s.stories[k].author;
    assert StoryOk(js, versionOf, k, s.past[k], s.stories[k], s.requests) && CameFrom(s.commands, s.requests, c);
    var fields := s.requests[c].b.entity.fields;
    if f < |fields| && fields[f].name !in {"id", "version"}
       && forall j :: 0 <= j < |fields| && j != f ==> fields[j].name != fields[f].name {
      RowIsBornAsAsked(js, versionOf, s.commands[c], s.requests[c], f);
    }
  }

  /** Every entry of the log tells of the command whose success it stands for. */
  lemma EveryEventWasAsked(js: Js, versionOf: Value -> int, s: State, i: nat) returns (c: nat)
    requires Sound(js, versionOf, s) && i < |s.log|
    ensures i < |s.succeeded| && c == s.succeeded[i] && c in s.outcomes && s.outcomes[c].Success?
    ensures c in s.requests && c in s.commands
    ensures var r := s.requests[c];
            IsAbout(s.commands[c], r.b.event, r.b.entity)
            && EventTells(s.commands[c], r.b.event, r.b.entity, r.key.id, s.outcomes[c].row, s.log[i])
  {
    Open(js, versionOf, s);
    c := s.succeeded[i];
    assert LoggedAt(s.log[i], c, s.outcomes, s.requests) && CameFrom(s.commands, s.requests, c);
    EventIsTold(s.commands[c], s.requests[c], s.outcomes[c].row);
  }

  /** Every row a create is about to insert has a typed value for each required
      field outside the platform's own. */
  lemma CreatedRowsAreComplete(js: Js, past: Histories, call: Call, k: nat)
    requires call.Creating? && CallOk(js, past, call) && k < |call.b.entity.fields|
    requires call.b.entity.fields[k].name in call.b.entity.required && call.b.entity.fields[k].name !in PLATFORM
    ensures var fields, name := call.b.entity.fields, call.b.entity.fields[k].name;
            && name in call.data
            && (name != "id" ==> exists j ::
                0 <= j < |fields| && fields[j].name == name && Typed(call.data[name], fields[j].column))
  {
    RequiredAreFilled(js, call.b.entity, call.args, call.id, call.b.entity.fields, k);
  }
}
