/** A command as it arrives, what the model and its arguments ask for, and the
    request it becomes. */
module CommandAdmission {
  import opened Common
  import opened Graph
  import opened Commands
  import opened RowHistory
  import opened CommandCalls
  import opened CommandEffects
  import CreateEvents

  /** `ont` is the model in force on arrival; `freshId` is the id generated when none
      is supplied. */
  datatype Command = Command(ont: Ontology, name: string, eventRef: Option<string>, args: Args, role: string,
                             freshId: string)

  /** What becomes of a command when it arrives: what it waits for first, or why it
      is refused. A create has built its row by then. */
  ghost function Admission(js: Js, rows: map<RowKey, Row>, cmd: Command): Result<Call, Error>
    requires Wired(cmd.ont)
  {
    BoundEventIs(cmd.ont, cmd.name, cmd.eventRef);
    match ResolveBinding(cmd.ont, cmd.name, cmd.eventRef)
    case Err(e) => Err(e)
    case Ok(b) =>
      var given := IdOf(cmd.args);
      if given.Some? && RowKey(b.entity.name, given.value) in rows
        then Ok(Locating(b, cmd.args, cmd.role, RowKey(b.entity.name, given.value)))
      else if CreateEvents.FirstToTouch(cmd.ont.preds, cmd.ont.roots, b.event.key) then
        var id := if given.Some? then given.value else cmd.freshId;
        var unfillable := UnfillableOf(js, b.entity, cmd.args, id, b.entity.fields);
        if unfillable != [] then Err(Unfillable(unfillable))
        else Ok(Creating(b, cmd.args, cmd.role, id, DataOf(js, b.entity, cmd.args, id, b.entity.fields)))
      else Err(if given.Some? then NotFound else NoId)
  }

  /** The id argument, if it is a nonempty string. */
  function IdOf(args: Args): Option<string> {
    if "id" in args && args["id"].Str? && args["id"].text != "" then Some(args["id"].text) else None
  }

  // --- what a command asks for, from the model and its arguments ----------------------------------

  /** The event the command is about, and the entity the model has for it. */
  ghost predicate IsAbout(cmd: Command, event: Event, entity: Entity) {
    && IsBound(cmd.ont, cmd.name, cmd.eventRef, event)
    && event.aggregateRoot in cmd.ont.entities && entity == cmd.ont.entities[event.aggregateRoot]
  }

  /** The command asks for a new value of this column: it lists the field, the entity
      declares it, and the argument has a place in it. The id, the status and the
      version are not the caller's to set. */
  ghost predicate Asks(js: Js, cmd: Command, entity: Entity, col: string, column: Column) {
    && cmd.name in cmd.ont.commands && col in cmd.ont.commands[cmd.name]
    && col !in {"id", "status", "version"} && col in cmd.args
    && Declares(entity.fields, col, column) && HasPlace(js, cmd.args[col], column)
  }

  /** These are the cells the command asks an update to write, and no others. */
  ghost predicate WritesWhatIsAsked(js: Js, cmd: Command, entity: Entity, patch: Cells) {
    forall col ::
      && (col in patch <==> exists column :: Asks(js, cmd, entity, col, column))
      && (forall column :: Asks(js, cmd, entity, col, column) && col in patch ==>
            Typed(patch[col], column) && Stands(js, patch[col], cmd.args[col], column))
  }

  /** The request comes from this command: its event, its entity and its arguments;
      a row under the given id, or a new one under it or under a fresh id. */
  ghost predicate Stems(cmd: Command, r: Request) {
    && Wired(cmd.ont) && IsAbout(cmd, r.b.event, r.b.entity)
    && r.b.event.commandName == cmd.name
    && r.b.commandFields == (if cmd.name in cmd.ont.commands then cmd.ont.commands[cmd.name] else [])
    && r.args == cmd.args && r.role == cmd.role && r.key.table == r.b.entity.name
    && (!r.creates ==> IdOf(cmd.args) == Some(r.key.id))
    && (r.creates ==>
          && r.b.event.key in cmd.ont.preds && cmd.ont.roots.Keys == cmd.ont.preds.Keys
          && CreateEvents.FirstToTouch(cmd.ont.preds, cmd.ont.roots, r.b.event.key)
          && r.key.id == if IdOf(cmd.args).Some? then IdOf(cmd.args).value else cmd.freshId)
  }

  /** Every request comes from the command that began its call. */
  ghost predicate OriginsOk(commands: map<nat, Command>, requests: map<nat, Request>) {
    forall c :: CameFrom(commands, requests, c)
  }

  ghost predicate CameFrom(commands: map<nat, Command>, requests: map<nat, Request>, c: nat) {
    c in requests ==> c in commands && Stems(commands[c], requests[c])
  }

  lemma OriginsArrive(commands: map<nat, Command>, requests: map<nat, Request>, c: nat, cmd: Command, r: Request)
    requires OriginsOk(commands, requests) && c !in requests && Stems(cmd, r)
    ensures OriginsOk(commands[c := cmd], requests[c := r])
  {
    var commands', requests' := commands[c := cmd], requests[c := r];
    forall d
      ensures CameFrom(commands', requests', d)
    {
      assert CameFrom(commands, requests, d);
    }
  }

  lemma OriginsStay(commands: map<nat, Command>, requests: map<nat, Request>, c: nat, cmd: Command)
    requires OriginsOk(commands, requests) && c !in requests
    ensures OriginsOk(commands[c := cmd], requests)
  {
    var commands' := commands[c := cmd];
    forall d
      ensures CameFrom(commands', requests, d)
    {
      assert CameFrom(commands, requests, d);
    }
  }

  // --- which commands are admitted -----------------------------------------------------------------

  /** An update goes on only for an id that has a row; a create only with a
      create-shaped event, no row under a given id, and every required field filled.
      Either way the call stands for what it was asked. */
  lemma AdmittedCalls(js: Js, rows: map<RowKey, Row>, cmd: Command, call: Call)
    requires Wired(cmd.ont) && Admission(js, rows, cmd) == Ok(call)
    ensures call.Creating? || call.Locating?
    ensures call.Locating? ==> call.key in rows
    ensures call.Creating? && IdOf(cmd.args).Some? ==> RequestOf(call).key !in rows
    ensures Stems(cmd, RequestOf(call)) && forall past :: CallOk(js, past, call)
  {
    BoundEventIs(cmd.ont, cmd.name, cmd.eventRef);
  }

  /** A command nobody listens to. */
  lemma RefusedWithoutEvent(js: Js, rows: map<RowKey, Row>, cmd: Command)
    requires Wired(cmd.ont)
    ensures Admission(js, rows, cmd) == Err(NoEvent) <==> forall e :: e in cmd.ont.events ==> e.commandName != cmd.name
  {
    BoundEventIs(cmd.ont, cmd.name, cmd.eventRef);
  }

  lemma RefusedWithoutEntity(js: Js, rows: map<RowKey, Row>, cmd: Command, event: Event)
    requires Wired(cmd.ont) && IsBound(cmd.ont, cmd.name, cmd.eventRef, event)
    ensures Admission(js, rows, cmd) == Err(UnknownEntity) <==> event.aggregateRoot !in cmd.ont.entities
  {
    BoundIsFound(cmd, event);
  }

  lemma BoundIsFound(cmd: Command, event: Event)
    requires Wired(cmd.ont) && IsBound(cmd.ont, cmd.name, cmd.eventRef, event)
    ensures BoundEvent(cmd.ont, cmd.name, cmd.eventRef) == Some(event) && event.key in cmd.ont.preds
    ensures event in cmd.ont.events && event.commandName == cmd.name
  {
    BoundEventIs(cmd.ont, cmd.name, cmd.eventRef);
    assert event in cmd.ont.events && event.commandName == cmd.name;
    BoundOnce(cmd.ont, cmd.name, cmd.eventRef, event, BoundEvent(cmd.ont, cmd.name, cmd.eventRef).value);
  }

  /** Given its event and entity, a command updates the row of its id if there is one;
      else it creates one, if its event may and every required field can be filled;
      and for each way to fail there is one refusal. */
  lemma AdmissionIs(js: Js, rows: map<RowKey, Row>, cmd: Command, event: Event, entity: Entity)
    requires Wired(cmd.ont) && IsAbout(cmd, event, entity)
    ensures event.key in cmd.ont.preds
    ensures var r, given := Admission(js, rows, cmd), IdOf(cmd.args);
            var stands := given.Some? && RowKey(entity.name, given.value) in rows;
            var mayCreate := CreateEvents.FirstToTouch(cmd.ont.preds, cmd.ont.roots, event.key);
            var lacking := exists f :: f in entity.fields && CannotFill(js, entity, cmd.args, f);
            && (r.Ok? && r.value.Locating? <==> stands)
            && (r.Ok? && r.value.Creating? <==> !stands && mayCreate && !lacking)
            && (r.Err? && r.error.Unfillable? <==> !stands && mayCreate && lacking)
            && (r == Err(NotFound) <==> !stands && !mayCreate && given.Some?)
            && (r == Err(NoId) <==> !stands && !mayCreate && given.None?)
  {
    BoundIsFound(cmd, event);
    var given := IdOf(cmd.args);
    var id := if given.Some? then given.value else cmd.freshId;
    LackingIff(js, entity, cmd.args, id);
  }

  lemma LackingIff(js: Js, entity: Entity, args: Args, id: string)
    ensures UnfillableOf(js, entity, args, id, entity.fields) != [] <==>
            exists f :: f in entity.fields && CannotFill(js, entity, args, f)
  {
    var names := UnfillableOf(js, entity, args, id, entity.fields);
    if names != [] {
      UnfillableIff(js, entity, args, id, entity.fields, names[0]);
    }
    if f :| f in entity.fields && CannotFill(js, entity, args, f) {
      UnfillableIff(js, entity, args, id, entity.fields, f.name);
    }
  }

  /** The fields the refusal names are exactly those no value can be found for. */
  lemma UnfillableNamesThem(js: Js, rows: map<RowKey, Row>, cmd: Command, event: Event, entity: Entity, n: string)
    requires Wired(cmd.ont) && IsAbout(cmd, event, entity)
    requires Admission(js, rows, cmd).Err? && Admission(js, rows, cmd).error.Unfillable?
    ensures n in Admission(js, rows, cmd).error.fields <==>
            exists f :: f in entity.fields && f.name == n && CannotFill(js, entity, cmd.args, f)
  {
    BoundIsFound(cmd, event);
    var given := IdOf(cmd.args);
    UnfillableIff(js, entity, cmd.args, if given.Some? then given.value else cmd.freshId, entity.fields, n);
  }

  // --- what an update writes ------------------------------------------------------------------------

  /** What a request writes is what its command asks for. */
  lemma PatchIsAsked(js: Js, cmd: Command, r: Request)
    requires Stems(cmd, r)
    ensures WritesWhatIsAsked(js, cmd, r.b.entity, PatchFor(js, r))
  {
    var patch := PatchFor(js, r);
    forall col
      ensures col in patch <==> exists column :: Asks(js, cmd, r.b.entity, col, column)
      ensures forall column :: Asks(js, cmd, r.b.entity, col, column) && col in patch ==>
                Typed(patch[col], column) && Stands(js, patch[col], cmd.args[col], column)
    {
      CellIsAsked(js, cmd, r, col);
    }
  }

  lemma CellIsAsked(js: Js, cmd: Command, r: Request, col: string)
    requires Stems(cmd, r)
    ensures var patch := PatchFor(js, r);
            && (col in patch <==> exists column :: Asks(js, cmd, r.b.entity, col, column))
            && (forall column :: Asks(js, cmd, r.b.entity, col, column) && col in patch ==>
                  Typed(patch[col], column) && Stands(js, patch[col], cmd.args[col], column))
  {
    ChangesAre(js, r.b.entity, r.args, r.b.commandFields, col);
    var found := ColumnOf(r.b.entity.fields, col);
    if found.Some? {
      ColumnIs(r.b.entity.fields, col, found.value);
      assert col in PatchFor(js, r) ==> Asks(js, cmd, r.b.entity, col, found.value);
    }
    forall column | Asks(js, cmd, r.b.entity, col, column)
      ensures found == Some(column)
    {
      ColumnIs(r.b.entity.fields, col, column);
    }
  }

  // --- what a create writes -------------------------------------------------------------------------

  /** A cell of a created row, from the model and the arguments: the argument if there
      is one; the example in its absence, for the status and for required fields. */
  ghost predicate BornAsAsked(js: Js, cmd: Command, entity: Entity, f: Field, cells: Cells) {
    var source := if f.name in cmd.args then Some(cmd.args[f.name])
                  else if f.name == "status" || (f.name in entity.required && f.name !in PLATFORM) then f.example
                  else None;
    if source.Some? && HasPlace(js, source.value, f.column)
    then f.name in cells && Typed(cells[f.name], f.column) && Stands(js, cells[f.name], source.value, f.column)
    else f.name !in cells
  }

  lemma RowIsBornAsAsked(js: Js, versionOf: Value -> int, cmd: Command, r: Request, k: nat)
    requires Stems(cmd, r) && k < |r.b.entity.fields| && r.b.entity.fields[k].name !in {"id", "version"}
    requires forall j :: 0 <= j < |r.b.entity.fields| && j != k ==>
               r.b.entity.fields[j].name != r.b.entity.fields[k].name
    ensures BornAsAsked(js, cmd, r.b.entity, r.b.entity.fields[k], BornOf(js, versionOf, r).cells)
  {
    StoredValue(js, r.b.entity, r.args, r.key.id, r.b.entity.fields, k);
  }

  // --- what the event says --------------------------------------------------------------------------

  ghost predicate HasField(entity: Entity, name: string) {
    exists f :: f in entity.fields && f.name == name
  }

  /** The event of a command about the row under `id`: the bound event's ref, the
      row's id and the caller's role; and for a payload the arguments, under the row's
      own id and, where the entity has one, its status. */
  ghost predicate EventTells(cmd: Command, event: Event, entity: Entity, id: string, row: Row, entry: LogEntry) {
    && entry.ref == event.ref && entry.aggregateId == id && entry.role == cmd.role
    && (forall n :: n in entry.payload <==> n in cmd.args || n == "id" || (n == "status" && HasField(entity, "status")))
    && entry.payload["id"] == Cell(Text(id))
    && (forall n :: n in cmd.args && n != "id" && n != "status" ==> entry.payload[n] == Arg(cmd.args[n]))
    && (if HasField(entity, "status")
        then entry.payload["status"] == if "status" in row.cells then Cell(row.cells["status"]) else NullCell
        else "status" in cmd.args ==> entry.payload["status"] == Arg(cmd.args["status"]))
  }

  lemma EventIsTold(cmd: Command, r: Request, row: Row)
    requires Stems(cmd, r)
    ensures EventTells(cmd, r.b.event, r.b.entity, r.key.id, row, EventOf(r, row))
  {
    HasFieldAt(r.b.entity);
  }

  lemma HasFieldAt(entity: Entity)
    ensures HasField(entity, "status") <==>
            exists j :: 0 <= j < |entity.fields| && entity.fields[j].name == "status"
  {
    if j :| 0 <= j < |entity.fields| && entity.fields[j].name == "status" {
      assert entity.fields[j] in entity.fields;
    }
  }
}
