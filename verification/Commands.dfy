/** The generic command: which event it binds to, and the row or the changes it
    makes of its arguments. */
module Commands {
  import opened Common
  import opened Graph
  import Inheritance
  import Registry

  // --- values and columns -----------------------------------------------------------------------

  /** An argument or an example as it arrives; objects by their JSON text. */
  datatype Raw = Null | Str(text: string) | Num(n: real) | Bool(b: bool) | Obj(json: string)

  /** A stored cell. */
  datatype Value = Whole(i: int) | Fraction(r: real) | Truth(b: bool) | Text(text: string)

  /** The cases of the type switch; every other type name is text. */
  datatype Column = Integer | Decimal | Boolean | Object | Other

  /** `String(raw)` and `Number(raw)`; a number that is not finite is none. */
  datatype Js = Js(text: Raw -> string, number: Raw -> Option<real>)

  /** `Math.trunc`: towards zero. */
  function Trunc(x: real): (i: int)
    ensures x >= 0.0 ==> i as real <= x < i as real + 1.0
    ensures x < 0.0 ==> i as real - 1.0 < x <= i as real <= 0.0
  {
    if x >= 0.0 then x.Floor else -((-x).Floor)
  }

  function Coerce(js: Js, raw: Raw, column: Column): (r: Option<Value>)
    ensures r.Some? ==> Typed(r.value, column)
    ensures r.None? <==> column in {Integer, Decimal} && js.number(raw).None?
    ensures r.Some? ==> Stands(js, r.value, raw, column)
  {
    match column
    case Integer => (match js.number(raw) case None => None case Some(n) => Some(Whole(Trunc(n))))
    case Decimal => (match js.number(raw) case None => None case Some(n) => Some(Fraction(n)))
    case Boolean => Some(Truth(raw == Bool(true) || raw == Str("true") || raw == Str("1")))
    case Object => Some(Text(match raw case Str(s) => s case Obj(s) => s case _ => js.text(raw)))
    case Other => Some(Text(js.text(raw)))
  }

  /** What the stored value keeps of the raw one: the whole part of a number, the
      number itself, whether it is one of the three spellings of true, the text. */
  predicate Stands(js: Js, v: Value, raw: Raw, column: Column)
    requires Typed(v, column)
  {
    match column
    case Integer => js.number(raw).Some? && IsWholePart(v.i, js.number(raw).value)
    case Decimal => js.number(raw) == Some(v.r)
    case Boolean => v.b <==> raw in {Bool(true), Str("true"), Str("1")}
    case Object => v.text == if raw.Str? then raw.text else if raw.Obj? then raw.json else js.text(raw)
    case Other => v.text == js.text(raw)
  }

  /** The integer closest to `x` that does not lie beyond it, seen from zero. */
  predicate IsWholePart(i: int, x: real) {
    if x >= 0.0 then 0 <= i && i as real <= x < i as real + 1.0 else i <= 0 && i as real - 1.0 < x <= i as real
  }

  predicate Typed(v: Value, column: Column) {
    match column
    case Integer => v.Whole?
    case Decimal => v.Fraction?
    case Boolean => v.Truth?
    case Object => v.Text?
    case Other => v.Text?
  }

  // --- the model ----------------------------------------------------------------------------------

  datatype Field = Field(name: string, column: Column, example: Option<Raw>)

  datatype Entity = Entity(name: string, required: set<string>, fields: seq<Field>)

  datatype Event = Event(key: Node, ref: string, commandName: string, aggregateRoot: string)

  /** What the commands read of an accepted model. */
  datatype Ontology = Ontology(events: seq<Event>, preds: Preds, roots: Inheritance.Roots,
                               entities: map<string, Entity>, commands: map<string, seq<string>>)

  ghost predicate Wired(ont: Ontology) {
    && ont.roots.Keys == ont.preds.Keys
    && (forall i :: 0 <= i < |ont.events| ==>
        ont.events[i].key in ont.preds && ont.roots[ont.events[i].key] == ont.events[i].aggregateRoot)
    && (forall i, j :: 0 <= i < j < |ont.events| ==> ont.events[i].key != ont.events[j].key)
    && (forall i :: 0 <= i < |ont.events| ==> ont.events[i].ref == Registry.RefOf(ont.events[i].key).name)
  }

  type Args = map<string, Raw>

  datatype Binding = Binding(event: Event, entity: Entity, commandFields: seq<string>)

  datatype Error =
    | NoEvent | UnknownEntity | NotFound | NoId | Unfillable(fields: seq<string>) | AlreadyExists | Stale

  function FirstWhere(events: seq<Event>, test: Event -> bool): (r: Option<Event>)
    ensures r.Some? ==> r.value in events && test(r.value)
    ensures r.None? ==> forall e :: e in events ==> !test(e)
  {
    if events == [] then None else if test(events[0]) then Some(events[0]) else FirstWhere(events[1..], test)
  }

  function EventByRef(ont: Ontology, ref: string): Option<Event> {
    FirstWhere(ont.events, (e: Event) => e.key == Node(Registry.RefTail(ref)))
  }

  /** The event the caller names, if it is one of the command's, else the first
      event of the command. */
  function BoundEvent(ont: Ontology, command: string, eventRef: Option<string>): Option<Event> {
    var byRef := if eventRef.Some? && eventRef.value != "" then EventByRef(ont, eventRef.value) else None;
    if byRef.Some? && byRef.value.commandName == command then byRef
    else FirstWhere(ont.events, (e: Event) => e.commandName == command)
  }

  function ResolveBinding(ont: Ontology, command: string, eventRef: Option<string>): Result<Binding, Error> {
    match BoundEvent(ont, command, eventRef)
    case None => Err(NoEvent)
    case Some(event) =>
      if event.aggregateRoot !in ont.entities then Err(UnknownEntity)
      else
        var fields := if event.commandName in ont.commands then ont.commands[event.commandName] else [];
        Ok(Binding(event, ont.entities[event.aggregateRoot], fields))
  }

  /** A caller that names one of the command's events gets that very event, however
      many share the command; a ref built from its key always names it. */
  lemma PinnedEventIsBound(ont: Ontology, i: nat, command: string)
    requires Wired(ont) && i < |ont.events| && ont.events[i].commandName == command && '/' !in ont.events[i].key.name
    ensures BoundEvent(ont, command, Some(ont.events[i].ref)) == Some(ont.events[i])
  {
    var event := ont.events[i];
    Registry.RefRoundTrip(event.key);
    var found := EventByRef(ont, Registry.RefOf(event.key).name);
    assert Node(event.key.name) == event.key;
    assert event in ont.events;
    var j :| 0 <= j < |ont.events| && ont.events[j] == found.value;
    assert j == i;
  }

  /** The ref names this event. */
  ghost predicate Names(eventRef: Option<string>, e: Event) {
    eventRef.Some? && eventRef.value != "" && e.key == Node(Registry.RefTail(eventRef.value))
  }

  ghost predicate FirstOf(ont: Ontology, command: string, e: Event) {
    exists i :: 0 <= i < |ont.events| && ont.events[i] == e && e.commandName == command
                && forall j :: 0 <= j < i ==> ont.events[j].commandName != command
  }

  /** The event a call is about: the one of the command's that the ref names, and if
      it names none of them the first of the command. */
  ghost predicate IsBound(ont: Ontology, command: string, eventRef: Option<string>, e: Event) {
    if exists d :: d in ont.events && Names(eventRef, d) && d.commandName == command
    then e in ont.events && Names(eventRef, e) && e.commandName == command
    else FirstOf(ont, command, e)
  }

  lemma {:induction false} FirstWhereIs(events: seq<Event>, test: Event -> bool) returns (i: nat)
    requires FirstWhere(events, test).Some?
    ensures i < |events| && events[i] == FirstWhere(events, test).value && forall j :: 0 <= j < i ==> !test(events[j])
  {
    i := 0;
    if !test(events[0]) {
      var n := FirstWhereIs(events[1..], test);
      i := n + 1;
      forall j | 0 <= j < i
        ensures !test(events[j])
      {
        assert j > 0 ==> events[j] == events[1..][j - 1];
      }
    }
  }

  lemma OneEventPerKey(ont: Ontology, d: Event, e: Event)
    requires Wired(ont) && d in ont.events && e in ont.events && d.key == e.key
    ensures d == e
  {
    var i, j := IndexOf(ont.events, d), IndexOf(ont.events, e);
    assert i == j;
  }

  /** There is an event to bind exactly if the command has any, and it is that one. */
  lemma BoundEventIs(ont: Ontology, command: string, eventRef: Option<string>)
    requires Wired(ont)
    ensures match BoundEvent(ont, command, eventRef)
            case None => forall e :: e in ont.events ==> e.commandName != command
            case Some(e) => e in ont.events && e.commandName == command && IsBound(ont, command, eventRef, e)
  {
    var bound := BoundEvent(ont, command, eventRef);
    var byRef := if eventRef.Some? && eventRef.value != "" then EventByRef(ont, eventRef.value) else None;
    if byRef.Some? && byRef.value.commandName == command {
      assert Names(eventRef, byRef.value);
    } else if bound.Some? {
      var i := FirstWhereIs(ont.events, (e: Event) => e.commandName == command);
      assert FirstOf(ont, command, bound.value);
      if d :| d in ont.events && Names(eventRef, d) && d.commandName == command {
        OneEventPerKey(ont, d, byRef.value);
        assert false;
      }
    }
  }

  lemma BoundOnce(ont: Ontology, command: string, eventRef: Option<string>, d: Event, e: Event)
    requires Wired(ont) && IsBound(ont, command, eventRef, d) && IsBound(ont, command, eventRef, e)
    ensures d == e
  {
    if exists x :: x in ont.events && Names(eventRef, x) && x.commandName == command {
      OneEventPerKey(ont, d, e);
    }
  }

  // --- the row a create builds --------------------------------------------------------------------

  const PLATFORM := {"version", "createdAt", "updatedAt"}

  type Cells = map<string, Value>

  datatype Fill = Put(v: Value) | Skip | Missing

  function FromExample(js: Js, f: Field, needed: bool): Fill {
    match f.example
    case None => if needed then Missing else Skip
    case Some(ex) => FromRaw(js, ex, f, needed)
  }

  function FromRaw(js: Js, raw: Raw, f: Field, needed: bool): Fill {
    match Coerce(js, raw, f.column)
    case Some(v) => Put(v)
    case None => if needed then Missing else Skip
  }

  /** What a create does about one declared field. */
  function FillOf(js: Js, entity: Entity, args: Args, id: string, f: Field): Fill {
    var needed := f.name in entity.required;
    if f.name == "id" then Put(Text(id))
    else if f.name in args then FromRaw(js, args[f.name], f, needed)
    else if f.name == "status" then FromExample(js, f, needed)
    else if needed && f.name !in PLATFORM then FromExample(js, f, true)
    else Skip
  }

  function DataOf(js: Js, entity: Entity, args: Args, id: string, fields: seq<Field>): Cells {
    if fields == [] then map[]
    else
      var data, f := DataOf(js, entity, args, id, fields[..|fields| - 1]), fields[|fields| - 1];
      var fill := FillOf(js, entity, args, id, f);
      if fill.Put? then data[f.name := fill.v] else data
  }

  function UnfillableOf(js: Js, entity: Entity, args: Args, id: string, fields: seq<Field>): seq<string> {
    if fields == [] then []
    else
      var names, f := UnfillableOf(js, entity, args, id, fields[..|fields| - 1]), fields[|fields| - 1];
      if FillOf(js, entity, args, id, f).Missing? then names + [f.name] else names
  }

  /** A raw value that has a place in such a column. */
  ghost predicate HasPlace(js: Js, raw: Raw, column: Column) {
    column in {Integer, Decimal} ==> js.number(raw).Some?
  }

  /** A required field no value can be found for: its argument has no place in the
      column, or there is neither an argument nor an example with one. */
  ghost predicate CannotFill(js: Js, entity: Entity, args: Args, f: Field) {
    && f.name in entity.required && f.name != "id"
    && if f.name in args then !HasPlace(js, args[f.name], f.column)
       else f.name !in PLATFORM && (f.example.None? || !HasPlace(js, f.example.value, f.column))
  }

  /** A create is refused for exactly these fields. */
  lemma {:induction false} UnfillableIff(js: Js, entity: Entity, args: Args, id: string, fields: seq<Field>, n: string)
    ensures n in UnfillableOf(js, entity, args, id, fields) <==>
            exists f :: f in fields && f.name == n && CannotFill(js, entity, args, f)
  {
    if fields != [] {
      var front, last := fields[..|fields| - 1], fields[|fields| - 1];
      UnfillableIff(js, entity, args, id, front, n);
      assert fields == front + [last];
      FillIsMissing(js, entity, args, id, last);
    }
  }

  lemma FillIsMissing(js: Js, entity: Entity, args: Args, id: string, f: Field)
    ensures FillOf(js, entity, args, id, f).Missing? <==> CannotFill(js, entity, args, f)
  {
  }

  /** The loop of a create over the entity's fields. */
  method BuildData(js: Js, entity: Entity, args: Args, id: string) returns (data: Cells, unfillable: seq<string>)
    ensures data == DataOf(js, entity, args, id, entity.fields)
    ensures unfillable == UnfillableOf(js, entity, args, id, entity.fields)
  {
    data, unfillable := map[], [];
    var fields := entity.fields;
    for i := 0 to |fields|
      invariant data == DataOf(js, entity, args, id, fields[..i])
      invariant unfillable == UnfillableOf(js, entity, args, id, fields[..i])
    {
      var f := fields[i];
      assert fields[..i + 1][..i] == fields[..i];
      var needed := f.name in entity.required;
      if f.name == "id" {
        data := data["id" := Text(id)];
        continue;
      }
      var provided := f.name in args;
      var source := if provided then Some(args[f.name]) else if f.name == "status" || (needed && f.name !in PLATFORM)
          then f.example else None;
      if source.None? {
        if needed && (f.name == "status" || f.name !in PLATFORM) {
          unfillable := unfillable + [f.name];
        }
        continue;
      }
      var c := Coerce(js, source.value, f.column);
      if c.Some? {
        data := data[f.name := c.value];
      } else if needed {
        unfillable := unfillable + [f.name];
      }
    }
    assert fields[..|fields|] == fields;
  }

  /** A row that gets inserted has a value of the declared type for every required
      field outside the platform's own. */
  lemma {:induction false} RequiredAreFilled(js: Js, entity: Entity, args: Args, id: string, fields: seq<Field>, k: nat)
    requires UnfillableOf(js, entity, args, id, fields) == [] && k < |fields|
    requires fields[k].name in entity.required && fields[k].name !in PLATFORM
    ensures var data, name := DataOf(js, entity, args, id, fields), fields[k].name;
            && name in data
            && (name == "id" ==> data[name] == Text(id))
            && (name != "id" ==> exists j ::
                0 <= j < |fields| && fields[j].name == name && Typed(data[name], fields[j].column))
    decreases |fields|
  {
    var n := |fields| - 1;
    var f, front, name := fields[n], fields[..n], fields[k].name;
    if k < n {
      RequiredAreFilled(js, entity, args, id, front, k);
      if name != "id" && !(FillOf(js, entity, args, id, f).Put? && f.name == name) {
        var j :| 0 <= j < |front| && front[j].name == name
            && Typed(DataOf(js, entity, args, id, front)[name], front[j].column);
        assert fields[j] == front[j];
      }
    }
  }

  /** An argument that fits is stored; only without one does the example step in,
      for the status and for required fields; anything else stays out. */
  lemma {:induction false} StoredValue(js: Js, entity: Entity, args: Args, id: string, fields: seq<Field>, k: nat)
    requires k < |fields| && fields[k].name != "id"
    requires forall j :: 0 <= j < |fields| && j != k ==> fields[j].name != fields[k].name
    ensures var data, f := DataOf(js, entity, args, id, fields), fields[k];
            var source := if f.name in args then Some(args[f.name])
                          else if f.name == "status" || (f.name in entity.required && f.name !in PLATFORM)
                            then f.example
                          else None;
            var value := if source.Some? then Coerce(js, source.value, f.column) else None;
            (f.name in data <==> value.Some?) && (f.name in data ==> value == Some(data[f.name]))
    decreases |fields|
  {
    var n := |fields| - 1;
    var front := fields[..n];
    if k < n {
      StoredValue(js, entity, args, id, front, k);
    } else {
      Unnamed(js, entity, args, id, front, fields[k].name);
    }
  }

  lemma {:induction false} Unnamed(js: Js, entity: Entity, args: Args, id: string, fields: seq<Field>, name: string)
    requires forall j :: 0 <= j < |fields| ==> fields[j].name != name
    ensures name !in DataOf(js, entity, args, id, fields)
  {
    if fields != [] {
      Unnamed(js, entity, args, id, fields[..|fields| - 1], name);
    }
  }

  /** The data mentions declared fields only, and its id is the one chosen. */
  lemma {:induction false} DataIsDeclared(js: Js, entity: Entity, args: Args, id: string, fields: seq<Field>)
    ensures var data := DataOf(js, entity, args, id, fields);
            && (forall c :: c in data ==> exists j :: 0 <= j < |fields| && fields[j].name == c)
            && ("id" in data <==> exists j :: 0 <= j < |fields| && fields[j].name == "id")
            && ("id" in data ==> data["id"] == Text(id))
  {
    if fields != [] {
      var n := |fields| - 1;
      var front := fields[..n];
      DataIsDeclared(js, entity, args, id, front);
      var data, before := DataOf(js, entity, args, id, fields), DataOf(js, entity, args, id, front);
      forall c | c in data
        ensures exists j :: 0 <= j < |fields| && fields[j].name == c
      {
        if c in before {
          var j :| 0 <= j < |front| && front[j].name == c;
          assert fields[j].name == c;
        } else {
          assert fields[n].name == c;
        }
      }
      if j :| 0 <= j < |fields| && fields[j].name == "id" {
        assert j < n ==> front[j].name == "id";
      }
    }
  }

  // --- the changes an update makes ------------------------------------------------------------------

  /** The type of a column; the last declaration of a name counts. */
  function ColumnOf(fields: seq<Field>, name: string): Option<Column> {
    if fields == [] then None
    else if fields[|fields| - 1].name == name then Some(fields[|fields| - 1].column)
    else ColumnOf(fields[..|fields| - 1], name)
  }

  function ChangesOf(js: Js, entity: Entity, args: Args, names: seq<string>): Cells {
    if names == [] then map[]
    else
      var changes, name := ChangesOf(js, entity, args, names[..|names| - 1]), names[|names| - 1];
      var column := ColumnOf(entity.fields, name);
      if name == "id" || name == "status" || column.None? || name !in args then changes
      else
        var c := Coerce(js, args[name], column.value);
        if c.Some? then changes[name := c.value] else changes
  }

  method BuildChanges(js: Js, entity: Entity, args: Args, names: seq<string>) returns (changes: Cells)
    ensures changes == ChangesOf(js, entity, args, names)
  {
    changes := map[];
    for i := 0 to |names|
      invariant changes == ChangesOf(js, entity, args, names[..i])
    {
      var name := names[i];
      assert names[..i + 1][..i] == names[..i];
      if name == "id" || name == "status" {
        continue;
      }
      var column := ColumnOf(entity.fields, name);
      if column.None? {
        continue;
      }
      if name !in args {
        continue;
      }
      var c := Coerce(js, args[name], column.value);
      if c.Some? {
        changes := changes[name := c.value];
      }
    }
    assert names[..|names|] == names;
  }

  /** An update changes exactly the supplied command fields that are columns and
      whose value fits; never the id and never the status. */
  lemma {:induction false} ChangesAre(js: Js, entity: Entity, args: Args, names: seq<string>, c: string)
    ensures c in ChangesOf(js, entity, args, names) <==>
              && c in names && c != "id" && c != "status" && c in args
              && ColumnOf(entity.fields, c).Some? && Coerce(js, args[c], ColumnOf(entity.fields, c).value).Some?
    ensures c in ChangesOf(js, entity, args, names) ==>
              Some(ChangesOf(js, entity, args, names)[c]) == Coerce(js, args[c], ColumnOf(entity.fields, c).value)
  {
    if names != [] {
      var front, last := names[..|names| - 1], names[|names| - 1];
      ChangesAre(js, entity, args, front, c);
      assert names == front + [last];
    }
  }

  /** The column of that name; the last declaration of a name counts. */
  ghost predicate Declares(fields: seq<Field>, name: string, column: Column) {
    exists k: nat :: LastNamed(fields, name, k) && fields[k].column == column
  }

  ghost predicate LastNamed(fields: seq<Field>, name: string, k: nat) {
    k < |fields| && fields[k].name == name && forall j :: k < j < |fields| ==> fields[j].name != name
  }

  lemma ColumnIs(fields: seq<Field>, name: string, column: Column)
    ensures ColumnOf(fields, name) == Some(column) <==> Declares(fields, name, column)
  {
    if ColumnOf(fields, name).Some? {
      var k := ColumnFound(fields, name);
    }
    if Declares(fields, name, column) {
      var k: nat :| LastNamed(fields, name, k) && fields[k].column == column;
      LastNamedIsFound(fields, name, k);
    }
  }

  lemma {:induction false} ColumnFound(fields: seq<Field>, name: string) returns (k: nat)
    requires ColumnOf(fields, name).Some?
    ensures LastNamed(fields, name, k) && ColumnOf(fields, name) == Some(fields[k].column)
  {
    k := |fields| - 1;
    if fields[k].name != name {
      var front := fields[..k];
      k := ColumnFound(front, name);
      assert forall j :: 0 <= j < |front| ==> fields[j] == front[j];
    }
  }

  lemma {:induction false} LastNamedIsFound(fields: seq<Field>, name: string, k: nat)
    requires LastNamed(fields, name, k)
    ensures ColumnOf(fields, name) == Some(fields[k].column)
  {
    if k < |fields| - 1 {
      var front := fields[..|fields| - 1];
      assert forall j :: 0 <= j < |front| ==> fields[j] == front[j];
      LastNamedIsFound(front, name, k);
    }
  }
}
