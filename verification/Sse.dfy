/** The event-stream text between the server and the panel: frames printed one
    after another, and the frames found again in any prefix of that text. */
module Sse {
  import opened Common

  /** `JSON.stringify` and `JSON.parse`; parsing may fail. */
  datatype Codec<!D> = Codec(enc: D -> string, dec: string -> Option<D>)

  /** What event-stream framing asks of the codec: values round-trip, and their
      text is one line that does not start with white space. */
  ghost predicate Faithful<D(!new)>(json: Codec<D>) {
    forall d :: json.dec(json.enc(d)) == Some(d) && OneLine(json.enc(d)) && Tight(json.enc(d))
  }

  predicate OneLine(s: string) {
    '\n' !in s
  }

  predicate Tight(s: string) {
    s != "" && !White(s[0]) && !White(s[|s| - 1])
  }

  /** White space and line terminators as `trim` and `trimStart` see them. */
  predicate White(c: char) {
    || '\U{9}' <= c <= '\U{D}' || c == ' ' || c == '\U{A0}' || c == '\U{1680}' || '\U{2000}' <= c <= '\U{200A}'
    || c == '\U{2028}' || c == '\U{2029}' || c == '\U{202F}' || c == '\U{205F}' || c == '\U{3000}' || c == '\U{FEFF}'
  }

  // --- printing -----------------------------------------------------------------------------

  datatype Frame<D> = Heartbeat | Progress(data: D) | Finished(data: D) | Failed(data: D)

  predicate Terminal<D>(f: Frame<D>) {
    f.Finished? || f.Failed?
  }

  function Name<D>(f: Frame<D>): string
    requires !f.Heartbeat?
  {
    match f
    case Progress(_) => "progress"
    case Finished(_) => "result"
    case Failed(_) => "error"
  }

  function EventLine(name: string): string {
    "event: " + name
  }

  function DataLine(data: string): string {
    "data: " + data
  }

  /** A frame without its closing blank line. */
  function Raw<D>(json: Codec<D>, f: Frame<D>): string {
    if f.Heartbeat? then ": hb" else EventLine(Name(f)) + "\n" + DataLine(json.enc(f.data))
  }

  function Print<D>(json: Codec<D>, frames: seq<Frame<D>>): string {
    if frames == [] then "" else Print(json, frames[..|frames| - 1]) + Raw(json, frames[|frames| - 1]) + "\n\n"
  }

  function Raws<D>(json: Codec<D>, frames: seq<Frame<D>>): seq<string> {
    seq(|frames|, i requires 0 <= i < |frames| => Raw(json, frames[i]))
  }

  // --- splitting ----------------------------------------------------------------------------

  predicate BlankAt(s: string, i: nat) {
    i + 1 < |s| && s[i] == '\n' && s[i + 1] == '\n'
  }

  /** `s.indexOf("\n\n")` */
  function Blank(s: string): (r: Option<nat>)
    ensures r.Some? ==> BlankAt(s, r.value) && forall j: nat :: j < r.value ==> !BlankAt(s, j)
    ensures r.None? ==> forall j: nat :: !BlankAt(s, j)
  {
    if |s| < 2 then None
    else if s[0] == '\n' && s[1] == '\n' then Some(0)
    else
      var tail := Blank(s[1..]);
      assert forall j: nat :: j > 0 ==> BlankAt(s, j) == BlankAt(s[1..], j - 1);
      if tail.Some? then Some(tail.value + 1) else None
  }

  /** The complete frames of a text, and what is left of it. */
  function Split(s: string): (seq<string>, string)
    decreases |s|
  {
    match Blank(s)
    case None => ([], s)
    case Some(i) =>
      var tail := Split(s[i + 2..]);
      ([s[..i]] + tail.0, tail.1)
  }

  lemma BlankStays(a: string, b: string)
    requires Blank(a).Some?
    ensures Blank(a + b) == Blank(a)
  {
    var i := Blank(a).value;
    assert BlankAt(a + b, i);
    forall j: nat | j < i
      ensures !BlankAt(a + b, j)
    {
      assert BlankAt(a + b, j) == BlankAt(a, j);
    }
  }

  lemma SplitStep(s: string, i: nat)
    requires Blank(s) == Some(i)
    ensures Split(s).0 == [s[..i]] + Split(s[i + 2..]).0 && Split(s).1 == Split(s[i + 2..]).1
  {
  }

  lemma SplitAppendStep(a: string, b: string, i: nat)
    requires Blank(a) == Some(i)
    ensures Split(a).0 == [a[..i]] + Split(a[i + 2..]).0 && Split(a).1 == Split(a[i + 2..]).1
    ensures Split(a + b).0 == [a[..i]] + Split(a[i + 2..] + b).0 && Split(a + b).1 == Split(a[i + 2..] + b).1
  {
    BlankStays(a, b);
    SplitStep(a, i);
    SplitStep(a + b, i);
    assert (a + b)[i + 2..] == a[i + 2..] + b && (a + b)[..i] == a[..i];
  }

  /** Splitting in two steps, keeping the rest in between, loses and invents
      nothing, even when a blank line straddles the cut. */
  lemma {:induction false} SplitAppend(a: string, b: string)
    ensures Split(a + b).0 == Split(a).0 + Split(Split(a).1 + b).0
    ensures Split(a + b).1 == Split(Split(a).1 + b).1
    decreases |a|
  {
    if Blank(a).Some? {
      var i := Blank(a).value;
      SplitAppend(a[i + 2..], b);
      SplitAppendStep(a, b, i);
    } else {
      assert Split(a) == ([], a);
    }
  }

  lemma SplitTake(text: string, a: string)
    requires a <= text
    ensures Split(a).0 <= Split(text).0
  {
    var b := text[|a|..];
    assert text == a + b;
    SplitAppend(a, b);
  }

  lemma SplitSnoc(a: string, raw: string)
    requires Split(a).1 == "" && Split(raw + "\n\n") == ([raw], "")
    ensures Split(a + raw + "\n\n") == (Split(a).0 + [raw], "")
  {
    var text := raw + "\n\n";
    SplitAppend(a, text);
    assert "" + text == text;
    assert a + raw + "\n\n" == a + text;
  }

  /** A text with no blank line inside and no line break at its end is one frame. */
  lemma SplitOne(raw: string)
    requires raw != "" && raw[|raw| - 1] != '\n' && Blank(raw).None?
    ensures Split(raw + "\n\n") == ([raw], "")
  {
    var s := raw + "\n\n";
    assert BlankAt(s, |raw|);
    forall j: nat | j < |raw|
      ensures !BlankAt(s, j)
    {
      assert !BlankAt(raw, j);
    }
    assert Blank(s) == Some(|raw|);
    SplitStep(s, |raw|);
    assert s[..|raw|] == raw && s[|raw| + 2..] == "";
    SplitEmpty();
    assert Split(s).0 == [raw];
    assert Split(s).1 == "";
  }

  lemma SplitEmpty()
    ensures Split("") == ([], "")
  {
    assert Blank("").None?;
  }

  lemma RawIsOneFrame<D(!new)>(json: Codec<D>, f: Frame<D>)
    requires Faithful(json)
    ensures Split(Raw(json, f) + "\n\n") == ([Raw(json, f)], "")
  {
    if f.Heartbeat? {
      SplitOne(": hb");
    } else {
      assert OneLine(json.enc(f.data)) && Tight(json.enc(f.data)) && Tight(Name(f));
      EventIsOneFrame(Name(f), json.enc(f.data));
    }
  }

  lemma EventIsOneFrame(name: string, data: string)
    requires OneLine(name) && Tight(name) && OneLine(data) && Tight(data)
    ensures var raw := EventLine(name) + "\n" + DataLine(data); Split(raw + "\n\n") == ([raw], "")
  {
    EventField([], name);
    DataField([], data);
    TwoLines(EventLine(name), DataLine(data));
    SplitOne(EventLine(name) + "\n" + DataLine(data));
  }

  lemma TwoLines(a: string, b: string)
    requires OneLine(a) && OneLine(b) && b != ""
    ensures var raw := a + "\n" + b; raw != "" && raw[|raw| - 1] != '\n' && Blank(raw).None?
  {
    var raw := a + "\n" + b;
    assert raw[|raw| - 1] == b[|b| - 1];
    forall j: nat | j + 1 < |raw|
      ensures !BlankAt(raw, j)
    {
      if j < |a| {
        assert raw[j] == a[j];
      } else {
        assert raw[j + 1] == b[j - |a|];
      }
    }
  }

  /** Splitting finds exactly the printed frames. */
  lemma {:induction false} SplitPrinted<D(!new)>(json: Codec<D>, frames: seq<Frame<D>>)
    requires Faithful(json)
    ensures Split(Print(json, frames)) == (Raws(json, frames), "")
  {
    if frames == [] {
      SplitEmpty();
      assert Print(json, frames) == "" && Raws(json, frames) == [];
    } else {
      var front, last := frames[..|frames| - 1], frames[|frames| - 1];
      SplitPrinted(json, front);
      RawIsOneFrame(json, last);
      SplitSnoc(Print(json, front), Raw(json, last));
      RawsSnoc(json, frames);
    }
  }

  lemma RawsSnoc<D>(json: Codec<D>, frames: seq<Frame<D>>)
    requires frames != []
    ensures Raws(json, frames) == Raws(json, frames[..|frames| - 1]) + [Raw(json, frames[|frames| - 1])]
  {
  }

  /** However much of the printed text has arrived, its complete frames are the
      first few printed ones. */
  lemma SplitPrefix<D(!new)>(json: Codec<D>, frames: seq<Frame<D>>, arrived: string)
    requires Faithful(json) && arrived <= Print(json, frames)
    ensures var k := |Split(arrived).0|; k <= |frames| && Split(arrived).0 == Raws(json, frames[..k])
    ensures arrived == Print(json, frames) ==> |Split(arrived).0| == |frames|
  {
    SplitPrinted(json, frames);
    SplitTake(Print(json, frames), arrived);
    RawsTake(json, frames, |Split(arrived).0|);
  }

  lemma RawsTake<D>(json: Codec<D>, frames: seq<Frame<D>>, k: nat)
    requires k <= |frames|
    ensures Raws(json, frames)[..k] == Raws(json, frames[..k])
  {
  }

  // --- reading one frame --------------------------------------------------------------------

  function TrimStart(s: string): string {
    if s != "" && White(s[0]) then TrimStart(s[1..]) else s
  }

  function TrimEnd(s: string): string {
    if s != "" && White(s[|s| - 1]) then TrimEnd(s[..|s| - 1]) else s
  }

  /** `s.split("\n")` */
  function Lines(s: string): (r: seq<string>)
    ensures r != []
  {
    if s == "" then [""]
    else
      var tail := Lines(s[1..]);
      if s[0] == '\n' then [""] + tail else [[s[0]] + tail[0]] + tail[1..]
  }

  /** The last `event:` line names the event. */
  function EventName(lines: seq<string>): string {
    if lines == [] then "message"
    else
      var line := lines[|lines| - 1];
      if "event:" <= line then TrimEnd(TrimStart(line[6..])) else EventName(lines[..|lines| - 1])
  }

  function DataLines(lines: seq<string>): seq<string> {
    if lines == [] then []
    else
      var front, line := lines[..|lines| - 1], lines[|lines| - 1];
      if !("event:" <= line) && "data:" <= line then DataLines(front) + [TrimStart(line[5..])] else DataLines(front)
  }

  function Joined(lines: seq<string>): string {
    if lines == [] then "" else if |lines| == 1 then lines[0] else lines[0] + "\n" + Joined(lines[1..])
  }

  /** The event a frame carries: none without data lines or with data that does
      not parse. */
  function Parsed<D>(json: Codec<D>, raw: string): Option<(string, D)> {
    var lines := Lines(raw);
    if DataLines(lines) == [] then None
    else match json.dec(Joined(DataLines(lines)))
      case None => None
      case Some(d) => Some((EventName(lines), d))
  }

  lemma {:induction false} LinesOfOne(s: string)
    requires OneLine(s)
    ensures Lines(s) == [s]
  {
    if s != "" {
      assert forall c :: c in s[1..] ==> c in s;
      LinesOfOne(s[1..]);
      assert s == [s[0]] + s[1..];
    }
  }

  lemma {:induction false} LinesOfTwo(a: string, b: string)
    requires OneLine(a) && OneLine(b)
    ensures Lines(a + "\n" + b) == [a, b]
  {
    var s := a + "\n" + b;
    if a == "" {
      LinesOfOne(b);
      assert s[0] == '\n' && s[1..] == b;
    } else {
      assert forall c :: c in a[1..] ==> c in a;
      LinesOfTwo(a[1..], b);
      assert a[0] in a;
      assert s[0] == a[0] && s[1..] == a[1..] + "\n" + b;
      assert [a[0]] + a[1..] == a;
    }
  }

  lemma TrimPadded(s: string)
    requires Tight(s)
    ensures TrimStart(" " + s) == s && TrimEnd(s) == s
  {
    assert (" " + s)[1..] == s;
    assert TrimStart(s) == s;
  }

  /** Reading a printed frame gives its event back; a heartbeat gives none. */
  lemma ParsedPrinted<D(!new)>(json: Codec<D>, f: Frame<D>)
    requires Faithful(json)
    ensures Parsed(json, Raw(json, f)) == if f.Heartbeat? then None else Some((Name(f), f.data))
  {
    if f.Heartbeat? {
      LinesOfOne(": hb");
      var lines := [": hb"];
      assert lines[..0] == [] && ": hb"[0] == ':';
      assert DataLines(lines) == [];
    } else {
      assert OneLine(json.enc(f.data)) && Tight(json.enc(f.data)) && Tight(Name(f));
      FieldsOf(Name(f), json.enc(f.data));
    }
  }

  /** The two fields of a printed event. */
  lemma FieldsOf(name: string, data: string)
    requires OneLine(name) && Tight(name) && OneLine(data) && Tight(data)
    ensures var lines := Lines(EventLine(name) + "\n" + DataLine(data));
            EventName(lines) == name && DataLines(lines) == [data]
  {
    EventField([], name);
    DataField([EventLine(name)], data);
    LinesOfTwo(EventLine(name), DataLine(data));
    TwoOf(EventLine(name), DataLine(data));
  }

  lemma TwoOf(a: string, b: string)
    ensures [] + [a] == [a] && [a] + [b] == [a, b]
  {
  }

  lemma EventField(lines: seq<string>, name: string)
    requires Tight(name)
    ensures var all := lines + [EventLine(name)]; EventName(all) == name && DataLines(all) == DataLines(lines)
    ensures OneLine(name) ==> OneLine(EventLine(name))
  {
    var line := EventLine(name);
    assert line[..6] == "event:" && line[6..] == " " + name;
    TrimPadded(name);
    assert (lines + [line])[..|lines|] == lines;
  }

  lemma DataField(lines: seq<string>, data: string)
    requires Tight(data)
    ensures var all := lines + [DataLine(data)];
            EventName(all) == EventName(lines) && DataLines(all) == DataLines(lines) + [data]
    ensures DataLine(data) != "" && (OneLine(data) ==> OneLine(DataLine(data)))
  {
    var line := DataLine(data);
    assert line[0] == 'd' && line[..5] == "data:" && line[5..] == " " + data;
    TrimPadded(data);
    assert (lines + [line])[..|lines|] == lines;
  }

  // --- data over several lines ------------------------------------------------------------------

  lemma {:induction false} LinesCut(a: string, rest: string)
    requires OneLine(a)
    ensures Lines(a + "\n" + rest) == [a] + Lines(rest)
  {
    var s := a + "\n" + rest;
    if a == "" {
      assert s[0] == '\n' && s[1..] == rest;
      assert [""] + Lines(rest) == [a] + Lines(rest);
    } else {
      assert forall c :: c in a[1..] ==> c in a;
      LinesCut(a[1..], rest);
      assert a[0] in a;
      assert s[0] == a[0] && s[1..] == a[1..] + "\n" + rest;
      assert ([a[1..]] + Lines(rest))[1..] == Lines(rest);
      assert [a[0]] + a[1..] == a;
    }
  }

  /** Lines joined by line breaks are split again at exactly these. */
  lemma {:induction false} LinesOfJoined(lines: seq<string>)
    requires lines != [] && forall l :: l in lines ==> OneLine(l)
    ensures Lines(Joined(lines)) == lines
  {
    if |lines| == 1 {
      LinesOfOne(lines[0]);
      assert lines == [lines[0]];
    } else {
      LinesOfJoined(lines[1..]);
      LinesCut(lines[0], Joined(lines[1..]));
      assert [lines[0]] + lines[1..] == lines;
    }
  }

  predicate StartsTight(s: string) {
    s == "" || !White(s[0])
  }

  function DataBlock(data: seq<string>): (r: seq<string>)
    ensures |r| == |data| && forall i :: 0 <= i < |r| ==> r[i] == DataLine(data[i])
  {
    seq(|data|, i requires 0 <= i < |data| => DataLine(data[i]))
  }

  lemma TrimSpace(s: string)
    requires StartsTight(s)
    ensures TrimStart(" " + s) == s
  {
    assert (" " + s)[1..] == s;
    assert TrimStart(s) == s;
  }

  lemma DataLineRead(lines: seq<string>, data: string)
    requires StartsTight(data)
    ensures var all := lines + [DataLine(data)];
            EventName(all) == EventName(lines) && DataLines(all) == DataLines(lines) + [data]
    ensures OneLine(data) ==> OneLine(DataLine(data))
  {
    var line := DataLine(data);
    assert line[0] == 'd' && line[..5] == "data:" && line[5..] == " " + data;
    TrimSpace(data);
    assert (lines + [line])[..|lines|] == lines;
  }

  lemma BlockSnoc(head: string, data: seq<string>)
    requires data != []
    ensures [head] + DataBlock(data) == [head] + DataBlock(data[..|data| - 1]) + [DataLine(data[|data| - 1])]
  {
    assert DataBlock(data) == DataBlock(data[..|data| - 1]) + [DataLine(data[|data| - 1])];
  }

  lemma {:induction false} BlockRead(head: string, data: seq<string>)
    requires forall d :: d in data ==> StartsTight(d)
    ensures EventName([head] + DataBlock(data)) == EventName([head])
    ensures DataLines([head] + DataBlock(data)) == DataLines([head]) + data
  {
    if data == [] {
      assert [head] + DataBlock(data) == [head];
    } else {
      var front, last := data[..|data| - 1], data[|data| - 1];
      BlockRead(head, front);
      BlockSnoc(head, data);
      DataLineRead([head] + DataBlock(front), last);
      assert DataLines([head]) + data == DataLines([head]) + front + [last];
    }
  }

  lemma BlockLines(data: seq<string>)
    requires forall d :: d in data ==> OneLine(d)
    ensures forall l :: l in DataBlock(data) ==> OneLine(l)
  {
    forall l | l in DataBlock(data)
      ensures OneLine(l)
    {
      var i := IndexOf(DataBlock(data), l);
      assert data[i] in data;
    }
  }

  /** A frame whose data runs over several lines, one field for each, is read as that
      text with its line breaks. */
  lemma SeveralLinesParsed<D(!new)>(json: Codec<D>, name: string, data: seq<string>)
    requires OneLine(name) && Tight(name) && data != []
    requires forall d :: d in data ==> StartsTight(d) && OneLine(d)
    ensures var raw := Joined([EventLine(name)] + DataBlock(data));
            Parsed(json, raw) == match json.dec(Joined(data)) case None => None case Some(d) => Some((name, d))
    ensures Lines(Joined(data)) == data
  {
    var lines := [EventLine(name)] + DataBlock(data);
    EventField([], name);
    assert [] + [EventLine(name)] == [EventLine(name)];
    BlockRead(EventLine(name), data);
    BlockLines(data);
    LinesOfJoined(lines);
    LinesOfJoined(data);
    assert DataLines([EventLine(name)]) + data == data;
  }
}
