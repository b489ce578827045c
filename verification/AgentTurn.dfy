/** The agent loop of a chat turn, and the sweep that takes suggestion markers off
    the messages it produced. */
module AgentTurn {
  import opened Common
  import Sse

  datatype Block =
    | Text(text: string)
    | Thinking(text: string)
    | ToolUse(id: string, name: string, input: string)
    | ToolResult(toolUseId: string, content: string, isError: bool)
    | Media(source: string)

  datatype Role = User | Assistant

  datatype Content = Plain(text: string) | Blocks(blocks: seq<Block>)

  datatype Message = Message(role: Role, content: Content)

  function ToolUses(blocks: seq<Block>): (r: seq<Block>)
    ensures forall b :: b in r ==> b.ToolUse?
  {
    if blocks == [] then []
    else ToolUses(blocks[..|blocks| - 1]) + if blocks[|blocks| - 1].ToolUse? then [blocks[|blocks| - 1]] else []
  }

  lemma {:induction false} UsesListed(blocks: seq<Block>)
    ensures forall b :: b in ToolUses(blocks) <==> b in blocks && b.ToolUse?
  {
    if blocks != [] {
      UsesListed(blocks[..|blocks| - 1]);
      assert blocks == blocks[..|blocks| - 1] + [blocks[|blocks| - 1]];
    }
  }

  function UsesIn(m: Message): seq<Block> {
    if m.content.Blocks? then ToolUses(m.content.blocks) else []
  }

  // --- the suggestion marker ------------------------------------------------------------------

  /** What the marker pattern finds at the end of a text: the text without it,
      its trailing white space gone, and the listed suggestions. */
  datatype Found = Found(visible: string, listed: string)

  type Marker = string -> Option<Found>

  /** `others` holds whatever is neither the marked text nor a thinking block. */
  predicate Visible(b: Block) {
    !b.Thinking?
  }

  predicate EmptyText(b: Block) {
    b.Text? && b.text == ""
  }

  /** The position of the last text block. */
  function LastText(blocks: seq<Block>): (r: Option<nat>)
    ensures r.Some? ==>
              r.value < |blocks| && blocks[r.value].Text? && forall j :: r.value < j < |blocks| ==> !blocks[j].Text?
    ensures r.None? ==> forall j :: 0 <= j < |blocks| ==> !blocks[j].Text?
  {
    if blocks == [] then None
    else if blocks[|blocks| - 1].Text? then Some(|blocks| - 1)
    else LastText(blocks[..|blocks| - 1])
  }

  function DropEmpty(blocks: seq<Block>): seq<Block> {
    if blocks == [] then []
    else if EmptyText(blocks[|blocks| - 1]) then DropEmpty(blocks[..|blocks| - 1])
    else DropEmpty(blocks[..|blocks| - 1]) + [blocks[|blocks| - 1]]
  }

  lemma {:induction false} DropEmptyHas(blocks: seq<Block>)
    ensures forall b :: b in DropEmpty(blocks) <==> b in blocks && !EmptyText(b)
  {
    if blocks != [] {
      DropEmptyHas(blocks[..|blocks| - 1]);
      assert blocks == blocks[..|blocks| - 1] + [blocks[|blocks| - 1]];
    }
  }

  predicate OthersVisible(blocks: seq<Block>, at: nat) {
    exists j :: 0 <= j < |blocks| && j != at && Visible(blocks[j])
  }

  /** Where the marker of this message is taken off, if it is. */
  function MarkedAt(marker: Marker, m: Message): (r: Option<nat>)
    ensures r.Some? ==>
              m.content.Blocks? && LastText(m.content.blocks) == r && marker(m.content.blocks[r.value].text).Some?
  {
    if m.role != Assistant || m.content.Plain? then None
    else match LastText(m.content.blocks)
      case None => None
      case Some(at) =>
        match marker(m.content.blocks[at].text)
        case None => None
        case Some(found) => if found.visible == "" && !OthersVisible(m.content.blocks, at) then None else Some(at)
  }

  function Strip(marker: Marker, m: Message): Message {
    match MarkedAt(marker, m)
    case None => m
    case Some(at) =>
      var blocks := m.content.blocks;
      m.(content := Blocks(DropEmpty(blocks[at := Text(marker(blocks[at].text).value.visible)])))
  }

  /** `split("|")` */
  function Pieces(s: string): (r: seq<string>)
    ensures r != [] && forall i :: 0 <= i < |r| ==> '|' !in r[i]
  {
    if s == "" then [""]
    else
      var tail := Pieces(s[1..]);
      if s[0] == '|' then [""] + tail else [[s[0]] + tail[0]] + tail[1..]
  }

  function Barred(pieces: seq<string>): string
    requires pieces != []
  {
    if |pieces| == 1 then pieces[0] else pieces[0] + "|" + Barred(pieces[1..])
  }

  /** The pieces, none of which holds a bar, are the text once bars stand between
      them. */
  lemma {:induction false} PiecesRejoin(s: string)
    ensures Barred(Pieces(s)) == s
  {
    if s != "" {
      PiecesRejoin(s[1..]);
      var tail := Pieces(s[1..]);
      if s[0] == '|' {
        assert ([""] + tail)[1..] == tail;
        assert Barred([""] + tail) == "" + "|" + Barred(tail);
      } else {
        FirstCharBarred(s[0], tail);
      }
      assert s == [s[0]] + s[1..];
    }
  }

  lemma FirstCharBarred(c: char, tail: seq<string>)
    requires tail != []
    ensures Barred([[c] + tail[0]] + tail[1..]) == [c] + Barred(tail)
  {
    var all := [[c] + tail[0]] + tail[1..];
    assert all[1..] == tail[1..];
    if |tail| > 1 {
      assert [c] + tail[0] + "|" + Barred(tail[1..]) == [c] + (tail[0] + "|" + Barred(tail[1..]));
    }
  }

  /** The pieces without surrounding white space, the empty ones left out. */
  function NonEmpty(s: seq<string>): (r: seq<string>)
    ensures forall x :: x in r ==> x != ""
  {
    if s == [] then [] else (var x := Sse.TrimEnd(Sse.TrimStart(s[0])); if x == "" then [] else [x]) + NonEmpty(s[1..])
  }

  /** Each piece stands or falls alone, in order: without its surrounding white
      space, unless nothing is left. */
  lemma {:induction false} NonEmptyPiecewise(a: seq<string>, b: seq<string>, x: string)
    ensures NonEmpty(a + b) == NonEmpty(a) + NonEmpty(b)
    ensures NonEmpty([x]) == if Sse.TrimEnd(Sse.TrimStart(x)) == "" then [] else [Sse.TrimEnd(Sse.TrimStart(x))]
  {
    assert [x][1..] == [];
    if a == [] {
      assert a + b == b;
    } else {
      NonEmptyPiecewise(a[1..], b, x);
      assert (a + b)[1..] == a[1..] + b;
    }
  }

  /** A suggestion is shown whole, or its first 80 characters. */
  predicate IsCut(x: string, whole: string) {
    x <= whole && 0 < |x| <= 80 && (x != whole ==> |x| == 80)
  }

  function Shortened(s: seq<string>): (r: seq<string>)
    requires forall i :: 0 <= i < |s| ==> s[i] != ""
    ensures |r| == |s| && forall i :: 0 <= i < |r| ==> IsCut(r[i], s[i])
  {
    if s == [] then [] else [if |s[0]| > 80 then s[0][..80] else s[0]] + Shortened(s[1..])
  }

  /** The first four suggestions in order, none empty and none longer than 80
      characters. */
  function Replies(listed: string): (r: seq<string>)
    ensures var all := NonEmpty(Pieces(listed));
            && |r| == (if |all| < 4 then |all| else 4)
            && forall i :: 0 <= i < |r| ==> IsCut(r[i], all[i])
  {
    var all := NonEmpty(Pieces(listed));
    var kept := if |all| > 4 then all[..4] else all;
    assert forall i :: 0 <= i < |kept| ==> kept[i] in all;
    Shortened(kept)
  }

  function RepliesOf(marker: Marker, m: Message): Option<seq<string>> {
    match MarkedAt(marker, m)
    case None => None
    case Some(at) =>
      var replies := Replies(marker(m.content.blocks[at].text).value.listed);
      if replies == [] then None else Some(replies)
  }

  function Sweep(marker: Marker, messages: seq<Message>): (r: seq<Message>)
    ensures |r| == |messages| && forall i :: 0 <= i < |r| ==> r[i] == Strip(marker, messages[i])
  {
    seq(|messages|, i requires 0 <= i < |messages| => Strip(marker, messages[i]))
  }

  function Suggested(marker: Marker, messages: seq<Message>): Option<seq<string>> {
    if messages == [] then None else RepliesOf(marker, messages[|messages| - 1])
  }

  lemma UsesSnoc(blocks: seq<Block>, b: Block)
    ensures ToolUses(blocks + [b]) == ToolUses(blocks) + if b.ToolUse? then [b] else []
  {
    assert (blocks + [b])[..|blocks|] == blocks;
  }

  lemma {:induction false} DropEmptyKeepsUses(blocks: seq<Block>)
    ensures ToolUses(DropEmpty(blocks)) == ToolUses(blocks)
  {
    if blocks != [] {
      var front, last := blocks[..|blocks| - 1], blocks[|blocks| - 1];
      DropEmptyKeepsUses(front);
      if !EmptyText(last) {
        UsesSnoc(DropEmpty(front), last);
      }
    }
  }

  lemma {:induction false} TextKeepsUses(blocks: seq<Block>, at: nat, text: string)
    requires at < |blocks| && blocks[at].Text?
    ensures ToolUses(blocks[at := Text(text)]) == ToolUses(blocks)
  {
    var front, changed := blocks[..|blocks| - 1], blocks[at := Text(text)];
    if at < |blocks| - 1 {
      TextKeepsUses(front, at, text);
      assert changed[..|blocks| - 1] == front[at := Text(text)];
    } else {
      assert changed[..|blocks| - 1] == front;
    }
  }

  /** Taking a marker off changes neither the role nor the tool calls. */
  lemma StripKeepsUses(marker: Marker, m: Message)
    ensures Strip(marker, m).role == m.role && UsesIn(Strip(marker, m)) == UsesIn(m)
    ensures m.role == User ==> Strip(marker, m) == m
  {
    var marked := MarkedAt(marker, m);
    if marked.Some? {
      var blocks, at := m.content.blocks, marked.value;
      var text := marker(blocks[at].text).value.visible;
      TextKeepsUses(blocks, at, text);
      DropEmptyKeepsUses(blocks[at := Text(text)]);
    }
  }

  /** The marker is taken off exactly an assistant message whose last text ends in
      one, unless the marker is all there is to show. */
  lemma MarkedIff(marker: Marker, m: Message, at: nat)
    ensures MarkedAt(marker, m) == Some(at) <==>
            && m.role == Assistant && m.content.Blocks? && at < |m.content.blocks| && m.content.blocks[at].Text?
            && (forall j :: at < j < |m.content.blocks| ==> !m.content.blocks[j].Text?)
            && marker(m.content.blocks[at].text).Some?
            && (marker(m.content.blocks[at].text).value.visible != ""
                || exists j :: 0 <= j < |m.content.blocks| && j != at && !m.content.blocks[j].Thinking?)
  {
    if m.role == Assistant && m.content.Blocks? {
      var last := LastText(m.content.blocks);
      if at < |m.content.blocks| && m.content.blocks[at].Text? && last.Some? && last.value != at {
        assert !m.content.blocks[at].Text? || !m.content.blocks[last.value].Text? || at < last.value;
      }
      if last == Some(at) && OthersVisible(m.content.blocks, at) {
        var j :| 0 <= j < |m.content.blocks| && j != at && Visible(m.content.blocks[j]);
        assert !m.content.blocks[j].Thinking?;
      }
    }
  }

  /** Each block stands or falls alone, in order; what falls is an empty text. */
  lemma {:induction false} DropEmptyBlockwise(a: seq<Block>, b: seq<Block>, x: Block)
    ensures DropEmpty(a + b) == DropEmpty(a) + DropEmpty(b)
    ensures DropEmpty([x]) == if x == Text("") then [] else [x]
  {
    assert [x][..0] == [];
    if b == [] {
      assert a + b == a;
    } else {
      DropEmptyBlockwise(a, b[..|b| - 1], x);
      assert (a + b)[..|a + b| - 1] == a + b[..|b| - 1];
    }
  }

  lemma {:induction false} NothingToDrop(blocks: seq<Block>)
    requires forall j :: 0 <= j < |blocks| ==> !blocks[j].Text?
    ensures DropEmpty(blocks) == blocks
  {
    if blocks != [] {
      NothingToDrop(blocks[..|blocks| - 1]);
    }
  }

  /** A marked message keeps its blocks in order, its last text without the marker
      and what follows it, and no empty text. */
  lemma StripRebuilds(marker: Marker, m: Message, at: nat)
    requires MarkedAt(marker, m) == Some(at)
    ensures var blocks, r := m.content.blocks, Strip(marker, m);
            var visible := marker(blocks[at].text).value.visible;
            && r.role == Assistant && r.content.Blocks?
            && r.content.blocks
               == DropEmpty(blocks[..at]) + (if visible == "" then [] else [Text(visible)]) + blocks[at + 1..]
  {
    var blocks := m.content.blocks;
    var text := Text(marker(blocks[at].text).value.visible);
    assert blocks[at := text] == (blocks[..at] + [text]) + blocks[at + 1..];
    DropEmptyBlockwise(blocks[..at] + [text], blocks[at + 1..], text);
    DropEmptyBlockwise(blocks[..at], [text], text);
    NothingToDrop(blocks[at + 1..]);
  }

  /** Something to show: a visible block that is not an empty text. */
  predicate Shows(m: Message) {
    if m.content.Plain? then m.content.text != ""
    else exists j :: 0 <= j < |m.content.blocks| && Visible(m.content.blocks[j]) && !EmptyText(m.content.blocks[j])
  }

  /** The family the guard misses: the last text is nothing but a marker, and
      beside it there are empty texts and thinking only. */
  predicate OnlyEmptyBeside(marker: Marker, m: Message) {
    var marked := MarkedAt(marker, m);
    marked.Some? && marker(m.content.blocks[marked.value].text).value.visible == ""
    && forall j :: 0 <= j < |m.content.blocks| && j != marked.value && Visible(m.content.blocks[j]) ==>
         EmptyText(m.content.blocks[j])
  }

  /** A message that shows something still does so after the sweep, except in
      exactly the family above. */
  lemma StripShowsIff(marker: Marker, m: Message)
    requires Shows(m)
    ensures Shows(Strip(marker, m)) <==> !OnlyEmptyBeside(marker, m)
  {
    var marked := MarkedAt(marker, m);
    if marked.Some? {
      var blocks, at := m.content.blocks, marked.value;
      var text := marker(blocks[at].text).value.visible;
      var changed, kept := blocks[at := Text(text)], Strip(marker, m).content.blocks;
      DropEmptyHas(changed);
      if OnlyEmptyBeside(marker, m) {
        forall j | 0 <= j < |kept|
          ensures !Visible(kept[j])
        {
          assert kept[j] in changed && !EmptyText(kept[j]);
        }
      } else {
        var j := if text != "" then at else
                   var i :| 0 <= i < |blocks| && i != at && Visible(blocks[i]) && !EmptyText(blocks[i]); i;
        assert Visible(changed[j]) && !EmptyText(changed[j]);
        assert changed[j] in kept;
      }
    }
  }

  /** Without empty texts on input, no message is ever left with nothing to show. */
  lemma StripNeverEmpties(marker: Marker, m: Message)
    requires Shows(m) && (m.content.Blocks? ==> forall b :: b in m.content.blocks ==> !EmptyText(b))
    ensures Shows(Strip(marker, m))
  {
    StripShowsIff(marker, m);
    var marked := MarkedAt(marker, m);
    if marked.Some? && OthersVisible(m.content.blocks, marked.value) {
      var blocks := m.content.blocks;
      var j :| 0 <= j < |blocks| && j != marked.value && Visible(blocks[j]);
      assert blocks[j] in blocks;
    }
  }

  /** An empty text before a marker-only text: the sweep leaves no block at all. */
  lemma StripCanEmpty(marker: Marker, text: string)
    requires marker(text) == Some(Found("", "yes | no"))
    ensures var m := Message(Assistant, Blocks([Text(""), Text(text)]));
            Strip(marker, m) == Message(Assistant, Blocks([])) && (text != "" ==> Shows(m))
  {
    var blocks := [Text(""), Text(text)];
    assert LastText(blocks) == Some(1);
    assert Visible(blocks[0]);
    var changed := blocks[1 := Text("")];
    assert changed == [Text(""), Text("")];
    assert changed[..1] == [Text("")] && changed[..1][..0] == [];
    assert DropEmpty(changed[..1]) == [];
    assert DropEmpty(changed) == [];
    if text != "" {
      assert Visible(blocks[1]) && !EmptyText(blocks[1]);
    }
  }

  // --- the loop -------------------------------------------------------------------------------

  const MAX_ITERATIONS := 14

  datatype Stop = EndTurn | ToolStop | OtherStop

  datatype Usage = Usage(cacheCreation: nat, cacheRead: nat, input: nat, output: nat)

  datatype Response = Response(content: seq<Block>, stop: Stop, usage: Usage)

  datatype Outcome = Outcome(content: string, isError: bool)

  datatype Call = Call(name: string, input: string, isError: bool, preview: string)

  /** The model's answer in one iteration; none when the request throws. */
  type Model = (nat, seq<Message>) -> Option<Response>

  /** The outcome of one tool call of one iteration, its own timeout included; none
      when the turn is aborted there. */
  type Tools = (nat, nat, Block) -> Option<Outcome>

  /** One round: what the model said and how its tool calls were answered. */
  datatype Step = Step(response: Response, outcomes: seq<Outcome>)

  datatype TurnResult = TurnResult(messages: seq<Message>, calls: seq<Call>, suggested: Option<seq<string>>,
                                   usage: Usage, iterations: nat)

  /** The loop goes on only after a tool stop with at least one tool call. */
  predicate Continues(r: Response) {
    r.stop == ToolStop && ToolUses(r.content) != []
  }

  lemma ContinuesIff(r: Response)
    ensures Continues(r) <==> r.stop == ToolStop && exists b :: b in r.content && b.ToolUse?
  {
    UsesListed(r.content);
    if b :| b in r.content && b.ToolUse? {
      assert b in ToolUses(r.content);
    }
    if ToolUses(r.content) != [] {
      assert ToolUses(r.content)[0] in ToolUses(r.content);
    }
  }

  function ResultOf(use: Block, o: Outcome): Block
    requires use.ToolUse?
  {
    ToolResult(use.id, o.content, o.isError)
  }

  function CallOf(use: Block, o: Outcome): Call
    requires use.ToolUse?
  {
    Call(use.name, use.input, o.isError, if |o.content| > 200 then o.content[..200] + "…" else o.content)
  }

  function Results(uses: seq<Block>, outcomes: seq<Outcome>): seq<Block>
    requires |uses| == |outcomes| && forall b :: b in uses ==> b.ToolUse?
  {
    seq(|uses|, i requires 0 <= i < |uses| => assert uses[i] in uses; ResultOf(uses[i], outcomes[i]))
  }

  function CallsIn(uses: seq<Block>, outcomes: seq<Outcome>): seq<Call>
    requires |uses| == |outcomes| && forall b :: b in uses ==> b.ToolUse?
  {
    seq(|uses|, i requires 0 <= i < |uses| => assert uses[i] in uses; CallOf(uses[i], outcomes[i]))
  }

  /** A block that hands the model what this tool call returned. */
  ghost predicate Returns(outcome: Option<Outcome>, use: Block, block: Block) {
    && outcome.Some? && use.ToolUse? && block.ToolResult?
    && block.toolUseId == use.id && block.content == outcome.value.content && block.isError == outcome.value.isError
  }

  /** The whole content, or its first 200 characters and an ellipsis. */
  ghost predicate IsPreview(preview: string, content: string) {
    if |content| <= 200 then preview == content
    else |preview| == 201 && preview[..200] == content[..200] && preview[200] == '…'
  }

  /** A report of this tool call and what it returned. */
  ghost predicate Reports(outcome: Option<Outcome>, use: Block, call: Call) {
    && outcome.Some? && use.ToolUse? && call.name == use.name && call.input == use.input
    && call.isError == outcome.value.isError && IsPreview(call.preview, outcome.value.content)
  }

  /** Every tool call of a continuing round has its outcome; other rounds have none. */
  ghost predicate Complete(s: Step) {
    |s.outcomes| == if Continues(s.response) then |ToolUses(s.response.content)| else 0
  }

  function AnswerMessage(s: Step): Message
    requires Complete(s) && Continues(s.response)
  {
    Message(User, Blocks(Results(ToolUses(s.response.content), s.outcomes)))
  }

  ghost predicate AllComplete(steps: seq<Step>) {
    forall i :: 0 <= i < |steps| ==> Complete(steps[i])
  }

  /** The messages after these rounds. */
  ghost function Conversation(messages: seq<Message>, steps: seq<Step>): seq<Message>
    requires AllComplete(steps)
  {
    if steps == [] then messages
    else
      var last := steps[|steps| - 1];
      Conversation(messages, steps[..|steps| - 1]) + [Message(Assistant, Blocks(last.response.content))]
      + if Continues(last.response) then [AnswerMessage(last)] else []
  }

  function Plus(a: Usage, b: Usage): Usage {
    Usage(a.cacheCreation + b.cacheCreation, a.cacheRead + b.cacheRead, a.input + b.input, a.output + b.output)
  }

  ghost function Spent(steps: seq<Step>): Usage {
    if steps == [] then Usage(0, 0, 0, 0) else Plus(Spent(steps[..|steps| - 1]), steps[|steps| - 1].response.usage)
  }

  ghost function Calls(steps: seq<Step>): seq<Call>
    requires AllComplete(steps)
  {
    if steps == [] then []
    else
      var last := steps[|steps| - 1];
      Calls(steps[..|steps| - 1])
          + if Continues(last.response) then CallsIn(ToolUses(last.response.content), last.outcomes) else []
  }

  /** Round `i` asked the model with all messages so far, and asked each tool
      once, in order. */
  ghost predicate Asked(messages: seq<Message>, model: Model, tools: Tools, steps: seq<Step>, i: nat)
    requires i < |steps| && AllComplete(steps)
  {
    && model(i, Conversation(messages, steps[..i])) == Some(steps[i].response)
    && forall k :: 0 <= k < |steps[i].outcomes| ==>
         tools(i, k, ToolUses(steps[i].response.content)[k]) == Some(steps[i].outcomes[k])
  }

  /** A run of the loop so far: at most 14 rounds, only the last of which may not
      continue. */
  ghost predicate IsRun(messages: seq<Message>, model: Model, tools: Tools, steps: seq<Step>) {
    && AllComplete(steps) && |steps| <= MAX_ITERATIONS
    && (forall i :: 0 <= i < |steps| ==> Asked(messages, model, tools, steps, i))
    && (forall i :: 0 <= i < |steps| - 1 ==> Continues(steps[i].response))
  }

  lemma RunGrows(messages: seq<Message>, model: Model, tools: Tools, steps: seq<Step>, s: Step)
    requires IsRun(messages, model, tools, steps) && |steps| < MAX_ITERATIONS && Complete(s)
    requires forall i :: 0 <= i < |steps| ==> Continues(steps[i].response)
    requires model(|steps|, Conversation(messages, steps)) == Some(s.response)
    requires forall k :: 0 <= k < |s.outcomes| ==>
             tools(|steps|, k, ToolUses(s.response.content)[k]) == Some(s.outcomes[k])
    ensures IsRun(messages, model, tools, steps + [s])
    ensures var said := Conversation(messages, steps) + [Message(Assistant, Blocks(s.response.content))];
            Conversation(messages, steps + [s]) == if Continues(s.response) then said + [AnswerMessage(s)] else said
    ensures Spent(steps + [s]) == Plus(Spent(steps), s.response.usage)
    ensures var made := if Continues(s.response) then CallsIn(ToolUses(s.response.content), s.outcomes) else [];
            Calls(steps + [s]) == Calls(steps) + made
  {
    var grown := steps + [s];
    assert grown[..|steps|] == steps;
    var said := Conversation(messages, steps) + [Message(Assistant, Blocks(s.response.content))];
    assert said + [] == said;
    forall i | 0 <= i < |grown|
      ensures Asked(messages, model, tools, grown, i)
    {
      assert grown[..i] == steps[..i];
      if i < |steps| {
        assert Asked(messages, model, tools, steps, i);
      } else {
        assert steps[..i] == steps;
      }
    }
  }

  ghost predicate Gave(iter: nat, uses: seq<Block>, tools: Tools, outcomes: seq<Outcome>) {
    && |outcomes| == |uses| && (forall b :: b in uses ==> b.ToolUse?)
    && forall k :: 0 <= k < |uses| ==> tools(iter, k, uses[k]) == Some(outcomes[k])
  }

  lemma ResultsReturn(iter: nat, uses: seq<Block>, tools: Tools, outcomes: seq<Outcome>)
    requires Gave(iter, uses, tools, outcomes)
    ensures forall k :: 0 <= k < |uses| ==>
              Returns(tools(iter, k, uses[k]), uses[k], Results(uses, outcomes)[k])
  {
    forall k | 0 <= k < |uses|
      ensures Returns(tools(iter, k, uses[k]), uses[k], Results(uses, outcomes)[k])
    {
      assert uses[k] in uses;
    }
  }

  lemma CallsReport(iter: nat, uses: seq<Block>, tools: Tools, outcomes: seq<Outcome>)
    requires Gave(iter, uses, tools, outcomes)
    ensures forall k :: 0 <= k < |uses| ==>
              Reports(tools(iter, k, uses[k]), uses[k], CallsIn(uses, outcomes)[k])
  {
    forall k | 0 <= k < |uses|
      ensures Reports(tools(iter, k, uses[k]), uses[k], CallsIn(uses, outcomes)[k])
    {
      assert uses[k] in uses;
    }
  }

  /** The inner loop: every tool call of one assistant message, in order, up to
      the first that aborts. */
  method AnswerTools(iter: nat, uses: seq<Block>, tools: Tools)
    returns (results: seq<Block>, calls: seq<Call>, ok: bool, ghost outcomes: seq<Outcome>)
    requires forall b :: b in uses ==> b.ToolUse?
    ensures ok <==> forall k :: 0 <= k < |uses| ==> tools(iter, k, uses[k]).Some?
    ensures ok ==>
              && |outcomes| == |uses| && results == Results(uses, outcomes) && calls == CallsIn(uses, outcomes)
              && forall k :: 0 <= k < |uses| ==> tools(iter, k, uses[k]) == Some(outcomes[k])
    ensures ok ==>
              && |results| == |calls| == |uses|
              && forall k :: 0 <= k < |uses| ==>
                   Returns(tools(iter, k, uses[k]), uses[k], results[k])
                   && Reports(tools(iter, k, uses[k]), uses[k], calls[k])
  {
    results, calls, ok, outcomes := [], [], true, [];
    for i := 0 to |uses|
      invariant |outcomes| == i && results == Results(uses[..i], outcomes) && calls == CallsIn(uses[..i], outcomes)
      invariant forall k :: 0 <= k < i ==> tools(iter, k, uses[k]) == Some(outcomes[k])
    {
      var outcome := tools(iter, i, uses[i]);
      if outcome.None? {
        return results, calls, false, outcomes;
      }
      results := results + [ResultOf(uses[i], outcome.value)];
      calls := calls + [CallOf(uses[i], outcome.value)];
      outcomes := outcomes + [outcome.value];
    }
    assert uses[..|uses|] == uses;
    ResultsReturn(iter, uses, tools, outcomes);
    CallsReport(iter, uses, tools, outcomes);
  }

  /** One iteration's requests: the model, and its tool calls if the loop goes on. */
  method Round(iter: nat, updated: seq<Message>, model: Model, tools: Tools)
    returns (response: Option<Response>, results: seq<Block>, calls: seq<Call>, ghost s: Step)
    ensures response.Some? ==>
              && Complete(s) && s.response == response.value && model(iter, updated) == response
              && (forall k :: 0 <= k < |s.outcomes| ==>
                  tools(iter, k, ToolUses(s.response.content)[k]) == Some(s.outcomes[k]))
              && (Continues(s.response) ==> Message(User, Blocks(results)) == AnswerMessage(s))
              && calls == if Continues(s.response) then CallsIn(ToolUses(s.response.content), s.outcomes) else []
    ensures response.None? ==> RoundThrows(iter, updated, model, tools)
  {
    response, results, calls := model(iter, updated), [], [];
    s := Step(Response([], EndTurn, Usage(0, 0, 0, 0)), []);
    if response.Some? {
      var ok := true;
      ghost var outcomes: seq<Outcome> := [];
      if Continues(response.value) {
        results, calls, ok, outcomes := AnswerTools(iter, ToolUses(response.value.content), tools);
      }
      s := Step(response.value, outcomes);
      if !ok {
        response := None;
      }
    }
  }

  /** The model throws, or one of the tool calls it asked for. */
  ghost predicate RoundThrows(iter: nat, updated: seq<Message>, model: Model, tools: Tools) {
    var response := model(iter, updated);
    response.None?
    || (Continues(response.value)
        && exists k ::
             0 <= k < |ToolUses(response.value.content)| && tools(iter, k, ToolUses(response.value.content)[k]).None?)
  }

  /** What a finished turn reports of its rounds. */
  ghost predicate Tells(messages: seq<Message>, marker: Marker, steps: seq<Step>, result: TurnResult)
    requires AllComplete(steps)
  {
    && steps != [] && (|steps| == MAX_ITERATIONS || !Continues(steps[|steps| - 1].response))
    && result.messages == Sweep(marker, Conversation(messages, steps))
    && result.suggested == Suggested(marker, Conversation(messages, steps))
    && result.calls == Calls(steps) && result.usage == Spent(steps) && result.iterations == |steps|
  }

  /** The round after these threw. */
  ghost predicate BreaksAfter(messages: seq<Message>, model: Model, tools: Tools, steps: seq<Step>)
    requires AllComplete(steps)
  {
    |steps| < MAX_ITERATIONS && RoundThrows(|steps|, Conversation(messages, steps), model, tools)
  }

  /** The whole turn. Its result, if it does not throw, is told by the rounds of
      one run that ended for a reason. */
  method RunAgentTurn(messages: seq<Message>, model: Model, tools: Tools, marker: Marker)
    returns (r: Option<TurnResult>)
    ensures r.Some? ==> exists steps :: IsRun(messages, model, tools, steps) && Tells(messages, marker, steps, r.value)
    ensures r.Some? ==>
              exists rounds, sent :: Transcribed(messages, model, tools, marker, rounds, sent, r.value)
    ensures r.None? ==> exists steps ::
            IsRun(messages, model, tools, steps) && BreaksAfter(messages, model, tools, steps)
  {
    var updated, calls, usage, iterations := messages, [], Usage(0, 0, 0, 0), 0;
    ghost var steps := [];
    var going := true;
    while going && iterations < MAX_ITERATIONS
      invariant iterations == |steps| && IsRun(messages, model, tools, steps)
      invariant updated == Conversation(messages, steps) && calls == Calls(steps) && usage == Spent(steps)
      invariant going ==> forall i :: 0 <= i < |steps| ==> Continues(steps[i].response)
      invariant !going ==> steps != [] && !Continues(steps[|steps| - 1].response)
      decreases going, MAX_ITERATIONS - iterations
    {
      var response, results, made;
      ghost var s;
      response, results, made, s := Round(iterations, updated, model, tools);
      if response.None? {
        assert BreaksAfter(messages, model, tools, steps);
        return None;
      }
      RunGrows(messages, model, tools, steps, s);
      steps := steps + [s];
      updated := updated + [Message(Assistant, Blocks(response.value.content))];
      usage := Plus(usage, response.value.usage);
      iterations := iterations + 1;
      calls := calls + made;
      going := Continues(response.value);
      if going {
        updated := updated + [Message(User, Blocks(results))];
      }
    }
    r := Some(TurnResult(Sweep(marker, updated), calls, Suggested(marker, updated), usage, iterations));
    assert Tells(messages, marker, steps, r.value);
    HasTranscript(messages, model, tools, marker, steps, r.value);
  }

  // --- the shape of the result ----------------------------------------------------------------

  /** A user message that answers these tool calls: one result each, in order. */
  predicate Answers(uses: seq<Block>, m: Message) {
    && m.role == User && m.content.Blocks? && |m.content.blocks| == |uses|
    && forall k :: 0 <= k < |uses| ==>
         uses[k].ToolUse? && m.content.blocks[k].ToolResult? && m.content.blocks[k].toolUseId == uses[k].id
  }

  /** From `base` on, every assistant message but the last has all its tool calls
      answered by the very next message. */
  ghost predicate Paired(messages: seq<Message>, base: nat) {
    forall i, j :: base <= i && j == i + 1 && j < |messages| && messages[i].role == Assistant ==>
        Answers(UsesIn(messages[i]), messages[j])
  }

  lemma AnswerMessageAnswers(s: Step)
    requires Complete(s) && Continues(s.response)
    ensures Answers(ToolUses(s.response.content), AnswerMessage(s))
  {
    var uses := ToolUses(s.response.content);
    forall k | 0 <= k < |uses|
      ensures uses[k].ToolUse?
    {
      assert uses[k] in uses;
    }
  }

  /** The turn's messages start with the input, and every round that continued is
      answered in full. */
  lemma {:induction false} ConversationShape(messages: seq<Message>, steps: seq<Step>)
    requires AllComplete(steps) && forall i :: 0 <= i < |steps| - 1 ==> Continues(steps[i].response)
    ensures var c := Conversation(messages, steps);
            && messages <= c && Paired(c, |messages|)
            && (steps != [] ==>
                  c[|c| - 1] == if Continues(steps[|steps| - 1].response) then AnswerMessage(steps[|steps| - 1])
                                else Message(Assistant, Blocks(steps[|steps| - 1].response.content)))
    decreases |steps|
  {
    if steps != [] {
      var front, last := steps[..|steps| - 1], steps[|steps| - 1];
      ConversationShape(messages, front);
      if Continues(last.response) {
        AnswerMessageAnswers(last);
      }
      var c0, c := Conversation(messages, front), Conversation(messages, steps);
      forall i, j | |messages| <= i && j == i + 1 && j < |c| && c[i].role == Assistant
        ensures Answers(UsesIn(c[i]), c[j])
      {
        if j < |c0| {
          assert c[i] == c0[i] && c[j] == c0[j];
        }
      }
    }
  }

  /** The sweep keeps the count, the roles, the input's unmarked messages and the
      pairing of tool calls with their answers. */
  lemma SweepKeepsPairing(marker: Marker, messages: seq<Message>, base: nat)
    requires Paired(messages, base)
    ensures Paired(Sweep(marker, messages), base)
  {
    var swept := Sweep(marker, messages);
    forall i, j | base <= i && j == i + 1 && j < |swept| && swept[i].role == Assistant
      ensures Answers(UsesIn(swept[i]), swept[j])
    {
      StripKeepsUses(marker, messages[i]);
      StripKeepsUses(marker, messages[j]);
      assert Answers(UsesIn(messages[i]), messages[j]);
    }
  }

  /** What every finished turn hands back: the input messages first, up to
      markers; all tool calls answered in the next message, except those of a last
      assistant message that stopped for another reason. */
  lemma TurnIsWellFormed(messages: seq<Message>, model: Model, tools: Tools, marker: Marker, steps: seq<Step>)
    requires IsRun(messages, model, tools, steps) && steps != []
    ensures var final, last := Sweep(marker, Conversation(messages, steps)), steps[|steps| - 1];
            && |messages| < |final| && final[..|messages|] == Sweep(marker, messages)
            && Paired(final, |messages|)
            && (final[|final| - 1].role == Assistant <==> !Continues(last.response))
            && (final[|final| - 1].role == Assistant ==> UsesIn(final[|final| - 1]) == ToolUses(last.response.content))
  {
    var c := Conversation(messages, steps);
    ConversationShape(messages, steps);
    ConversationShape(messages, steps[..|steps| - 1]);
    SweepKeepsPairing(marker, c, |messages|);
    StripKeepsUses(marker, c[|c| - 1]);
  }

  // --- the transcript, message by message -----------------------------------------------------

  /** How many tool calls the first `i` rounds made. */
  ghost function CallsBefore(rounds: seq<Response>, i: nat): nat
    requires i <= |rounds|
  {
    if i == 0 then 0
    else CallsBefore(rounds, i - 1) + if Continues(rounds[i - 1]) then |ToolUses(rounds[i - 1].content)| else 0
  }

  datatype Meter = CacheCreation | CacheRead | Input | Output

  function Reading(u: Usage, meter: Meter): nat {
    match meter
    case CacheCreation => u.cacheCreation
    case CacheRead => u.cacheRead
    case Input => u.input
    case Output => u.output
  }

  ghost function Metered(rounds: seq<Response>, meter: Meter): nat {
    if rounds == [] then 0 else Metered(rounds[..|rounds| - 1], meter) + Reading(rounds[|rounds| - 1].usage, meter)
  }

  /** Round `i`: the model was asked with everything sent so far, and what it said
      was sent on as it stands. */
  ghost predicate SaidIn(messages: seq<Message>, model: Model, rounds: seq<Response>, sent: seq<Message>, i: nat)
    requires i < |rounds|
  {
    var at := |messages| + 2 * i;
    at < |sent| && model(i, sent[..at]) == Some(rounds[i]) && sent[at] == Message(Assistant, Blocks(rounds[i].content))
  }

  /** The message after it answers each of its tool calls with what the tool
      returned, in order. */
  ghost predicate AnsweredIn(messages: seq<Message>, tools: Tools, rounds: seq<Response>, sent: seq<Message>, i: nat)
    requires i < |rounds|
  {
    var at := |messages| + 2 * i + 1;
    at < |sent| && HandsBack(tools, i, ToolUses(rounds[i].content), sent[at])
  }

  ghost predicate HandsBack(tools: Tools, i: nat, uses: seq<Block>, m: Message) {
    && m.role == User && m.content.Blocks? && |m.content.blocks| == |uses|
    && forall k :: 0 <= k < |uses| ==> Returns(tools(i, k, uses[k]), uses[k], m.content.blocks[k])
  }

  /** The round's calls are reported in order, after those of the rounds before. */
  ghost predicate ReportedIn(tools: Tools, rounds: seq<Response>, calls: seq<Call>, i: nat)
    requires i < |rounds|
  {
    var first, uses := CallsBefore(rounds, i), ToolUses(rounds[i].content);
    first + |uses| <= |calls|
    && forall k :: 0 <= k < |uses| ==> Reports(tools(i, k, uses[k]), uses[k], calls[first + k])
  }

  /** The whole turn, from what the model said and the tools returned: `sent` are
      its messages before markers are taken off. */
  ghost predicate Transcribed(messages: seq<Message>, model: Model, tools: Tools, marker: Marker,
                              rounds: seq<Response>, sent: seq<Message>, result: TurnResult) {
    var n := |rounds|;
    && 1 <= n <= 14 && result.iterations == n
    && (forall i :: 0 <= i < n - 1 ==> Continues(rounds[i])) && (Continues(rounds[n - 1]) ==> n == 14)
    && messages <= sent && |sent| == |messages| + 2 * n - (if Continues(rounds[n - 1]) then 0 else 1)
    && (forall i :: 0 <= i < n ==> SaidIn(messages, model, rounds, sent, i))
    && (forall i :: 0 <= i < n && Continues(rounds[i]) ==>
          AnsweredIn(messages, tools, rounds, sent, i) && AnsweredIn(messages, tools, rounds, result.messages, i))
    && (forall i :: 0 <= i < n && Continues(rounds[i]) ==> ReportedIn(tools, rounds, result.calls, i))
    && |result.calls| == CallsBefore(rounds, n)
    && (forall meter :: Reading(result.usage, meter) == Metered(rounds, meter))
    && |result.messages| == |sent|
    && (forall i :: 0 <= i < |sent| ==> result.messages[i] == Strip(marker, sent[i]))
    && Suggests(marker, sent[|sent| - 1], result.suggested)
  }

  /** The suggestions lifted: those of the last message's marker, if it has one
      that is taken off and lists any. */
  ghost predicate Suggests(marker: Marker, last: Message, suggested: Option<seq<string>>) {
    var at := MarkedAt(marker, last);
    if at.None? then suggested == None
    else
      var replies := Replies(marker(last.content.blocks[at.value].text).value.listed);
      suggested == if replies == [] then None else Some(replies)
  }

  ghost function Responses(steps: seq<Step>): (r: seq<Response>)
    ensures |r| == |steps| && forall i :: 0 <= i < |r| ==> r[i] == steps[i].response
  {
    seq(|steps|, i requires 0 <= i < |steps| => steps[i].response)
  }

  ghost predicate GoesOn(steps: seq<Step>) {
    AllComplete(steps) && forall i :: 0 <= i < |steps| - 1 ==> Continues(steps[i].response)
  }

  lemma {:induction false} ConversationLength(messages: seq<Message>, steps: seq<Step>)
    requires GoesOn(steps)
    ensures |Conversation(messages, steps)| == |messages| + 2 * |steps|
            - (if steps != [] && !Continues(steps[|steps| - 1].response) then 1 else 0)
    decreases |steps|
  {
    if steps != [] {
      ConversationLength(messages, steps[..|steps| - 1]);
    }
  }

  /** Where the two messages of a round stand. */
  lemma {:induction false} ConversationAt(messages: seq<Message>, steps: seq<Step>, i: nat)
    requires GoesOn(steps) && i < |steps|
    ensures var at, c := |messages| + 2 * i, Conversation(messages, steps);
            && at < |c| && c[..at] == Conversation(messages, steps[..i])
            && c[at] == Message(Assistant, Blocks(steps[i].response.content))
            && (Continues(steps[i].response) ==> at + 1 < |c| && c[at + 1] == AnswerMessage(steps[i]))
    decreases |steps|
  {
    var front, at := steps[..|steps| - 1], |messages| + 2 * i;
    var c0, c := Conversation(messages, front), Conversation(messages, steps);
    ConversationLength(messages, front);
    if i < |steps| - 1 {
      ConversationAt(messages, front, i);
      assert front[..i] == steps[..i] && front[i] == steps[i];
      assert c0 <= c && at + 1 < |c0|;
      assert c[..at] == c0[..at];
    } else {
      assert front == steps[..i] && |c0| == at;
      assert c[..at] == c0;
    }
  }

  lemma {:induction false} CallsLength(steps: seq<Step>, i: nat)
    requires AllComplete(steps) && i <= |steps|
    ensures |Calls(steps[..i])| == CallsBefore(Responses(steps), i)
  {
    if i > 0 {
      assert steps[..i][..i - 1] == steps[..i - 1];
      CallsLength(steps, i - 1);
    }
  }

  lemma {:induction false} CallsStart(steps: seq<Step>, i: nat)
    requires AllComplete(steps) && i <= |steps|
    ensures Calls(steps[..i]) <= Calls(steps)
    decreases |steps|
  {
    if i < |steps| {
      var front := steps[..|steps| - 1];
      CallsStart(front, i);
      assert front[..i] == steps[..i];
    } else {
      assert steps[..i] == steps;
    }
  }

  lemma SliceOfPrefix<T>(a: seq<T>, b: seq<T>, whole: seq<T>)
    requires a + b <= whole
    ensures forall k :: 0 <= k < |b| ==> whole[|a| + k] == b[k]
  {
    forall k | 0 <= k < |b|
      ensures whole[|a| + k] == b[k]
    {
      assert (a + b)[|a| + k] == b[k];
    }
  }

  lemma CallsStep(steps: seq<Step>, i: nat)
    requires AllComplete(steps) && i < |steps| && Continues(steps[i].response) && Complete(steps[i])
    ensures Calls(steps[..i + 1])
            == Calls(steps[..i]) + CallsIn(ToolUses(steps[i].response.content), steps[i].outcomes)
  {
    var upTo := steps[..i + 1];
    assert upTo[..|upTo| - 1] == steps[..i];
  }

  /** Where the reports of a round stand. */
  lemma CallsAt(steps: seq<Step>, i: nat)
    requires AllComplete(steps) && i < |steps| && Continues(steps[i].response) && Complete(steps[i])
    ensures var first, uses := CallsBefore(Responses(steps), i), ToolUses(steps[i].response.content);
            && first + |uses| <= |Calls(steps)|
            && forall k :: 0 <= k < |uses| ==> Calls(steps)[first + k] == CallsIn(uses, steps[i].outcomes)[k]
  {
    var uses := ToolUses(steps[i].response.content);
    CallsLength(steps, i);
    CallsStart(steps, i + 1);
    CallsStep(steps, i);
    SliceOfPrefix(Calls(steps[..i]), CallsIn(uses, steps[i].outcomes), Calls(steps));
  }

  lemma {:induction false} SpentIsMetered(steps: seq<Step>, meter: Meter)
    ensures Reading(Spent(steps), meter) == Metered(Responses(steps), meter)
  {
    if steps != [] {
      var front := steps[..|steps| - 1];
      SpentIsMetered(front, meter);
      assert Responses(steps)[..|steps| - 1] == Responses(front);
    }
  }

  lemma RoundIsSaid(messages: seq<Message>, model: Model, tools: Tools, steps: seq<Step>, i: nat)
    requires IsRun(messages, model, tools, steps) && i < |steps|
    ensures SaidIn(messages, model, Responses(steps), Conversation(messages, steps), i)
  {
    ConversationAt(messages, steps, i);
    assert Asked(messages, model, tools, steps, i);
  }

  lemma RoundGave(messages: seq<Message>, model: Model, tools: Tools, steps: seq<Step>, i: nat)
    requires IsRun(messages, model, tools, steps) && i < |steps| && Continues(steps[i].response)
    ensures Complete(steps[i]) && Gave(i, ToolUses(steps[i].response.content), tools, steps[i].outcomes)
  {
    assert Asked(messages, model, tools, steps, i);
    assert Complete(steps[i]);
  }

  lemma RoundIsAnswered(messages: seq<Message>, model: Model, tools: Tools, steps: seq<Step>, i: nat)
    requires IsRun(messages, model, tools, steps) && i < |steps| && Continues(steps[i].response)
    ensures AnsweredIn(messages, tools, Responses(steps), Conversation(messages, steps), i)
  {
    ConversationAt(messages, steps, i);
    RoundGave(messages, model, tools, steps, i);
    ResultsReturn(i, ToolUses(steps[i].response.content), tools, steps[i].outcomes);
  }

  /** The answers reach the caller untouched: taking markers off changes no user
      message. */
  lemma AnswerIsKept(messages: seq<Message>, tools: Tools, marker: Marker, rounds: seq<Response>, sent: seq<Message>,
                     i: nat)
    requires i < |rounds| && AnsweredIn(messages, tools, rounds, sent, i)
    ensures AnsweredIn(messages, tools, rounds, Sweep(marker, sent), i)
  {
    StripKeepsUses(marker, sent[|messages| + 2 * i + 1]);
  }

  lemma RoundIsReported(messages: seq<Message>, model: Model, tools: Tools, steps: seq<Step>, i: nat)
    requires IsRun(messages, model, tools, steps) && i < |steps| && Continues(steps[i].response)
    ensures ReportedIn(tools, Responses(steps), Calls(steps), i)
  {
    var uses, first := ToolUses(steps[i].response.content), CallsBefore(Responses(steps), i);
    RoundGave(messages, model, tools, steps, i);
    CallsAt(steps, i);
    CallsReport(i, uses, tools, steps[i].outcomes);
  }

  lemma RoundsAreKept(messages: seq<Message>, model: Model, tools: Tools, marker: Marker, steps: seq<Step>)
    requires IsRun(messages, model, tools, steps)
    ensures var rounds, sent := Responses(steps), Conversation(messages, steps);
            && (forall i :: 0 <= i < |rounds| ==> SaidIn(messages, model, rounds, sent, i))
            && (forall i :: 0 <= i < |rounds| && Continues(rounds[i]) ==>
                  AnsweredIn(messages, tools, rounds, sent, i)
                  && AnsweredIn(messages, tools, rounds, Sweep(marker, sent), i))
            && (forall i :: 0 <= i < |rounds| && Continues(rounds[i]) ==>
                  ReportedIn(tools, rounds, Calls(steps), i))
  {
    var rounds, sent := Responses(steps), Conversation(messages, steps);
    forall i | 0 <= i < |rounds|
      ensures SaidIn(messages, model, rounds, sent, i)
    {
      RoundIsSaid(messages, model, tools, steps, i);
    }
    forall i | 0 <= i < |rounds| && Continues(rounds[i])
      ensures AnsweredIn(messages, tools, rounds, sent, i)
      ensures AnsweredIn(messages, tools, rounds, Sweep(marker, sent), i)
      ensures ReportedIn(tools, rounds, Calls(steps), i)
    {
      RoundIsAnswered(messages, model, tools, steps, i);
      AnswerIsKept(messages, tools, marker, rounds, sent, i);
      RoundIsReported(messages, model, tools, steps, i);
    }
  }

  /** Every finished turn is transcribed: the messages carry what the model said
      and what its tools returned, each in its place. */
  lemma TurnIsTranscribed(messages: seq<Message>, model: Model, tools: Tools, marker: Marker, steps: seq<Step>,
                          result: TurnResult)
    requires IsRun(messages, model, tools, steps) && Tells(messages, marker, steps, result)
    ensures Transcribed(messages, model, tools, marker, Responses(steps), Conversation(messages, steps), result)
  {
    ConversationShape(messages, steps);
    ConversationLength(messages, steps);
    CallsLength(steps, |steps|);
    assert steps[..|steps|] == steps;
    RoundsAreKept(messages, model, tools, marker, steps);
    forall meter
      ensures Reading(result.usage, meter) == Metered(Responses(steps), meter)
    {
      SpentIsMetered(steps, meter);
    }
  }

  lemma HasTranscript(messages: seq<Message>, model: Model, tools: Tools, marker: Marker, steps: seq<Step>,
                      result: TurnResult)
    requires IsRun(messages, model, tools, steps) && Tells(messages, marker, steps, result)
    ensures exists rounds, sent :: Transcribed(messages, model, tools, marker, rounds, sent, result)
  {
    TurnIsTranscribed(messages, model, tools, marker, steps, result);
  }
}
