/** The two ends of a chat turn's event stream: the reply the server writes and
    the reader in the panel. */
module ChatStream {
  import opened Common
  import opened Sse

  // --- what a stretch of frames means to the reader -------------------------------------------

  /** What the reader has made of the stream so far. */
  datatype Reading<!D> = Reading(seen: seq<(string, D)>, result: Option<D>, thrown: Option<D>)

  predicate Waiting<D>(r: Reading<D>) {
    r.result.None? && r.thrown.None?
  }

  /** One event; an error ends the reading on the spot, a result does not. */
  function Feed<D>(r: Reading<D>, e: Option<(string, D)>): Reading<D> {
    if r.thrown.Some? || e.None? then r
    else if e.value.0 == "result" then r.(result := Some(e.value.1))
    else if e.value.0 == "error" then r.(thrown := Some(e.value.1))
    else r.(seen := r.seen + [e.value])
  }

  function Digest<D>(json: Codec<D>, r: Reading<D>, raws: seq<string>): Reading<D>
    decreases |raws|
  {
    if raws == [] then r else Digest(json, Feed(r, Parsed(json, raws[0])), raws[1..])
  }

  function Nothing<D>(): Reading<D> {
    Reading([], None, None)
  }

  /** The reading of a whole text at once. */
  function Batch<D>(json: Codec<D>, text: string): Reading<D> {
    Digest(json, Nothing(), Split(text).0)
  }

  lemma {:induction false} DigestAppend<D>(json: Codec<D>, r: Reading<D>, a: seq<string>, b: seq<string>)
    ensures Digest(json, r, a + b) == Digest(json, Digest(json, r, a), b)
    decreases |a|
  {
    if a == [] {
      assert a + b == b;
    } else {
      DigestAppend(json, Feed(r, Parsed(json, a[0])), a[1..], b);
      assert (a + b)[1..] == a[1..] + b;
    }
  }

  lemma DigestOne<D>(json: Codec<D>, r: Reading<D>, raw: string)
    ensures Digest(json, r, [raw]) == Feed(r, Parsed(json, raw))
  {
    assert [raw][1..] == [];
  }

  lemma {:induction false} ThrownAbsorbs<D>(json: Codec<D>, r: Reading<D>, raws: seq<string>)
    requires r.thrown.Some?
    ensures Digest(json, r, raws) == r
    decreases |raws|
  {
    if raws != [] {
      ThrownAbsorbs(json, r, raws[1..]);
    }
  }

  // --- the reader -----------------------------------------------------------------------------

  datatype Outcome<!D> = Returned(result: D) | Threw(data: D) | ConnectionLost | ReadFailed

  /** How the call ends, given the reading and whether the next read would fail. */
  function Ends<D>(r: Reading<D>, broken: bool): Outcome<D> {
    if r.thrown.Some? then Threw(r.thrown.value)
    else if r.result.Some? then Returned(r.result.value)
    else if broken then ReadFailed
    else ConnectionLost
  }

  /** The reader takes `n` chunks: the fewest that decide the call, or all. */
  ghost predicate Stops<D>(json: Codec<D>, chunks: seq<string>, n: nat) {
    && n <= |chunks|
    && (forall m :: 0 <= m < n ==> Waiting(Batch(json, Concat(chunks[..m]))))
    && (n < |chunks| ==> !Waiting(Batch(json, Concat(chunks[..n]))))
  }

  /** How many chunks that is, counting on from `k`. */
  ghost function Taken<D>(json: Codec<D>, chunks: seq<string>, k: nat): (n: nat)
    requires k <= |chunks|
    ensures k <= n <= |chunks|
    decreases |chunks| - k
  {
    if k == |chunks| || !Waiting(Batch(json, Concat(chunks[..k]))) then k else Taken(json, chunks, k + 1)
  }

  lemma {:induction false} TakenStops<D>(json: Codec<D>, chunks: seq<string>, k: nat)
    requires Undecided(json, chunks, k)
    ensures Stops(json, chunks, Taken(json, chunks, k))
    decreases |chunks| - k
  {
    if k < |chunks| && Waiting(Batch(json, Concat(chunks[..k]))) {
      UndecidedStep(json, chunks, k);
      TakenStops(json, chunks, k + 1);
    }
  }

  lemma StopsOnce<D>(json: Codec<D>, chunks: seq<string>, m: nat, n: nat)
    requires Stops(json, chunks, m) && Stops(json, chunks, n)
    ensures m == n
  {
  }

  /** What the reader makes of the chunks: the text up to the one that decides the
      call, read as a whole. */
  ghost function Received<D>(json: Codec<D>, chunks: seq<string>): Reading<D> {
    Batch(json, Concat(chunks[..Taken(json, chunks, 0)]))
  }

  /** One frame's text, line by line. */
  method ReadEvent<D>(json: Codec<D>, raw: string) returns (e: Option<(string, D)>)
    ensures e == Parsed(json, raw)
  {
    var event, dataLines := "message", [];
    var lines := Lines(raw);
    for i := 0 to |lines|
      invariant event == EventName(lines[..i]) && dataLines == DataLines(lines[..i])
    {
      var line := lines[i];
      assert lines[..i + 1][..i] == lines[..i];
      if "event:" <= line {
        event := TrimEnd(TrimStart(line[6..]));
      } else if "data:" <= line {
        dataLines := dataLines + [TrimStart(line[5..])];
      }
    }
    assert lines[..|lines|] == lines;
    if |dataLines| == 0 {
      return None;
    }
    var data := json.dec(Joined(dataLines));
    return if data.None? then None else Some((event, data.value));
  }

  /** The inner loop: every complete frame in the buffer is handled, also after a
      result, and an error leaves at once. */
  method Drain<D>(json: Codec<D>, r: Reading<D>, buf: string) returns (r': Reading<D>, rest: string)
    requires r.thrown.None?
    ensures r' == Digest(json, r, Split(buf).0)
    ensures r'.thrown.None? ==> rest == Split(buf).1
  {
    r', rest := r, buf;
    while Blank(rest).Some?
      invariant r'.thrown.None?
      invariant Digest(json, r', Split(rest).0) == Digest(json, r, Split(buf).0) && Split(rest).1 == Split(buf).1
      decreases |rest|
    {
      var sep := Blank(rest).value;
      var rawEvent := rest[..sep];
      SplitStep(rest, sep);
      rest := rest[sep + 2..];
      var e := ReadEvent(json, rawEvent);
      r' := Feed(r', e);
      if r'.thrown.Some? {
        ThrownAbsorbs(json, r', Split(rest).0);
        return;
      }
    }
  }

  /** One more chunk: the reading goes on from where it was, on the kept rest. */
  lemma BatchStep<D>(json: Codec<D>, text: string, chunk: string)
    ensures var buf := Split(text).1 + chunk;
            && Batch(json, text + chunk) == Digest(json, Batch(json, text), Split(buf).0)
            && Split(text + chunk).1 == Split(buf).1
  {
    SplitAppend(text, chunk);
    DigestAppend(json, Nothing<D>(), Split(text).0, Split(Split(text).1 + chunk).0);
  }

  /** None of the first `k` prefixes decides the call. */
  ghost predicate Undecided<D>(json: Codec<D>, chunks: seq<string>, k: nat) {
    k <= |chunks| && forall m :: 0 <= m < k ==> Waiting(Batch(json, Concat(chunks[..m])))
  }

  lemma UndecidedStep<D>(json: Codec<D>, chunks: seq<string>, k: nat)
    requires Undecided(json, chunks, k) && k < |chunks| && Waiting(Batch(json, Concat(chunks[..k])))
    ensures Undecided(json, chunks, k + 1)
  {
  }

  /** Reads chunk after chunk until a terminal event is in, and makes of them what
      the text as a whole means, however it was cut. After the last chunk the next
      read reports the end of the stream, or fails if it is `broken`. */
  method ApiStream<D>(json: Codec<D>, chunks: seq<string>, broken: bool)
    returns (out: Outcome<D>, seen: seq<(string, D)>)
    ensures seen == Received(json, chunks).seen && out == Ends(Received(json, chunks), broken)
  {
    var r := Receive(json, chunks);
    if r.thrown.Some? {
      return Threw(r.thrown.value), r.seen;
    }
    if r.result.None? {
      out := if broken then ReadFailed else ConnectionLost;
    } else {
      out := Returned(r.result.value);
    }
    seen := r.seen;
  }

  /** The outer loop. */
  method Receive<D>(json: Codec<D>, chunks: seq<string>) returns (r: Reading<D>)
    ensures r == Received(json, chunks)
  {
    var buf, k := "", 0;
    ghost var text := "";
    r := Nothing<D>();
    SplitEmpty();
    while k < |chunks| && r.result.None? && r.thrown.None?
      invariant Undecided(json, chunks, k)
      invariant text == Concat(chunks[..k]) && r == Batch(json, text) && (r.thrown.None? ==> buf == Split(text).1)
    {
      UndecidedStep(json, chunks, k);
      ConcatStep(chunks, k);
      BatchStep(json, text, chunks[k]);
      text := text + chunks[k];
      r, buf := Drain(json, r, buf + chunks[k]);
      k := k + 1;
    }
    TakenStops(json, chunks, 0);
    StopsOnce(json, chunks, k, Taken(json, chunks, 0));
  }

  // --- what the server's frames mean ----------------------------------------------------------

  /** A transcript as the server writes it: nothing follows a terminal frame. */
  ghost predicate Transcript<D>(frames: seq<Frame<D>>) {
    forall i :: 0 <= i < |frames| - 1 ==> !Terminal(frames[i])
  }

  /** The progress events, in order. */
  function Events<D>(frames: seq<Frame<D>>): seq<(string, D)> {
    if frames == [] then []
    else
      var front, last := frames[..|frames| - 1], frames[|frames| - 1];
      if last.Progress? then Events(front) + [("progress", last.data)] else Events(front)
  }

  function Meant<D>(frames: seq<Frame<D>>): Reading<D> {
    var last := if frames == [] then Heartbeat else frames[|frames| - 1];
    Reading(Events(frames), if last.Finished? then Some(last.data) else None,
            if last.Failed? then Some(last.data) else None)
  }

  lemma {:induction false} DigestRaws<D(!new)>(json: Codec<D>, frames: seq<Frame<D>>)
    requires Faithful(json) && Transcript(frames)
    ensures Digest(json, Nothing(), Raws(json, frames)) == Meant(frames)
  {
    if frames != [] {
      var front, last := frames[..|frames| - 1], frames[|frames| - 1];
      DigestRaws(json, front);
      RawsSnoc(json, frames);
      DigestAppend(json, Nothing(), Raws(json, front), [Raw(json, last)]);
      DigestOne(json, Meant(front), Raw(json, last));
      ParsedPrinted(json, last);
      assert front == [] || !Terminal(front[|front| - 1]);
    }
  }

  lemma BatchOfPrefix<D(!new)>(json: Codec<D>, frames: seq<Frame<D>>, arrived: string)
    requires Faithful(json) && Transcript(frames) && arrived <= Print(json, frames)
    ensures var k := |Split(arrived).0|; k <= |frames| && Batch(json, arrived) == Meant(frames[..k])
  {
    SplitPrefix(json, frames, arrived);
    DigestRaws(json, frames[..|Split(arrived).0|]);
  }

  /** Whatever part of the printed transcript arrives, in whatever chunks, the
      panel sees the events of exactly the frames that are complete, and ends as
      the last of them says. */
  lemma Delivered<D(!new)>(json: Codec<D>, frames: seq<Frame<D>>, chunks: seq<string>)
    requires Faithful(json) && Transcript(frames) && Concat(chunks) <= Print(json, frames)
    ensures var k := |Split(Concat(chunks)).0|; k <= |frames| && Received(json, chunks) == Meant(frames[..k])
  {
    var n := Taken(json, chunks, 0);
    TakenStops(json, chunks, 0);
    var all, taken := Concat(chunks), Concat(chunks[..n]);
    ConcatGrows(chunks, n);
    BatchOfPrefix(json, frames, all);
    BatchOfPrefix(json, frames, taken);
    SplitTake(all, taken);
    if n < |chunks| {
      DecidedIsLast(frames, |Split(taken).0|);
      assert |Split(taken).0| == |Split(all).0|;
    } else {
      assert chunks[..n] == chunks;
      assert taken == all;
    }
  }

  lemma DecidedIsLast<D>(frames: seq<Frame<D>>, k: nat)
    requires Transcript(frames) && k <= |frames| && !Waiting(Meant(frames[..k]))
    ensures k == |frames|
  {
    assert k > 0 && Terminal(frames[k - 1]);
  }

  /** The round trip: a transcript that ends in a terminal frame and arrives whole
      delivers its progress events in order and returns its result, or throws its
      error, for every chunking. */
  lemma RoundTrip<D(!new)>(json: Codec<D>, frames: seq<Frame<D>>, chunks: seq<string>, broken: bool)
    requires Faithful(json) && Transcript(frames) && frames != [] && Terminal(frames[|frames| - 1])
    requires Concat(chunks) == Print(json, frames)
    ensures var r, last := Received(json, chunks), frames[|frames| - 1];
            r.seen == Events(frames) && Ends(r, broken) ==
                if last.Finished? then Returned(last.data) else Threw(last.data)
  {
    WholeTranscript(json, frames, chunks);
    MeantEnds(frames, broken);
  }

  lemma WholeTranscript<D(!new)>(json: Codec<D>, frames: seq<Frame<D>>, chunks: seq<string>)
    requires Faithful(json) && Transcript(frames) && Concat(chunks) == Print(json, frames)
    ensures Received(json, chunks) == Meant(frames)
  {
    Delivered(json, frames, chunks);
    SplitPrefix(json, frames, Concat(chunks));
    assert frames[..|frames|] == frames;
  }

  lemma MeantEnds<D>(frames: seq<Frame<D>>, broken: bool)
    requires frames != [] && Terminal(frames[|frames| - 1])
    ensures var last := frames[|frames| - 1];
            Ends(Meant(frames), broken) == if last.Finished? then Returned(last.data) else Threw(last.data)
  {
  }

  /** A connection cut before the terminal frame is complete never looks like an
      answer. */
  lemma CutIsNoticed<D(!new)>(json: Codec<D>, frames: seq<Frame<D>>, chunks: seq<string>, broken: bool)
    requires Faithful(json) && Transcript(frames) && Concat(chunks) <= Print(json, frames)
    requires |Split(Concat(chunks)).0| < |frames|
    ensures var r := Received(json, chunks);
            && r.seen == Events(frames[..|Split(Concat(chunks)).0|])
            && Ends(r, broken) == if broken then ReadFailed else ConnectionLost
  {
    Delivered(json, frames, chunks);
  }

  // --- the server -----------------------------------------------------------------------------

  datatype Phase = Running | Failing | Ended

  /** The reply to one chat request, driven by the turn, the heartbeat timer and
      the socket. */
  class ChatReply<D> {
    const json: Codec<D>
    var written: string
    var closed: bool
    var beating: bool
    var aborted: bool
    var phase: Phase
    ghost var frames: seq<Frame<D>>
    /** The client left, or its socket broke, before the reply was over. */
    ghost var gone: bool

    /** Until the reply ends only a lost client closes it; unless the client was
        lost, it ends with a terminal frame. */
    ghost predicate Valid()
      reads this
    {
      && written == Print(json, frames)
      && Transcript(frames)
      && (phase != Ended ==> Unfinished(frames) && (closed <==> gone))
      && (phase == Ended ==> closed && !beating && (gone || Answered(frames)))
    }

    /** The socket may already be gone when the handler starts. */
    constructor (json: Codec<D>, destroyed: bool)
      ensures Valid() && this.json == json && frames == [] && phase == Running
      ensures closed == destroyed && aborted == destroyed && beating == !destroyed && gone == destroyed
    {
      this.json := json;
      written, closed, beating, aborted, phase := "", destroyed, !destroyed, destroyed, Running;
      frames, gone := [], destroyed;
    }

    method Send(f: Frame<D>)
      requires Valid() && phase != Ended
      modifies this`written, this`frames
      ensures written == Print(json, frames) && Transcript(frames)
      ensures frames == if closed then old(frames) else old(frames) + [f]
      ensures Terminal(f) ==> gone || Answered(frames)
    {
      if !closed {
        assert (frames + [f])[..|frames|] == frames;
        written := written + Raw(json, f) + "\n\n";
        frames := frames + [f];
      }
    }

    /** The interval fires; the timer is cleared before the reply ends. */
    method Beat()
      requires Valid() && beating
      modifies this`written, this`frames
      ensures Valid()
      ensures frames == if closed then old(frames) else old(frames) + [Heartbeat]
    {
      Send(Heartbeat);
    }

    method OnClose()
      requires Valid()
      modifies this`closed, this`beating, this`aborted, this`gone
      ensures Valid() && closed && !beating && aborted
      ensures gone == (old(gone) || phase != Ended)
    {
      gone := gone || phase != Ended;
      closed, beating, aborted := true, false, true;
    }

    method OnError()
      requires Valid()
      modifies this`closed, this`gone
      ensures Valid() && closed
      ensures gone == (old(gone) || phase != Ended)
    {
      gone := gone || phase != Ended;
      closed := true;
    }

    method OnProgress(data: D)
      requires Valid() && phase == Running
      modifies this`written, this`frames
      ensures Valid()
      ensures frames == if closed then old(frames) else old(frames) + [Progress(data)]
    {
      Send(Progress(data));
    }

    /** The turn returns: the result is printed unless the client is gone, and the
        reply is over. */
    method TurnReturns(result: D)
      requires Valid() && phase == Running
      modifies this`written, this`frames, this`closed, this`beating, this`phase
      ensures Valid() && phase == Ended
      ensures frames == if old(closed) then old(frames) else old(frames) + [Finished(result)]
    {
      Send(Finished(result));
      Finally();
    }

    /** The turn throws. With the client gone the error is only logged; otherwise
        the provider is looked up first, and the client may leave meanwhile. */
    method TurnThrows()
      requires Valid() && phase == Running
      modifies this`closed, this`beating, this`phase
      ensures Valid() && phase == if old(closed) then Ended else Failing
    {
      if closed {
        Finally();
      } else {
        phase := Failing;
      }
    }

    method ErrorIsClear(data: D)
      requires Valid() && phase == Failing
      modifies this`written, this`frames, this`closed, this`beating, this`phase
      ensures Valid() && phase == Ended
      ensures frames == if old(closed) then old(frames) else old(frames) + [Failed(data)]
    {
      Send(Failed(data));
      Finally();
    }

    method Finally()
      requires written == Print(json, frames) && Transcript(frames) && (gone || Answered(frames))
      modifies this`closed, this`beating, this`phase
      ensures Valid() && phase == Ended
    {
      beating, closed, phase := false, true, Ended;
    }
  }

  ghost predicate Answered<D>(frames: seq<Frame<D>>) {
    frames != [] && Terminal(frames[|frames| - 1])
  }

  /** From server to panel: a reply that is over and whose client stayed is read,
      in whatever chunks it arrives, as its progress events in order and its one
      result or error. */
  lemma ReplyIsRead<D(!new)>(reply: ChatReply<D>, chunks: seq<string>, broken: bool)
    requires reply.Valid() && reply.phase == Ended && !reply.gone
    requires Faithful(reply.json) && Concat(chunks) == reply.written
    ensures Answered(reply.frames) && Unfinished(reply.frames[..|reply.frames| - 1])
    ensures var r, last := Received(reply.json, chunks), reply.frames[|reply.frames| - 1];
            && r.seen == Events(reply.frames)
            && Ends(r, broken) == if last.Finished? then Returned(last.data) else Threw(last.data)
  {
    RoundTrip(reply.json, reply.frames, chunks, broken);
  }

  /** No terminal frame has been printed. */
  ghost predicate Unfinished<D>(frames: seq<Frame<D>>) {
    forall i :: 0 <= i < |frames| ==> !Terminal(frames[i])
  }
}
