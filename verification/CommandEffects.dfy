/** Which call made what of the stored rows. */
module CommandEffects {
  import opened Common
  import opened Commands
  import opened RowHistory
  import opened CommandCalls

  /** Who made a row: the call that inserted it and, patch by patch, the calls that
      updated it. */
  datatype Story = Story(author: nat, writers: seq<nat>)

  type Stories = map<RowKey, Story>

  /** The row `store.insert` leaves for this data. */
  function RowOf(versionOf: Value -> int, data: Cells): Row {
    Row(if "version" in data then versionOf(data["version"]) else 0, data - {"version"})
  }

  /** The row a create is asked for. */
  function BornOf(js: Js, versionOf: Value -> int, r: Request): Row {
    RowOf(versionOf, DataOf(js, r.b.entity, r.args, r.key.id, r.b.entity.fields))
  }

  /** The changes an update is asked for. */
  function ChangesFor(js: Js, r: Request): Cells {
    ChangesOf(js, r.b.entity, r.args, r.b.commandFields)
  }

  /** What of them is written; the version is the store's own. */
  function PatchFor(js: Js, r: Request): Cells {
    ChangesFor(js, r) - {"version"}
  }

  // --- rows and the calls behind them -------------------------------------------------------------

  ghost predicate MadeBy(js: Js, versionOf: Value -> int, k: RowKey, born: Row, c: nat, requests: map<nat, Request>) {
    && c in requests && requests[c].creates && requests[c].key == k && born == BornOf(js, versionOf, requests[c])
    && UnfillableOf(js, requests[c].b.entity, requests[c].args, k.id, requests[c].b.entity.fields) == []
  }

  ghost predicate PatchedBy(js: Js, k: RowKey, patch: Cells, c: nat, requests: map<nat, Request>) {
    c in requests && !requests[c].creates && requests[c].key == k && patch == PatchFor(js, requests[c])
  }

  /** The row is born of the request of its author, and its patches are the changes
      its writers were asked for, one each. */
  ghost predicate StoryOk(js: Js, versionOf: Value -> int, k: RowKey, h: History, s: Story,
                          requests: map<nat, Request>) {
    && MadeBy(js, versionOf, k, h.born, s.author, requests)
    && |s.writers| == |h.patches| && Distinct(s.writers)
    && forall i :: 0 <= i < |s.writers| ==> PatchedBy(js, k, h.patches[i], s.writers[i], requests)
  }

  ghost predicate StoriesOk(js: Js, versionOf: Value -> int, past: Histories, stories: Stories,
                            requests: map<nat, Request>) {
    stories.Keys == past.Keys && forall k :: k in past ==> StoryOk(js, versionOf, k, past[k], stories[k], requests)
  }

  ghost predicate PartOf(s: Story, c: nat) {
    s.author == c || c in s.writers
  }

  /** Call `c` has written nothing. */
  ghost predicate Untouched(stories: Stories, c: nat) {
    forall k :: k in stories ==> !PartOf(stories[k], c)
  }

  /** The row as it stood once the first `n` updates were in, that of `c` among
      them. */
  ghost predicate ShowsWrite(h: History, s: Story, c: nat, row: Row, n: nat) {
    n <= |h.patches| && n <= |s.writers| && c in s.writers[..n] && row == Replay(h, n)
  }

  /** The call has written what it was asked for. */
  ghost predicate Did(js: Js, stories: Stories, r: Request, c: nat) {
    && r.key in stories
    && if r.creates then stories[r.key].author == c else ChangesFor(js, r) != map[] && c in stories[r.key].writers
  }

  /** What a call returns: its own row as it stood at some point, and not before its
      own write; an update without changes writes nothing. */
  ghost predicate Finished(js: Js, past: Histories, stories: Stories, r: Request, c: nat, row: Row) {
    && r.key in past && r.key in stories && WasRow(past[r.key], row)
    && if r.creates then stories[r.key].author == c
       else if ChangesFor(js, r) == map[] then Untouched(stories, c)
       else exists n: nat :: ShowsWrite(past[r.key], stories[r.key], c, row, n)
  }

  ghost predicate StageOk(js: Js, past: Histories, stories: Stories, r: Request, c: nat, call: Call) {
    match call
    case ReadingBack(_, _, _, _) => Did(js, stories, r, c)
    case Emitting(_, _, _, _, row) => Finished(js, past, stories, r, c, row)
    case _ => Untouched(stories, c)
  }

  /** A successful call did what it was asked for, a refused one did nothing. */
  ghost predicate EndOk(js: Js, past: Histories, stories: Stories, requests: map<nat, Request>, c: nat,
                        outcome: Outcome) {
    match outcome
    case Success(row) => c in requests && Finished(js, past, stories, requests[c], c, row)
    case Refused(_) => Untouched(stories, c)
    case Crashed => true
  }

  ghost predicate StagesOk(js: Js, past: Histories, stories: Stories, requests: map<nat, Request>,
                           calls: map<nat, Call>) {
    forall c :: c in calls ==> c in requests && StageOk(js, past, stories, requests[c], c, calls[c])
  }

  ghost predicate EndsOk(js: Js, past: Histories, stories: Stories, requests: map<nat, Request>,
                         outcomes: map<nat, Outcome>) {
    forall c :: c in outcomes ==> EndOk(js, past, stories, requests, c, outcomes[c])
  }

  datatype Side = Rows | Calls | Outcomes

  ghost predicate Agrees(side: Side, js: Js, versionOf: Value -> int, past: Histories, stories: Stories,
                         requests: map<nat, Request>, calls: map<nat, Call>, outcomes: map<nat, Outcome>) {
    match side
    case Rows => StoriesOk(js, versionOf, past, stories, requests)
    case Calls => StagesOk(js, past, stories, requests, calls)
    case Outcomes => EndsOk(js, past, stories, requests, outcomes)
  }

  /** Every row, every call in flight and every outcome tell the same story. */
  ghost predicate EffectsOk(js: Js, versionOf: Value -> int, past: Histories, stories: Stories,
                            requests: map<nat, Request>, calls: map<nat, Call>, outcomes: map<nat, Outcome>) {
    forall side: Side :: Agrees(side, js, versionOf, past, stories, requests, calls, outcomes)
  }

  lemma AllAgree(js: Js, versionOf: Value -> int, past: Histories, stories: Stories, requests: map<nat, Request>,
                 calls: map<nat, Call>, outcomes: map<nat, Outcome>)
    requires EffectsOk(js, versionOf, past, stories, requests, calls, outcomes)
    ensures StoriesOk(js, versionOf, past, stories, requests)
    ensures StagesOk(js, past, stories, requests, calls)
    ensures EndsOk(js, past, stories, requests, outcomes)
  {
    assert Agrees(Rows, js, versionOf, past, stories, requests, calls, outcomes);
    assert Agrees(Calls, js, versionOf, past, stories, requests, calls, outcomes);
    assert Agrees(Outcomes, js, versionOf, past, stories, requests, calls, outcomes);
  }

  // --- rows grow ------------------------------------------------------------------------------------

  ghost predicate Grows(h: History, s: Story, h': History, s': Story) {
    h.born == h'.born && h.patches <= h'.patches && s.author == s'.author && s.writers <= s'.writers
  }

  /** Rows only grow, and only by what `actor` did. */
  ghost predicate Evolves(past: Histories, stories: Stories, past': Histories, stories': Stories, actor: nat) {
    && past.Keys == stories.Keys && past.Keys <= past'.Keys == stories'.Keys
    && (forall k :: k in past ==> Grows(past[k], stories[k], past'[k], stories'[k]))
    && (forall c :: c != actor && Untouched(stories, c) ==> Untouched(stories', c))
  }

  lemma {:induction false} ReplayPrefix(h: History, h': History, n: nat)
    requires h.born == h'.born && h.patches <= h'.patches && n <= |h.patches|
    ensures Replay(h', n) == Replay(h, n)
  {
    if n > 0 {
      ReplayPrefix(h, h', n - 1);
    }
  }

  lemma RowStillWas(h: History, h': History, row: Row)
    requires h.born == h'.born && h.patches <= h'.patches && WasRow(h, row)
    ensures WasRow(h', row)
  {
    var n :| 0 <= n <= |h.patches| && row == Replay(h, n);
    ReplayPrefix(h, h', n);
  }

  lemma StillShows(h: History, s: Story, h': History, s': Story, c: nat, row: Row, n: nat)
    requires Grows(h, s, h', s') && ShowsWrite(h, s, c, row, n)
    ensures ShowsWrite(h', s', c, row, n)
  {
    ReplayPrefix(h, h', n);
    assert s'.writers[..n] == s.writers[..n];
  }

  lemma FinishedStays(js: Js, past: Histories, stories: Stories, past': Histories, stories': Stories, actor: nat,
                      r: Request, c: nat, row: Row)
    requires Evolves(past, stories, past', stories', actor) && c != actor && Finished(js, past, stories, r, c, row)
    ensures Finished(js, past', stories', r, c, row)
  {
    var k := r.key;
    assert Grows(past[k], stories[k], past'[k], stories'[k]);
    RowStillWas(past[k], past'[k], row);
    if !r.creates && ChangesFor(js, r) != map[] {
      var n: nat :| ShowsWrite(past[k], stories[k], c, row, n);
      StillShows(past[k], stories[k], past'[k], stories'[k], c, row, n);
    }
  }

  lemma DidStays(js: Js, past: Histories, stories: Stories, past': Histories, stories': Stories, actor: nat, r: Request,
                 c: nat)
    requires Evolves(past, stories, past', stories', actor) && Did(js, stories, r, c)
    ensures Did(js, stories', r, c)
  {
    assert Grows(past[r.key], stories[r.key], past'[r.key], stories'[r.key]);
  }

  lemma StagesStay(js: Js, past: Histories, stories: Stories, past': Histories, stories': Stories, actor: nat,
                   requests: map<nat, Request>, calls: map<nat, Call>)
    requires Evolves(past, stories, past', stories', actor) && StagesOk(js, past, stories, requests, calls)
    ensures StagesOk(js, past', stories', requests, calls - {actor})
  {
    forall c | c in calls && c != actor
      ensures c in requests && StageOk(js, past', stories', requests[c], c, calls[c])
    {
      assert StageOk(js, past, stories, requests[c], c, calls[c]);
      if calls[c].ReadingBack? {
        DidStays(js, past, stories, past', stories', actor, requests[c], c);
      } else if calls[c].Emitting? {
        FinishedStays(js, past, stories, past', stories', actor, requests[c], c, calls[c].row);
      }
    }
  }

  lemma EndsStay(js: Js, past: Histories, stories: Stories, past': Histories, stories': Stories, actor: nat,
                 requests: map<nat, Request>, outcomes: map<nat, Outcome>)
    requires Evolves(past, stories, past', stories', actor) && EndsOk(js, past, stories, requests, outcomes)
             && actor !in outcomes
    ensures EndsOk(js, past', stories', requests, outcomes)
  {
    forall c | c in outcomes
      ensures EndOk(js, past', stories', requests, c, outcomes[c])
    {
      assert EndOk(js, past, stories, requests, c, outcomes[c]);
      if outcomes[c].Success? {
        FinishedStays(js, past, stories, past', stories', actor, requests[c], c, outcomes[c].row);
      }
    }
  }

  lemma StageIs(js: Js, versionOf: Value -> int, past: Histories, stories: Stories, requests: map<nat, Request>,
                calls: map<nat, Call>, outcomes: map<nat, Outcome>, c: nat)
    requires EffectsOk(js, versionOf, past, stories, requests, calls, outcomes) && c in calls
    ensures past.Keys == stories.Keys && c in requests && StageOk(js, past, stories, requests[c], c, calls[c])
  {
    AllAgree(js, versionOf, past, stories, requests, calls, outcomes);
  }

  // --- what each step keeps ----------------------------------------------------------------------------

  lemma MovedStage(js: Js, past: Histories, stories: Stories, requests: map<nat, Request>, calls: map<nat, Call>,
                   c: nat, next: Call)
    requires StagesOk(js, past, stories, requests, calls - {c}) && c in requests
             && StageOk(js, past, stories, requests[c], c, next)
    ensures StagesOk(js, past, stories, requests, calls[c := next])
  {
    forall d | d in calls[c := next]
      ensures d in requests && StageOk(js, past, stories, requests[d], d, calls[c := next][d])
    {
      if d != c {
        assert d in calls - {c} && (calls - {c})[d] == calls[d];
      }
    }
  }

  lemma FewerStages(js: Js, past: Histories, stories: Stories, requests: map<nat, Request>, calls: map<nat, Call>,
                    c: nat)
    requires StagesOk(js, past, stories, requests, calls)
    ensures StagesOk(js, past, stories, requests, calls - {c})
  {
  }

  /** A call goes on without a write. */
  lemma EffectsMove(js: Js, versionOf: Value -> int, past: Histories, stories: Stories, requests: map<nat, Request>,
                    calls: map<nat, Call>, outcomes: map<nat, Outcome>, c: nat, next: Call)
    requires EffectsOk(js, versionOf, past, stories, requests, calls, outcomes)
    requires c in calls && c in requests && StageOk(js, past, stories, requests[c], c, next)
    ensures EffectsOk(js, versionOf, past, stories, requests, calls[c := next], outcomes)
  {
    AllAgree(js, versionOf, past, stories, requests, calls, outcomes);
    FewerStages(js, past, stories, requests, calls, c);
    MovedStage(js, past, stories, requests, calls, c, next);
  }

  /** A call ends. */
  lemma EffectsEnd(js: Js, versionOf: Value -> int, past: Histories, stories: Stories, requests: map<nat, Request>,
                   calls: map<nat, Call>, outcomes: map<nat, Outcome>, c: nat, outcome: Outcome)
    requires EffectsOk(js, versionOf, past, stories, requests, calls, outcomes)
    requires EndOk(js, past, stories, requests, c, outcome)
    ensures EffectsOk(js, versionOf, past, stories, requests, calls - {c}, outcomes[c := outcome])
  {
    AllAgree(js, versionOf, past, stories, requests, calls, outcomes);
    FewerStages(js, past, stories, requests, calls, c);
  }

  /** Nobody has heard of a call before it begins. */
  lemma NewcomerUntouched(js: Js, versionOf: Value -> int, past: Histories, stories: Stories,
                          requests: map<nat, Request>, c: nat)
    requires StoriesOk(js, versionOf, past, stories, requests) && c !in requests
    ensures Untouched(stories, c)
  {
    forall k | k in stories
      ensures !PartOf(stories[k], c)
    {
      assert StoryOk(js, versionOf, k, past[k], stories[k], requests);
    }
  }

  /** A command is refused when it arrives. */
  lemma EffectsDecline(js: Js, versionOf: Value -> int, past: Histories, stories: Stories, requests: map<nat, Request>,
                       calls: map<nat, Call>, outcomes: map<nat, Outcome>, c: nat, e: Error)
    requires EffectsOk(js, versionOf, past, stories, requests, calls, outcomes) && c !in requests
    ensures EffectsOk(js, versionOf, past, stories, requests, calls, outcomes[c := Refused(e)])
  {
    AllAgree(js, versionOf, past, stories, requests, calls, outcomes);
    NewcomerUntouched(js, versionOf, past, stories, requests, c);
  }

  lemma MoreRequests(js: Js, versionOf: Value -> int, past: Histories, stories: Stories, requests: map<nat, Request>,
                     c: nat, r: Request)
    requires StoriesOk(js, versionOf, past, stories, requests) && c !in requests
    ensures StoriesOk(js, versionOf, past, stories, requests[c := r])
  {
    forall k | k in past
      ensures StoryOk(js, versionOf, k, past[k], stories[k], requests[c := r])
    {
      var s := stories[k];
      assert StoryOk(js, versionOf, k, past[k], s, requests);
      forall i | 0 <= i < |s.writers|
        ensures PatchedBy(js, k, past[k].patches[i], s.writers[i], requests[c := r])
      {
        assert PatchedBy(js, k, past[k].patches[i], s.writers[i], requests);
      }
    }
  }

  /** A call begins. */
  lemma EffectsArrive(js: Js, versionOf: Value -> int, past: Histories, stories: Stories, requests: map<nat, Request>,
                      calls: map<nat, Call>, outcomes: map<nat, Outcome>, c: nat, call: Call)
    requires EffectsOk(js, versionOf, past, stories, requests, calls, outcomes)
    requires c !in requests && c !in calls && (call.Creating? || call.Locating?)
    ensures EffectsOk(js, versionOf, past, stories, requests[c := RequestOf(call)], calls[c := call], outcomes)
  {
    AllAgree(js, versionOf, past, stories, requests, calls, outcomes);
    var more := requests[c := RequestOf(call)];
    NewcomerUntouched(js, versionOf, past, stories, requests, c);
    MoreRequests(js, versionOf, past, stories, requests, c, RequestOf(call));
    forall d | d in outcomes
      ensures EndOk(js, past, stories, more, d, outcomes[d])
    {
      assert EndOk(js, past, stories, requests, d, outcomes[d]);
    }
    forall d | d in calls
      ensures d in more && StageOk(js, past, stories, more[d], d, calls[d])
    {
      assert StageOk(js, past, stories, requests[d], d, calls[d]);
    }
    MovedStage(js, past, stories, more, calls, c, call);
  }

  lemma InsertEvolves(past: Histories, stories: Stories, k: RowKey, row: Row, c: nat)
    requires past.Keys == stories.Keys && k !in past
    ensures Evolves(past, stories, past[k := History(row, [])], stories[k := Story(c, [])], c)
  {
    var stories' := stories[k := Story(c, [])];
    forall d | d != c && Untouched(stories, d)
      ensures Untouched(stories', d)
    {
    }
  }

  /** An insert goes through. */
  lemma EffectsInsert(js: Js, versionOf: Value -> int, past: Histories, stories: Stories, requests: map<nat, Request>,
                      calls: map<nat, Call>, outcomes: map<nat, Outcome>, c: nat, row: Row, next: Call)
    requires EffectsOk(js, versionOf, past, stories, requests, calls, outcomes)
    requires c in calls && c in requests && c !in outcomes && next.ReadingBack?
    requires requests[c].key !in past && MadeBy(js, versionOf, requests[c].key, row, c, requests)
    ensures var k := requests[c].key;
            EffectsOk(js, versionOf, past[k := History(row, [])], stories[k := Story(c, [])], requests,
                      calls[c := next], outcomes)
  {
    AllAgree(js, versionOf, past, stories, requests, calls, outcomes);
    var k := requests[c].key;
    var past', stories' := past[k := History(row, [])], stories[k := Story(c, [])];
    InsertEvolves(past, stories, k, row, c);
    StagesStay(js, past, stories, past', stories', c, requests, calls);
    EndsStay(js, past, stories, past', stories', c, requests, outcomes);
    MovedStage(js, past', stories', requests, calls, c, next);
    assert StoryOk(js, versionOf, k, past'[k], stories'[k], requests);
  }

  function Signed(s: Story, c: nat): Story {
    s.(writers := s.writers + [c])
  }

  lemma UpdateEvolves(past: Histories, stories: Stories, k: RowKey, patch: Cells, c: nat)
    requires past.Keys == stories.Keys && k in past
    ensures Evolves(past, stories, past[k := Patch(past[k], patch)], stories[k := Signed(stories[k], c)], c)
  {
    var stories' := stories[k := Signed(stories[k], c)];
    forall d | d != c && Untouched(stories, d)
      ensures Untouched(stories', d)
    {
      assert !PartOf(stories[k], d);
    }
  }

  lemma StorySigned(js: Js, versionOf: Value -> int, k: RowKey, h: History, s: Story, requests: map<nat, Request>,
                    patch: Cells, c: nat)
    requires StoryOk(js, versionOf, k, h, s, requests) && PatchedBy(js, k, patch, c, requests) && c !in s.writers
    ensures StoryOk(js, versionOf, k, Patch(h, patch), Signed(s, c), requests)
  {
    DistinctAppend(s.writers, c);
  }

  /** An update goes through: the row's history has one patch more, signed by the
      call. */
  lemma EffectsUpdate(js: Js, versionOf: Value -> int, past: Histories, stories: Stories, requests: map<nat, Request>,
                      calls: map<nat, Call>, outcomes: map<nat, Outcome>, c: nat, patch: Cells, next: Call)
    requires EffectsOk(js, versionOf, past, stories, requests, calls, outcomes)
    requires c in calls && c in requests && c !in outcomes && next.ReadingBack? && Untouched(stories, c)
    requires requests[c].key in past && PatchedBy(js, requests[c].key, patch, c, requests)
             && ChangesFor(js, requests[c]) != map[]
    ensures var k := requests[c].key;
            k in stories &&
            EffectsOk(js, versionOf, past[k := Patch(past[k], patch)], stories[k := Signed(stories[k], c)], requests,
                      calls[c := next], outcomes)
  {
    AllAgree(js, versionOf, past, stories, requests, calls, outcomes);
    var k := requests[c].key;
    var past', stories' := past[k := Patch(past[k], patch)], stories[k := Signed(stories[k], c)];
    UpdateEvolves(past, stories, k, patch, c);
    StagesStay(js, past, stories, past', stories', c, requests, calls);
    EndsStay(js, past, stories, past', stories', c, requests, outcomes);
    MovedStage(js, past', stories', requests, calls, c, next);
    assert !PartOf(stories[k], c);
    StorySigned(js, versionOf, k, past[k], stories[k], requests, patch, c);
  }

  /** The standing row shows every write so far. */
  lemma StandingIsFinished(js: Js, versionOf: Value -> int, rows: map<RowKey, Row>, past: Histories,
                           inserted: seq<RowKey>, stories: Stories, requests: map<nat, Request>, c: nat)
    requires StoreOk(rows, past, inserted) && StoriesOk(js, versionOf, past, stories, requests)
    requires c in requests && requests[c].key in past
    requires Did(js, stories, requests[c], c)
             || (!requests[c].creates && ChangesFor(js, requests[c]) == map[] && Untouched(stories, c))
    ensures Finished(js, past, stories, requests[c], c, rows[requests[c].key])
  {
    var r := requests[c];
    StandingIsSeen(rows, past, inserted, r.key);
    assert RowOk(r.key, rows[r.key], past[r.key]);
    if !r.creates && ChangesFor(js, r) != map[] {
      assert StoryOk(js, versionOf, r.key, past[r.key], stories[r.key], requests);
      AllShown(past[r.key], stories[r.key], c);
    }
  }

  lemma AllShown(h: History, s: Story, c: nat)
    requires |s.writers| == |h.patches| && c in s.writers
    ensures ShowsWrite(h, s, c, Replay(h, |h.patches|), |h.patches|)
  {
    assert s.writers[..|s.writers|] == s.writers;
  }

  // --- over whole runs ------------------------------------------------------------------------------------

  /** The one position at which a call stands among the writers of its row, with the
      patch that is its own. */
  lemma WriteStands(js: Js, versionOf: Value -> int, past: Histories, stories: Stories, requests: map<nat, Request>,
                    k: RowKey, c: nat)
    returns (i: nat)
    requires StoriesOk(js, versionOf, past, stories, requests) && k in past && c in stories[k].writers
    ensures i < |past[k].patches| == |stories[k].writers| && c in requests && k == requests[c].key
    ensures past[k].patches[i] == PatchFor(js, requests[c])
    ensures forall j :: 0 <= j < |stories[k].writers| ==> (stories[k].writers[j] == c <==> j == i)
  {
    assert StoryOk(js, versionOf, k, past[k], stories[k], requests);
    i := IndexOf(stories[k].writers, c);
    assert PatchedBy(js, k, past[k].patches[i], stories[k].writers[i], requests);
  }
}
