/** The chat panel: one live thread plus two stashes, while turns and hydrations
    are in flight. */
module ChatPanel {
  import opened Common

  datatype Scope = Scope(org: string, workflow: string)

  datatype ConnectorKey = ConnectorKey(scope: Scope, system: string, entity: string)

  datatype Message = Message(role: string, context: Option<string>, text: string)

  /** The conversations the panel holds; `Unclaimed` is the empty live thread
      between a logout and the next scope. */
  datatype ThreadId = Advisor(scope: Scope) | Connector(key: ConnectorKey) | Unclaimed

  /** One message array; threads are shared by reference. */
  class MessageList {
    var items: seq<Message>

    constructor (items: seq<Message>)
      ensures this.items == items
    {
      this.items := items;
    }
  }

  // --- the stashes, as plain values -------------------------------------------------------

  type Advisors = map<Scope, MessageList>
  type Connectors = map<ConnectorKey, MessageList>

  ghost predicate Stashed(advisors: Advisors, connectors: Connectors, id: ThreadId) {
    (id.Advisor? && id.scope in advisors) || (id.Connector? && id.key in connectors)
  }

  ghost function Stash(advisors: Advisors, connectors: Connectors, id: ThreadId): MessageList
    requires Stashed(advisors, connectors, id)
  {
    if id.Advisor? then advisors[id.scope] else connectors[id.key]
  }

  /** No two stashed threads share an array. */
  ghost predicate StashesDiffer(advisors: Advisors, connectors: Connectors) {
    forall a, b :: Stashed(advisors, connectors, a) && Stashed(advisors, connectors, b) && a != b ==>
      Stash(advisors, connectors, a) != Stash(advisors, connectors, b)
  }

  /** An array stashed anywhere else than under `live` is not the live one. */
  ghost predicate LiveApart(advisors: Advisors, connectors: Connectors, chat: MessageList, live: ThreadId) {
    forall a :: Stashed(advisors, connectors, a) && a != live ==> Stash(advisors, connectors, a) != chat
  }

  lemma StoreAdvisor(advisors: Advisors, connectors: Connectors, scope: Scope, chat: MessageList)
    requires StashesDiffer(advisors, connectors) && LiveApart(advisors, connectors, chat, Advisor(scope))
    ensures StashesDiffer(advisors[scope := chat], connectors)
    ensures forall other, live :: LiveApart(advisors, connectors, other, live) && other != chat ==>
              LiveApart(advisors[scope := chat], connectors, other, live)
  {
    var advisors' := advisors[scope := chat];
    forall a | Stashed(advisors', connectors, a) && a != Advisor(scope)
      ensures Stashed(advisors, connectors, a) && Stash(advisors', connectors, a) == Stash(advisors, connectors, a)
    {
    }
  }

  lemma StoreConnector(advisors: Advisors, connectors: Connectors, key: ConnectorKey, chat: MessageList)
    requires StashesDiffer(advisors, connectors) && LiveApart(advisors, connectors, chat, Connector(key))
    ensures StashesDiffer(advisors, connectors[key := chat])
    ensures forall other, live :: LiveApart(advisors, connectors, other, live) && other != chat ==>
              LiveApart(advisors, connectors[key := chat], other, live)
  {
    var connectors' := connectors[key := chat];
    forall a | Stashed(advisors, connectors', a) && a != Connector(key)
      ensures Stashed(advisors, connectors, a) && Stash(advisors, connectors', a) == Stash(advisors, connectors, a)
    {
    }
  }

  ghost function ListsOf(advisors: Advisors, connectors: Connectors, chat: MessageList): set<MessageList> {
    {chat} + advisors.Values + connectors.Values
  }

  /** The one map from thread id to messages that the live thread and the two
      stashes represent together. */
  ghost function ThreadIn(advisors: Advisors, connectors: Connectors, chat: MessageList, live: ThreadId,
                          id: ThreadId): seq<Message>
    reads ListsOf(advisors, connectors, chat)
  {
    if id == live then chat.items
    else if id.Advisor? && id.scope in advisors then
      assert advisors[id.scope] in advisors.Values;
      advisors[id.scope].items
    else if id.Connector? && id.key in connectors then
      assert connectors[id.key] in connectors.Values;
      connectors[id.key].items
    else []
  }

  /** The live array is stashed under its own id, or is unclaimed and empty. */
  ghost predicate Saved(advisors: Advisors, connectors: Connectors, chat: MessageList, live: ThreadId)
    reads chat
  {
    if live == Unclaimed then chat.items == []
    else Stashed(advisors, connectors, live) && Stash(advisors, connectors, live) == chat
  }

  /** Once the live array is saved, looking at another thread changes none. */
  lemma SwapKeepsThreads(advisors: Advisors, connectors: Connectors, chat: MessageList, live: ThreadId,
                         next: MessageList, home: ThreadId)
    requires Saved(advisors, connectors, chat, live) && home != Unclaimed
    requires if Stashed(advisors, connectors, home) then next == Stash(advisors, connectors, home) else next.items == []
    ensures forall id ::
              ThreadIn(advisors, connectors, next, home, id) == ThreadIn(advisors, connectors, chat, live, id)
  {
    forall id
      ensures ThreadIn(advisors, connectors, next, home, id) == ThreadIn(advisors, connectors, chat, live, id)
    {
      if id == home {
      } else if id == live {
      }
    }
  }

  lemma ShownApart(advisors: Advisors, connectors: Connectors, chat: MessageList, next: MessageList, home: ThreadId)
    requires StashesDiffer(advisors, connectors)
    requires if Stashed(advisors, connectors, home) then next == Stash(advisors, connectors, home)
             else next !in ListsOf(advisors, connectors, chat)
    ensures LiveApart(advisors, connectors, next, home)
  {
    StashedListed(advisors, connectors, chat);
  }

  lemma StashedListed(advisors: Advisors, connectors: Connectors, chat: MessageList)
    ensures forall a :: Stashed(advisors, connectors, a) ==>
            Stash(advisors, connectors, a) in ListsOf(advisors, connectors, chat)
  {
  }

  ghost function LiveThread(inConnectorMode: bool, key: Option<ConnectorKey>, scope: Option<Scope>): ThreadId {
    if inConnectorMode && key.Some? then Connector(key.value)
    else if scope.Some? then Advisor(scope.value)
    else Unclaimed
  }

  // --- what an operation does to the threads -------------------------------------------

  datatype Edit =
    | Keep
    | Append(id: ThreadId, message: Message)
    | Replace(id: ThreadId, messages: seq<Message>)
    | DropAll

  /** The content of thread `id` after an edit; every other thread is untouched. */
  function After(edit: Edit, id: ThreadId, content: seq<Message>): seq<Message> {
    match edit
    case Keep => content
    case Append(target, m) => if id == target then content + [m] else content
    case Replace(target, ms) => if id == target then ms else content
    case DropAll => []
  }

  // --- turns in flight --------------------------------------------------------------------

  datatype Phase = Waiting | Reloading

  /** What a turn remembers from the moment it was sent. */
  datatype Turn = Turn(gen: nat, scopeAtSend: Scope, wasConnector: bool, keyAtSend: Option<ConnectorKey>,
                       request: seq<Message>, phase: Phase)

  datatype Progress = Progress(tool: Option<string>, iteration: nat, toolsDone: nat)

  ghost predicate WellSent(t: Turn) {
    if t.wasConnector then t.keyAtSend.Some? && t.keyAtSend.value.scope == t.scopeAtSend else t.keyAtSend.None?
  }

  function ThreadOf(t: Turn): ThreadId {
    if t.wasConnector && t.keyAtSend.Some? then Connector(t.keyAtSend.value) else Advisor(t.scopeAtSend)
  }

  /** The turn bookkeeping: at most one turn carries the current generation, it
      exists exactly while the panel is busy, and then the abort and ticker slots
      are its own. Every running ticker belongs to a turn still in flight. */
  ghost predicate TurnsOk(turns: map<nat, Turn>, gen: nat, busy: bool, progress: Option<Progress>, abort: Option<nat>,
                          ticker: Option<nat>, tickers: set<nat>, nextId: nat) {
    && (forall t :: t in turns ==> t < nextId && turns[t].gen <= gen && WellSent(turns[t]))
    && (forall t, u :: t in turns && u in turns && turns[t].gen == gen && turns[u].gen == gen ==> t == u)
    && (busy <==> progress.Some?)
    && (busy ==> abort.Some? && abort == ticker && abort.value in turns && turns[abort.value].gen == gen)
    && (!busy ==> forall t :: t in turns ==> turns[t].gen < gen)
    && (abort.Some? ==> abort.value in turns)
    && (ticker.Some? ==> ticker.value in turns)
    && tickers == turns.Keys
  }

  /** The panel is busy exactly when some turn in flight is owned, and then it is
      the only one, holding the abort and ticker slots. */
  lemma AtMostOneOwned(turns: map<nat, Turn>, gen: nat, busy: bool, progress: Option<Progress>, abort: Option<nat>,
                       ticker: Option<nat>, tickers: set<nat>, nextId: nat)
    requires TurnsOk(turns, gen, busy, progress, abort, ticker, tickers, nextId)
    ensures busy <==> exists t :: t in turns && turns[t].gen == gen
    ensures forall t :: t in turns && turns[t].gen == gen ==> abort == ticker == Some(t)
  {
    if busy {
      assert abort.value in turns && turns[abort.value].gen == gen;
    }
  }

  lemma NewTurnOk(turns: map<nat, Turn>, gen: nat, abort: Option<nat>, ticker: Option<nat>, tickers: set<nat>,
                  nextId: nat, turn: Turn, progress: Progress)
    requires TurnsOk(turns, gen, false, None, abort, ticker, tickers, nextId) && WellSent(turn) && turn.gen == gen
    ensures nextId !in turns
    ensures TurnsOk(turns[nextId := turn], gen, true, Some(progress), Some(nextId), Some(nextId), tickers + {nextId},
                    nextId + 1)
  {
  }

  lemma DisownedOk(turns: map<nat, Turn>, gen: nat, busy: bool, progress: Option<Progress>, abort: Option<nat>,
                   ticker: Option<nat>, tickers: set<nat>, nextId: nat)
    requires TurnsOk(turns, gen, busy, progress, abort, ticker, tickers, nextId)
    ensures TurnsOk(turns, gen + 1, false, None, abort, ticker, tickers, nextId)
  {
  }

  // --- everything that can happen to a panel -------------------------------------------------

  datatype Op =
    | Activate(scope: Scope, system: string, entity: string)
    | Deactivate(scope: Scope)
    | Sync(scope: Scope, table: Option<(string, string)>)
    | Send(text: string, context: Option<string>)
    | Stop
    | Clear(table: Option<(string, string)>)
    | Logout
    | ServerCopy(nk: ConnectorKey, messages: seq<Message>)
    | NoServerCopy(nk: ConnectorKey)
    | Response(t: nat, messages: seq<Message>, reload: bool)
    | Failure(t: nat, message: string, isAbort: bool)
    | Reloaded(t: nat, persist: bool)

  predicate HasTable(table: Option<(string, string)>) {
    table.Some? && table.value.0 != "" && table.value.1 != ""
  }

  /** A turn in flight: the thread it was sent from, the generation it was sent in,
      and whether its response is still due. */
  datatype Leg = Leg(home: ThreadId, gen: nat, waiting: bool)

  function LegOf(turn: Turn): Leg {
    Leg(ThreadOf(turn), turn.gen, turn.phase == Waiting)
  }

  function LegsOf(turns: map<nat, Turn>): map<nat, Leg> {
    map t | t in turns :: LegOf(turns[t])
  }

  lemma LegsChange(turns: map<nat, Turn>, t: nat, turn: Turn)
    ensures LegsOf(turns - {t}) == LegsOf(turns) - {t} && LegsOf(turns[t := turn]) == LegsOf(turns)[t := LegOf(turn)]
  {
  }

  /** What decides which thread an operation edits: the live thread and the turns in
      flight, of which the current generation owns at most one. */
  datatype Outline = Outline(live: ThreadId, gen: nat, legs: map<nat, Leg>, nextId: nat)

  /** What decides whether a table's server copy is asked for: the keys that count as
      fetched, beside the requests in flight. */
  datatype Fetch = Fetch(hydrated: set<ConnectorKey>, asked: multiset<ConnectorKey>)

  predicate Owned(o: Outline, t: nat) {
    t in o.legs && o.legs[t].gen == o.gen
  }

  predicate Busy(o: Outline) {
    exists t :: t in o.legs && o.legs[t].gen == o.gen
  }

  function ScopeOf(id: ThreadId): Option<Scope> {
    match id
    case Advisor(scope) => Some(scope)
    case Connector(key) => Some(key.scope)
    case Unclaimed => None
  }

  /** What the operation does to the threads: a send appends to the live thread, clear
      empties it, logout drops all, and the response of an owned turn replaces the
      thread it was sent from. */
  function EditIn(o: Outline, op: Op): Edit {
    match op
    case Send(text, context) =>
      if o.live != Unclaimed && text != "" && !Busy(o) then Append(o.live, Message("user", context, text)) else Keep
    case Clear(_) => Replace(o.live, [])
    case Logout => DropAll
    case Response(t, messages, _) => if Owned(o, t) && o.legs[t].waiting then Replace(o.legs[t].home, messages)
      else Keep
    case _ => Keep
  }

  /** Only whether a server copy is adopted depends on more than the outline. */
  predicate Does(o: Outline, op: Op, edit: Edit) {
    if op.ServerCopy? then edit == Keep || (op.messages != [] && edit == Replace(Connector(op.nk), op.messages))
    else edit == EditIn(o, op)
  }

  function LiveAfter(o: Outline, op: Op): ThreadId {
    match op
    case Activate(scope, system, entity) => Connector(ConnectorKey(scope, system, entity))
    case Deactivate(scope) => if o.live.Connector? then Advisor(scope) else o.live
    case Sync(scope, table) =>
      if ScopeOf(o.live) == Some(scope) then o.live
      else if o.live.Connector? && HasTable(table) then Connector(ConnectorKey(scope, table.value.0, table.value.1))
      else Advisor(scope)
    case Logout => Unclaimed
    case _ => o.live
  }

  function LegsAfter(o: Outline, op: Op): map<nat, Leg> {
    match op
    case Send(_, _) => if EditIn(o, op).Append? then o.legs[o.nextId := Leg(o.live, o.gen, true)] else o.legs
    case Response(t, _, reload) =>
      if t !in o.legs || !o.legs[t].waiting then o.legs
      else if Owned(o, t) && reload && o.legs[t].home == o.live then o.legs[t := o.legs[t].(waiting := false)]
      else o.legs - {t}
    case Failure(t, _, _) => o.legs - {t}
    case Reloaded(t, _) => if t in o.legs && !o.legs[t].waiting then o.legs - {t} else o.legs
    case _ => o.legs
  }

  function Next(o: Outline, op: Op): Outline {
    Outline(LiveAfter(o, op), if op.Clear? || op.Logout? then o.gen + 1 else o.gen,
            LegsAfter(o, op), if EditIn(o, op).Append? then o.nextId + 1 else o.nextId)
  }

  function OutlineAfter(o: Outline, ops: seq<Op>): Outline {
    if ops == [] then o else Next(OutlineAfter(o, ops[..|ops| - 1]), ops[|ops| - 1])
  }

  predicate Named(key: ConnectorKey) {
    key.system != "" && key.entity != ""
  }

  /** The table whose server copy the operation asks for: the one it switches to,
      unless that counts as fetched. */
  function AsksFor(o: Outline, f: Fetch, op: Op): Option<ConnectorKey> {
    var live := LiveAfter(o, op);
    if (op.Activate? || op.Sync?) && live != o.live && live.Connector? && Named(live.key) && live.key !in f.hydrated
    then Some(live.key) else None
  }

  /** What an operation marks as fetched of itself: clear and the refresh after an
      answer mark the table that is live. */
  function Marks(o: Outline, op: Op): set<ConnectorKey> {
    var marks := match op
      case Clear(table) => HasTable(table)
      case Reloaded(t, persist) => persist && t in o.legs && !o.legs[t].waiting
      case _ => false;
    if marks && o.live.Connector? then {o.live.key} else {}
  }

  function WithRequest(f: Fetch, key: Option<ConnectorKey>): Fetch {
    if key.Some? then Fetch(f.hydrated + {key.value}, f.asked + multiset{key.value}) else f
  }

  function WithMarks(f: Fetch, marks: set<ConnectorKey>): Fetch {
    f.(hydrated := f.hydrated + marks)
  }

  function Fetched(o: Outline, f: Fetch, op: Op): Fetch {
    match op
    case ServerCopy(nk, _) => f.(asked := f.asked - multiset{nk})
    case NoServerCopy(nk) => if nk in f.asked then Fetch(f.hydrated - {nk}, f.asked - multiset{nk}) else f
    case Logout => f.(hydrated := {})
    case _ => WithMarks(WithRequest(f, AsksFor(o, f, op)), Marks(o, op))
  }

  /** What the operations that switch threads come to. */
  lemma SwitchCases(o: Outline, f: Fetch, op: Op)
    requires op.Activate? || op.Deactivate? || op.Sync?
    ensures Next(o, op) == o.(live := LiveAfter(o, op))
    ensures op.Activate? ==>
              var key := ConnectorKey(op.scope, op.system, op.entity);
              LiveAfter(o, op) == Connector(key)
              && AsksFor(o, f, op) == if o.live != Connector(key) && Named(key) && key !in f.hydrated then Some(key)
                                      else None
    ensures op.Deactivate? ==>
              LiveAfter(o, op) == (if o.live.Connector? then Advisor(op.scope) else o.live) && AsksFor(o, f, op) == None
    ensures op.Sync? && (ScopeOf(o.live) == Some(op.scope) || !o.live.Connector? || !HasTable(op.table)) ==>
              LiveAfter(o, op) == (if ScopeOf(o.live) == Some(op.scope) then o.live else Advisor(op.scope))
              && AsksFor(o, f, op) == None
    ensures op.Sync? && ScopeOf(o.live) != Some(op.scope) && o.live.Connector? && HasTable(op.table) ==>
              var key := ConnectorKey(op.scope, op.table.value.0, op.table.value.1);
              LiveAfter(o, op) == Connector(key)
              && AsksFor(o, f, op) == if key !in f.hydrated then Some(key) else None
  {
  }

  lemma FetchCases(o: Outline, f: Fetch, op: Op)
    ensures op.Activate? || op.Sync? ==> Fetched(o, f, op) == WithRequest(f, AsksFor(o, f, op))
    ensures op.Deactivate? || op.Send? || op.Stop? || op.Response? || op.Failure? ==> Fetched(o, f, op) == f
    ensures op.Clear? || op.Reloaded? || op.Failure? ==> Fetched(o, f, op) == WithMarks(f, Marks(o, op))
  {
  }

  function FetchAfter(o: Outline, f: Fetch, ops: seq<Op>): Fetch {
    if ops == [] then f
    else
      var front := ops[..|ops| - 1];
      Fetched(OutlineAfter(o, front), FetchAfter(o, f, front), ops[|ops| - 1])
  }

  /** What a panel keeps in order: its threads, its turns, and that it is idle while
      no scope is known. */
  datatype Aspect = Threads | Flight | Idle

  class Panel {
    var chatMessages: MessageList
    var connectorChats: map<ConnectorKey, MessageList>
    var advisorChats: map<Scope, MessageList>
    var inConnectorMode: bool
    var connectorChatKey: Option<ConnectorKey>
    var chatScope: Option<Scope>
    var hydrated: set<ConnectorKey>
    var hydrating: multiset<ConnectorKey>

    var chatBusy: bool
    var chatProgress: Option<Progress>
    var chatError: Option<string>
    var chatStopRequested: bool
    var chatAbort: Option<nat>
    var chatTickerId: Option<nat>
    var chatTurnGen: nat

    var turns: map<nat, Turn>
    var tickers: set<nat>
    var aborted: set<nat>
    var nextId: nat

    ghost function LiveId(): ThreadId
      reads this`inConnectorMode, this`connectorChatKey, this`chatScope
    {
      LiveThread(inConnectorMode, connectorChatKey, chatScope)
    }

    ghost function Lists(): set<MessageList>
      reads this`advisorChats, this`connectorChats, this`chatMessages
    {
      ListsOf(advisorChats, connectorChats, chatMessages)
    }

    ghost function Thread(id: ThreadId): seq<Message>
      reads this`advisorChats, this`connectorChats, this`chatMessages, this`inConnectorMode, this`connectorChatKey,
            this`chatScope, Lists()
    {
      ThreadIn(advisorChats, connectorChats, chatMessages, LiveId(), id)
    }

    ghost predicate ModeOk()
      reads this`chatMessages, this`advisorChats, this`inConnectorMode, this`connectorChatKey, this`chatScope,
            chatMessages
    {
      && (if inConnectorMode
          then connectorChatKey.Some? && chatScope == Some(connectorChatKey.value.scope)
          else connectorChatKey.None?)
      && (chatScope.None? ==> chatMessages.items == [] && advisorChats == map[])
    }

    /** No two threads share an array; the live array may also be stashed, but only
        under the live thread's own id. */
    ghost predicate ThreadsOk()
      reads this`advisorChats, this`connectorChats, this`chatMessages, this`inConnectorMode, this`connectorChatKey,
            this`chatScope, chatMessages
    {
      && StashesDiffer(advisorChats, connectorChats)
      && LiveApart(advisorChats, connectorChats, chatMessages, LiveId())
      && ModeOk()
    }

    ghost predicate FlightOk()
      reads this`turns, this`chatTurnGen, this`chatBusy, this`chatProgress, this`chatAbort, this`chatTickerId,
            this`tickers, this`nextId
    {
      TurnsOk(turns, chatTurnGen, chatBusy, chatProgress, chatAbort, chatTickerId, tickers, nextId)
    }

    ghost function Draft(): Outline
      reads this`inConnectorMode, this`connectorChatKey, this`chatScope, this`chatTurnGen, this`turns, this`nextId
    {
      Outline(LiveId(), chatTurnGen, LegsOf(turns), nextId)
    }

    ghost function Requests(): Fetch
      reads this`hydrated, this`hydrating
    {
      Fetch(hydrated, hydrating)
    }

    ghost predicate InOrder(a: Aspect)
      reads this, chatMessages
    {
      match a
      case Threads => ThreadsOk()
      case Flight => FlightOk()
      case Idle => chatScope.None? ==> !chatBusy
    }

    ghost predicate Valid()
      reads this, chatMessages
    {
      forall a: Aspect :: InOrder(a)
    }

    lemma Open()
      requires Valid()
      ensures ThreadsOk() && FlightOk() && (chatScope.None? ==> !chatBusy)
    {
      assert InOrder(Threads) && InOrder(Flight) && InOrder(Idle);
    }

    /** The panel as it boots: the first scope is known and every thread is empty. */
    constructor (scope: Scope)
      ensures Valid() && fresh(Lists()) && chatScope == Some(scope) && LiveId() == Advisor(scope)
      ensures forall id :: Thread(id) == []
      ensures !chatBusy && turns == map[] && hydrating == multiset{} && hydrated == {}
      ensures connectorChats == map[] && advisorChats == map[] && !inConnectorMode
    {
      chatMessages := new MessageList([]);
      connectorChats, advisorChats := map[], map[];
      inConnectorMode, connectorChatKey, chatScope := false, None, Some(scope);
      hydrated, hydrating := {}, multiset{};
      chatBusy, chatProgress, chatError, chatStopRequested := false, None, None, false;
      chatAbort, chatTickerId, chatTurnGen := None, None, 0;
      turns, tickers, aborted, nextId := map[], {}, {}, 0;
    }

    // --- swaps ------------------------------------------------------------------------------

    /** Saves the live array under the thread it belongs to; an unclaimed, empty
        one goes to the scope that is current now. */
    method StashActiveChat(scope: Scope)
      requires ThreadsOk()
      modifies this`connectorChats, this`advisorChats
      ensures forall id :: Thread(id) == old(Thread(id))
      ensures Saved(advisorChats, connectorChats, chatMessages, LiveId()) && StashesDiffer(advisorChats, connectorChats)
      ensures Lists() <= old(Lists())
      ensures !inConnectorMode ==> connectorChats == old(connectorChats)
    {
      if inConnectorMode {
        StoreConnector(advisorChats, connectorChats, connectorChatKey.value, chatMessages);
        connectorChats := connectorChats[connectorChatKey.value := chatMessages];
      } else {
        var at := if chatScope.Some? then chatScope.value else scope;
        StoreAdvisor(advisorChats, connectorChats, at, chatMessages);
        advisorChats := advisorChats[at := chatMessages];
      }
    }

    /** Points the panel at a thread: its stashed array, or a new empty one. */
    method Show(scope: Scope, key: Option<ConnectorKey>)
      requires key.Some? ==> key.value.scope == scope
      requires Saved(advisorChats, connectorChats, chatMessages, LiveId())
               && StashesDiffer(advisorChats, connectorChats)
      modifies this`inConnectorMode, this`connectorChatKey, this`chatScope, this`chatMessages, this`chatError
      ensures ThreadsOk() && LiveId() == if key.Some? then Connector(key.value) else Advisor(scope)
      ensures forall id :: Thread(id) == old(Thread(id))
      ensures fresh(Lists() - old(Lists()))
    {
      var next := ThreadAt(scope, key);
      ShownApart(advisorChats, connectorChats, chatMessages, next, HomeOf(scope, key));
      PointTo(scope, key, next);
    }

    /** Makes `next`, the array of that thread, the live one. */
    method PointTo(scope: Scope, key: Option<ConnectorKey>, next: MessageList)
      requires key.Some? ==> key.value.scope == scope
      requires Saved(advisorChats, connectorChats, chatMessages, LiveId())
               && StashesDiffer(advisorChats, connectorChats)
      requires LiveApart(advisorChats, connectorChats, next, HomeOf(scope, key))
      requires if Stashed(advisorChats, connectorChats, HomeOf(scope, key))
               then next == Stash(advisorChats, connectorChats, HomeOf(scope, key)) else next.items == []
      modifies this`inConnectorMode, this`connectorChatKey, this`chatScope, this`chatMessages, this`chatError
      ensures ThreadsOk() && LiveId() == HomeOf(scope, key) && chatMessages == next
      ensures forall id :: Thread(id) == old(Thread(id))
    {
      SwapKeepsThreads(advisorChats, connectorChats, chatMessages, LiveId(), next, HomeOf(scope, key));
      inConnectorMode, connectorChatKey, chatScope, chatError := key.Some?, key, Some(scope), None;
      chatMessages := next;
    }

    static ghost function HomeOf(scope: Scope, key: Option<ConnectorKey>): ThreadId {
      if key.Some? then Connector(key.value) else Advisor(scope)
    }

    /** `state.connectorChats[nk] || []`, or the scope's advisor thread likewise. */
    method ThreadAt(scope: Scope, key: Option<ConnectorKey>) returns (list: MessageList)
      ensures if Stashed(advisorChats, connectorChats, HomeOf(scope, key))
              then list == Stash(advisorChats, connectorChats, HomeOf(scope, key))
              else fresh(list) && list.items == []
    {
      if key.Some? && key.value in connectorChats {
        return connectorChats[key.value];
      }
      if key.None? && scope in advisorChats {
        return advisorChats[scope];
      }
      list := new MessageList([]);
    }

    /** Makes a table's connector thread the live one. */
    method ActivateConnectorChat(scope: Scope, system: string, entity: string)
      requires ThreadsOk()
      modifies this`connectorChats, this`advisorChats, this`inConnectorMode, this`connectorChatKey, this`chatScope,
               this`chatMessages, this`chatError, this`hydrated, this`hydrating
      ensures ThreadsOk() && LiveId() == Connector(ConnectorKey(scope, system, entity))
      ensures forall id :: Thread(id) == old(Thread(id))
      ensures fresh(Lists() - old(Lists()))
      ensures !old(inConnectorMode) ==> connectorChats == old(connectorChats)
      ensures var nk := ConnectorKey(scope, system, entity);
              if old(LiveId()) != Connector(nk) && system != "" && entity != "" && nk !in old(hydrated)
              then hydrated == old(hydrated) + {nk} && hydrating == old(hydrating) + multiset{nk}
              else hydrated == old(hydrated) && hydrating == old(hydrating)
    {
      var nk := ConnectorKey(scope, system, entity);
      if inConnectorMode && connectorChatKey == Some(nk) {
        return;
      }
      Switch(scope, Some(nk));
      HydrateStart(system, entity, nk);
    }

    /** Back to the advisor thread of the current scope. */
    method DeactivateConnectorChat(scope: Scope)
      requires ThreadsOk()
      modifies this`connectorChats, this`advisorChats, this`inConnectorMode, this`connectorChatKey, this`chatScope,
               this`chatMessages, this`chatError
      ensures ThreadsOk() && LiveId() == if old(inConnectorMode) then Advisor(scope) else old(LiveId())
      ensures forall id :: Thread(id) == old(Thread(id))
      ensures fresh(Lists() - old(Lists()))
    {
      if !inConnectorMode {
        return;
      }
      Switch(scope, None);
    }

    /** The org or workflow changed: the same table in the new scope, or the new
        scope's advisor thread. */
    method SyncChatScope(scope: Scope, table: Option<(string, string)>)
      requires ThreadsOk()
      modifies this`connectorChats, this`advisorChats, this`inConnectorMode, this`connectorChatKey, this`chatScope,
               this`chatMessages, this`chatError, this`hydrated, this`hydrating
      ensures ThreadsOk()
      ensures forall id :: Thread(id) == old(Thread(id))
      ensures LiveId() == if old(chatScope) == Some(scope) then old(LiveId())
                          else if old(inConnectorMode) && HasTable(table)
                          then Connector(ConnectorKey(scope, table.value.0, table.value.1))
                          else Advisor(scope)
      ensures if old(chatScope) != Some(scope) && old(inConnectorMode) && HasTable(table)
                 && ConnectorKey(scope, table.value.0, table.value.1) !in old(hydrated)
              then hydrated == old(hydrated) + {ConnectorKey(scope, table.value.0, table.value.1)}
                   && hydrating == old(hydrating) + multiset{ConnectorKey(scope, table.value.0, table.value.1)}
              else hydrated == old(hydrated) && hydrating == old(hydrating)
      ensures fresh(Lists() - old(Lists()))
    {
      if chatScope == Some(scope) {
        return;
      }
      if inConnectorMode && HasTable(table) {
        var nk := ConnectorKey(scope, table.value.0, table.value.1);
        Switch(scope, Some(nk));
        HydrateStart(table.value.0, table.value.1, nk);
        return;
      }
      Switch(scope, None);
    }


    // --- hydration -----------------------------------------------------------------------------

    /** Saves the live array and shows another thread. */
    method Switch(scope: Scope, key: Option<ConnectorKey>)
      requires ThreadsOk() && (key.Some? ==> key.value.scope == scope)
      modifies this`connectorChats, this`advisorChats, this`inConnectorMode, this`connectorChatKey, this`chatScope,
               this`chatMessages, this`chatError
      ensures ThreadsOk() && LiveId() == if key.Some? then Connector(key.value) else Advisor(scope)
      ensures forall id :: Thread(id) == old(Thread(id))
      ensures fresh(Lists() - old(Lists()))
      ensures !old(inConnectorMode) ==> connectorChats == old(connectorChats)
    {
      StashActiveChat(scope);
      Show(scope, key);
    }

    /** Asks for the server copy the first time a key becomes active. */
    method HydrateStart(system: string, entity: string, nk: ConnectorKey)
      modifies this`hydrated, this`hydrating
      ensures if system == "" || entity == "" || nk in old(hydrated)
              then hydrated == old(hydrated) && hydrating == old(hydrating)
              else hydrated == old(hydrated) + {nk} && hydrating == old(hydrating) + multiset{nk}
    {
      if system == "" || entity == "" {
        return;
      }
      if nk in hydrated {
        return;
      }
      hydrated := hydrated + {nk};
      hydrating := hydrating + multiset{nk};
    }

    ghost predicate StashEmpty(nk: ConnectorKey)
      reads this, connectorChats.Values
    {
      nk !in connectorChats || connectorChats[nk].items == []
    }

    /** The server copy arrives. It is adopted exactly when it is nonempty and the
        key's stash is missing or empty, and it touches no other thread. */
    method HydrateLands(nk: ConnectorKey, messages: seq<Message>)
      requires ThreadsOk() && nk in hydrating
      modifies this`connectorChats, this`chatMessages, this`hydrating
      ensures ThreadsOk() && LiveId() == old(LiveId())
      ensures var edit := if messages != [] && old(StashEmpty(nk)) then Replace(Connector(nk), messages) else Keep;
              forall id :: Thread(id) == After(edit, id, old(Thread(id)))
      ensures fresh(Lists() - old(Lists()))
      ensures old(StashEmpty(nk) && Thread(Connector(nk)) != []) ==> LiveId() == Connector(nk)
      ensures hydrating == old(hydrating) - multiset{nk}
    {
      if messages != [] && (nk !in connectorChats || connectorChats[nk].items == []) {
        Adopt(nk, messages);
      }
      hydrating := hydrating - multiset{nk};
    }

    /** The server copy becomes the key's thread, stashed and, if it is live, shown. */
    method Adopt(nk: ConnectorKey, messages: seq<Message>)
      requires ThreadsOk()
      modifies this`connectorChats, this`chatMessages
      ensures ThreadsOk() && LiveId() == old(LiveId())
      ensures forall id :: Thread(id) == After(Replace(Connector(nk), messages), id, old(Thread(id)))
      ensures fresh(Lists() - old(Lists()))
    {
      StashedListed(advisorChats, connectorChats, chatMessages);
      var adopted := new MessageList(messages);
      StoreConnector(advisorChats, connectorChats, nk, adopted);
      connectorChats := connectorChats[nk := adopted];
      if connectorChatKey == Some(nk) {
        chatMessages := adopted;
      }
    }

    /** The request failed: a later activation may ask again. */
    method HydrateFails(nk: ConnectorKey)
      requires nk in hydrating
      modifies this`hydrated, this`hydrating
      ensures hydrated == old(hydrated) - {nk} && hydrating == old(hydrating) - multiset{nk}
    {
      hydrating := hydrating - multiset{nk};
      hydrated := hydrated - {nk};
    }

    // --- turns -------------------------------------------------------------------------------------

    /** `state.chatMessages.push(...)`: in place, so the no-alias invariant is what
        keeps every other thread as it was. */
    method PushMessage(m: Message)
      requires ThreadsOk() && chatScope.Some?
      modifies chatMessages
      ensures ThreadsOk()
      ensures forall id :: Thread(id) == After(Append(LiveId(), m), id, old(Thread(id)))
    {
      chatMessages.items := chatMessages.items + [m];
      forall id | id != LiveId()
        ensures Thread(id) == old(Thread(id))
      {
        if Stashed(advisorChats, connectorChats, id) {
          assert Stash(advisorChats, connectorChats, id) != chatMessages;
        }
      }
    }

    /** A new turn takes the panel: busy, with its own controller and ticker. */
    method StartTurn(turn: Turn) returns (t: nat)
      requires FlightOk() && !chatBusy && WellSent(turn) && turn.gen == chatTurnGen
      modifies this`chatBusy, this`chatError, this`chatProgress, this`chatStopRequested, this`nextId, this`chatAbort,
               this`chatTickerId, this`tickers, this`turns
      ensures FlightOk() && chatBusy && t !in old(turns) && turns == old(turns)[t := turn]
      ensures t == old(nextId) && nextId == t + 1
    {
      var progress := Progress(None, 1, 0);
      NewTurnOk(turns, chatTurnGen, chatAbort, chatTickerId, tickers, nextId, turn, progress);
      t := nextId;
      chatBusy, chatError, chatProgress, chatStopRequested := true, None, Some(progress), false;
      chatAbort, chatTickerId, tickers := Some(t), Some(t), tickers + {t};
      turns := turns[t := turn];
      nextId := t + 1;
    }

    /** Sends a message: it joins the live thread, and the turn remembers which
        thread that is and what was sent. Nothing happens on empty text or while
        another turn is owned. */
    method SendChat(text: string, context: Option<string>) returns (sent: Option<nat>)
      requires Valid() && chatScope.Some?
      modifies chatMessages, this`chatBusy, this`chatError, this`chatProgress, this`chatStopRequested, this`nextId,
               this`chatAbort, this`chatTickerId, this`tickers, this`turns
      ensures Valid() && (sent.None? <==> text == "" || old(chatBusy))
      ensures var edit := if sent.Some? then Append(LiveId(), Message("user", context, text)) else Keep;
              forall id :: Thread(id) == After(edit, id, old(Thread(id)))
      ensures sent.None? ==> turns == old(turns) && chatBusy == old(chatBusy) && nextId == old(nextId)
      ensures sent.Some? ==> sent.value == old(nextId) && nextId == sent.value + 1
      ensures sent.Some? ==>
                && chatBusy && sent.value !in old(turns)
                && sent.value in turns && ThreadOf(turns[sent.value]) == LiveId()
                && turns == old(turns)[sent.value :=
                                       Turn(chatTurnGen, chatScope.value, inConnectorMode, connectorChatKey,
                                            Thread(LiveId()), Waiting)]
    {
      Open();
      if text == "" || chatBusy {
        return None;
      }
      PushMessage(Message("user", context, text));
      var t := StartTurn(Turn(chatTurnGen, chatScope.value, inConnectorMode, connectorChatKey, chatMessages.items,
                              Waiting));
      return Some(t);
    }

    /** Stop cancels the request and leaves the turn owned. */
    method StopChat()
      modifies this`chatStopRequested, this`aborted
      ensures chatStopRequested && aborted == old(aborted) + if chatAbort.Some? then {chatAbort.value} else {}
    {
      chatStopRequested := true;
      if chatAbort.Some? {
        aborted := aborted + {chatAbort.value};
      }
    }

    /** Cancels a turn in flight and disowns it: every turn now carries an older
        generation. */
    method DisownChatTurn()
      requires FlightOk()
      modifies this`chatTurnGen, this`chatBusy, this`chatProgress, this`aborted
      ensures FlightOk() && !chatBusy && chatTurnGen == old(chatTurnGen) + 1
      ensures aborted == old(aborted) + if chatAbort.Some? then {chatAbort.value} else {}
      ensures LiveId() == old(LiveId()) && forall id :: Thread(id) == old(Thread(id))
    {
      DisownedOk(turns, chatTurnGen, chatBusy, chatProgress, chatAbort, chatTickerId, tickers, nextId);
      chatTurnGen := chatTurnGen + 1;
      chatBusy := false;
      chatProgress := None;
      if chatAbort.Some? {
        aborted := aborted + {chatAbort.value};
      }
    }

    /** Empties the live thread, and in connector mode its stash as well. */
    method EmptyLiveThread(table: Option<(string, string)>)
      requires ThreadsOk()
      modifies this`chatMessages, this`connectorChats, this`hydrated, this`chatError
      ensures ThreadsOk()
      ensures forall id :: Thread(id) == After(Replace(LiveId(), []), id, old(Thread(id)))
      ensures fresh(Lists() - old(Lists()))
      ensures hydrated == old(hydrated)
              + if LiveId().Connector? && HasTable(table) then {LiveId().key} else {}
    {
      EmptyStash(table);
      StashedListed(advisorChats, connectorChats, chatMessages);
      chatMessages := new MessageList([]);
      chatError := None;
    }

    /** In the builder the stash of the shown table is emptied too, and counts as
        fetched. */
    method EmptyStash(table: Option<(string, string)>)
      requires ThreadsOk()
      modifies this`connectorChats, this`hydrated
      ensures ThreadsOk() && forall id :: id != LiveId() ==> Thread(id) == old(Thread(id))
      ensures fresh(Lists() - old(Lists()))
      ensures hydrated == old(hydrated)
              + if LiveId().Connector? && HasTable(table) then {LiveId().key} else {}
    {
      StashedListed(advisorChats, connectorChats, chatMessages);
      if inConnectorMode && connectorChatKey.Some? && HasTable(table) {
        var emptied := new MessageList([]);
        StoreConnector(advisorChats, connectorChats, connectorChatKey.value, emptied);
        connectorChats := connectorChats[connectorChatKey.value := emptied];
        hydrated := hydrated + {connectorChatKey.value};
      }
    }

    /** Clear disowns the turn in flight, so it cannot bring the thread back. */
    method ClearChat(table: Option<(string, string)>)
      requires Valid()
      modifies this`chatTurnGen, this`chatBusy, this`chatProgress, this`aborted, this`chatMessages, this`connectorChats,
               this`hydrated, this`chatError
      ensures Valid() && !chatBusy && chatTurnGen == old(chatTurnGen) + 1
      ensures forall id :: Thread(id) == After(Replace(LiveId(), []), id, old(Thread(id)))
      ensures fresh(Lists() - old(Lists()))
      ensures hydrated == old(hydrated)
              + if LiveId().Connector? && HasTable(table) then {LiveId().key} else {}
    {
      Open();
      DisownChatTurn();
      EmptyLiveThread(table);
    }

    method DropThreads()
      modifies this`chatMessages, this`advisorChats, this`connectorChats, this`hydrated, this`inConnectorMode,
               this`connectorChatKey, this`chatScope, this`chatError
      ensures ThreadsOk() && LiveId() == Unclaimed && hydrated == {} && fresh(Lists())
      ensures forall id :: Thread(id) == []
    {
      chatMessages := new MessageList([]);
      chatError := None;
      advisorChats, connectorChats, hydrated := map[], map[], {};
      inConnectorMode, connectorChatKey, chatScope := false, None, None;
    }

    /** Logout: every thread is dropped, and so is the scope. */
    method ResetChatState()
      requires Valid()
      modifies this`chatTurnGen, this`chatBusy, this`chatProgress, this`aborted, this`chatMessages, this`advisorChats,
               this`connectorChats, this`hydrated, this`inConnectorMode, this`connectorChatKey, this`chatScope,
               this`chatError
      ensures Valid() && LiveId() == Unclaimed && !chatBusy && chatTurnGen == old(chatTurnGen) + 1
      ensures forall id :: Thread(id) == After(DropAll, id, old(Thread(id)))
      ensures hydrated == {} && fresh(Lists())
    {
      Open();
      DisownChatTurn();
      DropThreads();
    }

    // --- the turn's continuation ------------------------------------------------------------------

    /** The turn's `finally`: it tears down its own ticker and controller, and only
        an owned turn frees the panel. */
    method FinishTurn(t: nat)
      requires FlightOk() && t in turns
      modifies this`tickers, this`chatTickerId, this`chatAbort, this`chatProgress, this`chatBusy, this`turns
      ensures FlightOk() && turns == old(turns) - {t}
      ensures old(turns[t].gen) == chatTurnGen ==> !chatBusy
      ensures old(turns[t].gen) != chatTurnGen ==> chatBusy == old(chatBusy) && chatProgress == old(chatProgress)
      ensures chatAbort == (if old(chatAbort) == Some(t) then None else old(chatAbort))
      ensures chatTickerId == (if old(chatTickerId) == Some(t) then None else old(chatTickerId))
      ensures old(chatBusy && turns[t].gen != chatTurnGen) ==>
              chatAbort == old(chatAbort) && chatTickerId == old(chatTickerId)
    {
      tickers := tickers - {t};
      if chatTickerId == Some(t) {
        chatTickerId := None;
      }
      if chatAbort == Some(t) {
        chatAbort := None;
      }
      if turns[t].gen == chatTurnGen {
        chatProgress := None;
        chatBusy := false;
      }
      turns := turns - {t};
    }

    /** The panel looks at another thread than the one the turn was sent from. */
    predicate Swapped(turn: Turn)
      reads this`inConnectorMode, this`connectorChatKey, this`chatScope
    {
      chatScope != Some(turn.scopeAtSend) || inConnectorMode != turn.wasConnector || connectorChatKey != turn.keyAtSend
    }

    lemma SwappedIff(turn: Turn)
      requires ModeOk() && WellSent(turn)
      ensures Swapped(turn) <==> LiveId() != ThreadOf(turn)
    {
    }

    /** Files a response under a thread that is not the live one. */
    method FileResponse(turn: Turn, response: seq<Message>)
      requires ThreadsOk() && WellSent(turn) && Swapped(turn) && chatScope.Some?
      modifies this`connectorChats, this`advisorChats
      ensures ThreadsOk() && LiveId() == old(LiveId())
      ensures forall id :: Thread(id) == After(Replace(ThreadOf(turn), response), id, old(Thread(id)))
      ensures fresh(Lists() - old(Lists()))
    {
      SwappedIff(turn);
      StashedListed(advisorChats, connectorChats, chatMessages);
      var filed := new MessageList(response);
      if turn.wasConnector {
        StoreConnector(advisorChats, connectorChats, turn.keyAtSend.value, filed);
        connectorChats := connectorChats[turn.keyAtSend.value := filed];
      } else {
        StoreAdvisor(advisorChats, connectorChats, turn.scopeAtSend, filed);
        advisorChats := advisorChats[turn.scopeAtSend := filed];
      }
    }

    /** Puts an owned turn's response where it belongs: the live array if the
        panel still shows that thread, else the thread's stash. */
    method WriteResponse(turn: Turn, response: seq<Message>) returns (swapped: bool)
      requires ThreadsOk() && WellSent(turn) && chatScope.Some?
      modifies this`connectorChats, this`advisorChats, this`chatMessages
      ensures ThreadsOk() && fresh(Lists() - old(Lists()))
      ensures forall id :: Thread(id) == After(Replace(ThreadOf(turn), response), id, old(Thread(id)))
      ensures swapped <==> LiveId() != ThreadOf(turn)
    {
      SwappedIff(turn);
      swapped := Swapped(turn);
      if swapped {
        FileResponse(turn, response);
      } else {
        ReplaceLive(response);
      }
    }

    /** The response lands. An owned turn writes it to the thread it was sent from
        and nowhere else, whatever the panel shows by now; a disowned turn writes
        nothing. `reload` says whether the view then refreshes, which keeps the turn
        in flight. */
    method ResponseLands(t: nat, response: seq<Message>, reload: bool)
      requires Valid() && t in turns && turns[t].phase == Waiting
      modifies this`connectorChats, this`advisorChats, this`chatMessages, this`tickers, this`chatTickerId,
               this`chatAbort, this`chatProgress, this`chatBusy, this`turns
      ensures Valid() && fresh(Lists() - old(Lists()))
      ensures var edit := if old(turns[t].gen) == chatTurnGen then Replace(old(ThreadOf(turns[t])), response) else Keep;
              forall id :: Thread(id) == After(edit, id, old(Thread(id)))
      ensures old(turns[t].gen) != chatTurnGen ==> turns == old(turns) - {t} && SuccessorKept()
      ensures turns == if old(turns[t].gen) == chatTurnGen && reload && old(ThreadOf(turns[t])) == LiveId()
                       then old(turns)[t := old(turns[t]).(phase := Reloading)] else old(turns) - {t}
    {
      Open();
      if turns[t].gen != chatTurnGen {
        DropResponse(t);
      } else {
        LandOwned(t, response, reload);
      }
    }

    /** A disowned turn only cleans up after itself. */
    method DropResponse(t: nat)
      requires Valid() && t in turns && turns[t].gen != chatTurnGen
      modifies this`tickers, this`chatTickerId, this`chatAbort, this`chatProgress, this`chatBusy, this`turns
      ensures Valid() && turns == old(turns) - {t} && SuccessorKept()
    {
      Open();
      FinishTurn(t);
    }

    /** An owned turn files its response and then ends, or refreshes the view. */
    method LandOwned(t: nat, response: seq<Message>, reload: bool)
      requires Valid() && t in turns && turns[t].gen == chatTurnGen
      modifies this`connectorChats, this`advisorChats, this`chatMessages, this`tickers, this`chatTickerId,
               this`chatAbort, this`chatProgress, this`chatBusy, this`turns
      ensures Valid() && fresh(Lists() - old(Lists()))
      ensures forall id :: Thread(id) == After(Replace(old(ThreadOf(turns[t])), response), id, old(Thread(id)))
      ensures turns == if reload && old(ThreadOf(turns[t])) == LiveId()
                       then old(turns)[t := old(turns[t]).(phase := Reloading)] else old(turns) - {t}
    {
      Open();
      var swapped := WriteResponse(turns[t], response);
      Continue(t, !swapped && reload);
    }

    /** A swapped or plain answer ends the turn; one that refreshes the view keeps
        it in flight, still owned. */
    method Continue(t: nat, reload: bool)
      requires FlightOk() && t in turns && turns[t].gen == chatTurnGen
      modifies this`tickers, this`chatTickerId, this`chatAbort, this`chatProgress, this`chatBusy, this`turns
      ensures FlightOk() && (chatBusy <==> reload) && forall id :: Thread(id) == old(Thread(id))
      ensures turns == if reload then old(turns)[t := old(turns[t]).(phase := Reloading)] else old(turns) - {t}
    {
      if reload {
        turns := turns[t := turns[t].(phase := Reloading)];
      } else {
        FinishTurn(t);
      }
    }

    /** `state.chatMessages = resp.messages` */
    method ReplaceLive(response: seq<Message>)
      requires ThreadsOk() && chatScope.Some?
      modifies this`chatMessages
      ensures ThreadsOk() && fresh(Lists() - old(Lists()))
      ensures forall id :: Thread(id) == After(Replace(LiveId(), response), id, old(Thread(id)))
    {
      StashedListed(advisorChats, connectorChats, chatMessages);
      chatMessages := new MessageList(response);
    }

    /** Whatever turn owns the panel keeps it. */
    twostate predicate SuccessorKept()
      reads this
    {
      && chatBusy == old(chatBusy) && chatProgress == old(chatProgress)
      && (old(chatBusy) ==> chatAbort == old(chatAbort) && chatTickerId == old(chatTickerId))
    }

    /** The request fails. Only an owned turn reports, and "Stopped" only for the
        user's own abort. */
    method RequestFails(t: nat, message: string, isAbort: bool)
      requires Valid() && t in turns
      modifies this`chatError, this`tickers, this`chatTickerId, this`chatAbort, this`chatProgress, this`chatBusy,
               this`turns
      ensures Valid() && turns == old(turns) - {t}
      ensures old(turns[t].gen) != chatTurnGen ==> chatError == old(chatError) && SuccessorKept()
      ensures old(turns[t].gen) == chatTurnGen ==>
                !chatBusy && chatError == Some(if chatStopRequested && isAbort then STOPPED else message)
    {
      Open();
      if turns[t].gen == chatTurnGen {
        chatError := Some(if chatStopRequested && isAbort then STOPPED else message);
      }
      FinishTurn(t);
    }

    /** The view refresh after an answer is over. In the explorer the thread is
        also persisted, which marks its key as hydrated. */
    method ReloadEnds(t: nat, persist: bool)
      requires Valid() && t in turns && turns[t].phase == Reloading
      modifies this`hydrated, this`tickers, this`chatTickerId, this`chatAbort, this`chatProgress, this`chatBusy,
               this`turns
      ensures Valid() && turns == old(turns) - {t}
      ensures old(turns[t].gen) != chatTurnGen ==> SuccessorKept()
      ensures old(turns[t].gen) == chatTurnGen ==> !chatBusy
      ensures hydrated == old(hydrated) + if persist && LiveId().Connector? then {LiveId().key} else {}
    {
      Open();
      if persist && inConnectorMode && connectorChatKey.Some? {
        hydrated := hydrated + {connectorChatKey.value};
      }
      FinishTurn(t);
    }

    // --- whole runs ---------------------------------------------------------------------------------

    lemma BusyIff()
      requires Valid()
      ensures chatBusy <==> Busy(Draft())
    {
      Open();
      AtMostOneOwned(turns, chatTurnGen, chatBusy, chatProgress, chatAbort, chatTickerId, tickers, nextId);
      if Busy(Draft()) {
        var t :| t in LegsOf(turns) && LegsOf(turns)[t].gen == chatTurnGen;
        assert turns[t].gen == chatTurnGen;
      }
      if chatBusy {
        var t :| t in turns && turns[t].gen == chatTurnGen;
        assert LegsOf(turns)[t].gen == chatTurnGen;
      }
    }

    /** A table is opened. */
    method Look(op: Op)
      requires Valid() && op.Activate?
      modifies this`connectorChats, this`advisorChats, this`inConnectorMode, this`connectorChatKey, this`chatScope,
               this`chatMessages, this`chatError, this`hydrated, this`hydrating
      ensures Valid() && fresh(Lists() - old(Lists())) && Draft() == Next(old(Draft()), op)
      ensures Requests() == WithRequest(old(Requests()), AsksFor(old(Draft()), old(Requests()), op))
      ensures forall id :: Thread(id) == old(Thread(id))
    {
      Open();
      SwitchCases(Draft(), Requests(), op);
      ActivateConnectorChat(op.scope, op.system, op.entity);
    }

    /** The builder is left. */
    method LookAway(op: Op)
      requires Valid() && op.Deactivate?
      modifies this`connectorChats, this`advisorChats, this`inConnectorMode, this`connectorChatKey, this`chatScope,
               this`chatMessages, this`chatError
      ensures Valid() && fresh(Lists() - old(Lists())) && Draft() == Next(old(Draft()), op)
      ensures forall id :: Thread(id) == old(Thread(id))
    {
      Open();
      SwitchCases(Draft(), Requests(), op);
      DeactivateConnectorChat(op.scope);
    }

    /** A switch of scope. */
    method Follow(op: Op)
      requires Valid() && op.Sync?
      modifies this`connectorChats, this`advisorChats, this`inConnectorMode, this`connectorChatKey, this`chatScope,
               this`chatMessages, this`chatError, this`hydrated, this`hydrating
      ensures Valid() && fresh(Lists() - old(Lists())) && Draft() == Next(old(Draft()), op)
      ensures forall id :: Thread(id) == old(Thread(id))
      ensures Requests() == WithRequest(old(Requests()), AsksFor(old(Draft()), old(Requests()), op))
    {
      Open();
      SwitchCases(Draft(), Requests(), op);
      SyncChatScope(op.scope, op.table);
    }

    /** A server copy, if it was asked for. */
    method Copied(op: Op) returns (ghost edit: Edit)
      requires Valid() && op.ServerCopy?
      modifies this`connectorChats, this`chatMessages, this`hydrating
      ensures Valid() && fresh(Lists() - old(Lists())) && Does(old(Draft()), op, edit)
      ensures Draft() == Next(old(Draft()), op) && Requests() == Fetched(old(Draft()), old(Requests()), op)
      ensures forall id :: Thread(id) == After(edit, id, old(Thread(id)))
    {
      Open();
      edit := Keep;
      if op.nk in hydrating {
        edit := if op.messages != [] && StashEmpty(op.nk) then Replace(Connector(op.nk), op.messages) else Keep;
        HydrateLands(op.nk, op.messages);
      }
    }

    /** The failure of a hydration request, if it is in flight. */
    method NotCopied(op: Op)
      requires Valid() && op.NoServerCopy?
      modifies this`hydrated, this`hydrating
      ensures Valid() && Draft() == Next(old(Draft()), op)
      ensures Requests() == Fetched(old(Draft()), old(Requests()), op)
    {
      Open();
      if op.nk in hydrating {
        HydrateFails(op.nk);
      }
    }

    /** A turn's response, if the turn waits for one. */
    method Landed(op: Op)
      requires Valid() && op.Response?
      modifies this`connectorChats, this`advisorChats, this`chatMessages, this`tickers, this`chatTickerId,
               this`chatAbort, this`chatProgress, this`chatBusy, this`turns
      ensures Valid() && fresh(Lists() - old(Lists())) && Draft() == Next(old(Draft()), op)
      ensures forall id :: Thread(id) == After(EditIn(old(Draft()), op), id, old(Thread(id)))
    {
      if op.t in turns && turns[op.t].phase == Waiting {
        LegsChange(turns, op.t, turns[op.t].(phase := Reloading));
        ResponseLands(op.t, op.messages, op.reload);
      }
    }

    /** A failure, if its turn is in flight. */
    method Failed(op: Op)
      requires Valid() && op.Failure?
      modifies this`tickers, this`chatTickerId, this`chatAbort, this`chatProgress, this`chatBusy, this`turns,
               this`chatError
      ensures Valid() && Draft() == Next(old(Draft()), op)
    {
      if op.t !in turns {
        assert LegsOf(turns) - {op.t} == LegsOf(turns);
        return;
      }
      LegsChange(turns, op.t, turns[op.t]);
      RequestFails(op.t, op.message, op.isAbort);
    }

    /** The end of a refresh, if its turn is refreshing. */
    method Over(op: Op)
      requires Valid() && op.Reloaded?
      modifies this`tickers, this`chatTickerId, this`chatAbort, this`chatProgress, this`chatBusy, this`turns,
               this`hydrated
      ensures Valid() && Draft() == Next(old(Draft()), op)
      ensures Requests() == WithMarks(old(Requests()), Marks(old(Draft()), op))
    {
      if op.t !in turns || turns[op.t].phase != Reloading {
        return;
      }
      LegsChange(turns, op.t, turns[op.t]);
      ReloadEnds(op.t, op.persist);
    }

    /** A send, if a scope is known. */
    method Sent(op: Op)
      requires Valid() && op.Send?
      modifies chatMessages, this`chatBusy, this`chatError, this`chatProgress, this`chatStopRequested, this`nextId,
               this`chatAbort, this`chatTickerId, this`tickers, this`turns
      ensures Valid() && Lists() == old(Lists()) && Draft() == Next(old(Draft()), op)
      ensures forall id :: Thread(id) == After(EditIn(old(Draft()), op), id, old(Thread(id)))
    {
      Open();
      BusyIff();
      if chatScope.Some? {
        ghost var before := turns;
        var sent := SendChat(op.text, op.context);
        if sent.Some? {
          LegsChange(before, sent.value, turns[sent.value]);
        }
      }
    }

    /** What the user does. */
    method Act(op: Op)
      requires Valid() && (op.Activate? || op.Deactivate? || op.Sync? || op.Send? || op.Stop? || op.Clear?
                           || op.Logout?)
      modifies this, chatMessages
      ensures Valid() && fresh(Lists() - old(Lists())) && Draft() == Next(old(Draft()), op)
      ensures forall id :: Thread(id) == After(EditIn(old(Draft()), op), id, old(Thread(id)))
      ensures Requests() == Fetched(old(Draft()), old(Requests()), op)
    {
      FetchCases(Draft(), Requests(), op);
      if op.Activate? {
        Look(op);
        return;
      }
      if op.Deactivate? {
        LookAway(op);
        return;
      }
      if op.Sync? {
        Follow(op);
        return;
      }
      Press(op);
    }

    /** The live thread is cleared, or every thread dropped. */
    method Discard(op: Op)
      requires Valid() && (op.Clear? || op.Logout?)
      modifies this
      ensures Valid() && fresh(Lists() - old(Lists())) && Draft() == Next(old(Draft()), op)
      ensures Requests() == Fetched(old(Draft()), old(Requests()), op)
      ensures forall id :: Thread(id) == After(EditIn(old(Draft()), op), id, old(Thread(id)))
    {
      FetchCases(Draft(), Requests(), op);
      if op.Clear? {
        ClearChat(op.table);
        return;
      }
      ResetChatState();
    }

    /** What the user does in the chat box or by logging out. */
    method Press(op: Op)
      requires Valid() && (op.Send? || op.Stop? || op.Clear? || op.Logout?)
      modifies this, chatMessages
      ensures Valid() && fresh(Lists() - old(Lists())) && Draft() == Next(old(Draft()), op)
      ensures Requests() == Fetched(old(Draft()), old(Requests()), op)
      ensures forall id :: Thread(id) == After(EditIn(old(Draft()), op), id, old(Thread(id)))
    {
      if op.Clear? || op.Logout? {
        Discard(op);
        return;
      }
      FetchCases(Draft(), Requests(), op);
      if op.Send? {
        Sent(op);
        return;
      }
      Open();
      StopChat();
    }

    method Answered(op: Op)
      requires Valid() && op.Response?
      modifies this`connectorChats, this`advisorChats, this`chatMessages, this`tickers, this`chatTickerId,
               this`chatAbort, this`chatProgress, this`chatBusy, this`turns
      ensures Valid() && fresh(Lists() - old(Lists())) && Draft() == Next(old(Draft()), op)
      ensures Requests() == Fetched(old(Draft()), old(Requests()), op)
      ensures forall id :: Thread(id) == After(EditIn(old(Draft()), op), id, old(Thread(id)))
    {
      FetchCases(Draft(), Requests(), op);
      Landed(op);
    }

    /** What else comes back from the server, or fails to. */
    method Arrives(op: Op)
      requires Valid() && (op.NoServerCopy? || op.Failure? || op.Reloaded?)
      modifies this`tickers, this`chatTickerId, this`chatAbort, this`chatProgress, this`chatBusy, this`turns,
               this`hydrated, this`hydrating, this`chatError
      ensures Valid() && Draft() == Next(old(Draft()), op)
      ensures Requests() == Fetched(old(Draft()), old(Requests()), op) && EditIn(old(Draft()), op) == Keep
    {
      FetchCases(Draft(), Requests(), op);
      if op.NoServerCopy? {
        NotCopied(op);
        return;
      }
      if op.Failure? {
        Failed(op);
        return;
      }
      Over(op);
    }

    /** An operation whose edit the outline decides. */
    method Proceed(op: Op)
      requires Valid() && !op.ServerCopy?
      modifies this, chatMessages
      ensures Valid() && fresh(Lists() - old(Lists())) && Draft() == Next(old(Draft()), op)
      ensures Requests() == Fetched(old(Draft()), old(Requests()), op)
      ensures forall id :: Thread(id) == After(EditIn(old(Draft()), op), id, old(Thread(id)))
    {
      if op.Response? {
        Answered(op);
        return;
      }
      if op.NoServerCopy? || op.Failure? || op.Reloaded? {
        Arrives(op);
        return;
      }
      Act(op);
    }

    /** One operation. A continuation whose request is not in flight cannot occur and
        does nothing; neither does a send without a scope. */
    method Step(op: Op) returns (ghost edit: Edit)
      requires Valid()
      modifies this, chatMessages
      ensures Valid() && fresh(Lists() - old(Lists()))
      ensures Does(old(Draft()), op, edit) && Draft() == Next(old(Draft()), op)
      ensures Requests() == Fetched(old(Draft()), old(Requests()), op)
      ensures forall id :: Thread(id) == After(edit, id, old(Thread(id)))
    {
      if op.ServerCopy? {
        edit := Copied(op);
        return;
      }
      edit := EditIn(Draft(), op);
      Proceed(op);
    }

    /** All threads as they stand. */
    ghost function Snapshot(): imap<ThreadId, seq<Message>>
      reads this, Lists()
    {
      imap id: ThreadId :: Thread(id)
    }

    /** What became of the panel and of its threads after these operations. */
    ghost predicate RunTells(threads: bool, ops: seq<Op>, edits: seq<Edit>, start: imap<ThreadId, seq<Message>>,
                             o: Outline, f: Fetch)
      reads this, Lists(), chatMessages
    {
      if threads then forall id :: id in start && Thread(id) == AfterAll(edits, id, start[id])
      else
        && Valid() && Draft() == OutlineAfter(o, ops) && AllDo(o, ops, edits)
        && Requests() == FetchAfter(o, f, ops)
    }

    /** The run so far: `edits` tell what became of the threads since `start`. */
    ghost predicate RunSoFar(ops: seq<Op>, edits: seq<Edit>, start: imap<ThreadId, seq<Message>>, o: Outline, f: Fetch)
      reads this, Lists(), chatMessages
    {
      forall threads: bool :: RunTells(threads, ops, edits, start, o, f)
    }

    lemma RunSays(ops: seq<Op>, edits: seq<Edit>, start: imap<ThreadId, seq<Message>>, o: Outline, f: Fetch)
      requires RunSoFar(ops, edits, start, o, f)
      ensures Valid() && Draft() == OutlineAfter(o, ops) && AllDo(o, ops, edits)
      ensures Requests() == FetchAfter(o, f, ops)
      ensures forall id :: id in start && Thread(id) == AfterAll(edits, id, start[id])
    {
      assert RunTells(true, ops, edits, start, o, f) && RunTells(false, ops, edits, start, o, f);
    }

    lemma NothingYet()
      requires Valid()
      ensures RunSoFar([], [], Snapshot(), Draft(), Requests())
    {
    }

    /** One more operation of a run. */
    method GoOn(ghost ops: seq<Op>, op: Op, ghost edits: seq<Edit>, ghost start: imap<ThreadId, seq<Message>>,
                ghost o: Outline, ghost f: Fetch, ghost all: seq<Op>)
      returns (ghost more: seq<Edit>)
      requires RunSoFar(ops, edits, start, o, f) && all == ops + [op]
      modifies this, chatMessages
      ensures RunSoFar(all, more, start, o, f) && fresh(Lists() - old(Lists()))
    {
      RunSays(ops, edits, start, o, f);
      ghost var edit;
      edit := Step(op);
      OneMore(o, f, ops, op, edits, edit);
      more := edits + [edit];
    }

    /** The operations one by one. */
    method Perform(ops: seq<Op>) returns (ghost edits: seq<Edit>)
      requires Valid()
      modifies this, Lists()
      ensures RunSoFar(ops, edits, old(Snapshot()), old(Draft()), old(Requests())) && fresh(Lists() - old(Lists()))
    {
      ghost var start, o, f := Snapshot(), Draft(), Requests();
      if ops == [] {
        NothingYet();
        return [];
      }
      var front := ops[..|ops| - 1];
      edits := Perform(front);
      edits := GoOn(front, ops[|ops| - 1], edits, start, o, f, ops);
    }

    /** Any interleaving of operations: the panel stays valid, every operation makes
        the edit that the operations before it leave it, and each thread ends as the
        edits addressed to it, and no others, have made it. */
    method Run(ops: seq<Op>) returns (ghost edits: seq<Edit>)
      requires Valid()
      modifies this, Lists()
      ensures Valid() && Draft() == OutlineAfter(old(Draft()), ops) && AllDo(old(Draft()), ops, edits)
      ensures Requests() == FetchAfter(old(Draft()), old(Requests()), ops)
      ensures forall id :: Thread(id) == AfterAll(OnlyConcerning(edits, id), id, old(Thread(id)))
    {
      ghost var start, o, f := Snapshot(), Draft(), Requests();
      edits := Perform(ops);
      RunSays(ops, edits, start, o, f);
      forall id
        ensures AfterAll(edits, id, old(Thread(id))) == AfterAll(OnlyConcerning(edits, id), id, old(Thread(id)))
      {
        ThreadsAreIndependent(edits, id, old(Thread(id)));
      }
    }
  }

  /** Every operation makes its edit. */
  ghost predicate AllDo(o: Outline, ops: seq<Op>, edits: seq<Edit>) {
    |edits| == |ops| && forall i :: 0 <= i < |ops| ==> Does(OutlineAfter(o, ops[..i]), ops[i], edits[i])
  }

  lemma OneMore(o: Outline, f: Fetch, ops: seq<Op>, op: Op, edits: seq<Edit>, edit: Edit)
    requires AllDo(o, ops, edits) && Does(OutlineAfter(o, ops), op, edit)
    ensures AllDo(o, ops + [op], edits + [edit]) && OutlineAfter(o, ops + [op]) == Next(OutlineAfter(o, ops), op)
    ensures FetchAfter(o, f, ops + [op]) == Fetched(OutlineAfter(o, ops), FetchAfter(o, f, ops), op)
    ensures forall id, content :: AfterAll(edits + [edit], id, content) == After(edit, id, AfterAll(edits, id, content))
  {
    var n, all, more := |ops|, ops + [op], edits + [edit];
    assert more[..n] == edits && all[..n] == ops;
    forall i | 0 <= i < n + 1
      ensures Does(OutlineAfter(o, all[..i]), all[i], more[i])
    {
      assert all[..i] == ops[..i];
      if i == n {
        assert ops[..i] == ops;
      }
    }
  }

  // --- what the outlines of a run tell ------------------------------------------------------------

  ghost predicate WellDrawn(o: Outline) {
    forall t :: t in o.legs ==> t < o.nextId && o.legs[t].gen <= o.gen
  }

  lemma {:induction false} StaysWellDrawn(o: Outline, ops: seq<Op>)
    requires WellDrawn(o)
    ensures WellDrawn(OutlineAfter(o, ops))
  {
    if ops != [] {
      StaysWellDrawn(o, ops[..|ops| - 1]);
    }
  }

  /** A turn begun during the run stands for the thread that was live when it was
      sent. */
  lemma {:induction false} HomeIsWhereItWasSent(o: Outline, ops: seq<Op>, t: nat) returns (i: nat)
    requires WellDrawn(o) && t in OutlineAfter(o, ops).legs && t >= o.nextId
    ensures i < |ops| && ops[i].Send? && OutlineAfter(o, ops[..i]).nextId == t
    ensures EditIn(OutlineAfter(o, ops[..i]), ops[i]).Append?
    ensures OutlineAfter(o, ops).legs[t].home == OutlineAfter(o, ops[..i]).live
  {
    var n := |ops| - 1;
    var before := OutlineAfter(o, ops[..n]);
    StaysWellDrawn(o, ops[..n]);
    if t in before.legs {
      i := HomeIsWhereItWasSent(o, ops[..n], t);
      assert ops[..n][..i] == ops[..i];
    } else {
      i := n;
    }
  }

  /** A turn that has been sent and is not owned by the current generation. */
  ghost predicate Disowned(o: Outline, t: nat) {
    t < o.nextId && (t in o.legs ==> o.legs[t].gen < o.gen)
  }

  /** Once disowned, a turn stays disowned: a clear or a logout at `i` parts all turns
      sent before it from every thread for good. */
  lemma {:induction false} StaysDisowned(o: Outline, ops: seq<Op>, i: nat, j: nat, t: nat)
    requires WellDrawn(o) && i < j <= |ops| && (ops[i].Clear? || ops[i].Logout?) && t < OutlineAfter(o, ops[..i]).nextId
    ensures Disowned(OutlineAfter(o, ops[..j]), t)
  {
    var n := j - 1;
    assert ops[..j][..n] == ops[..n];
    if i < n {
      StaysDisowned(o, ops, i, n, t);
    } else {
      StaysWellDrawn(o, ops[..n]);
    }
  }

  /** So its response changes nothing, whenever it lands. */
  lemma DisownedResponseIsKept(o: Outline, ops: seq<Op>, edits: seq<Edit>, i: nat, j: nat)
    requires WellDrawn(o) && AllDo(o, ops, edits) && i < j < |ops| && (ops[i].Clear? || ops[i].Logout?)
    requires ops[j].Response? && ops[j].t < OutlineAfter(o, ops[..i]).nextId
    ensures edits[j] == Keep
  {
    StaysDisowned(o, ops, i, j, ops[j].t);
    assert Does(OutlineAfter(o, ops[..j]), ops[j], edits[j]);
  }

  // --- server copies over a run ----------------------------------------------------------------

  /** A request for this key, in flight, fails at operation `j`. */
  ghost predicate FailsAt(o: Outline, f: Fetch, ops: seq<Op>, key: ConnectorKey, j: nat) {
    j < |ops| && ops[j] == NoServerCopy(key) && key in FetchAfter(o, f, ops[..j]).asked
  }

  /** And its thread stays live from then on. */
  ghost predicate FreedAt(o: Outline, f: Fetch, ops: seq<Op>, key: ConnectorKey, j: nat) {
    && FailsAt(o, f, ops, key, j)
    && forall m :: j <= m <= |ops| ==> OutlineAfter(o, ops[..m]).live == Connector(key)
  }

  lemma FreedStays(o: Outline, f: Fetch, ops: seq<Op>, op: Op, key: ConnectorKey, j: nat)
    requires FreedAt(o, f, ops, key, j) && OutlineAfter(o, ops + [op]).live == Connector(key)
    ensures FreedAt(o, f, ops + [op], key, j)
  {
    var all := ops + [op];
    assert all[..j] == ops[..j];
    forall m | j <= m <= |all|
      ensures OutlineAfter(o, all[..m]).live == Connector(key)
    {
      if m <= |ops| {
        assert all[..m] == ops[..m];
      } else {
        assert all[..m] == all;
      }
    }
  }

  lemma FreedNow(o: Outline, f: Fetch, ops: seq<Op>, key: ConnectorKey)
    requires OutlineAfter(o, ops).live == Connector(key) && key in FetchAfter(o, f, ops).asked
    ensures FreedAt(o, f, ops + [NoServerCopy(key)], key, |ops|)
  {
    var all := ops + [NoServerCopy(key)];
    assert all[..|ops|] == ops;
    forall m | |ops| <= m <= |all|
      ensures OutlineAfter(o, all[..m]).live == Connector(key)
    {
      if m > |ops| {
        assert all[..m] == all;
      }
    }
  }

  /** A table's thread that is live counts as fetched, unless its request has
      failed while it was live. */
  ghost predicate LiveIsFetched(o: Outline, f: Fetch, ops: seq<Op>) {
    var live := OutlineAfter(o, ops).live;
    live.Connector? && Named(live.key) ==>
      live.key in FetchAfter(o, f, ops).hydrated || exists j :: FreedAt(o, f, ops, live.key, j)
  }

  lemma {:induction false} ShownIsFetched(o: Outline, f: Fetch, ops: seq<Op>)
    requires o.live.Connector? && Named(o.live.key) ==> o.live.key in f.hydrated
    ensures LiveIsFetched(o, f, ops)
  {
    if ops != [] {
      var n := |ops| - 1;
      ShownIsFetched(o, f, ops[..n]);
      assert ops == ops[..n] + [ops[n]];
      StillFetched(o, f, ops[..n], ops[n]);
    }
  }

  lemma StillFetched(o: Outline, f: Fetch, ops: seq<Op>, op: Op)
    requires LiveIsFetched(o, f, ops)
    ensures LiveIsFetched(o, f, ops + [op])
  {
    assert (ops + [op])[..|ops|] == ops;
    var before, live := OutlineAfter(o, ops), OutlineAfter(o, ops + [op]).live;
    if live.Connector? && Named(live.key) && before.live == live {
      if live.key in FetchAfter(o, f, ops).hydrated {
        if live.key !in FetchAfter(o, f, ops + [op]).hydrated {
          assert op == NoServerCopy(live.key);
          FreedNow(o, f, ops, live.key);
        }
      } else {
        var j :| FreedAt(o, f, ops, live.key, j);
        FreedStays(o, f, ops, op, live.key, j);
      }
    }
  }

  lemma KeyStaysFetched(o: Outline, f: Fetch, op: Op, key: ConnectorKey)
    requires key in f.hydrated || AsksFor(o, f, op) == Some(key)
    requires AsksFor(o, f, op) == Some(key) || (!op.Logout? && (op == NoServerCopy(key) ==> key !in f.asked))
    ensures key in Fetched(o, f, op).hydrated
  {
  }

  lemma KeyWasFetched(o: Outline, f: Fetch, op: Op, key: ConnectorKey)
    requires Named(key) && AsksFor(o, f, op) != Some(key)
    requires Next(o, op).live == Connector(key) || key in Fetched(o, f, op).hydrated
    ensures !op.Logout? && (o.live == Connector(key) || key in f.hydrated)
  {
  }

  /** Operation `i` asks for this key. */
  ghost predicate AskedAt(o: Outline, f: Fetch, ops: seq<Op>, key: ConnectorKey, i: nat) {
    i < |ops| && AsksFor(OutlineAfter(o, ops[..i]), FetchAfter(o, f, ops[..i]), ops[i]) == Some(key)
  }

  ghost predicate FetchedAt(o: Outline, f: Fetch, ops: seq<Op>, key: ConnectorKey, i: nat) {
    i <= |ops| && key in FetchAfter(o, f, ops[..i]).hydrated
  }

  ghost predicate LiveAt(o: Outline, ops: seq<Op>, key: ConnectorKey, i: nat) {
    i <= |ops| && OutlineAfter(o, ops[..i]).live == Connector(key)
  }

  lemma RunStep(o: Outline, f: Fetch, ops: seq<Op>, j: nat)
    requires j < |ops|
    ensures OutlineAfter(o, ops[..j + 1]) == Next(OutlineAfter(o, ops[..j]), ops[j])
    ensures FetchAfter(o, f, ops[..j + 1]) == Fetched(OutlineAfter(o, ops[..j]), FetchAfter(o, f, ops[..j]), ops[j])
  {
    assert ops[..j + 1][..j] == ops[..j];
  }

  lemma AskedThenFetched(o: Outline, f: Fetch, ops: seq<Op>, key: ConnectorKey, i: nat)
    requires AskedAt(o, f, ops, key, i)
    ensures FetchedAt(o, f, ops, key, i + 1)
  {
    RunStep(o, f, ops, i);
    KeyStaysFetched(OutlineAfter(o, ops[..i]), FetchAfter(o, f, ops[..i]), ops[i], key);
  }

  lemma StaysFetchedAt(o: Outline, f: Fetch, ops: seq<Op>, key: ConnectorKey, j: nat)
    requires j < |ops| && !ops[j].Logout? && !FailsAt(o, f, ops, key, j) && FetchedAt(o, f, ops, key, j)
    ensures FetchedAt(o, f, ops, key, j + 1)
  {
    RunStep(o, f, ops, j);
    KeyStaysFetched(OutlineAfter(o, ops[..j]), FetchAfter(o, f, ops[..j]), ops[j], key);
  }

  lemma WasFetchedAt(o: Outline, f: Fetch, ops: seq<Op>, key: ConnectorKey, j: nat)
    requires j < |ops| && Named(key) && !AskedAt(o, f, ops, key, j)
    requires LiveAt(o, ops, key, j + 1) || FetchedAt(o, f, ops, key, j + 1)
    ensures !ops[j].Logout? && (LiveAt(o, ops, key, j) || FetchedAt(o, f, ops, key, j))
  {
    RunStep(o, f, ops, j);
    KeyWasFetched(OutlineAfter(o, ops[..j]), FetchAfter(o, f, ops[..j]), ops[j], key);
  }

  ghost predicate NoLogout(ops: seq<Op>, i: nat, j: nat)
    requires j <= |ops|
  {
    forall m :: i < m < j ==> !ops[m].Logout?
  }

  lemma NothingAtTheStart(o: Outline, f: Fetch, ops: seq<Op>, key: ConnectorKey)
    requires f.hydrated == {} && !o.live.Connector?
    ensures !LiveAt(o, ops, key, 0) && !FetchedAt(o, f, ops, key, 0)
  {
    assert ops[..0] == [];
  }

  /** On a panel that begins with nothing fetched, each named table that is live or
      counts as fetched was asked for, and no logout has come since. */
  lemma {:induction false} FetchedWasAsked(o: Outline, f: Fetch, ops: seq<Op>, key: ConnectorKey, j: nat)
    returns (i: nat)
    requires f.hydrated == {} && !o.live.Connector? && Named(key)
    requires LiveAt(o, ops, key, j) || FetchedAt(o, f, ops, key, j)
    ensures i < j && AskedAt(o, f, ops, key, i) && NoLogout(ops, i, j)
    decreases j
  {
    NothingAtTheStart(o, f, ops, key);
    if AskedAt(o, f, ops, key, j - 1) {
      return j - 1;
    }
    WasFetchedAt(o, f, ops, key, j - 1);
    i := FetchedWasAsked(o, f, ops, key, j - 1);
    assert !ops[j - 1].Logout? && NoLogout(ops, i, j - 1);
  }

  lemma {:induction false} FetchedFromThenOn(o: Outline, f: Fetch, ops: seq<Op>, key: ConnectorKey, i: nat, j: nat)
    requires AskedAt(o, f, ops, key, i) && i < j <= |ops|
    requires forall m :: i < m < j ==> !ops[m].Logout? && !FailsAt(o, f, ops, key, m)
    ensures FetchedAt(o, f, ops, key, j)
    decreases j
  {
    if j == i + 1 {
      AskedThenFetched(o, f, ops, key, i);
    } else {
      FetchedFromThenOn(o, f, ops, key, i, j - 1);
      StaysFetchedAt(o, f, ops, key, j - 1);
    }
  }

  /** Between two requests for one key lies a logout, or the failure of a request. */
  lemma AskedAgainOnlyAfter(o: Outline, f: Fetch, ops: seq<Op>, key: ConnectorKey, i: nat, j: nat)
    requires i < j && AskedAt(o, f, ops, key, i) && AskedAt(o, f, ops, key, j)
    ensures exists m :: i < m < j && (ops[m].Logout? || FailsAt(o, f, ops, key, m))
  {
    if forall m :: i < m < j ==> !ops[m].Logout? && !FailsAt(o, f, ops, key, m) {
      FetchedFromThenOn(o, f, ops, key, i, j);
    }
  }

  /** A new panel, moved to one table whose server copy was asked for. */
  method OpenTable(nk: ConnectorKey) returns (panel: Panel)
    requires nk.system != "" && nk.entity != ""
    ensures fresh(panel) && fresh(panel.chatMessages) && panel.Valid() && !panel.chatBusy
    ensures panel.LiveId() == Connector(nk) && panel.chatMessages.items == []
    ensures panel.chatScope.Some? && panel.connectorChats == map[] && nk in panel.hydrating
  {
    panel := new Panel(nk.scope);
    panel.Open();
    panel.ActivateConnectorChat(nk.scope, nk.system, nk.entity);
    assert panel.chatMessages in panel.Lists();
    assert panel.Thread(Connector(nk)) == [];
  }

  /** A conversation in progress is lost to hydration in exactly one situation: it
      is live, it was never stashed, and the server has a copy. */
  method HydrationReplacesFreshConversation(nk: ConnectorKey, first: string, server: seq<Message>)
    returns (before: seq<Message>, after: seq<Message>)
    requires nk.system != "" && nk.entity != "" && first != "" && server != []
    ensures before == [Message("user", None, first)] && after == server
  {
    var panel := OpenTable(nk);
    var sent := panel.SendChat(first, None);
    before := panel.chatMessages.items;
    assert before == panel.Thread(Connector(nk));
    panel.Open();
    panel.HydrateLands(nk, server);
    after := panel.chatMessages.items;
    assert after == panel.Thread(Connector(nk));
  }

  const STOPPED := "Stopped — the reply was cancelled before it finished."

  // --- over whole runs --------------------------------------------------------------------------------

  function AfterAll(edits: seq<Edit>, id: ThreadId, content: seq<Message>): seq<Message> {
    if edits == [] then content else After(edits[|edits| - 1], id, AfterAll(edits[..|edits| - 1], id, content))
  }

  /** Does this edit concern thread `id`? */
  predicate Concerns(edit: Edit, id: ThreadId) {
    match edit
    case Keep => false
    case Append(target, _) => target == id
    case Replace(target, _) => target == id
    case DropAll => true
  }

  function OnlyConcerning(edits: seq<Edit>, id: ThreadId): seq<Edit> {
    if edits == [] then []
    else
      OnlyConcerning(edits[..|edits| - 1], id) + if Concerns(edits[|edits| - 1], id) then [edits[|edits| - 1]] else []
  }

  /** After any run, a thread holds exactly what the edits addressed to it made of
      it: swaps and other threads' turns, clears and hydrations leave no trace. */
  lemma {:induction false} ThreadsAreIndependent(edits: seq<Edit>, id: ThreadId, content: seq<Message>)
    ensures AfterAll(edits, id, content) == AfterAll(OnlyConcerning(edits, id), id, content)
  {
    if edits != [] {
      var front, last := edits[..|edits| - 1], edits[|edits| - 1];
      ThreadsAreIndependent(front, id, content);
      var kept := OnlyConcerning(front, id);
      if Concerns(last, id) {
        assert OnlyConcerning(edits, id) == kept + [last];
        assert (kept + [last])[..|kept|] == kept;
      } else {
        assert OnlyConcerning(edits, id) == kept;
      }
    }
  }
}
