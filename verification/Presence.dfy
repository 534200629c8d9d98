/**
Collaborative presence: the shared viewer store, the per-tenant queue lists and the streams that
use them. Every step of a stream between two suspension points is atomic on the event loop, so a
server is a transition system over five steps, and an interleaving is a sequence of them.
Both transports run the same steps on the same stores.
*/
module Presence {

  datatype Kind = Viewing | Left

  datatype Entity = Entity(etype: string, eid: string)

  /** A presence event. It carries its entity, which is all that a subscriber filters on. */
  datatype Event = Event(user: string, entity: Entity, kind: Kind)

  datatype Request = Request(tenant: string, user: string, entity: Entity)

  /** A stream first yields the snapshot it took when it started, then announces itself and listens. */
  datatype Phase = Snapshotting(pending: seq<string>) | Listening

  /** A live stream, with its queue and everything it has yielded to its client so far. */
  datatype Stream = Stream(req: Request, phase: Phase, inbox: seq<Event>, sent: seq<Event>)

  /** tenant -> scope key -> users, in the insertion order of the innermost dictionary */
  type Store = map<string, map<string, seq<string>>>

  /** A queue is identified by the stream that owns it. */
  datatype State = State(store: Store, queues: map<string, seq<nat>>, streams: map<nat, Stream>)

  const EMPTY := State(map[], map[], map[])

  function ScopeKey(e: Entity): string {
    e.etype + ":" + e.eid
  }

  predicate SameScope(a: Request, b: Request) {
    a.tenant == b.tenant && ScopeKey(a.entity) == ScopeKey(b.entity)
  }

  // ----- the viewer store -----

  function Viewers(store: Store, tenant: string, key: string): seq<string> {
    if tenant in store && key in store[tenant] then store[tenant][key] else []
  }

  function AddViewer(store: Store, tenant: string, key: string, user: string): Store {
    var scopes := if tenant in store then store[tenant] else map[];
    var users := Viewers(store, tenant, key);
    store[tenant := scopes[key := if user in users then users else users + [user]]]
  }

  function Without<T(==, !new)>(s: seq<T>, x: T): (r: seq<T>)
    ensures forall y :: y in r <==> y in s && y != x
    ensures NoDuplicates(s) ==> NoDuplicates(r)
  {
    if s == [] then []
    else
      var rest := Without(s[..|s| - 1], x);
      assert s == s[..|s| - 1] + [s[|s| - 1]];
      assert NoDuplicates(s) ==> s[|s| - 1] !in s[..|s| - 1];
      if s[|s| - 1] == x then rest else rest + [s[|s| - 1]]
  }

  function DropViewer(store: Store, tenant: string, key: string, user: string): Store {
    if tenant in store && key in store[tenant]
    then store[tenant := store[tenant][key := Without(store[tenant][key], user)]]
    else store
  }

  // ----- queues and fan-out -----

  function QueueList(queues: map<string, seq<nat>>, tenant: string): seq<nat> {
    if tenant in queues then queues[tenant] else []
  }

  function Deliver(streams: map<nat, Stream>, id: nat, e: Event): map<nat, Stream> {
    if id in streams then streams[id := streams[id].(inbox := streams[id].inbox + [e])] else streams
  }

  /** Put e on every queue of the list, one occurrence after the other. */
  function FanOut(streams: map<nat, Stream>, ids: seq<nat>, e: Event): map<nat, Stream> {
    if ids == [] then streams else Deliver(FanOut(streams, ids[..|ids| - 1], e), ids[|ids| - 1], e)
  }

  // ----- the five steps -----

  datatype Action =
    | Start(id: nat, req: Request)
    | Emit(id: nat)
    | Announce(id: nat)
    | Receive(id: nat)
    | Leave(id: nat)

  predicate Enabled(st: State, a: Action) {
    if a.Start? then a.id !in st.streams
    else
      && a.id in st.streams
      && match a
         case Emit(id) => st.streams[id].phase.Snapshotting? && st.streams[id].phase.pending != []
         case Announce(id) => st.streams[id].phase == Snapshotting([])
         case Receive(id) => st.streams[id].phase.Listening? && st.streams[id].inbox != []
         case _ => true
  }

  /** Register the viewer, register the queue and list the scope's viewers, with no suspension in between. */
  function StartStep(st: State, id: nat, req: Request): State {
    var key := ScopeKey(req.entity);
    var store := AddViewer(st.store, req.tenant, key, req.user);
    State(store,
          st.queues[req.tenant := QueueList(st.queues, req.tenant) + [id]],
          st.streams[id := Stream(req, Snapshotting(Viewers(store, req.tenant, key)), [], [])])
  }

  /** Yield one snapshot row. */
  function EmitStep(st: State, id: nat): State
    requires Enabled(st, Emit(id))
  {
    var s := st.streams[id];
    st.(streams := st.streams[id := s.(phase := Snapshotting(s.phase.pending[1..]),
                                       sent := s.sent + [Event(s.phase.pending[0], s.req.entity, Viewing)])])
  }

  /** Tell every queue of the tenant that the viewer has joined, and start listening. */
  function AnnounceStep(st: State, id: nat): State
    requires Enabled(st, Announce(id))
  {
    var s := st.streams[id];
    var e := Event(s.req.user, s.req.entity, Viewing);
    st.(streams := FanOut(st.streams[id := s.(phase := Listening)], QueueList(st.queues, s.req.tenant), e))
  }

  /** Take one event off the queue; yield it only when it is about this stream's entity. */
  function ReceiveStep(st: State, id: nat): State
    requires Enabled(st, Receive(id))
  {
    var s := st.streams[id];
    var sent := if s.inbox[0].entity == s.req.entity then s.sent + [s.inbox[0]] else s.sent;
    st.(streams := st.streams[id := s.(inbox := s.inbox[1..], sent := sent)])
  }

  /** End a stream, at whichever point it is: unregister the viewer and the queue, and tell the others. */
  function LeaveStep(st: State, id: nat): State
    requires Enabled(st, Leave(id))
  {
    var req := st.streams[id].req;
    var queues := if req.tenant in st.queues
                  then st.queues[req.tenant := Without(st.queues[req.tenant], id)] else st.queues;
    State(DropViewer(st.store, req.tenant, ScopeKey(req.entity), req.user),
          queues,
          FanOut(st.streams - {id}, QueueList(queues, req.tenant), Event(req.user, req.entity, Left)))
  }

  function Step(st: State, a: Action): State
    requires Enabled(st, a)
  {
    match a
    case Start(id, req) => StartStep(st, id, req)
    case Emit(id) => EmitStep(st, id)
    case Announce(id) => AnnounceStep(st, id)
    case Receive(id) => ReceiveStep(st, id)
    case Leave(id) => LeaveStep(st, id)
  }

  /** An interleaving that the server can go through from st. */
  predicate IsRun(st: State, run: seq<Action>)
    decreases run
  {
    run == [] || (Enabled(st, run[0]) && IsRun(Step(st, run[0]), run[1..]))
  }

  function After(st: State, run: seq<Action>): State
    requires IsRun(st, run)
    decreases run
  {
    if run == [] then st else After(Step(st, run[0]), run[1..])
  }

  // ----- what a client sees -----

  function Apply(view: set<string>, e: Event): set<string> {
    match e.kind
    case Viewing => view + {e.user}
    case Left => view - {e.user}
  }

  /** The viewer set a client holds after reading these events. */
  function Replay(es: seq<Event>): set<string> {
    if es == [] then {} else Apply(Replay(es[..|es| - 1]), es[|es| - 1])
  }

  function Matching(es: seq<Event>, entity: Entity): seq<Event> {
    if es == [] then []
    else
      var rest := Matching(es[..|es| - 1], entity);
      if es[|es| - 1].entity == entity then rest + [es[|es| - 1]] else rest
  }

  function Rows(users: seq<string>, entity: Entity): seq<Event> {
    seq(|users|, i requires 0 <= i < |users| => Event(users[i], entity, Viewing))
  }

  /** All that the client has been sent, then all it is still going to be sent. */
  function Story(s: Stream): seq<Event> {
    s.sent + (if s.phase.Snapshotting? then Rows(s.phase.pending, s.req.entity) else [])
    + Matching(s.inbox, s.req.entity)
  }

  // ----- invariants -----

  predicate NoDuplicates<T(==)>(s: seq<T>) {
    forall i, j :: 0 <= i < j < |s| ==> s[i] != s[j]
  }

  predicate Serves(st: State, id: nat, tenant: string, key: string, user: string) {
    && id in st.streams
    && st.streams[id].req.tenant == tenant
    && ScopeKey(st.streams[id].req.entity) == key
    && st.streams[id].req.user == user
  }

  /** Each tenant's list holds exactly the queues of its live streams, once each. */
  ghost predicate QueuesExact(st: State) {
    forall tenant: string ::
      && NoDuplicates(QueueList(st.queues, tenant))
      && forall id: nat :: id in QueueList(st.queues, tenant)
                           <==> id in st.streams && st.streams[id].req.tenant == tenant
  }

  /** Each stored viewer is stored once and has a live stream. */
  ghost predicate StoreBacked(st: State) {
    forall tenant: string, key: string ::
      && NoDuplicates(Viewers(st.store, tenant, key))
      && forall user :: user in Viewers(st.store, tenant, key) ==> exists id :: Serves(st, id, tenant, key, user)
  }

  /** Each live stream's user is in the store. */
  ghost predicate StoreComplete(st: State) {
    forall id :: id in st.streams ==>
      var req := st.streams[id].req; req.user in Viewers(st.store, req.tenant, ScopeKey(req.entity))
  }

  /** No two live streams of a tenant share a scope key without sharing the entity. */
  ghost predicate OneEntityPerKey(st: State) {
    forall i, j :: i in st.streams && j in st.streams && SameScope(st.streams[i].req, st.streams[j].req)
                   ==> st.streams[i].req.entity == st.streams[j].req.entity
  }

  /** The user is registered for this entity but has not announced it yet. */
  ghost predicate Joining(st: State, tenant: string, entity: Entity, user: string) {
    exists id :: id in st.streams && st.streams[id].phase.Snapshotting?
                 && st.streams[id].req == Request(tenant, user, entity)
  }

  /** The story of stream id, together with those still joining, is the store. */
  ghost predicate Agrees(st: State, id: nat)
    requires id in st.streams
  {
    var req := st.streams[id].req;
    forall user :: user in Replay(Story(st.streams[id])) || Joining(st, req.tenant, req.entity, user)
                   <==> user in Viewers(st.store, req.tenant, ScopeKey(req.entity))
  }

  ghost predicate ViewsAgree(st: State) {
    forall id :: id in st.streams ==> Agrees(st, id)
  }

  ghost predicate Bookkeeping(st: State) {
    QueuesExact(st) && StoreBacked(st)
  }

  ghost predicate Inv(st: State) {
    && Bookkeeping(st)
    && StoreComplete(st)
    && OneEntityPerKey(st)
    && ViewsAgree(st)
  }

  /** No other live stream shows the same user in the same scope. */
  ghost predicate NoTwin(st: State, id: nat)
    requires id in st.streams
  {
    var req := st.streams[id].req;
    forall j :: Serves(st, j, req.tenant, ScopeKey(req.entity), req.user) ==> j == id
  }

  /** No live stream of the tenant uses the same scope key for another entity. */
  ghost predicate NoClash(st: State, req: Request) {
    forall j :: j in st.streams && SameScope(st.streams[j].req, req) ==> st.streams[j].req.entity == req.entity
  }

  ghost predicate Careful(st: State, a: Action)
    requires Enabled(st, a)
  {
    && (a.Leave? ==> NoTwin(st, a.id))
    && (a.Start? ==> NoClash(st, a.req))
  }

  ghost predicate IsCarefulRun(st: State, run: seq<Action>)
    decreases run
  {
    run == []
    || (Enabled(st, run[0]) && Careful(st, run[0]) && IsCarefulRun(Step(st, run[0]), run[1..]))
  }

  // ----- lemmas on events -----

  lemma {:induction false} MatchingFront(e: Event, es: seq<Event>, entity: Entity)
    ensures Matching([e] + es, entity) == (if e.entity == entity then [e] else []) + Matching(es, entity)
  {
    if es == [] {
      assert ([e] + es)[..0] == [];
    } else {
      var last := |es| - 1;
      MatchingFront(e, es[..last], entity);
      assert ([e] + es)[..|es|] == [e] + es[..last];
    }
  }

  lemma {:induction false} ReplayRows(users: seq<string>, entity: Entity)
    ensures forall u :: u in Replay(Rows(users, entity)) <==> u in users
  {
    if users != [] {
      var last := |users| - 1;
      ReplayRows(users[..last], entity);
      assert Rows(users, entity)[..last] == Rows(users[..last], entity);
      assert users == users[..last] + [users[last]];
    }
  }

  /** An event put on a queue extends the story when it matches, and leaves it alone when not. */
  lemma StoryExtends(s: Stream, e: Event)
    ensures var s' := s.(inbox := s.inbox + [e]);
            Replay(Story(s')) == if e.entity == s.req.entity then Apply(Replay(Story(s)), e) else Replay(Story(s))
  {
    var s' := s.(inbox := s.inbox + [e]);
    assert s'.inbox[..|s.inbox|] == s.inbox;
    if e.entity == s.req.entity {
      assert Story(s') == Story(s) + [e];
      assert Story(s')[..|Story(s)|] == Story(s);
    } else {
      assert Story(s') == Story(s);
    }
  }

  lemma RowsFront(p: seq<string>, entity: Entity)
    requires p != []
    ensures Rows(p, entity) == [Event(p[0], entity, Viewing)] + Rows(p[1..], entity)
  {
  }

  lemma StoryKeptByEmit(st: State, id: nat)
    requires Enabled(st, Emit(id))
    ensures Story(EmitStep(st, id).streams[id]) == Story(st.streams[id])
  {
    RowsFront(st.streams[id].phase.pending, st.streams[id].req.entity);
  }

  lemma StoryKeptByReceive(st: State, id: nat)
    requires Enabled(st, Receive(id))
    ensures Story(ReceiveStep(st, id).streams[id]) == Story(st.streams[id])
  {
    var s := st.streams[id];
    assert s.inbox == [s.inbox[0]] + s.inbox[1..];
    MatchingFront(s.inbox[0], s.inbox[1..], s.req.entity);
  }

  /** Yielding a snapshot row or taking an event off the queue does not change the story. */
  lemma StoryKept(st: State, a: Action)
    requires Enabled(st, a) && (a.Emit? || a.Receive?)
    ensures Story(Step(st, a).streams[a.id]) == Story(st.streams[a.id])
  {
    if a.Emit? {
      StoryKeptByEmit(st, a.id);
    } else {
      StoryKeptByReceive(st, a.id);
    }
  }

  // ----- lemmas on fan-out -----

  lemma {:induction false} FanOutOnce(streams: map<nat, Stream>, ids: seq<nat>, e: Event)
    requires NoDuplicates(ids)
    ensures FanOut(streams, ids, e).Keys == streams.Keys
    ensures forall id :: id in streams ==>
      FanOut(streams, ids, e)[id]
      == if id in ids then streams[id].(inbox := streams[id].inbox + [e]) else streams[id]
  {
    if ids != [] {
      var last := |ids| - 1;
      FanOutOnce(streams, ids[..last], e);
      assert ids == ids[..last] + [ids[last]];
      assert ids[last] !in ids[..last];
    }
  }

  /** Fanning out to a tenant's list reaches exactly that tenant's streams. */
  lemma FanOutTenant(streams: map<nat, Stream>, ids: seq<nat>, tenant: string, e: Event)
    requires NoDuplicates(ids)
    requires forall id: nat :: id in ids <==> id in streams && streams[id].req.tenant == tenant
    ensures FanOut(streams, ids, e).Keys == streams.Keys
    ensures forall id :: id in streams ==>
      FanOut(streams, ids, e)[id]
      == if streams[id].req.tenant == tenant then streams[id].(inbox := streams[id].inbox + [e]) else streams[id]
  {
    FanOutOnce(streams, ids, e);
  }
}
