/**
What every interleaving of presence streams keeps, and exactly when the clients' views agree
with the store.
*/
module PresenceSafety {
  import opened Presence

  // ----- bookkeeping, for any interleaving -----

  lemma AddViewerSets(store: Store, tenant: string, key: string, user: string)
    ensures var store' := AddViewer(store, tenant, key, user);
            forall t, k :: (forall u :: u in Viewers(store', t, k)
                                        <==> u in Viewers(store, t, k) || (t == tenant && k == key && u == user))
                           && (NoDuplicates(Viewers(store, t, k)) ==> NoDuplicates(Viewers(store', t, k)))
  {
  }

  lemma DropViewerSets(store: Store, tenant: string, key: string, user: string)
    ensures var store' := DropViewer(store, tenant, key, user);
            forall t, k :: (forall u :: u in Viewers(store', t, k)
                                        <==> u in Viewers(store, t, k) && !(t == tenant && k == key && u == user))
                           && (NoDuplicates(Viewers(store, t, k)) ==> NoDuplicates(Viewers(store', t, k)))
  {
  }

  lemma AnnounceStreams(st: State, id: nat)
    requires QueuesExact(st) && Enabled(st, Announce(id))
    ensures var s, streams := st.streams[id], AnnounceStep(st, id).streams;
            var e := Event(s.req.user, s.req.entity, Viewing);
            && streams.Keys == st.streams.Keys
            && streams[id] == s.(phase := Listening, inbox := s.inbox + [e])
            && forall j :: j in st.streams && j != id ==>
                 streams[j] == if st.streams[j].req.tenant == s.req.tenant
                               then st.streams[j].(inbox := st.streams[j].inbox + [e]) else st.streams[j]
  {
    var s := st.streams[id];
    FanOutTenant(st.streams[id := s.(phase := Listening)], QueueList(st.queues, s.req.tenant), s.req.tenant,
                 Event(s.req.user, s.req.entity, Viewing));
  }

  lemma LeaveStreams(st: State, id: nat)
    requires QueuesExact(st) && Enabled(st, Leave(id))
    ensures var req, streams := st.streams[id].req, LeaveStep(st, id).streams;
            var e := Event(req.user, req.entity, Left);
            && streams.Keys == st.streams.Keys - {id}
            && forall j :: j in st.streams && j != id ==>
                 streams[j] == if st.streams[j].req.tenant == req.tenant
                               then st.streams[j].(inbox := st.streams[j].inbox + [e]) else st.streams[j]
  {
    var req := st.streams[id].req;
    assert id in QueueList(st.queues, req.tenant);
    FanOutTenant(st.streams - {id}, Without(st.queues[req.tenant], id), req.tenant, Event(req.user, req.entity, Left));
  }

  /** Each step keeps the requests of the streams it does not start or end. */
  lemma StepStreams(st: State, a: Action)
    requires QueuesExact(st) && Enabled(st, a)
    ensures Step(st, a).streams.Keys
            == if a.Start? then st.streams.Keys + {a.id}
               else if a.Leave? then st.streams.Keys - {a.id} else st.streams.Keys
    ensures forall j :: j in st.streams && j in Step(st, a).streams ==> Step(st, a).streams[j].req == st.streams[j].req
    ensures forall j :: j in st.streams && j != a.id && j in Step(st, a).streams ==>
      Step(st, a).streams[j].phase == st.streams[j].phase && Step(st, a).streams[j].sent == st.streams[j].sent
    ensures forall j :: j in st.streams && j != a.id && j in Step(st, a).streams ==>
      Step(st, a).streams[j].inbox
      == if (a.Announce? || a.Leave?) && st.streams[j].req.tenant == st.streams[a.id].req.tenant
         then st.streams[j].inbox + [Event(st.streams[a.id].req.user, st.streams[a.id].req.entity,
                                           if a.Leave? then Left else Viewing)]
         else st.streams[j].inbox
    ensures a.Announce? ==>
      var s := st.streams[a.id];
      Step(st, a).streams[a.id]
      == s.(phase := Listening, inbox := s.inbox + [Event(s.req.user, s.req.entity, Viewing)])
  {
    if a.Announce? {
      AnnounceStreams(st, a.id);
    } else if a.Leave? {
      LeaveStreams(st, a.id);
    } else {
      OtherStreams(st, a);
    }
  }

  /** The steps that put nothing on a queue leave every other stream as it is. */
  lemma OtherStreams(st: State, a: Action)
    requires Enabled(st, a) && !a.Announce? && !a.Leave?
    ensures Step(st, a).streams.Keys == st.streams.Keys + {a.id}
    ensures forall j :: j in st.streams && j != a.id ==> Step(st, a).streams[j] == st.streams[j]
    ensures !a.Start? ==> Step(st, a).streams[a.id].req == st.streams[a.id].req
  {
  }

  lemma QueuesExactKept(st: State, a: Action)
    requires QueuesExact(st) && Enabled(st, a)
    ensures QueuesExact(Step(st, a))
  {
    StepStreams(st, a);
    var st' := Step(st, a);
    forall tenant: string
      ensures NoDuplicates(QueueList(st'.queues, tenant))
      ensures forall id: nat :: id in QueueList(st'.queues, tenant)
                                <==> id in st'.streams && st'.streams[id].req.tenant == tenant
    {
      assert NoDuplicates(QueueList(st.queues, tenant));
      if a.Start? {
        assert a.id !in QueueList(st.queues, tenant);
      }
    }
  }

  lemma StoreBackedKept(st: State, a: Action)
    requires Bookkeeping(st) && Enabled(st, a)
    ensures StoreBacked(Step(st, a))
  {
    StepStreams(st, a);
    var st' := Step(st, a);
    if a.Start? {
      AddViewerSets(st.store, a.req.tenant, ScopeKey(a.req.entity), a.req.user);
    } else if a.Leave? {
      var req := st.streams[a.id].req;
      DropViewerSets(st.store, req.tenant, ScopeKey(req.entity), req.user);
    }
    forall tenant: string, key: string
      ensures NoDuplicates(Viewers(st'.store, tenant, key))
      ensures forall user :: user in Viewers(st'.store, tenant, key) ==> exists id :: Serves(st', id, tenant, key, user)
    {
      assert NoDuplicates(Viewers(st.store, tenant, key));
      forall user | user in Viewers(st'.store, tenant, key)
        ensures exists id :: Serves(st', id, tenant, key, user)
      {
        if user in Viewers(st.store, tenant, key) {
          var id :| Serves(st, id, tenant, key, user);
          assert Serves(st', id, tenant, key, user);
        } else {
          assert Serves(st', a.id, tenant, key, user);
        }
      }
    }
  }

  lemma BookkeepingKept(st: State, a: Action)
    requires Bookkeeping(st) && Enabled(st, a)
    ensures Bookkeeping(Step(st, a))
  {
    QueuesExactKept(st, a);
    StoreBackedKept(st, a);
  }

  /** Whatever is cancelled when, no viewer is left without a stream and no queue is lost or duplicated. */
  lemma {:induction false} BookkeepingAlways(st: State, run: seq<Action>)
    requires Bookkeeping(st) && IsRun(st, run)
    ensures Bookkeeping(After(st, run))
    decreases run
  {
    if run != [] {
      BookkeepingKept(st, run[0]);
      BookkeepingAlways(Step(st, run[0]), run[1..]);
    }
  }

  // ----- agreement of the views with the store -----

  lemma OneEntityKept(st: State, a: Action)
    requires QueuesExact(st) && OneEntityPerKey(st) && Enabled(st, a)
    requires a.Start? ==> NoClash(st, a.req)
    ensures OneEntityPerKey(Step(st, a))
  {
    StepStreams(st, a);
    var st' := Step(st, a);
    forall i, j | i in st'.streams && j in st'.streams && SameScope(st'.streams[i].req, st'.streams[j].req)
      ensures st'.streams[i].req.entity == st'.streams[j].req.entity
    {
    }
  }

  lemma StoreCompleteKept(st: State, a: Action)
    requires QueuesExact(st) && StoreComplete(st) && Enabled(st, a)
    requires a.Leave? ==> NoTwin(st, a.id)
    ensures StoreComplete(Step(st, a))
  {
    StepStreams(st, a);
    var st' := Step(st, a);
    if a.Start? {
      AddViewerSets(st.store, a.req.tenant, ScopeKey(a.req.entity), a.req.user);
    } else if a.Leave? {
      var req := st.streams[a.id].req;
      DropViewerSets(st.store, req.tenant, ScopeKey(req.entity), req.user);
    }
    forall j | j in st'.streams
      ensures st'.streams[j].req.user
              in Viewers(st'.store, st'.streams[j].req.tenant, ScopeKey(st'.streams[j].req.entity))
    {
      if j in st.streams {
        var req := st.streams[j].req;
        assert Serves(st, j, req.tenant, ScopeKey(req.entity), req.user);
      }
    }
  }

  /** Leaving while a twin is live takes the twin's user out of the store. */
  lemma TwinHidden(st: State, id: nat)
    requires QueuesExact(st) && Enabled(st, Leave(id)) && !NoTwin(st, id)
    ensures !StoreComplete(Step(st, Leave(id)))
  {
    StepStreams(st, Leave(id));
    var st' := Step(st, Leave(id));
    var req := st.streams[id].req;
    DropViewerSets(st.store, req.tenant, ScopeKey(req.entity), req.user);
    var j :| Serves(st, j, req.tenant, ScopeKey(req.entity), req.user) && j != id;
    assert j in st'.streams && st'.streams[j].req.user !in Viewers(st'.store, req.tenant, ScopeKey(req.entity));
  }

  ghost predicate JoiningVia(st: State, id: nat, req: Request) {
    id in st.streams && st.streams[id].phase.Snapshotting? && st.streams[id].req == req
  }

  lemma JoiningHas(st: State, id: nat, req: Request)
    requires JoiningVia(st, id, req)
    ensures Joining(st, req.tenant, req.entity, req.user)
  {
  }

  lemma JoiningWitness(st: State, req: Request) returns (id: nat)
    requires Joining(st, req.tenant, req.entity, req.user)
    ensures JoiningVia(st, id, req)
  {
    id :| id in st.streams && st.streams[id].phase.Snapshotting?
          && st.streams[id].req == Request(req.tenant, req.user, req.entity);
  }

  /** Somebody is joining with this request through a stream other than id. */
  ghost predicate JoiningElsewhere(st: State, id: nat, req: Request) {
    exists j :: j != id && JoiningVia(st, j, req)
  }

  lemma JoiningAsBefore(st: State, a: Action, req: Request, j: nat)
    requires QueuesExact(st) && Enabled(st, a) && j in st.streams && j != a.id
    ensures j in Step(st, a).streams && (JoiningVia(st, j, req) <==> JoiningVia(Step(st, a), j, req))
  {
    StepStreams(st, a);
  }

  /** The stream that takes the step joins afterwards when it starts, or goes on yielding its snapshot. */
  lemma JoiningItself(st: State, a: Action, req: Request)
    requires QueuesExact(st) && Enabled(st, a)
    ensures JoiningVia(Step(st, a), a.id, req)
            <==> (a.Start? && a.req == req) || ((a.Emit? || a.Receive?) && JoiningVia(st, a.id, req))
  {
    StepStreams(st, a);
  }

  /**
  How a step changes who is joining: a start adds its request, and after an announcement or a leave those
  are left who join through another stream.
  */
  lemma JoiningAfter(st: State, a: Action, req: Request)
    requires QueuesExact(st) && Enabled(st, a)
    ensures a.Start? ==>
      (Joining(Step(st, a), req.tenant, req.entity, req.user)
       <==> Joining(st, req.tenant, req.entity, req.user) || a.req == req)
    ensures a.Emit? || a.Receive? ==>
      (Joining(Step(st, a), req.tenant, req.entity, req.user) <==> Joining(st, req.tenant, req.entity, req.user))
    ensures a.Announce? || a.Leave? ==>
      (Joining(Step(st, a), req.tenant, req.entity, req.user) <==> JoiningElsewhere(st, a.id, req))
  {
    var st' := Step(st, a);
    JoiningItself(st, a, req);
    if Joining(st, req.tenant, req.entity, req.user) {
      var j := JoiningWitness(st, req);
      if j != a.id { JoiningAsBefore(st, a, req, j); JoiningHas(st', j, req); }
    }
    if Joining(st', req.tenant, req.entity, req.user) {
      var j := JoiningWitness(st', req);
      if j != a.id {
        assert j in st.streams by { StepStreams(st, a); }
        JoiningAsBefore(st, a, req, j);
        JoiningHas(st, j, req);
      } else if !a.Start? {
        JoiningHas(st, j, req);
      }
    }
    if JoiningVia(st', a.id, req) { JoiningHas(st', a.id, req); }
    if j :| j != a.id && JoiningVia(st, j, req) {
      JoiningAsBefore(st, a, req, j);
      JoiningHas(st', j, req);
    }
  }

  /** Who joins with another request than the acting stream's is joining elsewhere. */
  lemma JoiningOthers(st: State, id: nat, req: Request)
    requires id in st.streams && st.streams[id].req != req
    ensures JoiningElsewhere(st, id, req) <==> Joining(st, req.tenant, req.entity, req.user)
  {
    if Joining(st, req.tenant, req.entity, req.user) {
      var j := JoiningWitness(st, req);
    }
    if j :| j != id && JoiningVia(st, j, req) {
      JoiningHas(st, j, req);
    }
  }

  lemma NobodyElsewhere(st: State, id: nat)
    requires id in st.streams && NoTwin(st, id)
    ensures !JoiningElsewhere(st, id, st.streams[id].req)
  {
    var req := st.streams[id].req;
    if j :| j != id && JoiningVia(st, j, req) {
      assert Serves(st, j, req.tenant, ScopeKey(req.entity), req.user);
    }
  }

  /** How a step changes the view that a stream's story leads to. */
  lemma StoryAfter(st: State, a: Action, id: nat)
    requires QueuesExact(st) && Enabled(st, a) && id in st.streams && id in Step(st, a).streams
    ensures Replay(Story(Step(st, a).streams[id]))
            == if (a.Announce? || a.Leave?) && st.streams[a.id].req.tenant == st.streams[id].req.tenant
                  && st.streams[a.id].req.entity == st.streams[id].req.entity
               then Apply(Replay(Story(st.streams[id])),
                          Event(st.streams[a.id].req.user, st.streams[a.id].req.entity,
                                if a.Leave? then Left else Viewing))
               else Replay(Story(st.streams[id]))
  {
    StepStreams(st, a);
    var s, s' := st.streams[id], Step(st, a).streams[id];
    if a.Emit? || a.Receive? {
      StoryKept(st, a);
      if id != a.id { assert Story(s') == Story(s); }
    } else if a.Start? {
      assert Story(s') == Story(s);
    } else {
      var other := st.streams[a.id].req;
      var e := Event(other.user, other.entity, if a.Leave? then Left else Viewing);
      if other.tenant == s.req.tenant {
        StoryExtends(s, e);
        assert Story(s') == Story(s.(inbox := s.inbox + [e]));
      } else {
        assert Story(s') == Story(s);
      }
    }
  }

  /** How a step changes the store. */
  lemma ViewersAfter(st: State, a: Action, tenant: string, key: string, user: string)
    requires Enabled(st, a)
    ensures user in Viewers(Step(st, a).store, tenant, key) <==>
      if a.Start? then user in Viewers(st.store, tenant, key)
                       || (a.req.tenant == tenant && ScopeKey(a.req.entity) == key && a.req.user == user)
      else user in Viewers(st.store, tenant, key) && !(a.Leave? && Serves(st, a.id, tenant, key, user))
  {
    if a.Start? {
      AddViewerSets(st.store, a.req.tenant, ScopeKey(a.req.entity), a.req.user);
    } else if a.Leave? {
      var req := st.streams[a.id].req;
      DropViewerSets(st.store, req.tenant, ScopeKey(req.entity), req.user);
    }
  }

  /** An already live stream still agrees with the store after a careful step. */
  lemma AgreementKept(st: State, a: Action, id: nat)
    requires QueuesExact(st) && OneEntityPerKey(st) && Enabled(st, a)
    requires id in st.streams && id in Step(st, a).streams && Agrees(st, id)
    requires a.Start? ==> NoClash(st, a.req)
    requires a.Leave? ==> NoTwin(st, a.id)
    ensures Agrees(Step(st, a), id)
  {
    var st' := Step(st, a);
    var req := st.streams[id].req;
    assert st'.streams[id].req == req by { StepStreams(st, a); }
    StoryAfter(st, a, id);
    forall user
      ensures user in Replay(Story(st'.streams[id])) || Joining(st', req.tenant, req.entity, user)
              <==> user in Viewers(st'.store, req.tenant, ScopeKey(req.entity))
    {
      var r := Request(req.tenant, user, req.entity);
      JoiningAfter(st, a, r);
      ViewersAfter(st, a, req.tenant, ScopeKey(req.entity), user);
      if a.Announce? || a.Leave? {
        assert SameScope(st.streams[a.id].req, req) ==> st.streams[a.id].req.entity == req.entity;
        if st.streams[a.id].req != r {
          JoiningOthers(st, a.id, r);
        } else if a.Leave? {
          NobodyElsewhere(st, a.id);
        } else {
          JoiningHas(st, a.id, r);
        }
      }
    }
  }

  /** A new stream's snapshot agrees with the store. */
  lemma SnapshotAgrees(st: State, a: Action)
    requires QueuesExact(st) && StoreComplete(st) && Enabled(st, a) && a.Start?
    ensures Agrees(Step(st, a), a.id)
  {
    StoreCompleteKept(st, a);
    var st' := Step(st, a);
    var s := st'.streams[a.id];
    assert s.req == a.req && s.sent == [] && s.inbox == [];
    assert Story(s) == Rows(s.phase.pending, a.req.entity);
    ReplayRows(s.phase.pending, a.req.entity);
    forall user | Joining(st', a.req.tenant, a.req.entity, user)
      ensures user in Viewers(st'.store, a.req.tenant, ScopeKey(a.req.entity))
    {
      JoinersAreStored(st', Request(a.req.tenant, user, a.req.entity));
    }
  }

  lemma JoinersAreStored(st: State, req: Request)
    requires StoreComplete(st) && Joining(st, req.tenant, req.entity, req.user)
    ensures req.user in Viewers(st.store, req.tenant, ScopeKey(req.entity))
  {
    var j := JoiningWitness(st, req);
  }

  lemma AllAgree(st: State, a: Action)
    requires QueuesExact(st) && OneEntityPerKey(st) && StoreComplete(st) && ViewsAgree(st) && Enabled(st, a)
    requires a.Start? ==> NoClash(st, a.req)
    requires a.Leave? ==> NoTwin(st, a.id)
    ensures ViewsAgree(Step(st, a))
  {
    forall id | id in Step(st, a).streams
      ensures Agrees(Step(st, a), id)
    {
      if a.Start? && id == a.id {
        SnapshotAgrees(st, a);
      } else {
        assert id in st.streams by { StepStreams(st, a); }
        AgreementKept(st, a, id);
      }
    }
  }

  lemma InvKept(st: State, a: Action)
    requires Inv(st) && Enabled(st, a) && Careful(st, a)
    ensures Inv(Step(st, a))
  {
    BookkeepingKept(st, a);
    OneEntityKept(st, a);
    StoreCompleteKept(st, a);
    AllAgree(st, a);
  }

  /** Starting under the scope key of another entity puts two entities under one key. */
  lemma ClashShows(st: State, a: Action)
    requires QueuesExact(st) && Enabled(st, a) && a.Start? && !NoClash(st, a.req)
    ensures !OneEntityPerKey(Step(st, a))
  {
    StepStreams(st, a);
    var st' := Step(st, a);
    var j :| j in st.streams && SameScope(st.streams[j].req, a.req) && st.streams[j].req.entity != a.req.entity;
    assert j in st'.streams && a.id in st'.streams && SameScope(st'.streams[j].req, st'.streams[a.id].req);
  }

  /**
  The induction step: the whole invariant, the uniqueness of entities under a key included, is kept
  exactly by the careful steps.
  */
  lemma InvKeptExactly(st: State, a: Action)
    requires Inv(st) && Enabled(st, a)
    ensures Inv(Step(st, a)) <==> Careful(st, a)
  {
    if a.Leave? && !NoTwin(st, a.id) {
      TwinHidden(st, a.id);
    } else if a.Start? && !NoClash(st, a.req) {
      ClashShows(st, a);
    } else {
      InvKept(st, a);
    }
  }

  // ----- exactly when a step hurts the views -----

  /** A stream of another entity under the same scope key. */
  ghost predicate Clashing(st: State, j: nat, req: Request) {
    j in st.streams && SameScope(st.streams[j].req, req) && st.streams[j].req.entity != req.entity
  }

  /** Another stream of the same request has not announced itself yet. */
  ghost predicate TwinJoining(st: State, id: nat)
    requires id in st.streams
  {
    JoiningElsewhere(st, id, st.streams[id].req)
  }

  /**
  A user not yet stored who starts under another entity's scope key shows in the store but not in that
  entity's views.
  */
  lemma ClashDiverges(st: State, a: Action, j: nat)
    requires Inv(st) && Enabled(st, a) && a.Start? && Clashing(st, j, a.req)
    requires a.req.user !in Viewers(st.store, a.req.tenant, ScopeKey(a.req.entity))
    ensures j in Step(st, a).streams && !Agrees(Step(st, a), j)
  {
    var st' := Step(st, a);
    var req := st.streams[j].req;
    assert j in st'.streams && st'.streams[j].req == req by { StepStreams(st, a); }
    StoryAfter(st, a, j);
    JoiningAfter(st, a, Request(req.tenant, a.req.user, req.entity));
    ViewersAfter(st, a, req.tenant, ScopeKey(req.entity), a.req.user);
    assert Agrees(st, j);
  }

  /** A clash by a user who is stored already changes no view and no store entry. */
  lemma StoredClashAgrees(st: State, a: Action, id: nat)
    requires Inv(st) && Enabled(st, a) && a.Start? && id in st.streams && id in Step(st, a).streams
    requires a.req.user in Viewers(st.store, a.req.tenant, ScopeKey(a.req.entity))
    ensures Agrees(Step(st, a), id)
  {
    var st' := Step(st, a);
    var req := st.streams[id].req;
    assert st'.streams[id].req == req by { StepStreams(st, a); }
    StoryAfter(st, a, id);
    forall user
      ensures user in Replay(Story(st'.streams[id])) || Joining(st', req.tenant, req.entity, user)
              <==> user in Viewers(st'.store, req.tenant, ScopeKey(req.entity))
    {
      JoiningAfter(st, a, Request(req.tenant, user, req.entity));
      ViewersAfter(st, a, req.tenant, ScopeKey(req.entity), user);
    }
  }

  /**
  A start keeps every view in agreement with the store if and only if no stream of another entity has
  the scope key, or the user is already stored under it. It always keeps the store complete.
  */
  lemma StartKeepsViewsExactly(st: State, a: Action)
    requires Inv(st) && Enabled(st, a) && a.Start?
    ensures StoreComplete(Step(st, a))
    ensures ViewsAgree(Step(st, a))
            <==> NoClash(st, a.req) || a.req.user in Viewers(st.store, a.req.tenant, ScopeKey(a.req.entity))
  {
    StoreCompleteKept(st, a);
    if NoClash(st, a.req) {
      AllAgree(st, a);
    } else if a.req.user in Viewers(st.store, a.req.tenant, ScopeKey(a.req.entity)) {
      forall id | id in Step(st, a).streams
        ensures Agrees(Step(st, a), id)
      {
        if id == a.id {
          SnapshotAgrees(st, a);
        } else {
          assert id in st.streams by { StepStreams(st, a); }
          StoredClashAgrees(st, a, id);
        }
      }
    } else {
      var j :| j in st.streams && SameScope(st.streams[j].req, a.req) && st.streams[j].req.entity != a.req.entity;
      ClashDiverges(st, a, j);
    }
  }

  lemma AgreesAfterLeave(st: State, id: nat, k: nat)
    requires Inv(st) && Enabled(st, Leave(id)) && k != id && k in st.streams && k in Step(st, Leave(id)).streams
    requires !TwinJoining(st, id)
    ensures Agrees(Step(st, Leave(id)), k)
  {
    var st' := Step(st, Leave(id));
    var req, gone := st.streams[k].req, st.streams[id].req;
    assert st'.streams[k].req == req by { StepStreams(st, Leave(id)); }
    StoryAfter(st, Leave(id), k);
    assert SameScope(gone, req) ==> gone.entity == req.entity;
    forall user
      ensures user in Replay(Story(st'.streams[k])) || Joining(st', req.tenant, req.entity, user)
              <==> user in Viewers(st'.store, req.tenant, ScopeKey(req.entity))
    {
      ViewersAfter(st, Leave(id), req.tenant, ScopeKey(req.entity), user);
      var r := Request(req.tenant, user, req.entity);
      JoiningAfter(st, Leave(id), r);
      if r != gone { JoiningOthers(st, id, r); }
    }
  }

  lemma JoiningTwinDisagrees(st: State, id: nat, j: nat)
    requires QueuesExact(st) && Enabled(st, Leave(id)) && j != id && JoiningVia(st, j, st.streams[id].req)
    ensures j in Step(st, Leave(id)).streams && !Agrees(Step(st, Leave(id)), j)
  {
    var req := st.streams[id].req;
    StepStreams(st, Leave(id));
    JoiningAfter(st, Leave(id), req);
    ViewersAfter(st, Leave(id), req.tenant, ScopeKey(req.entity), req.user);
  }

  /**
  A leave keeps the store complete if and only if the user has no other stream in the scope, and keeps
  every view in agreement with the store if and only if no such stream is still joining.
  */
  lemma LeaveKeepsViewsExactly(st: State, id: nat)
    requires Inv(st) && Enabled(st, Leave(id))
    ensures StoreComplete(Step(st, Leave(id))) <==> NoTwin(st, id)
    ensures ViewsAgree(Step(st, Leave(id))) <==> !TwinJoining(st, id)
  {
    if NoTwin(st, id) {
      StoreCompleteKept(st, Leave(id));
    } else {
      TwinHidden(st, id);
    }
    if j :| j != id && JoiningVia(st, j, st.streams[id].req) {
      JoiningTwinDisagrees(st, id, j);
    } else {
      forall k | k in Step(st, Leave(id)).streams
        ensures Agrees(Step(st, Leave(id)), k)
      {
        assert k != id && k in st.streams by { StepStreams(st, Leave(id)); }
        AgreesAfterLeave(st, id, k);
      }
    }
  }

  /** The other steps always keep both. */
  lemma OtherStepsKeepViews(st: State, a: Action)
    requires Inv(st) && Enabled(st, a) && !a.Start? && !a.Leave?
    ensures StoreComplete(Step(st, a)) && ViewsAgree(Step(st, a))
  {
    StoreCompleteKept(st, a);
    AllAgree(st, a);
  }

  /** Any two entities with one scope key, opened by two users of a tenant, bring an empty server there. */
  lemma ClashReachable(first: Request, second: Request)
    requires SameScope(first, second) && first.entity != second.entity && first.user != second.user
    ensures IsRun(EMPTY, [Start(0, first), Start(1, second)])
    ensures var st := After(EMPTY, [Start(0, first), Start(1, second)]); 0 in st.streams && !Agrees(st, 0)
  {
    EmptyInv();
    InvKept(EMPTY, Start(0, first));
    var st := Step(EMPTY, Start(0, first));
    FirstStart(first);
    assert Clashing(st, 0, second);
    ClashDiverges(st, Start(1, second), 0);
    assert [Start(1, second)][1..] == [] && After(st, [Start(1, second)]) == Step(st, Start(1, second));
    assert [Start(0, first), Start(1, second)][1..] == [Start(1, second)];
  }

  lemma FirstStart(r: Request)
    ensures var st := Step(EMPTY, Start(0, r));
            && st.streams.Keys == {0} && st.streams[0].req == r
            && Viewers(st.store, r.tenant, ScopeKey(r.entity)) == [r.user]
  {
  }

  /** Such as entity b:c of type a and entity c of type a:b. */
  lemma ColonClash()
    ensures var a, b := Entity("a", "b:c"), Entity("a:b", "c"); ScopeKey(a) == ScopeKey(b) && a != b
  {
    assert ScopeKey(Entity("a", "b:c")) == "a:b:c" == ScopeKey(Entity("a:b", "c"));
  }

  lemma {:induction false} InvAlways(st: State, run: seq<Action>)
    requires Inv(st) && IsCarefulRun(st, run)
    ensures IsRun(st, run) && Inv(After(st, run))
    decreases run
  {
    if run != [] {
      InvKept(st, run[0]);
      InvAlways(Step(st, run[0]), run[1..]);
    }
  }

  lemma EmptyInv()
    ensures Inv(EMPTY)
  {
  }

  /**
  The promise of the stream: after any careful interleaving, a client that has read everything its
  stream still holds sees exactly the store's viewers of its scope, once nobody is joining it.
  */
  lemma ViewsConverge(run: seq<Action>, id: nat)
    requires IsCarefulRun(EMPTY, run)
    requires IsRun(EMPTY, run) && id in After(EMPTY, run).streams
    requires var st := After(EMPTY, run);
             && st.streams[id].phase.Listening? && st.streams[id].inbox == []
             && forall user :: !Joining(st, st.streams[id].req.tenant, st.streams[id].req.entity, user)
    ensures var st := After(EMPTY, run);
            var req := st.streams[id].req;
            Replay(st.streams[id].sent) == set u | u in Viewers(st.store, req.tenant, ScopeKey(req.entity))
  {
    EmptyInv();
    InvAlways(EMPTY, run);
    var st := After(EMPTY, run);
    assert Agrees(st, id);
    assert Story(st.streams[id]) == st.streams[id].sent;
  }

  // ----- the conditions on callers -----

  /** No live stream of this user in this scope, and a type that keeps scope keys apart. */
  ghost predicate Polite(st: State, a: Action) {
    a.Start? ==>
      && ':' !in a.req.entity.etype
      && forall j :: !Serves(st, j, a.req.tenant, ScopeKey(a.req.entity), a.req.user)
  }

  ghost predicate IsPoliteRun(st: State, run: seq<Action>)
    decreases run
  {
    run == [] || (Enabled(st, run[0]) && Polite(st, run[0]) && IsPoliteRun(Step(st, run[0]), run[1..]))
  }

  ghost predicate AllPolite(st: State) {
    && (forall i :: i in st.streams ==> ':' !in st.streams[i].req.entity.etype)
    && (forall i :: i in st.streams ==> NoTwin(st, i))
  }

  lemma AllPoliteKept(st: State, a: Action)
    requires QueuesExact(st) && AllPolite(st) && Enabled(st, a) && Polite(st, a)
    ensures AllPolite(Step(st, a)) && Careful(st, a)
  {
    StepStreams(st, a);
    var st' := Step(st, a);
    forall i, j, tenant: string, key: string, user: string
      | Serves(st', i, tenant, key, user) && Serves(st', j, tenant, key, user)
      ensures i == j
    {
      assert i in st.streams ==> Serves(st, i, tenant, key, user);
      assert j in st.streams ==> Serves(st, j, tenant, key, user);
      if i in st.streams && j in st.streams {
        assert NoTwin(st, i);
      }
    }
    forall i | i in st'.streams
      ensures NoTwin(st', i)
    {
      var req := st'.streams[i].req;
      assert Serves(st', i, req.tenant, ScopeKey(req.entity), req.user);
    }
    if a.Start? {
      forall j | j in st.streams && SameScope(st.streams[j].req, a.req)
        ensures st.streams[j].req.entity == a.req.entity
      {
        ColonFreeKeys(st.streams[j].req.entity, a.req.entity);
      }
    }
  }

  /** With at most one live stream per user and scope, and colon-free entity types, every run is careful. */
  lemma {:induction false} PoliteRunsAreCareful(st: State, run: seq<Action>)
    requires QueuesExact(st) && AllPolite(st) && IsPoliteRun(st, run)
    ensures IsCarefulRun(st, run)
    decreases run
  {
    if run != [] {
      AllPoliteKept(st, run[0]);
      QueuesExactKept(st, run[0]);
      PoliteRunsAreCareful(Step(st, run[0]), run[1..]);
    }
  }

  lemma ColonFreeKeys(a: Entity, b: Entity)
    requires ':' !in a.etype && ':' !in b.etype && ScopeKey(a) == ScopeKey(b)
    ensures a == b
  {
    KeyParts(a, b);
    KeyParts(b, a);
  }

  lemma KeyParts(a: Entity, b: Entity)
    requires ScopeKey(a) == ScopeKey(b)
    ensures |a.etype| < |b.etype| ==> a.etype + ":" <= b.etype && ':' in b.etype
    ensures |a.etype| == |b.etype| ==> a == b
  {
    var key := ScopeKey(a);
    assert key[..|a.etype|] == a.etype && key[|a.etype| + 1..] == a.eid && key[|a.etype|] == ':';
    assert key[..|b.etype|] == b.etype && key[|b.etype| + 1..] == b.eid;
    if |a.etype| < |b.etype| {
      assert b.etype[|a.etype|] == ':';
      assert b.etype[..|a.etype|] == a.etype;
      assert b.etype[..|a.etype| + 1] == a.etype + ":";
    }
  }

  /** Scope keys tell all entities of a set of types apart exactly when no type extends another one at a colon. */
  lemma ScopeKeysExact(types: set<string>)
    ensures (forall a: Entity, b: Entity ::
               a.etype in types && b.etype in types && ScopeKey(a) == ScopeKey(b) ==> a == b)
            <==> (forall s, t :: s in types && t in types ==> !(s + ":" <= t))
  {
    if s, t :| s in types && t in types && s + ":" <= t {
      var rest := t[|s| + 1..];
      assert t == s + ":" + rest;
      var a, b := Entity(s, rest + ":"), Entity(t, "");
      assert ScopeKey(a) == ScopeKey(b) && a != b;
    }
    forall a: Entity, b: Entity | a.etype in types && b.etype in types && ScopeKey(a) == ScopeKey(b)
      ensures a == b || exists s, t :: s in types && t in types && s + ":" <= t
    {
      KeyParts(a, b);
      KeyParts(b, a);
    }
  }

  /**
  Leaving one of two twins just before the other announces itself leaves a viewer in the views that the
  store lacks.
  */
  lemma TwinsDiverge(st: State, i: nat, j: nat)
    requires QueuesExact(st) && i != j && i in st.streams && j in st.streams
    requires st.streams[i].req == st.streams[j].req && st.streams[j].phase == Snapshotting([])
    ensures Enabled(Step(st, Leave(i)), Announce(j))
    ensures var r := st.streams[j].req;
            var st' := Step(Step(st, Leave(i)), Announce(j));
            && j in st'.streams
            && r.user in Replay(Story(st'.streams[j]))
            && r.user !in Viewers(st'.store, r.tenant, ScopeKey(r.entity))
  {
    var r := st.streams[j].req;
    StepStreams(st, Leave(i));
    QueuesExactKept(st, Leave(i));
    var mid := Step(st, Leave(i));
    ViewersAfter(st, Leave(i), r.tenant, ScopeKey(r.entity), r.user);
    assert Enabled(mid, Announce(j));
    StepStreams(mid, Announce(j));
    StoryAfter(mid, Announce(j), j);
    ViewersAfter(mid, Announce(j), r.tenant, ScopeKey(r.entity), r.user);
  }

  /** A user opening two tabs on one entity brings the server to such a state. */
  lemma TwinsReachable(r: Request)
    ensures IsRun(EMPTY, [Start(0, r), Start(1, r), Emit(1)])
    ensures var st := After(EMPTY, [Start(0, r), Start(1, r), Emit(1)]);
            && QueuesExact(st) && st.streams.Keys == {0, 1}
            && st.streams[0].req == st.streams[1].req && st.streams[1].phase == Snapshotting([])
  {
    EmptyInv();
    FirstStart(r);
    QueuesExactKept(EMPTY, Start(0, r));
    var one := Step(EMPTY, Start(0, r));
    SecondStart(one, r);
    QueuesExactKept(one, Start(1, r));
    var two := Step(one, Start(1, r));
    QueuesExactKept(two, Emit(1));
    assert [Emit(1)][1..] == [] && After(two, [Emit(1)]) == Step(two, Emit(1));
    assert [Start(1, r), Emit(1)][1..] == [Emit(1)];
    assert [Start(0, r), Start(1, r), Emit(1)][1..] == [Start(1, r), Emit(1)];
  }

  /** The second tab's snapshot is the user alone. */
  lemma SecondStart(st: State, r: Request)
    requires st.streams.Keys == {0} && st.streams[0].req == r
    requires Viewers(st.store, r.tenant, ScopeKey(r.entity)) == [r.user]
    ensures var two := Step(st, Start(1, r));
            && two.streams.Keys == {0, 1} && two.streams[0].req == r
            && two.streams[1] == Stream(r, Snapshotting([r.user]), [], [])
  {
  }
}
