/**
The presence stores as the servers keep them: one object whose fields the stream handlers update in
place. Each method is one atomic step of a stream, proved to do what that step's function says.
*/
module PresenceHub {
  import P = Presence
  import S = PresenceSafety

  class Hub {
    var store: P.Store
    var queues: map<string, seq<nat>>
    var streams: map<nat, P.Stream>

    function State(): P.State
      reads this
    {
      P.State(store, queues, streams)
    }

    constructor ()
      ensures State() == P.EMPTY && P.Inv(State())
    {
      store, queues, streams := map[], map[], map[];
      new;
      S.EmptyInv();
    }

    /** Put e on every queue that the tenant's list holds at this moment. */
    method FanOut(tenant: string, e: P.Event)
      modifies this`streams
      ensures streams == P.FanOut(old(streams), P.QueueList(queues, tenant), e)
    {
      var targets := if tenant in queues then queues[tenant] else [];
      var i := 0;
      while i < |targets|
        invariant 0 <= i <= |targets|
        invariant streams == P.FanOut(old(streams), targets[..i], e)
      {
        assert targets[..i + 1][..i] == targets[..i];
        if targets[i] in streams {
          var s := streams[targets[i]];
          streams := streams[targets[i] := s.(inbox := s.inbox + [e])];
        }
        i := i + 1;
      }
      assert targets[..i] == targets;
    }

    /** The nested setdefault calls that put a viewer into the store. */
    method Register(tenant: string, key: string, user: string)
      modifies this`store
      ensures store == P.AddViewer(old(store), tenant, key, user)
    {
      if tenant !in store {
        store := store[tenant := map[]];
      }
      var scopes := store[tenant];
      if key !in scopes {
        scopes := scopes[key := []];
      }
      if user !in scopes[key] {
        scopes := scopes[key := scopes[key] + [user]];
      }
      store := store[tenant := scopes];
      assert scopes == P.AddViewer(old(store), tenant, key, user)[tenant];
    }

    method Start(id: nat, req: P.Request)
      requires P.Bookkeeping(State()) && id !in streams
      modifies this
      ensures State() == P.Step(old(State()), P.Start(id, req)) && P.Bookkeeping(State())
    {
      S.BookkeepingKept(State(), P.Start(id, req));
      var key := P.ScopeKey(req.entity);
      Register(req.tenant, key, req.user);
      var others := if req.tenant in queues then queues[req.tenant] else [];
      queues := queues[req.tenant := others + [id]];
      streams := streams[id := P.Stream(req, P.Snapshotting(store[req.tenant][key]), [], [])];
    }

    /** Resume the snapshot loop: yield its next row. */
    method Emit(id: nat) returns (row: P.Event)
      requires P.Bookkeeping(State()) && P.Enabled(State(), P.Emit(id))
      modifies this`streams
      ensures State() == P.Step(old(State()), P.Emit(id)) && P.Bookkeeping(State())
      ensures streams[id].sent == old(streams[id].sent) + [row]
    {
      S.BookkeepingKept(State(), P.Emit(id));
      var s := streams[id];
      row := P.Event(s.phase.pending[0], s.req.entity, P.Viewing);
      streams := streams[id := s.(phase := P.Snapshotting(s.phase.pending[1..]), sent := s.sent + [row])];
    }

    method Announce(id: nat)
      requires P.Bookkeeping(State()) && P.Enabled(State(), P.Announce(id))
      modifies this`streams
      ensures State() == P.Step(old(State()), P.Announce(id)) && P.Bookkeeping(State())
    {
      S.BookkeepingKept(State(), P.Announce(id));
      var s := streams[id];
      streams := streams[id := s.(phase := P.Listening)];
      FanOut(s.req.tenant, P.Event(s.req.user, s.req.entity, P.Viewing));
    }

    /** Take the next event; yielded says whether the client gets it. */
    method Receive(id: nat) returns (event: P.Event, yielded: bool)
      requires P.Bookkeeping(State()) && P.Enabled(State(), P.Receive(id))
      modifies this`streams
      ensures State() == P.Step(old(State()), P.Receive(id)) && P.Bookkeeping(State())
      ensures old(streams[id].inbox) == [event] + streams[id].inbox
      ensures yielded <==> event.entity == streams[id].req.entity
    {
      S.BookkeepingKept(State(), P.Receive(id));
      var s := streams[id];
      event := s.inbox[0];
      yielded := event.entity == s.req.entity;
      streams := streams[id := s.(inbox := s.inbox[1..], sent := if yielded then s.sent + [event] else s.sent)];
    }

    /** The clean-up of a stream, whichever point it was cancelled at. */
    method Leave(id: nat)
      requires P.Bookkeeping(State()) && id in streams
      modifies this
      ensures State() == P.Step(old(State()), P.Leave(id)) && P.Bookkeeping(State())
    {
      S.BookkeepingKept(State(), P.Leave(id));
      var req := streams[id].req;
      var key := P.ScopeKey(req.entity);
      if req.tenant in store && key in store[req.tenant] {
        store := store[req.tenant := store[req.tenant][key := P.Without(store[req.tenant][key], req.user)]];
      }
      if req.tenant in queues {
        queues := queues[req.tenant := P.Without(queues[req.tenant], id)];
      }
      streams := streams - {id};
      FanOut(req.tenant, P.Event(req.user, req.entity, P.Left));
    }
  }
}
