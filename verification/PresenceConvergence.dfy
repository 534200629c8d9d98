/**
The streams settle: as long as nobody starts or leaves, the servers' own steps run out, and where they
have run out every client's view is the store.
*/
module PresenceConvergence {
  import opened Presence
  import opened PresenceSafety

  /** A step that the server takes by itself, without a client coming or going. */
  predicate IsOwnStep(a: Action) {
    a.Emit? || a.Announce? || a.Receive?
  }

  /** No stream has anything left to yield, announce or take. */
  ghost predicate Settled(st: State) {
    forall a: Action :: IsOwnStep(a) ==> !Enabled(st, a)
  }

  predicate ViewIsTheStore(st: State, id: nat)
    requires id in st.streams
  {
    var req := st.streams[id].req;
    Replay(st.streams[id].sent) == set u | u in Viewers(st.store, req.tenant, ScopeKey(req.entity))
  }

  ghost predicate AllViewsAreTheStore(st: State) {
    forall id :: id in st.streams ==> ViewIsTheStore(st, id)
  }

  // ----- a measure of the work left -----

  /** Steps a stream still has ahead of it: an announcement may bring one event to each of n - 1 queues. */
  function WorkOf(s: Stream, n: nat): nat {
    |s.inbox| + match s.phase
                case Snapshotting(pending) => |pending| + n
                case Listening => 0
  }

  function Work(streams: map<nat, Stream>, ids: seq<nat>, n: nat): nat
    requires forall j :: j in ids ==> j in streams
  {
    if ids == [] then 0 else Work(streams, ids[..|ids| - 1], n) + WorkOf(streams[ids[|ids| - 1]], n)
  }

  /** A list of the live streams, each once. */
  ghost predicate Lists(ids: seq<nat>, st: State) {
    NoDuplicates(ids) && forall j: nat :: j in ids <==> j in st.streams
  }

  lemma ListOf(ids: set<nat>) returns (list: seq<nat>)
    ensures NoDuplicates(list) && forall j :: j in list <==> j in ids
    decreases ids
  {
    if ids == {} {
      list := [];
    } else {
      var j :| j in ids;
      list := ListOf(ids - {j});
      list := list + [j];
    }
  }

  /** If no stream's work grows by more than one, the sum grows by no more than their number. */
  lemma {:induction false} WorkGrows(before: map<nat, Stream>, after: map<nat, Stream>,
                                     ids: seq<nat>, n: nat, gain: nat)
    requires forall j :: j in ids ==> j in before && j in after && WorkOf(after[j], n) <= WorkOf(before[j], n) + gain
    requires gain <= 1
    ensures Work(after, ids, n) <= Work(before, ids, n) + (if gain == 0 then 0 else |ids|)
  {
    if ids != [] {
      var last := |ids| - 1;
      assert ids[last] in ids;
      WorkGrows(before, after, ids[..last], n, gain);
    }
  }

  /** One stream's work falls by some amount while no other grows by more than one. */
  lemma {:induction false} WorkShifts(before: map<nat, Stream>, after: map<nat, Stream>,
                                      ids: seq<nat>, n: nat, gain: nat, id: nat, fall: nat)
    requires NoDuplicates(ids) && id in ids && gain <= 1
    requires forall j :: j in ids ==> j in before && j in after
    requires forall j :: j in ids && j != id ==> WorkOf(after[j], n) <= WorkOf(before[j], n) + gain
    requires WorkOf(after[id], n) + fall <= WorkOf(before[id], n)
    ensures Work(after, ids, n) + fall <= Work(before, ids, n) + (if gain == 0 then 0 else |ids|)
  {
    var last := |ids| - 1;
    assert ids == ids[..last] + [ids[last]];
    if ids[last] == id {
      assert id !in ids[..last];
      WorkGrows(before, after, ids[..last], n, gain);
    } else {
      WorkShifts(before, after, ids[..last], n, gain, id, fall);
    }
  }

  /** An own step leaves the streams listed as they were, and falls short of one announcement's worth at most. */
  lemma OwnStepWork(st: State, a: Action, n: nat)
    requires QueuesExact(st) && Enabled(st, a) && IsOwnStep(a)
    ensures Step(st, a).streams.Keys == st.streams.Keys
    ensures forall j :: j in st.streams && j != a.id ==>
      WorkOf(Step(st, a).streams[j], n) <= WorkOf(st.streams[j], n) + (if a.Announce? then 1 else 0)
    ensures n > 0 ==>
      WorkOf(Step(st, a).streams[a.id], n) + (if a.Announce? then n - 1 else 1) <= WorkOf(st.streams[a.id], n)
  {
    StepStreams(st, a);
  }

  /** Every own step uses work up. */
  lemma WorkFalls(st: State, a: Action, ids: seq<nat>)
    requires QueuesExact(st) && Enabled(st, a) && IsOwnStep(a) && Lists(ids, st)
    ensures Lists(ids, Step(st, a))
    ensures Work(Step(st, a).streams, ids, |ids| + 2) < Work(st.streams, ids, |ids| + 2)
  {
    var n := |ids| + 2;
    OwnStepWork(st, a, n);
    if a.Announce? {
      WorkShifts(st.streams, Step(st, a).streams, ids, n, 1, a.id, n - 1);
    } else {
      WorkShifts(st.streams, Step(st, a).streams, ids, n, 0, a.id, 1);
    }
  }

  /** So a run of own steps is no longer than the work there is, whatever the order. */
  lemma {:induction false} OwnRunsAreBounded(st: State, run: seq<Action>, ids: seq<nat>)
    requires QueuesExact(st) && IsRun(st, run) && Lists(ids, st)
    requires forall i :: 0 <= i < |run| ==> IsOwnStep(run[i])
    ensures |run| <= Work(st.streams, ids, |ids| + 2)
    decreases run
  {
    if run != [] {
      WorkFalls(st, run[0], ids);
      QueuesExactKept(st, run[0]);
      OwnRunsAreBounded(Step(st, run[0]), run[1..], ids);
    }
  }

  // ----- where the steps have run out -----

  /** The invariant is kept, since own steps are careful. */
  lemma {:induction false} InvOverOwnSteps(st: State, run: seq<Action>)
    requires Inv(st) && IsRun(st, run)
    requires forall i :: 0 <= i < |run| ==> IsOwnStep(run[i])
    ensures Inv(After(st, run))
    decreases run
  {
    if run != [] {
      InvKept(st, run[0]);
      InvOverOwnSteps(Step(st, run[0]), run[1..]);
    }
  }

  /** A settled stream listens on an empty queue. */
  lemma SettledStream(st: State, id: nat)
    requires Settled(st) && id in st.streams
    ensures st.streams[id].phase.Listening? && st.streams[id].inbox == []
  {
    assert !Enabled(st, Emit(id)) && !Enabled(st, Announce(id)) && !Enabled(st, Receive(id));
  }

  /** In a settled state every client sees exactly the store's viewers of its scope. */
  lemma SettledViewsAreTheStore(st: State, id: nat)
    requires Inv(st) && Settled(st) && id in st.streams
    ensures ViewIsTheStore(st, id)
  {
    var s := st.streams[id];
    SettledStream(st, id);
    assert Story(s) == s.sent;
    forall user
      ensures !Joining(st, s.req.tenant, s.req.entity, user)
    {
      if Joining(st, s.req.tenant, s.req.entity, user) {
        NobodyJoins(st, Request(s.req.tenant, user, s.req.entity));
      }
    }
    assert Agrees(st, id);
  }

  lemma NobodyJoins(st: State, req: Request)
    requires Settled(st)
    ensures !Joining(st, req.tenant, req.entity, req.user)
  {
    if Joining(st, req.tenant, req.entity, req.user) {
      var j := JoiningWitness(st, req);
      SettledStream(st, j);
    }
  }

  /** From every state some run of own steps leads to a settled one. */
  lemma {:induction false} CanSettle(st: State, ids: seq<nat>) returns (run: seq<Action>)
    requires QueuesExact(st) && Lists(ids, st)
    ensures IsRun(st, run) && (forall i :: 0 <= i < |run| ==> IsOwnStep(run[i])) && Settled(After(st, run))
    decreases Work(st.streams, ids, |ids| + 2)
  {
    run := [];
    if a: Action :| IsOwnStep(a) && Enabled(st, a) {
      WorkFalls(st, a, ids);
      QueuesExactKept(st, a);
      var rest := CanSettle(Step(st, a), ids);
      run := [a] + rest;
      assert run[1..] == rest;
    }
  }

  /**
  Convergence: from any state of the invariant, once clients stop coming and going, every run of the
  server's own steps is bounded, some run settles, and wherever a run has settled every view is the store.
  */
  lemma StreamsConverge(st: State) returns (bound: nat, settling: seq<Action>)
    requires Inv(st)
    ensures forall run :: IsRun(st, run) && (forall i :: 0 <= i < |run| ==> IsOwnStep(run[i])) ==>
      && |run| <= bound
      && (Settled(After(st, run)) ==> AllViewsAreTheStore(After(st, run)))
    ensures IsRun(st, settling) && (forall i :: 0 <= i < |settling| ==> IsOwnStep(settling[i]))
    ensures Settled(After(st, settling))
  {
    var ids := ListOf(st.streams.Keys);
    bound := Work(st.streams, ids, |ids| + 2);
    settling := CanSettle(st, ids);
    forall run | IsRun(st, run) && forall i :: 0 <= i < |run| ==> IsOwnStep(run[i])
      ensures |run| <= bound && (Settled(After(st, run)) ==> AllViewsAreTheStore(After(st, run)))
    {
      OwnRunsAreBounded(st, run, ids);
      InvOverOwnSteps(st, run);
      if Settled(After(st, run)) {
        forall id | id in After(st, run).streams
          ensures ViewIsTheStore(After(st, run), id)
        {
          SettledViewsAreTheStore(After(st, run), id);
        }
      }
    }
  }
}
