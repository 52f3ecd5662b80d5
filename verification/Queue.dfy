// The update queue (UpdateCIDRs, ProcessUpdateRequest, controllers/cidr_handler.go):
// writers change the host-interface cache and then add a ticket; one worker takes
// a ticket, drains the rest and updates every CIDR from the cache.
module Queue {

  // Updating: the CIDRs still to be updated. Requesting: within an update the
  // worker is adding a ticket of its own.
  datatype Worker = Listening | Draining | Updating(todo: set<string>) | Requesting(todo: set<string>)

  datatype State = State(
    cidrs: set<string>,          // the CIDRs in the cache
    capacity: nat,               // of the ticket channel
    written: set<nat>,           // writes in the host-interface cache
    requested: set<nat>,         // writes whose ticket has been added
    tickets: nat,
    worker: Worker,
    seen: map<string, set<nat>>) // the last snapshot used for each CIDR

  ghost predicate Init(s: State)
  {
    s.written == {} && s.requested == {} && s.tickets == 0 && s.worker == Listening && s.seen.Keys == s.cidrs && s.capacity > 0
  }

  // SetCache.
  ghost predicate Write(s: State, s': State, w: nat)
  {
    s' == s.(written := s.written + {w})
  }

  // UpdateCIDRs after a write; it waits while the channel is full.
  ghost predicate Request(s: State, s': State, w: nat)
  {
    w in s.written && s.tickets < s.capacity && s' == s.(requested := s.requested + {w}, tickets := s.tickets + 1)
  }

  ghost predicate Receive(s: State, s': State)
  {
    s.worker == Listening && s.tickets > 0 && s' == s.(tickets := s.tickets - 1, worker := Draining)
  }

  ghost predicate Drain(s: State, s': State)
  {
    s.worker == Draining &&
    s' == if s.tickets > 0 then s.(tickets := s.tickets - 1) else s.(worker := Updating(s.cidrs))
  }

  // UpdateEntries of one CIDR takes its snapshot of the cache.
  ghost predicate Update(s: State, s': State, c: string)
  {
    && s.worker.Updating? && c in s.worker.todo
    && (s' == s.(seen := s.seen[c := s.written], worker := Updating(s.worker.todo - {c})) ||
        s' == s.(seen := s.seen[c := s.written], worker := Requesting(s.worker.todo - {c})))
  }

  // UpdateCIDRs called by the worker itself; it too waits while the channel is full.
  ghost predicate OwnRequest(s: State, s': State)
  {
    s.worker.Requesting? && s.tickets < s.capacity && s' == s.(tickets := s.tickets + 1, worker := Updating(s.worker.todo))
  }

  ghost predicate Finish(s: State, s': State)
  {
    s.worker == Updating({}) && s' == s.(worker := Listening)
  }

  ghost predicate Next(s: State, s': State)
  {
    || (exists w: nat :: Write(s, s', w))
    || (exists w: nat :: Request(s, s', w))
    || Receive(s, s')
    || Drain(s, s')
    || (exists c :: Update(s, s', c))
    || OwnRequest(s, s')
    || Finish(s, s')
  }

  ghost predicate IsRun(run: seq<State>)
  {
    run != [] && forall t :: 0 <= t < |run| - 1 ==> Next(run[t], run[t + 1])
  }

  // Work that still covers CIDR c.
  ghost predicate Pending(s: State, c: string)
  {
    || s.tickets > 0
    || s.worker == Draining
    || ((s.worker.Updating? || s.worker.Requesting?) && c in s.worker.todo)
  }

  ghost predicate Covered(s: State)
  {
    && s.requested <= s.written
    && s.seen.Keys == s.cidrs
    && ((s.worker.Updating? || s.worker.Requesting?) ==> s.worker.todo <= s.cidrs)
    && forall c :: c in s.cidrs && !Pending(s, c) ==> s.requested <= s.seen[c]
  }

  lemma StepKeepsCovered(s: State, s': State)
    requires Covered(s) && Next(s, s')
    ensures Covered(s') && s'.cidrs == s.cidrs && s'.capacity == s.capacity
  {
  }

  lemma {:induction false} RunKeepsCovered(run: seq<State>, t: nat)
    requires IsRun(run) && Init(run[0]) && t < |run|
    ensures Covered(run[t])
  {
    if t > 0 {
      RunKeepsCovered(run, t - 1);
      StepKeepsCovered(run[t - 1], run[t]);
    }
  }

  // In every interleaving: when the worker waits on an empty queue, the last
  // snapshot of every CIDR includes every write whose ticket was added.
  lemma NoLostUpdate(run: seq<State>, t: nat, c: string)
    requires IsRun(run) && Init(run[0]) && t < |run|
    requires run[t].worker == Listening && run[t].tickets == 0 && c in run[t].cidrs
    ensures c in run[t].seen && run[t].requested <= run[t].seen[c]
  {
    RunKeepsCovered(run, t);
    assert !Pending(run[t], c);
  }

  // What a CIDR has seen, it keeps; and it has seen no more than was written.
  lemma {:induction false} SeenStays(run: seq<State>, t: nat, u: nat, c: string)
    requires IsRun(run) && Init(run[0]) && t <= u < |run| && c in run[t].cidrs && run[t].seen.Keys == run[t].cidrs
    requires run[t].seen[c] <= run[t].written
    ensures c in run[u].seen && run[t].seen[c] <= run[u].seen[c] <= run[u].written && run[t].written <= run[u].written
  {
    if t < u {
      SeenStays(run, t, u - 1, c);
      assert Next(run[u - 1], run[u]);
    }
  }

  // A CIDR that is updated has from then on seen every write made before, whether
  // its ticket was added or not.
  lemma UpdateSeesAllWrites(run: seq<State>, t: nat, u: nat, c: string)
    requires IsRun(run) && Init(run[0]) && t < u < |run| && Update(run[t], run[t + 1], c)
    ensures c in run[u].seen && run[t].written <= run[u].seen[c] <= run[u].written
  {
    RunKeepsCovered(run, t + 1);
    RunKeepsCovered(run, t);
    SeenStays(run, t + 1, u, c);
  }

  // ---------- When the worker stops ----------

  ghost predicate WorkerStep(s: State, s': State)
  {
    Receive(s, s') || Drain(s, s') || (exists c :: Update(s, s', c)) || OwnRequest(s, s') || Finish(s, s')
  }

  // The worker has to add a ticket of its own to a full queue.
  ghost predicate Blocked(s: State)
  {
    s.worker.Requesting? && s.tickets == s.capacity
  }

  ghost predicate Idle(s: State)
  {
    s.worker.Listening? && s.tickets == 0
  }

  // The worker can take a step exactly when it is neither idle nor blocked.
  lemma WorkerMovesExactly(s: State)
    requires s.tickets <= s.capacity
    ensures (exists s' :: WorkerStep(s, s')) <==> !Idle(s) && !Blocked(s)
  {
    if !Idle(s) && !Blocked(s) {
      var s' := NextOfWorker(s);
    }
  }

  lemma NextOfWorker(s: State) returns (s': State)
    requires s.tickets <= s.capacity && !Idle(s) && !Blocked(s)
    ensures WorkerStep(s, s')
  {
    match s.worker
    case Listening => s' := s.(tickets := s.tickets - 1, worker := Draining);
    case Draining => s' := if s.tickets > 0 then s.(tickets := s.tickets - 1) else s.(worker := Updating(s.cidrs));
    case Requesting(todo) => s' := s.(tickets := s.tickets + 1, worker := Updating(todo));
    case Updating(todo) =>
      if todo == {} {
        s' := s.(worker := Listening);
      } else {
        var c :| c in todo;
        s' := s.(seen := s.seen[c := s.written], worker := Updating(todo - {c}));
        assert Update(s, s', c);
      }
  }

  lemma {:induction false} RunFits(run: seq<State>, t: nat)
    requires IsRun(run) && Init(run[0]) && t < |run|
    ensures run[t].tickets <= run[t].capacity && run[t].capacity == run[0].capacity > 0 && run[t].cidrs == run[0].cidrs
  {
    if t > 0 {
      RunFits(run, t - 1);
      assert Next(run[t - 1], run[t]);
    }
  }

  // The queue has only one reader: a blocked worker never moves again, and no
  // later write reaches any CIDR.
  lemma {:induction false} FullQueueStopsWorker(run: seq<State>, s: nat, t: nat)
    requires IsRun(run) && s <= t < |run| && Blocked(run[s])
    ensures Blocked(run[t]) && run[t].worker == run[s].worker && run[t].seen == run[s].seen
  {
    if s < t {
      FullQueueStopsWorker(run, s, t - 1);
      assert Next(run[t - 1], run[t]);
    }
  }

  lemma Extends(run: seq<State>, s: State)
    requires IsRun(run) && Next(run[|run| - 1], s)
    ensures IsRun(run + [s])
  {
    var longer := run + [s];
    forall t | 0 <= t < |longer| - 1 ensures Next(longer[t], longer[t + 1]) {
      if t < |run| - 1 { assert Next(run[t], run[t + 1]); }
    }
  }

  // However the run goes on, the worker takes no step.
  ghost predicate StoppedForGood(run: seq<State>)
    requires run != []
  {
    forall longer :: IsRun(longer) && run <= longer ==>
      forall t :: |run| - 1 <= t < |longer| - 1 ==> !WorkerStep(longer[t], longer[t + 1])
  }

  // A worker that is not blocked can be brought to take a step: at once, or after
  // one more write and its ticket.
  lemma CanGoOn(run: seq<State>) returns (longer: seq<State>, t: nat)
    requires IsRun(run) && Init(run[0]) && !Blocked(run[|run| - 1])
    ensures IsRun(longer) && run <= longer && |run| - 1 <= t < |longer| - 1 && WorkerStep(longer[t], longer[t + 1])
  {
    longer := run;
    var s := run[|run| - 1];
    RunFits(run, |run| - 1);
    if Idle(s) {
      var s1 := s.(written := s.written + {0});
      var s2 := s1.(requested := s1.requested + {0}, tickets := 1);
      assert Write(s, s1, 0) && Request(s1, s2, 0);
      Extends(run, s1);
      Extends(run + [s1], s2);
      longer, s := run + [s1] + [s2], s2;
    }
    WorkerMovesExactly(s);
    var s' :| WorkerStep(s, s');
    t := |longer| - 1;
    Extends(longer, s');
    longer := longer + [s'];
  }

  lemma BlockedTakesNoStep(s: State, s': State)
    requires Blocked(s)
    ensures !WorkerStep(s, s')
  {
  }

  // A run stops the worker for good exactly if it blocks it at some point.
  lemma StoppedExactly(run: seq<State>)
    requires IsRun(run) && Init(run[0])
    ensures StoppedForGood(run) <==> exists t :: 0 <= t < |run| && Blocked(run[t])
  {
    if t :| 0 <= t < |run| && Blocked(run[t]) {
      forall longer, u | IsRun(longer) && run <= longer && |run| - 1 <= u < |longer| - 1
        ensures !WorkerStep(longer[u], longer[u + 1])
      {
        assert longer[t] == run[t];
        FullQueueStopsWorker(longer, t, u);
        BlockedTakesNoStep(longer[u], longer[u + 1]);
      }
    } else {
      var longer, t := CanGoOn(run);
    }
  }

  // ---------- How many requests a round takes ----------

  ghost predicate Ticketed(s: State, s': State)
  {
    s'.tickets == s.tickets + 1 && s'.worker == s.worker
  }

  // The tickets writers have added since the worker last found the queue empty.
  ghost function RoundRequests(run: seq<State>, t: nat): nat
    requires t < |run|
  {
    if t == 0 then 0
    else if run[t - 1].worker.Draining? && run[t].worker.Updating? then 0
    else RoundRequests(run, t - 1) + if Ticketed(run[t - 1], run[t]) then 1 else 0
  }

  ghost predicate InRound(s: State)
  {
    s.worker.Updating? || s.worker.Requesting?
  }

  // In a round the queue holds what writers have added and at most one ticket for
  // each CIDR that is done.
  ghost predicate Accounted(s: State, requests: nat)
  {
    InRound(s) ==>
      && s.worker.todo <= s.cidrs
      && s.tickets + |s.worker.todo| + (if s.worker.Requesting? then 1 else 0) <= requests + |s.cidrs|
  }

  lemma TodoShrinks(todo: set<string>, c: string)
    requires c in todo
    ensures |todo - {c}| == |todo| - 1
  {
  }

  lemma UpdateIsAccounted(s: State, s': State, requests: nat, c: string)
    requires Accounted(s, requests) && Update(s, s', c)
    ensures Accounted(s', requests)
  {
    TodoShrinks(s.worker.todo, c);
  }

  lemma StepIsAccounted(s: State, s': State, requests: nat)
    requires Accounted(s, requests) && Next(s, s')
    ensures if s.worker.Draining? && s'.worker.Updating? then Accounted(s', 0)
            else Accounted(s', requests + if Ticketed(s, s') then 1 else 0)
  {
    if c :| Update(s, s', c) { UpdateIsAccounted(s, s', requests, c); }
  }

  lemma {:induction false} RunIsAccounted(run: seq<State>, t: nat)
    requires IsRun(run) && Init(run[0]) && t < |run|
    ensures Accounted(run[t], RoundRequests(run, t))
  {
    if t > 0 {
      RunIsAccounted(run, t - 1);
      StepIsAccounted(run[t - 1], run[t], RoundRequests(run, t - 1));
    }
  }

  // Writers add at most `most` tickets in any round.
  ghost predicate Light(run: seq<State>, most: nat)
  {
    forall t :: 0 <= t < |run| && InRound(run[t]) ==> RoundRequests(run, t) <= most
  }

  lemma LightNeverBlocks(run: seq<State>, most: nat, t: nat)
    requires IsRun(run) && Init(run[0]) && Light(run, most) && t < |run|
    requires most + |run[0].cidrs| <= run[0].capacity
    ensures !Blocked(run[t])
  {
    RunIsAccounted(run, t);
    RunFits(run, t);
  }

  lemma {:induction false} RequestsSoFar(run: seq<State>, s: State, t: nat)
    requires t < |run|
    ensures RoundRequests(run + [s], t) == RoundRequests(run, t)
  {
    if t > 0 { RequestsSoFar(run, s, t - 1); }
  }

  lemma LightExtends(run: seq<State>, s: State, most: nat)
    requires IsRun(run) && Light(run, most) && Next(run[|run| - 1], s)
    requires InRound(s) ==> RoundRequests(run + [s], |run|) <= most
    ensures IsRun(run + [s]) && Light(run + [s], most)
  {
    Extends(run, s);
    forall t | 0 <= t < |run| + 1 && InRound((run + [s])[t]) ensures RoundRequests(run + [s], t) <= most {
      if t < |run| { RequestsSoFar(run, s, t); }
    }
  }

  ghost predicate IsLightRun(run: seq<State>, cidrs: set<string>, capacity: nat, most: nat)
  {
    IsRun(run) && Init(run[0]) && run[0].cidrs == cidrs && run[0].capacity == capacity && Light(run, most)
  }

  // A light run to a state within a round.
  ghost predicate Reaches(run: seq<State>, cidrs: set<string>, capacity: nat, most: nat, requests: nat, worker: Worker, tickets: nat)
  {
    && IsLightRun(run, cidrs, capacity, most)
    && var s := run[|run| - 1];
       && s.worker == worker && s.tickets == tickets && s.written == {0} && s.cidrs == cidrs && s.capacity == capacity
       && RoundRequests(run, |run| - 1) == requests
  }

  lemma RoundBegins(cidrs: set<string>, capacity: nat, most: nat) returns (run: seq<State>)
    requires capacity > 0
    ensures Reaches(run, cidrs, capacity, most, 0, Updating(cidrs), 0)
  {
    var s0 := State(cidrs, capacity, {}, {}, 0, Listening, map c | c in cidrs :: {});
    var s1 := s0.(written := {0});
    var s2 := s1.(requested := {0}, tickets := 1);
    var s3 := s2.(tickets := 0, worker := Draining);
    var s4 := s3.(worker := Updating(cidrs));
    assert Write(s0, s1, 0) && Request(s1, s2, 0) && Receive(s2, s3) && Drain(s3, s4);
    run := [s0, s1, s2, s3, s4];
  }

  // One CIDR is updated and the worker is about to add a ticket.
  lemma UpdateAndAsk(run: seq<State>, cidrs: set<string>, capacity: nat, most: nat, requests: nat, todo: set<string>, tickets: nat, c: string)
    returns (longer: seq<State>)
    requires Reaches(run, cidrs, capacity, most, requests, Updating(todo), tickets) && c in todo && requests <= most
    ensures Reaches(longer, cidrs, capacity, most, requests, Requesting(todo - {c}), tickets)
  {
    var s := run[|run| - 1];
    var s' := s.(seen := s.seen[c := s.written], worker := Requesting(todo - {c}));
    assert Update(s, s', c);
    longer := run + [s'];
    RequestsSoFar(run, s', |run| - 1);
    LightExtends(run, s', most);
  }

  lemma AddOwn(run: seq<State>, cidrs: set<string>, capacity: nat, most: nat, requests: nat, todo: set<string>, tickets: nat)
    returns (longer: seq<State>)
    requires Reaches(run, cidrs, capacity, most, requests, Requesting(todo), tickets) && tickets < capacity && requests <= most
    ensures Reaches(longer, cidrs, capacity, most, requests, Updating(todo), tickets + 1)
  {
    var s := run[|run| - 1];
    var s' := s.(tickets := tickets + 1, worker := Updating(todo));
    assert OwnRequest(s, s');
    longer := run + [s'];
    RequestsSoFar(run, s', |run| - 1);
    LightExtends(run, s', most);
  }

  lemma AddWriters(run: seq<State>, cidrs: set<string>, capacity: nat, most: nat, requests: nat, todo: set<string>, tickets: nat)
    returns (longer: seq<State>)
    requires Reaches(run, cidrs, capacity, most, requests, Requesting(todo), tickets) && tickets < capacity && requests < most
    ensures Reaches(longer, cidrs, capacity, most, requests + 1, Requesting(todo), tickets + 1)
  {
    var s := run[|run| - 1];
    var s' := s.(requested := s.requested + {0}, tickets := tickets + 1);
    assert Request(s, s', 0);
    longer := run + [s'];
    RequestsSoFar(run, s', |run| - 1);
    LightExtends(run, s', most);
  }

  // Writers that may add more than that can block the worker, together with its
  // own tickets, whatever the capacity and the CIDRs.
  lemma HeavierBlocks(cidrs: set<string>, capacity: nat, most: nat) returns (run: seq<State>)
    requires capacity > 0 && cidrs != {} && most + |cidrs| > capacity
    ensures IsLightRun(run, cidrs, capacity, most) && Blocked(run[|run| - 1])
  {
    run := RoundBegins(cidrs, capacity, most);
    var todo, tickets := cidrs, 0;
    while tickets < capacity && |todo| > 1
      invariant 1 <= |todo| && tickets + |todo| == |cidrs| && tickets <= capacity
      invariant Reaches(run, cidrs, capacity, most, 0, Updating(todo), tickets)
    {
      var c :| c in todo;
      TodoShrinks(todo, c);
      run := UpdateAndAsk(run, cidrs, capacity, most, 0, todo, tickets, c);
      run := AddOwn(run, cidrs, capacity, most, 0, todo - {c}, tickets);
      todo, tickets := todo - {c}, tickets + 1;
    }
    var c :| c in todo;
    run := UpdateAndAsk(run, cidrs, capacity, most, 0, todo, tickets, c);
    var requests := 0;
    while tickets < capacity
      invariant tickets <= capacity && (requests > 0 ==> |todo| == 1) && tickets + |todo| == |cidrs| + requests
      invariant Reaches(run, cidrs, capacity, most, requests, Requesting(todo - {c}), tickets)
      invariant tickets < capacity ==> |todo| == 1
    {
      run := AddWriters(run, cidrs, capacity, most, requests, todo - {c}, tickets);
      requests, tickets := requests + 1, tickets + 1;
    }
  }

  ghost predicate NeverBlocks(cidrs: set<string>, capacity: nat, most: nat)
  {
    forall run, t :: IsLightRun(run, cidrs, capacity, most) && 0 <= t < |run| ==> !Blocked(run[t])
  }

  // Writers that add at most `most` tickets in a round never block the worker, in
  // any run, if and only if that many and one for each CIDR fit into the queue.
  lemma NeverBlocksExactly(cidrs: set<string>, capacity: nat, most: nat)
    requires capacity > 0 && cidrs != {}
    ensures NeverBlocks(cidrs, capacity, most) <==> most + |cidrs| <= capacity
  {
    if most + |cidrs| <= capacity {
      forall run, t | IsLightRun(run, cidrs, capacity, most) && 0 <= t < |run| ensures !Blocked(run[t]) {
        LightNeverBlocks(run, most, t);
      }
    } else {
      var run := HeavierBlocks(cidrs, capacity, most);
    }
  }
}
