/**
 The handle layer under concurrency: calls take a primary handle, then a state handle, by compare-exchange
 on per-handle busy flags, run one operation on the state, and release in the opposite order. Any number of
 calls interleave at every one of these points. Destruction does not overlap use, as the C contract demands.
 */
module Admission {
  import opened Types

  datatype Handle = Primary(id: nat) | State(id: nat)

  /**
   A call as its thread entered it. `exit` is a code returned while only the primary handle is held (a record
   rejected early, or an entry point that needs no state); a null handle is `None`.
   */
  datatype Request<Op> = Request(
    argumentsOk: bool, primary: Option<nat>, exit: Option<int>, target: Option<nat>, op: Op)

  datatype Outcome<R> = Rejected(code: int) | Ran(result: R)

  datatype Status<S, R> =
    | Entered
    | HoldsPrimary
    | Admitted
    | Running(snapshot: S)
    | Executed(result: R)
    | Leaving(outcome: Outcome<R>)
    | Returned(outcome: Outcome<R>)
  {
    /** The call got past both handles, now or earlier. */
    predicate WasAdmitted() {
      || Admitted? || Running? || Executed?
      || (Leaving? && outcome.Ran?) || (Returned? && outcome.Ran?)
    }

    /** Admitted, with the operation not yet committed. */
    predicate Pending() { Admitted? || Running? }

    predicate HasPrimary() { !Entered? && !Returned? }

    predicate HasState() { Admitted? || Running? || Executed? }
  }

  /** A call in flight or returned; the ticket is its place in the admission order. */
  datatype Call<Op, S, R> = Call(request: Request<Op>, status: Status<S, R>, ticket: nat) {
    predicate WellFormed(stateCount: nat) {
      && (request.target.Some? ==> request.target.value < stateCount)
      && (status.HasPrimary() ==> request.argumentsOk && request.primary.Some?)
      && (status.WasAdmitted() ==>
            request.argumentsOk && request.primary.Some? && request.exit.None? && request.target.Some?)
    }

    /** The call owns the guard of this handle. */
    predicate Holds(h: Handle) {
      match h
      case Primary(p) => status.HasPrimary() && request.primary == Some(p)
      case State(t) => status.HasState() && request.target == Some(t)
    }
  }

  datatype Entry<Op> = Entry(call: nat, state: nat, op: Op)

  /** Busy flags, state contents, calls by entry order, and the log of admissions. */
  datatype World<Op, S, R> = World(
    busy: set<Handle>, states: seq<S>, calls: seq<Call<Op, S, R>>, log: seq<Entry<Op>>)
  {
    ghost predicate WellFormed() {
      forall c :: 0 <= c < |calls| ==> calls[c].WellFormed(|states|)
    }

    function WithStatus(c: nat, s: Status<S, R>): World<Op, S, R>
      requires c < |calls|
    {
      this.(calls := calls[c := calls[c].(status := s)])
    }
  }

  // ---- Steps ---------------------------------------------------------------------------------------

  /** A thread enters; its state handle, if any, is live. */
  function Invoke<Op, S, R>(w: World<Op, S, R>, r: Request<Op>): World<Op, S, R> {
    w.(calls := w.calls + [Call(r, Entered, 0)])
  }

  function TakePrimary<Op, S, R>(w: World<Op, S, R>, c: nat): World<Op, S, R>
    requires c < |w.calls|
  {
    var r := w.calls[c].request;
    if !r.argumentsOk || r.primary.None? then w.WithStatus(c, Returned(Rejected(FFI_INVALID_INPUT)))
    else if Primary(r.primary.value) in w.busy then w.WithStatus(c, Returned(Rejected(FFI_BUSY)))
    else w.WithStatus(c, HoldsPrimary).(busy := w.busy + {Primary(r.primary.value)})
  }

  function TakeState<Op, S, R>(w: World<Op, S, R>, c: nat): World<Op, S, R>
    requires c < |w.calls|
  {
    var r := w.calls[c].request;
    if r.exit.Some? then w.WithStatus(c, Leaving(Rejected(r.exit.value)))
    else if r.target.None? then w.WithStatus(c, Leaving(Rejected(FFI_INVALID_INPUT)))
    else if State(r.target.value) in w.busy then w.WithStatus(c, Leaving(Rejected(FFI_BUSY)))
    else
      w.(calls := w.calls[c := Call(r, Admitted, |w.log|)], busy := w.busy + {State(r.target.value)},
      log := w.log + [Entry(c, r.target.value, r.op)])
  }

  function Commit<Op, S, R>(apply: (Op, S) -> (S, R), w: World<Op, S, R>, c: nat): World<Op, S, R>
    requires c < |w.calls| && w.calls[c].WellFormed(|w.states|) && w.calls[c].status.Running?
  {
    var r := w.calls[c].request;
    var (s, result) := apply(r.op, w.calls[c].status.snapshot);
    w.WithStatus(c, Executed(result)).(states := w.states[r.target.value := s])
  }

  /** The next atomic action of call `c`'s thread. */
  function Advance<Op, S, R>(apply: (Op, S) -> (S, R), w: World<Op, S, R>, c: nat): World<Op, S, R>
    requires c < |w.calls| && w.calls[c].WellFormed(|w.states|)
  {
    var r := w.calls[c].request;
    match w.calls[c].status
    case Entered => TakePrimary(w, c)
    case HoldsPrimary => TakeState(w, c)
    case Admitted => w.WithStatus(c, Running(w.states[r.target.value]))
    case Running(_) => Commit(apply, w, c)
    case Executed(result) =>
      w.WithStatus(c, Leaving(Ran(result))).(busy := w.busy - {State(r.target.value)})
    case Leaving(o) =>
      w.WithStatus(c, Returned(o)).(busy := w.busy - {Primary(r.primary.value)})
    case Returned(_) => w
  }

  // ---- The sequential reference --------------------------------------------------------------------

  datatype Sequential<S, R> = Sequential(states: seq<S>, results: seq<R>)

  /** The admitted calls run one at a time, each to completion, in admission order. */
  function RunInOrder<Op, S, R>(apply: (Op, S) -> (S, R), init: seq<S>, log: seq<Entry<Op>>): (q: Sequential<S, R>)
    requires forall i :: 0 <= i < |log| ==> log[i].state < |init|
    ensures |q.states| == |init| && |q.results| == |log|
  {
    if log == [] then Sequential(init, []) else
      var q := RunInOrder(apply, init, log[..|log| - 1]);
      RunNext(apply, q, log[|log| - 1])
  }

  function RunNext<Op, S, R>(apply: (Op, S) -> (S, R), q: Sequential<S, R>, e: Entry<Op>): Sequential<S, R>
    requires e.state < |q.states|
  {
    var (s, r) := apply(e.op, q.states[e.state]);
    Sequential(q.states[e.state := s], q.results + [r])
  }

  lemma RunInOrderAppend<Op, S, R>(apply: (Op, S) -> (S, R), init: seq<S>, log: seq<Entry<Op>>, e: Entry<Op>)
    requires (forall i :: 0 <= i < |log| ==> log[i].state < |init|) && e.state < |init|
    ensures RunInOrder(apply, init, log + [e]) == RunNext(apply, RunInOrder(apply, init, log), e)
  {
    assert (log + [e])[..|log|] == log;
  }

  // ---- Mutual exclusion ----------------------------------------------------------------------------

  predicate Holder<Op, S, R>(w: World<Op, S, R>, h: Handle, c: nat) {
    c < |w.calls| && w.calls[c].Holds(h)
  }

  /** A flag is set exactly when one call in flight holds that handle. */
  ghost predicate Exclusive<Op, S, R>(w: World<Op, S, R>) {
    && (forall h, c :: Holder(w, h, c) ==> h in w.busy)
    && (forall h :: h in w.busy ==> exists c :: Holder(w, h, c))
    && (forall h, c, d :: Holder(w, h, c) && Holder(w, h, d) ==> c == d)
  }

  lemma InvokeKeepsExclusive<Op, S, R>(w: World<Op, S, R>, r: Request<Op>)
    requires Exclusive(w)
    ensures Exclusive(Invoke(w, r))
  {
    var w' := Invoke(w, r);
    forall h, d
      ensures Holder(w', h, d) <==> Holder(w, h, d)
    {
    }
  }

  /** An action keeps its call's handles, takes a free one, or gives one back; the flags follow. */
  ghost predicate LocksFollow<Op, S, R>(w: World<Op, S, R>, w': World<Op, S, R>, c: nat)
    requires c < |w.calls| == |w'.calls|
  {
    && (forall h :: w'.calls[c].Holds(h) && !w.calls[c].Holds(h) ==> h !in w.busy)
    && (forall h :: h in w'.busy <==> w'.calls[c].Holds(h) || (h in w.busy && !w.calls[c].Holds(h)))
  }

  lemma LocksKeepExclusive<Op, S, R>(w: World<Op, S, R>, w': World<Op, S, R>, c: nat)
    requires Exclusive(w) && c < |w.calls| == |w'.calls| && LocksFollow(w, w', c)
    requires forall d :: 0 <= d < |w.calls| && d != c ==> w'.calls[d] == w.calls[d]
    ensures Exclusive(w')
  {
    forall h, d
      ensures Holder(w', h, d) <==> (if d == c then w'.calls[c].Holds(h) else Holder(w, h, d))
    {
    }
    forall h
      ensures w.calls[c].Holds(h) ==> Holder(w, h, c)
    {
    }
    forall h | h in w'.busy
      ensures exists d :: Holder(w', h, d)
    {
      if w'.calls[c].Holds(h) {
        assert Holder(w', h, c);
      } else {
        var d :| Holder(w, h, d);
        assert Holder(w', h, d);
      }
    }
  }

  /** One action touches the record of its own call only. */
  lemma AdvanceFrames<Op, S, R>(apply: (Op, S) -> (S, R), w: World<Op, S, R>, c: nat)
    requires w.WellFormed() && c < |w.calls|
    ensures var w' := Advance(apply, w, c);
            && w'.WellFormed() && |w'.calls| == |w.calls| && |w'.states| == |w.states|
            && (forall d :: 0 <= d < |w.calls| && d != c ==> w'.calls[d] == w.calls[d])
            && w'.calls[c].request == w.calls[c].request
  {
  }

  lemma AdvanceKeepsExclusive<Op, S, R>(apply: (Op, S) -> (S, R), w: World<Op, S, R>, c: nat)
    requires w.WellFormed() && Exclusive(w) && c < |w.calls|
    ensures Advance(apply, w, c).WellFormed() && Exclusive(Advance(apply, w, c))
  {
    AdvanceFrames(apply, w, c);
    var w' := Advance(apply, w, c);
    forall h | w.calls[c].Holds(h)
      ensures h in w.busy
    {
      assert Holder(w, h, c);
    }
    LocksKeepExclusive(w, w', c);
  }

  // ---- Serializability -----------------------------------------------------------------------------

  /** Tickets and log entries name each other. */
  ghost predicate LogMatches<Op, S, R>(w: World<Op, S, R>) {
    && (forall k :: 0 <= k < |w.log| ==> w.log[k].call < |w.calls| && w.log[k].state < |w.states|)
    && (forall k :: 0 <= k < |w.log| ==> Logged(w, k))
    && (forall c :: 0 <= c < |w.calls| && w.calls[c].status.WasAdmitted() ==>
          w.calls[c].ticket < |w.log| && w.log[w.calls[c].ticket].call == c)
  }

  ghost predicate Logged<Op, S, R>(w: World<Op, S, R>, k: nat)
    requires k < |w.log| && w.log[k].call < |w.calls|
  {
    var e := w.log[k];
    && w.calls[e.call].status.WasAdmitted() && w.calls[e.call].ticket == k
    && w.calls[e.call].request.target == Some(e.state) && w.calls[e.call].request.op == e.op
  }

  /** How one admitted call stands against the sequential reference. */
  ghost predicate CallAgrees<Op, S, R>(
    apply: (Op, S) -> (S, R), states: seq<S>, q: Sequential<S, R>, call: Call<Op, S, R>)
    requires call.WellFormed(|states|) && |q.states| == |states|
    requires call.status.WasAdmitted() && call.ticket < |q.results|
  {
    var t, result := call.request.target.value, q.results[call.ticket];
    match call.status
    case Admitted => (q.states[t], result) == apply(call.request.op, states[t])
    case Running(snapshot) => snapshot == states[t] && (q.states[t], result) == apply(call.request.op, snapshot)
    case Executed(r) => r == result
    case Leaving(o) => o == Ran(result)
    case Returned(o) => o == Ran(result)
  }

  predicate PendingOn<Op, S, R>(w: World<Op, S, R>, t: nat, c: nat) {
    c < |w.calls| && w.calls[c].status.Pending() && w.calls[c].request.target == Some(t)
  }

  /** No operation is pending on this state; its contents are settled. */
  ghost predicate Idle<Op, S, R>(w: World<Op, S, R>, t: nat) { forall c :: !PendingOn(w, t, c) }

  ghost predicate Serial<Op, S, R>(apply: (Op, S) -> (S, R), init: seq<S>, w: World<Op, S, R>) {
    && w.WellFormed() && |w.states| == |init| && LogMatches(w)
    && var q := RunInOrder(apply, init, w.log);
    && (forall c :: 0 <= c < |w.calls| && w.calls[c].status.WasAdmitted() ==>
          CallAgrees(apply, w.states, q, w.calls[c]))
    && (forall t :: 0 <= t < |w.states| && Idle(w, t) ==> q.states[t] == w.states[t])
  }

  lemma InvokeKeepsSerial<Op, S, R>(
    apply: (Op, S) -> (S, R), init: seq<S>, w: World<Op, S, R>, r: Request<Op>)
    requires Serial(apply, init, w) && (r.target.Some? ==> r.target.value < |w.states|)
    ensures Serial(apply, init, Invoke(w, r))
  {
    var w' := Invoke(w, r);
    forall k | 0 <= k < |w'.log|
      ensures Logged(w', k)
    {
      assert Logged(w, k);
    }
    forall t, d
      ensures PendingOn(w', t, d) <==> PendingOn(w, t, d)
    {
    }
  }

  /** Actions other than admission and commit leave log and states alone and keep the call's standing. */
  lemma QuietKeepsSerial<Op, S, R>(
    apply: (Op, S) -> (S, R), init: seq<S>, w: World<Op, S, R>, c: nat, w': World<Op, S, R>)
    requires Serial(apply, init, w) && c < |w.calls| == |w'.calls| && w'.WellFormed()
    requires w'.log == w.log && w'.states == w.states
    requires forall d :: 0 <= d < |w.calls| && d != c ==> w'.calls[d] == w.calls[d]
    requires w'.calls[c].request == w.calls[c].request && w'.calls[c].ticket == w.calls[c].ticket
    requires w'.calls[c].status.Pending() == w.calls[c].status.Pending()
    requires w'.calls[c].status.WasAdmitted() == w.calls[c].status.WasAdmitted()
    requires w.calls[c].status.WasAdmitted() ==>
               CallAgrees(apply, w.states, RunInOrder(apply, init, w.log), w'.calls[c])
    ensures Serial(apply, init, w')
  {
    forall k | 0 <= k < |w'.log|
      ensures Logged(w', k)
    {
      assert Logged(w, k);
    }
    forall t, d
      ensures PendingOn(w', t, d) <==> PendingOn(w, t, d)
    {
    }
  }

  /** A state whose flag is down has no operation pending. */
  lemma FreeStateIsIdle<Op, S, R>(w: World<Op, S, R>, t: nat, d: nat)
    requires Exclusive(w) && State(t) !in w.busy
    ensures !PendingOn(w, t, d)
  {
    assert PendingOn(w, t, d) ==> Holder(w, State(t), d);
  }

  /** Two operations are never pending on one state. */
  lemma OnePendingPerState<Op, S, R>(w: World<Op, S, R>, t: nat, c: nat, d: nat)
    requires Exclusive(w) && PendingOn(w, t, c) && PendingOn(w, t, d)
    ensures c == d
  {
    assert Holder(w, State(t), c) && Holder(w, State(t), d);
  }

  lemma AdmissionKeepsLog<Op, S, R>(w: World<Op, S, R>, c: nat, t: nat)
    requires w.WellFormed() && LogMatches(w) && c < |w.calls| && w.calls[c].status.HoldsPrimary?
    requires w.calls[c].request.exit.None? && w.calls[c].request.target == Some(t) && State(t) !in w.busy
    ensures LogMatches(TakeState(w, c))
  {
    var w' := TakeState(w, c);
    forall k | 0 <= k < |w'.log|
      ensures Logged(w', k)
    {
      assert k < |w.log| ==> Logged(w, k);
    }
  }

  /** Admission extends the reference by a call on a state nobody else is working on. */
  lemma AdmissionKeepsSerial<Op, S, R>(apply: (Op, S) -> (S, R), init: seq<S>, w: World<Op, S, R>, c: nat, t: nat)
    requires Serial(apply, init, w) && Exclusive(w) && c < |w.calls| && w.calls[c].status.HoldsPrimary?
    requires w.calls[c].request.exit.None? && w.calls[c].request.target == Some(t) && State(t) !in w.busy
    ensures Serial(apply, init, TakeState(w, c))
  {
    var w' := TakeState(w, c);
    var q := RunInOrder(apply, init, w.log);
    AdmissionKeepsLog(w, c, t);
    RunInOrderAppend(apply, init, w.log, Entry(c, t, w.calls[c].request.op));
    var q' := RunInOrder(apply, init, w'.log);
    forall d
      ensures !PendingOn(w, t, d)
    {
      FreeStateIsIdle(w, t, d);
    }
    forall d | 0 <= d < |w'.calls| && w'.calls[d].status.WasAdmitted()
      ensures CallAgrees(apply, w'.states, q', w'.calls[d])
    {
      assert d != c ==> CallAgrees(apply, w.states, q, w.calls[d]) && !PendingOn(w, t, d);
    }
    forall u | 0 <= u < |w'.states| && Idle(w', u)
      ensures q'.states[u] == w'.states[u]
    {
      assert !PendingOn(w', u, c);
      forall d
        ensures !PendingOn(w, u, d)
      {
        assert !PendingOn(w', u, d);
      }
    }
  }

  /** Commit brings the shared state to where the reference already is. */
  lemma CommitKeepsSerial<Op, S, R>(apply: (Op, S) -> (S, R), init: seq<S>, w: World<Op, S, R>, c: nat)
    requires Serial(apply, init, w) && Exclusive(w) && c < |w.calls| && w.calls[c].status.Running?
    ensures Serial(apply, init, Commit(apply, w, c))
  {
    var w' := Commit(apply, w, c);
    var t := w.calls[c].request.target.value;
    var q := RunInOrder(apply, init, w.log);
    assert CallAgrees(apply, w.states, q, w.calls[c]) && PendingOn(w, t, c);
    forall k | 0 <= k < |w'.log|
      ensures Logged(w', k)
    {
      assert Logged(w, k);
    }
    forall d | 0 <= d < |w'.calls| && w'.calls[d].status.WasAdmitted()
      ensures CallAgrees(apply, w'.states, q, w'.calls[d])
    {
      assert CallAgrees(apply, w.states, q, w.calls[d]);
      if PendingOn(w, t, d) {
        OnePendingPerState(w, t, c, d);
      }
    }
    forall u | 0 <= u < |w'.states| && Idle(w', u)
      ensures q.states[u] == w'.states[u]
    {
      forall d | u != t
        ensures !PendingOn(w, u, d)
      {
        assert !PendingOn(w', u, d);
      }
    }
  }

  lemma AdvanceKeepsSerial<Op, S, R>(apply: (Op, S) -> (S, R), init: seq<S>, w: World<Op, S, R>, c: nat)
    requires Serial(apply, init, w) && Exclusive(w) && c < |w.calls|
    ensures Serial(apply, init, Advance(apply, w, c))
  {
    var w' := Advance(apply, w, c);
    if w.calls[c].status.Running? {
      CommitKeepsSerial(apply, init, w, c);
    } else if w.calls[c].status.HoldsPrimary? && w'.calls[c].status.Admitted? {
      AdmissionKeepsSerial(apply, init, w, c, w.calls[c].request.target.value);
    } else {
      AdvanceFrames(apply, w, c);
      QuietKeepsSerial(apply, init, w, c, w');
    }
  }

  // ---- Runs ----------------------------------------------------------------------------------------

  /** One scheduling decision: a new call enters, or some call takes its next action. */
  datatype Event<Op> = Enter(request: Request<Op>) | Act(call: nat)

  /** The world after any schedule; an event that names no call, or a dead state handle, does nothing. */
  function Execute<Op, S, R>(apply: (Op, S) -> (S, R), init: seq<S>, events: seq<Event<Op>>): (w: World<Op, S, R>)
    ensures Serial(apply, init, w) && Exclusive(w)
  {
    if events == [] then
      World({}, init, [], [])
    else
      var w := Execute(apply, init, events[..|events| - 1]);
      match events[|events| - 1]
      case Enter(r) =>
        if r.target.Some? && r.target.value >= |w.states| then w else
          InvokeKeepsExclusive(w, r);
          InvokeKeepsSerial(apply, init, w, r);
          Invoke(w, r)
      case Act(c) =>
        if c >= |w.calls| then w else
          AdvanceKeepsExclusive(apply, w, c);
          AdvanceKeepsSerial(apply, init, w, c);
          Advance(apply, w, c)
  }

  predicate Quiescent<Op, S, R>(w: World<Op, S, R>) {
    forall c :: 0 <= c < |w.calls| ==> w.calls[c].status.Returned?
  }

  /** The call was turned away, and is leaving or has left. */
  predicate TurnedAway<S, R>(s: Status<S, R>) {
    (s.Leaving? && s.outcome.Rejected?) || (s.Returned? && s.outcome.Rejected?)
  }

  /**
   Every schedule is serializable at every point. Against the run of the calls admitted so far, one at a time in
   admission order: a state with no pending operation has the same contents, a call that got its result got the
   same one, and a call that was turned away has no part in it. Once all calls have returned the states are all
   the same and no flag is left set.
   */
  lemma SchedulesAreSerializable<Op, S, R>(apply: (Op, S) -> (S, R), init: seq<S>, events: seq<Event<Op>>)
    ensures var w := Execute(apply, init, events);
            && LogMatches(w)
            && var q := RunInOrder(apply, init, w.log);
            && (forall t :: 0 <= t < |w.states| && Idle(w, t) ==> w.states[t] == q.states[t])
            && (forall k | 0 <= k < |w.log| && w.calls[w.log[k].call].status.Returned? ::
                  w.calls[w.log[k].call].status == Returned(Ran(q.results[k])))
            && (forall c, k | 0 <= c < |w.calls| && TurnedAway(w.calls[c].status) && 0 <= k < |w.log| ::
                  w.log[k].call != c)
            && (Quiescent(w) ==> w.states == q.states && w.busy == {})
  {
    var w := Execute(apply, init, events);
    var q := RunInOrder(apply, init, w.log);
    forall k | 0 <= k < |w.log|
      ensures w.calls[w.log[k].call].status.WasAdmitted()
      ensures w.calls[w.log[k].call].status.Returned? ==>
                w.calls[w.log[k].call].status == Returned(Ran(q.results[k]))
    {
      assert Logged(w, k);
      assert CallAgrees(apply, w.states, q, w.calls[w.log[k].call]);
    }
    if Quiescent(w) {
      QuiescentIsIdle(w);
    }
  }

  lemma QuiescentIsIdle<Op, S, R>(w: World<Op, S, R>)
    requires Exclusive(w) && Quiescent(w)
    ensures w.busy == {} && forall t :: Idle(w, t)
  {
    forall h, c
      ensures !Holder(w, h, c)
    {
    }
  }

  /**
   How an admission ends, and what it changes: -1 for bad arguments or a missing handle, -100 exactly for a busy
   one, the call's own early code while it holds the primary handle only; a rejected call leaves every state and
   the log alone, and the flags as well until it gives its primary handle back.
   */
  lemma RejectionsHaveReasons<Op, S, R>(apply: (Op, S) -> (S, R), w: World<Op, S, R>, c: nat)
    requires w.WellFormed() && c < |w.calls|
    ensures var r := w.calls[c].request;
            var w' := Advance(apply, w, c);
            && c < |w'.calls|
            && var s := w'.calls[c].status;
            && (w.calls[c].status.Entered? ==>
                  && (!r.argumentsOk || r.primary.None? ==> s == Returned(Rejected(-1)))
                  && (r.argumentsOk && r.primary.Some? && Primary(r.primary.value) in w.busy ==>
                        s == Returned(Rejected(-100)))
                  && (r.argumentsOk && r.primary.Some? && Primary(r.primary.value) !in w.busy ==> s == HoldsPrimary))
            && (w.calls[c].status.HoldsPrimary? ==>
                  && (r.exit.Some? ==> s == Leaving(Rejected(r.exit.value)))
                  && (r.exit.None? && r.target.None? ==> s == Leaving(Rejected(-1)))
                  && (r.exit.None? && r.target.Some? && State(r.target.value) in w.busy ==>
                        s == Leaving(Rejected(-100)))
                  && (r.exit.None? && r.target.Some? && State(r.target.value) !in w.busy ==> s == Admitted))
            && (TurnedAway(s) ==> w'.states == w.states && w'.log == w.log)
            && (TurnedAway(s) && !TurnedAway(w.calls[c].status) ==> w'.busy == w.busy)
  {
  }

  /** In every schedule a state found busy belongs to a call that holds its primary handle as well. */
  lemma BusyStateIsFullyAdmitted<Op, S, R>(
    apply: (Op, S) -> (S, R), init: seq<S>, events: seq<Event<Op>>, t: nat)
    returns (c: nat)
    requires State(t) in Execute(apply, init, events).busy
    ensures var w := Execute(apply, init, events);
            && Holder(w, State(t), c) && (forall d :: Holder(w, State(t), d) ==> d == c)
            && w.calls[c].status.HasState()
            && w.calls[c].request.primary.Some? && Holder(w, Primary(w.calls[c].request.primary.value), c)
            && Primary(w.calls[c].request.primary.value) in w.busy
  {
    var w := Execute(apply, init, events);
    c :| Holder(w, State(t), c);
    assert w.calls[c].WellFormed(|w.states|);
    assert Holder(w, Primary(w.calls[c].request.primary.value), c);
  }

  /** Actions a call still has before it returns, counting at most one per lock, operation and release. */
  function Remaining<S, R>(s: Status<S, R>): nat {
    match s
    case Entered => 6
    case HoldsPrimary => 5
    case Admitted => 4
    case Running(_) => 3
    case Executed(_) => 2
    case Leaving(_) => 1
    case Returned(_) => 0
  }

  /** No call ever waits for another: each of its actions brings it nearer to its return, whoever holds what. */
  lemma CallsNeverWait<Op, S, R>(apply: (Op, S) -> (S, R), w: World<Op, S, R>, c: nat)
    requires w.WellFormed() && c < |w.calls| && !w.calls[c].status.Returned?
    ensures c < |Advance(apply, w, c).calls|
    ensures Remaining(Advance(apply, w, c).calls[c].status) < Remaining(w.calls[c].status)
    ensures forall d :: 0 <= d < |w.calls| && d != c ==> Advance(apply, w, c).calls[d] == w.calls[d]
  {
    AdvanceFrames(apply, w, c);
  }
}
