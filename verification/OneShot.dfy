/** State handles that only move forward: what a per-call rank implies for whole schedules. */
module OneShot {
  import opened Admission

  /**
   A one-shot discipline: on a sound state every legal call keeps soundness and raises the rank until it reaches
   `top`; at the top nothing changes and nothing is released; a release leads to the top.
   */
  datatype Discipline<!Op, !S, !R> = Discipline(
    apply: (Op, S) -> (S, R), legal: Op -> bool, sound: S -> bool, rank: S -> nat, top: nat, releases: (Op, R) -> bool)

  ghost predicate Step<Op, S, R>(d: Discipline<Op, S, R>, op: Op, s: S) {
    var (s', r) := d.apply(op, s);
    d.legal(op) && d.sound(s) ==>
      && d.sound(s') && d.rank(s') <= d.top
      && (d.rank(s) < d.top ==> d.rank(s) < d.rank(s'))
      && (d.rank(s) >= d.top ==> d.rank(s') == d.top && !d.releases(op, r))
      && (d.releases(op, r) ==> d.rank(s') == d.top)
  }

  ghost predicate Holds<Op(!new), S(!new), R>(d: Discipline<Op, S, R>) { forall op: Op, s: S :: Step(d, op, s) }

  ghost predicate Legal<Op, S, R>(d: Discipline<Op, S, R>, init: seq<S>, log: seq<Entry<Op>>) {
    && (forall i :: 0 <= i < |log| ==> log[i].state < |init| && d.legal(log[i].op))
    && (forall t :: 0 <= t < |init| ==> d.sound(init[t]) && d.rank(init[t]) <= d.top)
  }

  /** Contents of a state handle after the admitted calls of `log`. */
  ghost function At<Op, S, R>(d: Discipline<Op, S, R>, init: seq<S>, log: seq<Entry<Op>>, t: nat): S
    requires Legal(d, init, log) && t < |init|
  {
    RunInOrder(d.apply, init, log).states[t]
  }

  /** How many of the admitted calls used this state. */
  ghost function CallsOn<Op>(log: seq<Entry<Op>>, t: nat): nat {
    if log == [] then 0 else CallsOn(log[..|log| - 1], t) + if log[|log| - 1].state == t then 1 else 0
  }

  /** Every state stays sound, and its rank counts the calls made on it until it reaches the top. */
  lemma {:induction false} RankCountsCalls<Op(!new), S(!new), R>(
    d: Discipline<Op, S, R>, init: seq<S>, log: seq<Entry<Op>>, t: nat)
    requires Holds(d) && Legal(d, init, log) && t < |init|
    ensures d.sound(At(d, init, log, t)) && d.rank(At(d, init, log, t)) <= d.top
    ensures d.rank(At(d, init, log, t)) == d.top || CallsOn(log, t) <= d.rank(At(d, init, log, t))
  {
    if log != [] {
      var front, e := log[..|log| - 1], log[|log| - 1];
      RankCountsCalls(d, init, front, t);
      RankCountsCalls(d, init, front, e.state);
      assert Step(d, e.op, At(d, init, front, e.state));
    }
  }

  lemma {:induction false} TopIsFinal<Op(!new), S(!new), R>(
    d: Discipline<Op, S, R>, init: seq<S>, log: seq<Entry<Op>>, m: nat, t: nat)
    requires Holds(d) && Legal(d, init, log) && t < |init| && m <= |log|
    requires d.rank(At(d, init, log[..m], t)) == d.top
    ensures d.rank(At(d, init, log, t)) == d.top
  {
    if m == |log| {
      assert log[..m] == log;
    } else {
      var front, e := log[..|log| - 1], log[|log| - 1];
      assert front[..m] == log[..m];
      TopIsFinal(d, init, front, m, t);
      RankCountsCalls(d, init, front, e.state);
      assert Step(d, e.op, At(d, init, front, e.state));
    }
  }

  /** The k-th result is what its call gives on the state left by the calls before it. */
  lemma {:induction false} ResultAt<Op, S, R>(d: Discipline<Op, S, R>, init: seq<S>, log: seq<Entry<Op>>, k: nat)
    requires Legal(d, init, log) && k < |log|
    ensures RunInOrder(d.apply, init, log).results[k]
            == d.apply(log[k].op, At(d, init, log[..k], log[k].state)).1
    ensures At(d, init, log[..k + 1], log[k].state)
            == d.apply(log[k].op, At(d, init, log[..k], log[k].state)).0
  {
    var front := log[..|log| - 1];
    if k == |log| - 1 {
      assert log[..k + 1] == log;
    } else {
      ResultAt(d, init, front, k);
      assert front[..k] == log[..k] && front[..k + 1] == log[..k + 1];
    }
  }

  /** Two releases from one state are the same release. */
  lemma OneRelease<Op(!new), S(!new), R>(d: Discipline<Op, S, R>, init: seq<S>, log: seq<Entry<Op>>, i: nat, k: nat)
    requires Holds(d) && Legal(d, init, log) && i <= k < |log| && log[i].state == log[k].state
    requires d.releases(log[i].op, RunInOrder(d.apply, init, log).results[i])
    requires d.releases(log[k].op, RunInOrder(d.apply, init, log).results[k])
    ensures i == k
  {
    var t := log[k].state;
    ResultAt(d, init, log, i);
    ResultAt(d, init, log, k);
    RankCountsCalls(d, init, log[..i], t);
    RankCountsCalls(d, init, log[..k], t);
    assert Step(d, log[i].op, At(d, init, log[..i], t)) && Step(d, log[k].op, At(d, init, log[..k], t));
    if i < k {
      assert log[..k][..i + 1] == log[..i + 1];
      TopIsFinal(d, init, log[..k], i + 1, t);
    }
  }

  /** The operations of every call that ever entered are legal. */
  ghost predicate LegalCalls<Op, S, R>(d: Discipline<Op, S, R>, w: World<Op, S, R>) {
    forall c :: 0 <= c < |w.calls| ==> d.legal(w.calls[c].request.op)
  }

  /**
   After every event of every schedule of concurrent calls, whatever is still in flight: each state handle with no
   operation pending is sound and, once `top` calls have been admitted on it, at the top; and each handle has
   released its secret to at most one call.
   */
  lemma SchedulesAreOneShot<Op(!new), S(!new), R>(d: Discipline<Op, S, R>, init: seq<S>, events: seq<Event<Op>>)
    requires Holds(d) && LegalCalls(d, Execute(d.apply, init, events))
    requires forall t :: 0 <= t < |init| ==> d.sound(init[t]) && d.rank(init[t]) <= d.top
    ensures var w := Execute(d.apply, init, events);
            && LogMatches(w) && |w.states| == |init|
            && (forall t :: 0 <= t < |w.states| && Idle(w, t) ==>
                  d.sound(w.states[t]) && (CallsOn(w.log, t) >= d.top ==> d.rank(w.states[t]) == d.top))
            && (forall i, k |
                  0 <= i < |w.log| && 0 <= k < |w.log| && w.log[i].state == w.log[k].state
                  && ReleasedBy(d, w, i) && ReleasedBy(d, w, k) :: i == k)
  {
    var w := Execute(d.apply, init, events);
    forall k | 0 <= k < |w.log|
      ensures d.legal(w.log[k].op)
    {
      assert Logged(w, k);
    }
    assert Legal(d, init, w.log);
    forall t | 0 <= t < |w.states| && Idle(w, t)
      ensures d.sound(w.states[t]) && (CallsOn(w.log, t) >= d.top ==> d.rank(w.states[t]) == d.top)
    {
      RankCountsCalls(d, init, w.log, t);
    }
    forall i, k | 0 <= i < |w.log| && 0 <= k < |w.log| && w.log[i].state == w.log[k].state
                  && ReleasedBy(d, w, i) && ReleasedBy(d, w, k)
      ensures i == k
    {
      ReleaseIsSerial(d, init, w, i);
      ReleaseIsSerial(d, init, w, k);
      if i <= k {
        OneRelease(d, init, w.log, i, k);
      } else {
        OneRelease(d, init, w.log, k, i);
      }
    }
  }

  /** What a returned call released is what it releases when the admitted calls run one at a time. */
  lemma ReleaseIsSerial<Op, S, R>(d: Discipline<Op, S, R>, init: seq<S>, w: World<Op, S, R>, k: nat)
    requires Serial(d.apply, init, w) && k < |w.log| && ReleasedBy(d, w, k)
    ensures d.releases(w.log[k].op, RunInOrder(d.apply, init, w.log).results[k])
  {
    assert Logged(w, k);
    assert CallAgrees(d.apply, w.states, RunInOrder(d.apply, init, w.log), w.calls[w.log[k].call]);
  }

  /** The call admitted as number `k` returned with a released secret. */
  ghost predicate ReleasedBy<Op, S, R>(d: Discipline<Op, S, R>, w: World<Op, S, R>, k: nat)
    requires LogMatches(w) && k < |w.log|
  {
    var s := w.calls[w.log[k].call].status;
    s.Returned? && s.outcome.Ran? && d.releases(w.log[k].op, s.outcome.result)
  }
}
