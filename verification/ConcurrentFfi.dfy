/** The one-shot contract of agent and relay state handles under every concurrent schedule. */
module ConcurrentFfi {
  import opened Types
  import opened Suites
  import opened Admission
  import opened OneShot
  import AF = AgentFfi
  import AR = AgentRuns
  import RF = RelayFfi
  import RR = RelayRuns
  import A = Agent
  import R = Relay

  /** What a caller sees of an admitted call. */
  datatype Reply = Reply(code: int, output: Bytes)

  datatype AgentOp = AgentOp(call: AR.Call, fault: AF.Fault)

  datatype RelayOp = RelayOp(call: RR.Call, fault: RF.Fault)

  ghost function AgentDiscipline(cs: Suite): Discipline<AgentOp, AF.AgentHandleState, Reply>
    requires cs.Valid()
  {
    Discipline(
      (op: AgentOp, h: AF.AgentHandleState) =>
        if !h.WellFormed() || !op.call.WellFormed() then (h, Reply(-1, [])) else
          var t := AF.RunStateful(cs, h, op.call, op.fault);
          (t.handle, Reply(t.code, t.output)),
      (op: AgentOp) => op.call.WellFormed(),
      (h: AF.AgentHandleState) => AF.HandleOk(h),
      (h: AF.AgentHandleState) => AF.Rank(h.state.phase),
      3,
      (op: AgentOp, r: Reply) => op.call.op.FinishOp? && r.code == 0)
  }

  ghost function RelayDiscipline(cs: Suite): Discipline<RelayOp, R.RelayState, Reply>
    requires cs.Valid()
  {
    Discipline(
      (op: RelayOp, s: R.RelayState) =>
        if !s.WellFormed() || !op.call.WellFormed() then (s, Reply(-1, [])) else
          var t := RF.RunStateful(cs, s, op.call, op.fault);
          (t.state, Reply(t.code, t.output)),
      (op: RelayOp) => op.call.WellFormed(),
      (s: R.RelayState) => RF.StateOk(s),
      (s: R.RelayState) => RF.Rank(s.phase),
      2,
      (op: RelayOp, r: Reply) => op.call.FinishCall? && r.code == 0)
  }

  lemma AgentStep(cs: Suite, op: AgentOp, h: AF.AgentHandleState)
    requires cs.Valid()
    ensures Step(AgentDiscipline(cs), op, h)
  {
    if AF.HandleOk(h) && op.call.WellFormed() {
      AF.AdmittedCallContract(cs, h, op.call, op.fault);
    }
  }

  lemma RelayStep(cs: Suite, op: RelayOp, s: R.RelayState)
    requires cs.Valid()
    ensures Step(RelayDiscipline(cs), op, s)
  {
    if RF.StateOk(s) && op.call.WellFormed() {
      RF.AdmittedCallContract(cs, s, op.call, op.fault);
    }
  }

  /**
   Agent state handles after every event of any schedule of any number of threads, with panics, calls in flight
   included: every handle without a pending operation keeps its secret inventory and is finished once three calls
   have been admitted on it, and at most one call ever gets a session key out of a handle.
   */
  lemma AgentHandlesAreOneShot(cs: Suite, init: seq<AF.AgentHandleState>, events: seq<Event<AgentOp>>)
    requires cs.Valid()
    requires LegalCalls(AgentDiscipline(cs), Execute(AgentDiscipline(cs).apply, init, events))
    requires forall t :: 0 <= t < |init| ==> AF.HandleOk(init[t])
    ensures var d := AgentDiscipline(cs);
            var w := Execute(d.apply, init, events);
            && LogMatches(w)
            && (forall t :: 0 <= t < |w.states| && Idle(w, t) ==>
                  && AF.HandleOk(w.states[t])
                  && (CallsOn(w.log, t) >= 3 ==>
                        w.states[t].state.phase == A.Finished && AF.NoSecrets(w.states[t].state)))
            && (forall i, k |
                  0 <= i < |w.log| && 0 <= k < |w.log| && w.log[i].state == w.log[k].state
                  && ReleasedBy(d, w, i) && ReleasedBy(d, w, k) :: i == k)
  {
    var d := AgentDiscipline(cs);
    forall op: AgentOp, h: AF.AgentHandleState
      ensures Step(d, op, h)
    {
      AgentStep(cs, op, h);
    }
    SchedulesAreOneShot(d, init, events);
  }

  /** Relay state handles likewise: two admitted calls finish one, and one call at most gets its session key. */
  lemma RelayHandlesAreOneShot(cs: Suite, init: seq<R.RelayState>, events: seq<Event<RelayOp>>)
    requires cs.Valid()
    requires LegalCalls(RelayDiscipline(cs), Execute(RelayDiscipline(cs).apply, init, events))
    requires forall t :: 0 <= t < |init| ==> RF.StateOk(init[t])
    ensures var d := RelayDiscipline(cs);
            var w := Execute(d.apply, init, events);
            && LogMatches(w)
            && (forall t :: 0 <= t < |w.states| && Idle(w, t) ==>
                  && RF.StateOk(w.states[t])
                  && (CallsOn(w.log, t) >= 2 ==> w.states[t].phase == R.Finished && RR.SecretsCleared(w.states[t])))
            && (forall i, k |
                  0 <= i < |w.log| && 0 <= k < |w.log| && w.log[i].state == w.log[k].state
                  && ReleasedBy(d, w, i) && ReleasedBy(d, w, k) :: i == k)
  {
    var d := RelayDiscipline(cs);
    forall op: RelayOp, s: R.RelayState
      ensures Step(d, op, s)
    {
      RelayStep(cs, op, s);
    }
    SchedulesAreOneShot(d, init, events);
  }
}
