/** Arbitrary sequences of library calls on one agent state, under arbitrary clocks. */
module AgentRuns {
  import opened Types
  import opened Suites
  import opened Crypto
  import opened Agent

  datatype Operation =
    | Request(secureKey: Bytes, keyDraws: Draws, blindDraws: Draws)
    | FinalizeReg(responderKey: Bytes, response: Bytes, envelopeNonce: Bytes)
    | Ke1Op(password: Bytes, accountId: Bytes, ke1Random: Ke1Random)
    | Ke3Op(relayKey: Bytes, ke2: Bytes)
    | FinishOp

  /** A call reads the clock once for its expiry check and once more when it arms the state. */
  datatype Call = Call(op: Operation, now: nat, later: nat) {
    predicate WellFormed() {
      && (op.FinalizeReg? ==> |op.envelopeNonce| == NONCE_LENGTH)
      && (op.Ke1Op? ==> op.ke1Random.WellFormed())
    }
  }

  /** The state after a call and whether the call succeeded. */
  function Apply(cs: Suite, s: AgentState, call: Call): (r: (AgentState, bool))
    requires cs.Valid() && s.WellFormed() && call.WellFormed()
    ensures r.0.WellFormed()
  {
    match call.op
    case Request(secureKey, keyDraws, blindDraws) =>
      var (t, r) := CreateRegistrationRequest(cs, secureKey, s, keyDraws, blindDraws, call.now, call.later);
      (t, r.Ok?)
    case FinalizeReg(responderKey, response, envelopeNonce) =>
      var (t, r) := FinalizeRegistration(cs, responderKey, response, s, envelopeNonce, call.now);
      (t, r.Ok?)
    case Ke1Op(password, accountId, rnd) =>
      var (t, r) := GenerateKe1(cs, password, accountId, s, rnd, call.now, call.later);
      (t, r.Ok?)
    case Ke3Op(relayKey, ke2) =>
      var (t, r) := GenerateKe3(cs, relayKey, ke2, s, call.now, call.later);
      (t, r.Ok?)
    case FinishOp =>
      var (t, r) := InitiatorFinish(s);
      (t, r.Ok?)
  }

  ghost predicate WellFormedCalls(calls: seq<Call>) { forall i :: 0 <= i < |calls| ==> calls[i].WellFormed() }

  /** The state after the first `n` calls. */
  ghost function StateAfter(cs: Suite, s: AgentState, calls: seq<Call>, n: nat): (t: AgentState)
    requires cs.Valid() && s.WellFormed() && WellFormedCalls(calls) && n <= |calls|
    ensures t.WellFormed()
  {
    if n == 0 then s else Apply(cs, StateAfter(cs, s, calls, n - 1), calls[n - 1]).0
  }

  ghost predicate Succeeds(cs: Suite, s: AgentState, calls: seq<Call>, i: nat)
    requires cs.Valid() && s.WellFormed() && WellFormedCalls(calls) && i < |calls|
  {
    Apply(cs, StateAfter(cs, s, calls, i), calls[i]).1
  }

  // ---- Deadlines -----------------------------------------------------------------------------------

  /** How one call moves the phase and the armed time. */
  lemma StepsArm(cs: Suite, s: AgentState, call: Call)
    requires cs.Valid() && s.WellFormed() && call.WellFormed()
    ensures var (t, ok) := Apply(cs, s, call);
            && (t.phase == RegistrationRequested ==>
                  || (ok && call.op.Request? && t.createdAt == call.later)
                  || (s.phase == RegistrationRequested && t.createdAt == s.createdAt))
            && (t.phase == Ke1Generated ==>
                  || (ok && call.op.Ke1Op? && t.createdAt == call.later)
                  || (s.phase == Ke1Generated && t.createdAt == s.createdAt))
  {
  }

  /** The two steps with a deadline succeed only in an armed state that is still alive. */
  lemma SuccessIsTimely(cs: Suite, s: AgentState, call: Call)
    requires cs.Valid() && s.WellFormed() && call.WellFormed() && Apply(cs, s, call).1
    ensures call.op.FinalizeReg? ==> s.phase == RegistrationRequested && !LifetimeOver(s.createdAt, call.now)
    ensures call.op.Ke3Op? ==> s.phase == Ke1Generated && !LifetimeOver(s.createdAt, call.now)
  {
  }

  /** Call `j` succeeded in arming the state at `armedAt`. */
  ghost predicate ArmedBy(cs: Suite, calls: seq<Call>, j: nat, login: bool, armedAt: nat)
    requires cs.Valid() && WellFormedCalls(calls) && j < |calls|
  {
    && Succeeds(cs, Blank(Created, 0), calls, j)
    && (if login then calls[j].op.Ke1Op? else calls[j].op.Request?)
    && calls[j].later == armedAt
  }

  lemma {:induction false} ArmedTimes(cs: Suite, calls: seq<Call>, n: nat)
    requires cs.Valid() && WellFormedCalls(calls) && n <= |calls|
    ensures var s := StateAfter(cs, Blank(Created, 0), calls, n);
            && (s.phase == RegistrationRequested ==>
                  exists j: nat :: j < n && ArmedBy(cs, calls, j, false, s.createdAt))
            && (s.phase == Ke1Generated ==> exists j: nat :: j < n && ArmedBy(cs, calls, j, true, s.createdAt))
  {
    if n > 0 {
      var init := Blank(Created, 0);
      var s, t := StateAfter(cs, init, calls, n - 1), StateAfter(cs, init, calls, n);
      ArmedTimes(cs, calls, n - 1);
      StepsArm(cs, s, calls[n - 1]);
      if Succeeds(cs, init, calls, n - 1) {
        if calls[n - 1].op.Request? {
          assert ArmedBy(cs, calls, n - 1, false, calls[n - 1].later);
        } else if calls[n - 1].op.Ke1Op? {
          assert ArmedBy(cs, calls, n - 1, true, calls[n - 1].later);
        }
      }
    }
  }

  /** `now` lies within 900 whole seconds after `armedAt`; a clock that went backwards does not. */
  predicate InTime(armedAt: nat, now: nat) {
    armedAt <= now && now < armedAt + 900 * 1_000_000_000
  }

  lemma InTimeIsNotExpired(armedAt: nat, now: nat)
    ensures InTime(armedAt, now) <==> !LifetimeOver(armedAt, now)
  {
  }

  /** An agent state expires in its three armed phases only, when the clock is out of time. */
  lemma ExpiryIsExact(s: AgentState, now: nat)
    ensures s.Expired(now)
            <==> (s.phase == RegistrationRequested || s.phase == Ke1Generated || s.phase == Ke3Generated)
                 && !InTime(s.createdAt, now)
  {
    InTimeIsNotExpired(s.createdAt, now);
  }

  /** Over every call sequence and clock trace, finalization and KE3 succeed only in time after their arming step. */
  lemma SuccessOnlyInTime(cs: Suite, calls: seq<Call>, i: nat)
    requires cs.Valid() && WellFormedCalls(calls) && i < |calls| && Succeeds(cs, Blank(Created, 0), calls, i)
    ensures calls[i].op.FinalizeReg? ==>
              exists j: nat, t: nat :: j < i && ArmedBy(cs, calls, j, false, t) && InTime(t, calls[i].now)
    ensures calls[i].op.Ke3Op? ==>
              exists j: nat, t: nat :: j < i && ArmedBy(cs, calls, j, true, t) && InTime(t, calls[i].now)
  {
    var s := StateAfter(cs, Blank(Created, 0), calls, i);
    ArmedTimes(cs, calls, i);
    SuccessIsTimely(cs, s, calls[i]);
    InTimeIsNotExpired(s.createdAt, calls[i].now);
  }

  /** A late attempt of the right size and phase fails and leaves a wiped, terminal state. */
  lemma LateAttemptsWipe(cs: Suite, s: AgentState, call: Call)
    requires cs.Valid() && s.WellFormed() && call.WellFormed() && !InTime(s.createdAt, call.now)
    ensures call.op.FinalizeReg? && |call.op.response| == 65 && s.phase == RegistrationRequested ==>
              Apply(cs, s, call) == (s.Invalidated(), false)
    ensures call.op.Ke3Op? && |call.op.ke2| == 1377 && s.phase == Ke1Generated ==>
              Apply(cs, s, call) == (s.Invalidated(), false)
  {
    InTimeIsNotExpired(s.createdAt, call.now);
  }

  // ---- The password is used once -------------------------------------------------------------------

  /** No password byte is left, and the state cannot accept a new one. */
  predicate PasswordGone(s: AgentState) {
    s.phase != Created && s.secureKeyLen == 0 && AllZero(s.secureKey)
  }

  /** Finalization and KE3 either leave the state exactly as it was or consume the password, success or not. */
  lemma ConsumedOrUntouched(cs: Suite, s: AgentState, call: Call)
    requires cs.Valid() && s.WellFormed() && call.WellFormed() && (call.op.FinalizeReg? || call.op.Ke3Op?)
    ensures var (t, ok) := Apply(cs, s, call);
            && (t == s || PasswordGone(t))
            && (ok ==> PasswordGone(t))
  {
    ZerosAreAllZero(MAX_SECURE_KEY_LENGTH);
  }

  /** Without a password no call derives anything, and none brings it back. */
  lemma GonePasswordBlocks(cs: Suite, s: AgentState, call: Call)
    requires cs.Valid() && s.WellFormed() && call.WellFormed() && PasswordGone(s)
    ensures var (t, ok) := Apply(cs, s, call);
            PasswordGone(t) && (ok ==> call.op.FinishOp?)
  {
    ZerosAreAllZero(MAX_SECURE_KEY_LENGTH);
    assert s.Password() == [];
  }

  lemma {:induction false} PasswordStaysGone(cs: Suite, s: AgentState, calls: seq<Call>, n: nat)
    requires cs.Valid() && s.WellFormed() && WellFormedCalls(calls) && n <= |calls| && PasswordGone(s)
    ensures PasswordGone(StateAfter(cs, s, calls, n))
  {
    if n > 0 {
      PasswordStaysGone(cs, s, calls, n - 1);
      GonePasswordBlocks(cs, StateAfter(cs, s, calls, n - 1), calls[n - 1]);
    }
  }

  /** Once the password is consumed, no later call of any sequence registers or authenticates with this state. */
  lemma NothingDerivedLater(cs: Suite, s: AgentState, calls: seq<Call>, i: nat)
    requires cs.Valid() && s.WellFormed() && WellFormedCalls(calls) && i < |calls| && PasswordGone(s)
    requires Succeeds(cs, s, calls, i)
    ensures calls[i].op.FinishOp?
  {
    PasswordStaysGone(cs, s, calls, i);
    GonePasswordBlocks(cs, StateAfter(cs, s, calls, i), calls[i]);
  }
}
