/** Arbitrary sequences of library calls on one relay state, under arbitrary clocks. */
module RelayRuns {
  import opened Types
  import opened Suites
  import opened Wire
  import opened Relay

  datatype Call =
    | Ke2Call(responder: Responder, ke1: Bytes, accountId: Bytes, credentials: ResponderCredentials, rnd: Ke2Random,
              now: nat, later: nat)
    | FinishCall(ke3: Bytes, now: nat)
  {
    predicate WellFormed() { Ke2Call? ==> responder.WellFormed() && rnd.WellFormed() }
  }

  /** What a successful call handed out. */
  datatype Output = Answered(keys: RelayKeys) | Released(sessionKey: Bytes) | Refused

  function Apply(cs: Suite, s: RelayState, call: Call): (r: (RelayState, Output))
    requires cs.Valid() && s.WellFormed() && call.WellFormed()
    ensures r.0.WellFormed()
  {
    match call
    case Ke2Call(responder, ke1, accountId, credentials, rnd, now, later) =>
      var (t, r) := GenerateKe2(cs, responder, ke1, accountId, credentials, s, rnd, now, later);
      (t, if r.Ok? then Answered(r.value) else Refused)
    case FinishCall(ke3, now) =>
      var (t, r) := ResponderFinish(ke3, s, now);
      (t, if r.Ok? then Released(r.value) else Refused)
  }

  ghost predicate WellFormedCalls(calls: seq<Call>) { forall i :: 0 <= i < |calls| ==> calls[i].WellFormed() }

  ghost function StateAfter(cs: Suite, calls: seq<Call>, n: nat): (t: RelayState)
    requires cs.Valid() && WellFormedCalls(calls) && n <= |calls|
    ensures t.WellFormed()
  {
    if n == 0 then Blank(Created, 0) else Apply(cs, StateAfter(cs, calls, n - 1), calls[n - 1]).0
  }

  ghost function OutputOf(cs: Suite, calls: seq<Call>, i: nat): Output
    requires cs.Valid() && WellFormedCalls(calls) && i < |calls|
  {
    Apply(cs, StateAfter(cs, calls, i), calls[i]).1
  }

  /** A relay state expires while it waits for KE3 only, 900 seconds after KE2 or when the clock went backwards. */
  lemma ExpiryIsExact(s: RelayState, now: nat)
    ensures s.Expired(now)
            <==> s.phase == Ke2Generated && (now < s.createdAt || s.createdAt + 900 * 1_000_000_000 <= now)
  {
  }

  /** What one call does to the phase, the expected MAC and the session key. */
  lemma StepEffect(cs: Suite, s: RelayState, call: Call)
    requires cs.Valid() && s.WellFormed() && call.WellFormed()
    ensures var (t, out) := Apply(cs, s, call);
            && (out.Answered? ==>
                  && call.Ke2Call? && s.phase == Created && t.phase == Ke2Generated && t.createdAt == call.later
                  && t.expectedInitiatorMac == out.keys.keys.initiatorMac && t.sessionKey == out.keys.keys.sessionKey)
            && (out.Released? ==>
                  && call.FinishCall? && s.phase == Ke2Generated && t.phase == Finished
                  && call.ke3 == Ke3Wire(s.expectedInitiatorMac) && out.sessionKey == s.sessionKey
                  && !AllZero(s.sessionKey) && !LifetimeOver(s.createdAt, call.now))
            && (out.Refused? ==> t.phase == s.phase || t.phase == Finished)
            && (out.Refused? && t.phase == Ke2Generated ==> t == s)
  {
    if call.FinishCall? {
      Ke3RoundTrip([], call.ke3);
    }
  }

  /** Call `j` is the answer the state is waiting to see confirmed. */
  ghost predicate AwaitsAnswer(cs: Suite, calls: seq<Call>, j: nat, s: RelayState)
    requires cs.Valid() && WellFormedCalls(calls) && j < |calls|
  {
    && OutputOf(cs, calls, j).Answered? && calls[j].Ke2Call?
    && s.expectedInitiatorMac == OutputOf(cs, calls, j).keys.keys.initiatorMac
    && s.sessionKey == OutputOf(cs, calls, j).keys.keys.sessionKey
    && s.createdAt == calls[j].later
  }

  lemma {:induction false} PendingAnswer(cs: Suite, calls: seq<Call>, n: nat)
    requires cs.Valid() && WellFormedCalls(calls) && n <= |calls|
    ensures var s := StateAfter(cs, calls, n);
            s.phase == Ke2Generated ==> exists j: nat :: j < n && AwaitsAnswer(cs, calls, j, s)
  {
    if n > 0 {
      PendingAnswer(cs, calls, n - 1);
      var s, t := StateAfter(cs, calls, n - 1), StateAfter(cs, calls, n);
      StepEffect(cs, s, calls[n - 1]);
      if OutputOf(cs, calls, n - 1).Answered? {
        assert AwaitsAnswer(cs, calls, n - 1, t);
      }
    }
  }

  /** A state that is not finished has released nothing. */
  lemma {:induction false} NothingReleasedYet(cs: Suite, calls: seq<Call>, n: nat)
    requires cs.Valid() && WellFormedCalls(calls) && n <= |calls| && StateAfter(cs, calls, n).phase != Finished
    ensures forall i: nat :: i < n ==> !OutputOf(cs, calls, i).Released?
  {
    if n > 0 {
      StepEffect(cs, StateAfter(cs, calls, n - 1), calls[n - 1]);
      NothingReleasedYet(cs, calls, n - 1);
    }
  }

  /**
   Over every call sequence and clock trace a session key is released only for the KE3 whose MAC this state's
   own KE2 expected, it is that KE2's key, and not more than 900 seconds have passed since.
   */
  lemma ReleaseNeedsExpectedMac(cs: Suite, calls: seq<Call>, i: nat)
    requires cs.Valid() && WellFormedCalls(calls) && i < |calls| && OutputOf(cs, calls, i).Released?
    ensures calls[i].FinishCall?
    ensures exists j: nat ::
              && j < i && OutputOf(cs, calls, j).Answered? && calls[j].Ke2Call?
              && calls[i].ke3 == Ke3Wire(OutputOf(cs, calls, j).keys.keys.initiatorMac)
              && OutputOf(cs, calls, i).sessionKey == OutputOf(cs, calls, j).keys.keys.sessionKey
              && calls[j].later <= calls[i].now < calls[j].later + 900 * 1_000_000_000
  {
    var s := StateAfter(cs, calls, i);
    StepEffect(cs, s, calls[i]);
    PendingAnswer(cs, calls, i);
    var j: nat :| j < i && AwaitsAnswer(cs, calls, j, s);
    assert OutputOf(cs, calls, j).Answered?;
  }

  lemma {:induction false} FinishedIsFinal(cs: Suite, calls: seq<Call>, m: nat, n: nat)
    requires cs.Valid() && WellFormedCalls(calls) && m <= n <= |calls| && StateAfter(cs, calls, m).phase == Finished
    ensures StateAfter(cs, calls, n).phase == Finished
    decreases n
  {
    if m < n {
      FinishedIsFinal(cs, calls, m, n - 1);
      StepEffect(cs, StateAfter(cs, calls, n - 1), calls[n - 1]);
    }
  }

  /** A state releases at most one session key in its life. */
  lemma ReleaseHappensOnce(cs: Suite, calls: seq<Call>, i: nat, k: nat)
    requires cs.Valid() && WellFormedCalls(calls) && i <= k < |calls|
    requires OutputOf(cs, calls, i).Released? && OutputOf(cs, calls, k).Released?
    ensures i == k
  {
    StepEffect(cs, StateAfter(cs, calls, i), calls[i]);
    StepEffect(cs, StateAfter(cs, calls, k), calls[k]);
    if i < k {
      FinishedIsFinal(cs, calls, i + 1, k);
    }
  }

  /** No secret is left in the state. */
  predicate SecretsCleared(s: RelayState) {
    && AllZero(s.sessionKey) && AllZero(s.pqSharedSecret) && AllZero(s.expectedInitiatorMac)
    && AllZero(s.ephemeralPrivateKey) && AllZero(s.responderPrivateKey)
  }

  /**
   A KE3 of the right size ends a waiting state, accepted, wrong or late, and takes its secrets with it, exactly
   when the session key is not the zero string or the deadline has passed; otherwise nothing changes.
   */
  lemma SizedKe3EndsSession(ke3: Bytes, s: RelayState, now: nat)
    requires s.WellFormed() && |ke3| == KE3_LENGTH && s.phase == Ke2Generated
    ensures var (t, r) := ResponderFinish(ke3, s, now);
            && (t.phase == Finished <==> !AllZero(s.sessionKey) || s.Expired(now))
            && (t.phase == Finished ==> SecretsCleared(t) && (t.handshakeComplete <==> r.Ok?))
            && (t.phase != Finished ==> t == s && r == Err(ValidationError))
            && (r.Ok? <==> !AllZero(s.sessionKey) && !s.Expired(now) && ke3 == Ke3Wire(s.expectedInitiatorMac))
  {
    Ke3RoundTrip(s.expectedInitiatorMac, ke3);
    ZerosAreAllZero(32);
    ZerosAreAllZero(64);
  }
}
