/**
 Any number of login sessions on both sides, with every message delivered by an arbitrary network.
 A relay that completes on a KE3 some agent made agrees with exactly that agent session.
 */
module Correspondence {
  import opened Types
  import opened Suites
  import opened Crypto
  import opened Wire
  import opened Schedule
  import opened Matching
  import A = Agent
  import R = Relay

  /** What an agent session had in hand when it produced its KE3. */
  datatype Confirmation = Confirmation(
    responderKey: Bytes, ke2: Ke2, before: A.AgentState, kemCoins: Bytes, derived: A.AgentKeys)

  /** What a relay session had in hand when it produced its KE2. */
  datatype Answer = Answer(
    responder: R.Responder, ke1: Ke1, selected: R.Selected, accountId: Bytes, rnd: R.Ke2Random, derived: R.RelayKeys)

  datatype Completion = Completion(mac: Bytes, sessionKey: Bytes)

  /** An agent session with the history of its successful calls. */
  datatype AgentSession = AgentSession(
    state: A.AgentState, kemCoins: Option<Bytes>, confirmed: Option<Confirmation>, output: Option<A.AgentOutput>)

  /** A relay session with the history of its successful calls. */
  datatype RelaySession = RelaySession(state: R.RelayState, answered: Option<Answer>, completed: Option<Completion>)

  /** Library calls on an agent session; KE2 bytes are whatever the network delivers. */
  datatype AgentCall =
    | Start(password: Bytes, accountId: Bytes, ke1Random: A.Ke1Random, now: nat, later: nat)
    | Confirm(responderKey: Bytes, ke2: Bytes, now: nat, later: nat)
    | Finish

  /** Library calls on a relay session; KE1 and KE3 bytes are whatever the network delivers. */
  datatype RelayCall =
    | AnswerKe1(responder: R.Responder, ke1: Bytes, accountId: Bytes, credentials: R.ResponderCredentials,
                ke2Random: R.Ke2Random, now: nat, later: nat)
    | Complete(ke3: Bytes, now: nat)

  predicate ProperAgentCall(call: AgentCall) { call.Start? ==> call.ke1Random.WellFormed() }

  /** The relay's public key belongs to its private key, as its constructor checks. */
  predicate ProperRelayCall(cs: Suite, call: RelayCall)
    requires cs.Valid()
  {
    call.AnswerKe1? ==>
      && call.responder.WellFormed() && IsKeyPair(cs, call.responder.privateKey, call.responder.publicKey)
      && call.ke2Random.WellFormed()
  }

  function NewAgent(): AgentSession { AgentSession(A.Blank(A.Created, 0), None, None, None) }

  function NewRelay(): RelaySession { RelaySession(R.Blank(R.Created, 0), None, None) }

  function AgentNext(cs: Suite, s: AgentSession, call: AgentCall): AgentSession
    requires cs.Valid() && s.state.WellFormed()
  {
    match call
    case Start(password, accountId, rnd, now, later) =>
      var (t, r) := A.GenerateKe1(cs, password, accountId, s.state, rnd, now, later);
      s.(state := t, kemCoins := if r.Ok? then Some(rnd.kemCoins) else s.kemCoins)
    case Confirm(responderKey, ke2, now, later) =>
      var (t, r) := A.GenerateKe3(cs, responderKey, ke2, s.state, now, later);
      if r.Ok? && s.kemCoins.Some? then
        var derived := A.Ke3Core(cs, responderKey, ke2, s.state).value.derived;
        s.(state := t, confirmed := Some(Confirmation(responderKey, ParseKe2(ke2).value, s.state, s.kemCoins.value,
        derived)))
      else s.(state := t)
    case Finish =>
      var (t, r) := A.InitiatorFinish(s.state);
      s.(state := t, output := if r.Ok? then Some(r.value) else s.output)
  }

  function RelayNext(cs: Suite, s: RelaySession, call: RelayCall): RelaySession
    requires cs.Valid() && ProperRelayCall(cs, call)
  {
    match call
    case AnswerKe1(responder, ke1, accountId, credentials, rnd, now, later) =>
      var (t, r) := R.GenerateKe2(cs, responder, ke1, accountId, credentials, s.state, rnd, now, later);
      if r.Ok? then
        var (m, selected) := R.AdmitKe1(cs, responder, ke1, accountId, credentials).value;
        s.(state := t, answered := Some(Answer(responder, m, selected, accountId, rnd, r.value)))
      else s.(state := t)
    case Complete(ke3, now) =>
      var (t, r) := R.ResponderFinish(ke3, s.state, now);
      if r.Ok? then s.(state := t, completed := Some(Completion(ParseKe3(ke3).value, r.value))) else s.(state := t)
  }

  // ---- What every call keeps ---------------------------------------------------------------------

  predicate ConfirmationOk(cs: Suite, c: Confirmation)
    requires cs.Valid()
  {
    && c.before.WellFormed() && c.ke2.WellFormed() && EphemeralsConsistent(cs, c.before, c.kemCoins)
    && A.AgentDerive(cs, c.responderKey, c.ke2, c.before) == Ok(c.derived)
    && c.ke2.responderMac == c.derived.keys.responderMac
  }

  predicate AnswerOk(cs: Suite, a: Answer)
    requires cs.Valid()
  {
    && a.responder.WellFormed() && IsKeyPair(cs, a.responder.privateKey, a.responder.publicKey)
    && a.ke1.WellFormed() && a.rnd.WellFormed() && |a.selected.publicKey| == 32 && |a.selected.envelope| == 136
    && IsKeyPair(cs, a.derived.ephemeral, a.derived.ephemeralPublic) && |a.derived.ephemeralPublic| == 32
    && R.RelayDerive(cs, a.responder, a.ke1, a.selected, a.accountId, a.rnd, a.derived.ephemeral,
                     a.derived.ephemeralPublic) == Ok(a.derived)
  }

  predicate AgentOk(cs: Suite, s: AgentSession)
    requires cs.Valid()
  {
    && s.state.WellFormed()
    && (s.state.phase == A.Created ==> s.confirmed.None? && s.output.None?)
    && (s.state.phase == A.Ke1Generated ==>
          s.confirmed.None? && s.output.None? && s.kemCoins.Some?
          && EphemeralsConsistent(cs, s.state, s.kemCoins.value))
    && (s.state.phase == A.Ke3Generated ==>
          s.confirmed.Some? && s.state.sessionKey == s.confirmed.value.derived.keys.sessionKey)
    && (s.confirmed.Some? ==> ConfirmationOk(cs, s.confirmed.value))
    && (s.output.Some? ==>
          s.confirmed.Some? && s.output.value.sessionKey == s.confirmed.value.derived.keys.sessionKey)
  }

  predicate RelayOk(cs: Suite, s: RelaySession)
    requires cs.Valid()
  {
    && s.state.WellFormed()
    && (s.state.phase == R.Created ==> s.answered.None?)
    && (s.state.phase == R.Ke2Generated ==>
          && s.answered.Some? && s.completed.None?
          && s.state.expectedInitiatorMac == s.answered.value.derived.keys.initiatorMac
          && s.state.sessionKey == s.answered.value.derived.keys.sessionKey)
    && (s.answered.Some? ==> AnswerOk(cs, s.answered.value))
    && (s.completed.Some? ==>
          && s.answered.Some?
          && s.completed.value.mac == s.answered.value.derived.keys.initiatorMac
          && s.completed.value.sessionKey == s.answered.value.derived.keys.sessionKey)
  }

  /** A started login carries the ephemeral keys its coins give. */
  lemma Ke1IsConsistent(
    cs: Suite, password: Bytes, accountId: Bytes, s: A.AgentState, rnd: A.Ke1Random, now: nat, later: nat)
    requires cs.Valid() && s.WellFormed() && rnd.WellFormed()
    ensures var (t, r) := A.GenerateKe1(cs, password, accountId, s, rnd, now, later);
            && (r.Ok? ==>
                  s.phase == A.Created && t.phase == A.Ke1Generated && EphemeralsConsistent(cs, t, rnd.kemCoins))
            && (r.Err? ==> t.phase == s.phase && (s.phase != A.Created ==> t == s))
  {
  }

  /** A successful answer is a derivation, and it is what the state will check KE3 against. */
  lemma Ke2IsDerived(
    cs: Suite, responder: R.Responder, ke1: Bytes, accountId: Bytes, c: R.ResponderCredentials, s: R.RelayState,
    rnd: R.Ke2Random, now: nat, later: nat)
    requires cs.Valid() && s.WellFormed() && rnd.WellFormed()
    requires responder.WellFormed() && IsKeyPair(cs, responder.privateKey, responder.publicKey)
    ensures var (t, r) := R.GenerateKe2(cs, responder, ke1, accountId, c, s, rnd, now, later);
            && (r.Err? ==> t.phase == s.phase && (s.phase != R.Created ==> t == s))
            && (r.Ok? ==>
                  && s.phase == R.Created && t.phase == R.Ke2Generated
                  && t.expectedInitiatorMac == r.value.keys.initiatorMac && t.sessionKey == r.value.keys.sessionKey
                  && R.AdmitKe1(cs, responder, ke1, accountId, c).Ok?
                  && var (m, selected) := R.AdmitKe1(cs, responder, ke1, accountId, c).value;
                     AnswerOk(cs, Answer(responder, m, selected, accountId, rnd, r.value)))
  {
  }

  lemma AgentCallKeepsOk(cs: Suite, s: AgentSession, call: AgentCall)
    requires cs.Valid() && AgentOk(cs, s) && ProperAgentCall(call)
    ensures AgentOk(cs, AgentNext(cs, s, call))
  {
    match call
    case Start(password, accountId, rnd, now, later) =>
      Ke1IsConsistent(cs, password, accountId, s.state, rnd, now, later);
    case Confirm(_, _, _, _) =>
    case Finish =>
  }

  lemma AnswerKeepsOk(cs: Suite, s: RelaySession, call: RelayCall)
    requires cs.Valid() && RelayOk(cs, s) && ProperRelayCall(cs, call) && call.AnswerKe1?
    ensures RelayOk(cs, RelayNext(cs, s, call))
  {
    Ke2IsDerived(cs, call.responder, call.ke1, call.accountId, call.credentials, s.state, call.ke2Random, call.now,
                 call.later);
  }

  /** What the finish step releases, and what it leaves. */
  lemma FinishEffect(ke3: Bytes, s: R.RelayState, now: nat)
    ensures var (t, r) := R.ResponderFinish(ke3, s, now);
            && (r.Ok? ==>
                  && s.phase == R.Ke2Generated && t.phase == R.Finished
                  && ParseKe3(ke3) == Ok(s.expectedInitiatorMac) && r.value == s.sessionKey)
            && (r.Err? ==> t == s || t.phase == R.Finished)
  {
  }

  lemma CompleteKeepsOk(cs: Suite, s: RelaySession, call: RelayCall)
    requires cs.Valid() && RelayOk(cs, s) && call.Complete?
    ensures RelayOk(cs, RelayNext(cs, s, call))
  {
    FinishEffect(call.ke3, s.state, call.now);
  }

  lemma RelayCallKeepsOk(cs: Suite, s: RelaySession, call: RelayCall)
    requires cs.Valid() && RelayOk(cs, s) && ProperRelayCall(cs, call)
    ensures RelayOk(cs, RelayNext(cs, s, call))
  {
    if call.AnswerKe1? {
      AnswerKeepsOk(cs, s, call);
    } else {
      CompleteKeepsOk(cs, s, call);
    }
  }

  // ---- Runs --------------------------------------------------------------------------------------

  datatype World = World(agents: map<nat, AgentSession>, relays: map<nat, RelaySession>)

  datatype Step = AgentStep(id: nat, agentCall: AgentCall) | RelayStep(id: nat, relayCall: RelayCall)

  predicate ProperStep(cs: Suite, step: Step)
    requires cs.Valid()
  {
    match step
    case AgentStep(_, call) => ProperAgentCall(call)
    case RelayStep(_, call) => ProperRelayCall(cs, call)
  }

  ghost predicate Inv(cs: Suite, w: World)
    requires cs.Valid()
  {
    && (forall id :: id in w.agents ==> AgentOk(cs, w.agents[id]))
    && (forall id :: id in w.relays ==> RelayOk(cs, w.relays[id]))
  }

  /** One call by one session; a session appears when first used. */
  ghost function Next(cs: Suite, w: World, step: Step): (w': World)
    requires cs.Valid() && Inv(cs, w) && ProperStep(cs, step)
    ensures Inv(cs, w')
  {
    match step
    case AgentStep(id, call) =>
      var s := if id in w.agents then w.agents[id] else NewAgent();
      AgentCallKeepsOk(cs, s, call);
      w.(agents := w.agents[id := AgentNext(cs, s, call)])
    case RelayStep(id, call) =>
      var s := if id in w.relays then w.relays[id] else NewRelay();
      RelayCallKeepsOk(cs, s, call);
      w.(relays := w.relays[id := RelayNext(cs, s, call)])
  }

  ghost predicate ProperRun(cs: Suite, steps: seq<Step>)
    requires cs.Valid()
  {
    forall i :: 0 <= i < |steps| ==> ProperStep(cs, steps[i])
  }

  /** The world after any finite sequence of calls, in any interleaving. */
  ghost function Run(cs: Suite, steps: seq<Step>): (w: World)
    requires cs.Valid() && ProperRun(cs, steps)
    ensures Inv(cs, w)
  {
    if steps == [] then World(map[], map[]) else Next(cs, Run(cs, steps[..|steps| - 1]), steps[|steps| - 1])
  }

  predicate HasConfirmed(w: World, a: nat) { a in w.agents && w.agents[a].confirmed.Some? }

  predicate HasAnswered(w: World, b: nat) { b in w.relays && w.relays[b].answered.Some? }

  predicate HasCompleted(w: World, b: nat) { b in w.relays && w.relays[b].completed.Some? }

  function ConfirmedKeys(w: World, a: nat): A.AgentKeys
    requires HasConfirmed(w, a)
  {
    w.agents[a].confirmed.value.derived
  }

  function AnsweredKeys(w: World, b: nat): R.RelayKeys
    requires HasAnswered(w, b)
  {
    w.relays[b].answered.value.derived
  }

  /** No two initiator MACs of this run collide on different transcripts. */
  ghost predicate NoMacCollision(cs: Suite, w: World) {
    forall a, b :: HasConfirmed(w, a) && HasAnswered(w, b) ==>
      var x, y := ConfirmedKeys(w, a), AnsweredKeys(w, b);
      cs.hmac(x.keys.initiatorMacKey, x.session.Transcript()) == cs.hmac(y.keys.initiatorMacKey, y.session.Transcript())
      ==> x.session.Transcript() == y.session.Transcript()
  }

  /** No two agent sessions drew the same ephemeral key and nonce. */
  ghost predicate FreshAgents(w: World) {
    forall a, a' :: HasConfirmed(w, a) && HasConfirmed(w, a')
                    && ConfirmedKeys(w, a).session.initiatorEphemeral == ConfirmedKeys(w, a').session.initiatorEphemeral
                    && ConfirmedKeys(w, a).session.initiatorNonce == ConfirmedKeys(w, a').session.initiatorNonce
                    ==> a == a'
  }

  /** No two relay sessions drew the same ephemeral key and nonce. */
  ghost predicate FreshRelays(w: World) {
    forall b, b' :: HasAnswered(w, b) && HasAnswered(w, b')
                    && AnsweredKeys(w, b).session.responderEphemeral == AnsweredKeys(w, b').session.responderEphemeral
                    && AnsweredKeys(w, b).session.responderNonce == AnsweredKeys(w, b').session.responderNonce
                    ==> b == b'
  }

  /** A relay completed on the very MAC this agent session made. */
  predicate CompletedOn(w: World, b: nat, a: nat) {
    HasCompleted(w, b) && HasConfirmed(w, a) && w.relays[b].completed.value.mac == ConfirmedKeys(w, a).keys.initiatorMac
  }

  /** Decapsulation works for the coins of an agent session and a relay session with one KEM public key. */
  ghost predicate KemWorks(cs: Suite, w: World) {
    forall a, b | HasConfirmed(w, a) && HasAnswered(w, b)
                  && ConfirmedKeys(w, a).session.pqPublicKey == AnsweredKeys(w, b).session.pqPublicKey ::
      cs.KemRoundTrip(w.agents[a].confirmed.value.kemCoins, w.relays[b].answered.value.rnd.kemCoins)
  }

  /** Completing on an agent's KE3 means sharing its session, its session key and both MACs. */
  lemma CompletionAgrees(cs: Suite, steps: seq<Step>, a: nat, b: nat)
    requires cs.Valid() && ProperRun(cs, steps)
    requires KemWorks(cs, Run(cs, steps)) && NoMacCollision(cs, Run(cs, steps))
    requires CompletedOn(Run(cs, steps), b, a)
    ensures var w := Run(cs, steps);
            && HasAnswered(w, b)
            && ConfirmedKeys(w, a).session == AnsweredKeys(w, b).session
            && ConfirmedKeys(w, a).keys == AnsweredKeys(w, b).keys
            && w.relays[b].completed.value.sessionKey == ConfirmedKeys(w, a).keys.sessionKey
            && (w.agents[a].output.Some? ==>
                  w.agents[a].output.value.sessionKey == w.relays[b].completed.value.sessionKey)
  {
    var w := Run(cs, steps);
    assert RelayOk(cs, w.relays[b]) && AgentOk(cs, w.agents[a]);
    var c, n := w.agents[a].confirmed.value, w.relays[b].answered.value;
    assert c.derived == ConfirmedKeys(w, a) && n.derived == AnsweredKeys(w, b);
    MacsCoverTranscripts(cs, c, n);
    assert HasConfirmed(w, a) && HasAnswered(w, b);
    TranscriptInjective(c.derived.session, n.derived.session);
    MatchingTranscriptsMatchKeys(cs, c.responderKey, c.ke2, c.before, c.kemCoins, n.responder, n.ke1, n.selected,
                                 n.accountId, n.rnd, n.derived.ephemeral, n.derived.ephemeralPublic);
  }

  lemma MacsCoverTranscripts(cs: Suite, c: Confirmation, n: Answer)
    requires cs.Valid() && ConfirmationOk(cs, c) && AnswerOk(cs, n)
    ensures c.derived.keys.initiatorMac == cs.hmac(c.derived.keys.initiatorMacKey, c.derived.session.Transcript())
    ensures n.derived.keys.initiatorMac == cs.hmac(n.derived.keys.initiatorMacKey, n.derived.session.Transcript())
    ensures c.derived.keys.responderMac == cs.hmac(c.derived.keys.responderMacKey, c.derived.session.Transcript())
    ensures n.derived.keys.responderMac == cs.hmac(n.derived.keys.responderMacKey, n.derived.session.Transcript())
  {
    AgentDeriveIsAgentHalf(cs, c.responderKey, c.ke2, c.before);
    RelayDeriveIsRelayHalf(cs, n.responder, n.ke1, n.selected, n.accountId, n.rnd, n.derived.ephemeral,
                           n.derived.ephemeralPublic);
  }

  /**
   Injective correspondence over every run: a completed relay session and an agent session that made the
   KE3 it completed on determine each other, and they share session, session key and MACs.
   */
  lemma InjectiveCorrespondence(cs: Suite, steps: seq<Step>, a: nat, b: nat)
    requires cs.Valid() && ProperRun(cs, steps)
    requires KemWorks(cs, Run(cs, steps)) && NoMacCollision(cs, Run(cs, steps))
    requires FreshAgents(Run(cs, steps)) && FreshRelays(Run(cs, steps))
    requires CompletedOn(Run(cs, steps), b, a)
    ensures var w := Run(cs, steps);
            && HasAnswered(w, b) && ConfirmedKeys(w, a).session == AnsweredKeys(w, b).session
            && w.relays[b].completed.value.sessionKey == ConfirmedKeys(w, a).keys.sessionKey
    ensures forall a' :: CompletedOn(Run(cs, steps), b, a') ==> a' == a
    ensures forall b' :: CompletedOn(Run(cs, steps), b', a) ==> b' == b
  {
    var w := Run(cs, steps);
    CompletionAgrees(cs, steps, a, b);
    forall a' | CompletedOn(w, b, a')
      ensures a' == a
    {
      CompletionAgrees(cs, steps, a', b);
    }
    forall b' | CompletedOn(w, b', a)
      ensures b' == b
    {
      CompletionAgrees(cs, steps, a, b');
    }
  }

  // ---- The other direction: an agent that accepted a relay's KE2 -----------------------------------

  /** No two responder MACs of this run collide on different transcripts. */
  ghost predicate NoResponderMacCollision(cs: Suite, w: World) {
    forall a, b :: HasConfirmed(w, a) && HasAnswered(w, b) ==>
      var x, y := ConfirmedKeys(w, a), AnsweredKeys(w, b);
      cs.hmac(x.keys.responderMacKey, x.session.Transcript()) == cs.hmac(y.keys.responderMacKey, y.session.Transcript())
      ==> x.session.Transcript() == y.session.Transcript()
  }

  /** An agent session made its KE3 for a KE2 that carries the MAC of this relay session. */
  predicate AcceptedFrom(w: World, a: nat, b: nat) {
    && HasConfirmed(w, a) && HasAnswered(w, b)
    && w.agents[a].confirmed.value.ke2.responderMac == AnsweredKeys(w, b).keys.responderMac
  }

  /**
   The agent's half of mutual authentication: over every run, an agent session that accepted a KE2 with a relay
   session's MAC shares that session, its session key and both MACs.
   */
  lemma AcceptanceAgrees(cs: Suite, steps: seq<Step>, a: nat, b: nat)
    requires cs.Valid() && ProperRun(cs, steps)
    requires KemWorks(cs, Run(cs, steps)) && NoResponderMacCollision(cs, Run(cs, steps))
    requires AcceptedFrom(Run(cs, steps), a, b)
    ensures var w := Run(cs, steps);
            && ConfirmedKeys(w, a).session == AnsweredKeys(w, b).session
            && ConfirmedKeys(w, a).keys == AnsweredKeys(w, b).keys
            && (w.agents[a].output.Some? ==>
                  w.agents[a].output.value.sessionKey == AnsweredKeys(w, b).keys.sessionKey)
  {
    var w := Run(cs, steps);
    assert RelayOk(cs, w.relays[b]) && AgentOk(cs, w.agents[a]);
    var c, n := w.agents[a].confirmed.value, w.relays[b].answered.value;
    assert c.derived == ConfirmedKeys(w, a) && n.derived == AnsweredKeys(w, b);
    MacsCoverTranscripts(cs, c, n);
    TranscriptInjective(c.derived.session, n.derived.session);
    MatchingTranscriptsMatchKeys(cs, c.responderKey, c.ke2, c.before, c.kemCoins, n.responder, n.ke1, n.selected,
                                 n.accountId, n.rnd, n.derived.ephemeral, n.derived.ephemeralPublic);
  }

  lemma InjectiveAcceptance(cs: Suite, steps: seq<Step>, a: nat, b: nat)
    requires cs.Valid() && ProperRun(cs, steps)
    requires KemWorks(cs, Run(cs, steps)) && NoResponderMacCollision(cs, Run(cs, steps))
    requires FreshAgents(Run(cs, steps)) && FreshRelays(Run(cs, steps))
    requires AcceptedFrom(Run(cs, steps), a, b)
    ensures forall b' :: AcceptedFrom(Run(cs, steps), a, b') ==> b' == b
    ensures forall a' :: AcceptedFrom(Run(cs, steps), a', b) ==> a' == a
  {
    var w := Run(cs, steps);
    AcceptanceAgrees(cs, steps, a, b);
    forall b' | AcceptedFrom(w, a, b')
      ensures b' == b
    {
      AcceptanceAgrees(cs, steps, a, b');
    }
    forall a' | AcceptedFrom(w, a', b)
      ensures a' == a
    {
      AcceptanceAgrees(cs, steps, a', b);
    }
  }
}
