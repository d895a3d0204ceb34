/** Honest logins are runs of the multi-session model, and they meet the hypotheses of its theorems. */
module HonestSessions {
  import opened Types
  import opened Suites
  import opened Wire
  import opened Agreement
  import C = Correspondence
  import A = Agent
  import R = Relay

  lemma RunAppend(cs: Suite, steps: seq<C.Step>, step: C.Step)
    requires cs.Valid() && C.ProperRun(cs, steps) && C.ProperStep(cs, step)
    ensures C.ProperRun(cs, steps + [step])
    ensures C.Run(cs, steps + [step]) == C.Next(cs, C.Run(cs, steps), step)
  {
    assert (steps + [step])[..|steps|] == steps;
  }

  /** A world with one agent session and one relay session. */
  function Pair(a: C.AgentSession, b: C.RelaySession): C.World { C.World(map[0 := a], map[0 := b]) }

  ghost predicate Reaches(cs: Suite, steps: seq<C.Step>, a: C.AgentSession, b: C.RelaySession)
    requires cs.Valid()
  {
    C.ProperRun(cs, steps) && C.Run(cs, steps) == Pair(a, b)
  }

  /** Both sessions appear with their first calls. */
  lemma BothAppear(cs: Suite, x: C.AgentCall, y: C.RelayCall)
    requires cs.Valid() && C.ProperAgentCall(x) && C.ProperRelayCall(cs, y)
    ensures Reaches(cs, [C.AgentStep(0, x), C.RelayStep(0, y)],
                    C.AgentNext(cs, C.NewAgent(), x), C.RelayNext(cs, C.NewRelay(), y))
  {
    RunAppend(cs, [], C.AgentStep(0, x));
    RunAppend(cs, [C.AgentStep(0, x)], C.RelayStep(0, y));
    assert [] + [C.AgentStep(0, x)] == [C.AgentStep(0, x)];
    assert [C.AgentStep(0, x)] + [C.RelayStep(0, y)] == [C.AgentStep(0, x), C.RelayStep(0, y)];
  }

  lemma ReplaceAgent(a: C.AgentSession, b: C.RelaySession, a': C.AgentSession)
    ensures Pair(a, b).(agents := Pair(a, b).agents[0 := a']) == Pair(a', b)
  {
    assert map[0 := a][0 := a'] == map[0 := a'];
  }

  lemma ReplaceRelay(a: C.AgentSession, b: C.RelaySession, b': C.RelaySession)
    ensures Pair(a, b).(relays := Pair(a, b).relays[0 := b']) == Pair(a, b')
  {
    assert map[0 := b][0 := b'] == map[0 := b'];
  }

  lemma AgentGoesOn(cs: Suite, a: C.AgentSession, b: C.RelaySession, x: C.AgentCall)
    requires cs.Valid() && C.Inv(cs, Pair(a, b)) && C.ProperAgentCall(x)
    ensures a.state.WellFormed() && C.Next(cs, Pair(a, b), C.AgentStep(0, x)) == Pair(C.AgentNext(cs, a, x), b)
  {
    assert Pair(a, b).agents[0] == a;
    ReplaceAgent(a, b, C.AgentNext(cs, a, x));
  }

  lemma RelayGoesOn(cs: Suite, a: C.AgentSession, b: C.RelaySession, y: C.RelayCall)
    requires cs.Valid() && C.Inv(cs, Pair(a, b)) && C.ProperRelayCall(cs, y)
    ensures C.Next(cs, Pair(a, b), C.RelayStep(0, y)) == Pair(a, C.RelayNext(cs, b, y))
  {
    assert Pair(a, b).relays[0] == b;
    ReplaceRelay(a, b, C.RelayNext(cs, b, y));
  }

  lemma AgentTurn(cs: Suite, steps: seq<C.Step>, a: C.AgentSession, b: C.RelaySession, x: C.AgentCall)
    requires cs.Valid() && Reaches(cs, steps, a, b) && C.ProperAgentCall(x)
    ensures a.state.WellFormed() && Reaches(cs, steps + [C.AgentStep(0, x)], C.AgentNext(cs, a, x), b)
  {
    RunAppend(cs, steps, C.AgentStep(0, x));
    AgentGoesOn(cs, a, b, x);
  }

  lemma RelayTurn(cs: Suite, steps: seq<C.Step>, a: C.AgentSession, b: C.RelaySession, y: C.RelayCall)
    requires cs.Valid() && Reaches(cs, steps, a, b) && C.ProperRelayCall(cs, y)
    ensures Reaches(cs, steps + [C.RelayStep(0, y)], a, C.RelayNext(cs, b, y))
  {
    RunAppend(cs, steps, C.RelayStep(0, y));
    RelayGoesOn(cs, a, b, y);
  }

  /** The world after two calls by one agent session and two by one relay session, taking turns. */
  lemma FourSteps(cs: Suite, x: C.AgentCall, y: C.RelayCall, x': C.AgentCall, y': C.RelayCall)
    requires cs.Valid() && C.ProperAgentCall(x) && C.ProperRelayCall(cs, y)
    requires C.ProperAgentCall(x') && C.ProperRelayCall(cs, y')
    ensures var a := C.AgentNext(cs, C.NewAgent(), x);
            && a.state.WellFormed()
            && Reaches(cs, [C.AgentStep(0, x), C.RelayStep(0, y)] + [C.AgentStep(0, x')] + [C.RelayStep(0, y')],
                       C.AgentNext(cs, a, x'), C.RelayNext(cs, C.RelayNext(cs, C.NewRelay(), y), y'))
  {
    var two := [C.AgentStep(0, x), C.RelayStep(0, y)];
    var three := two + [C.AgentStep(0, x')];
    var a, b := C.AgentNext(cs, C.NewAgent(), x), C.RelayNext(cs, C.NewRelay(), y);
    BothAppear(cs, x, y);
    AgentTurn(cs, two, a, b, x');
    RelayTurn(cs, three, C.AgentNext(cs, a, x'), b, y');
  }

  function StartOf(h: Honest): C.AgentCall { C.Start(h.password, h.accountId, h.ke1Random, 0, h.ke1At) }

  function AnswerOf(cs: Suite, h: Honest): C.RelayCall
    requires cs.Valid() && Acceptable(cs, h)
  {
    C.AnswerKe1(h.responder, Ke1Wire(Ke1Of(cs, h).1), h.accountId, StoredCredentials(cs, h), h.ke2Random, 0,
                h.ke2At)
  }

  /** The agent session of an honest login after KE1. */
  lemma AgentStarts(cs: Suite, h: Honest)
    requires cs.Valid() && Acceptable(cs, h)
    ensures C.AgentNext(cs, C.NewAgent(), StartOf(h))
            == C.AgentSession(Ke1Of(cs, h).0, Some(h.ke1Random.kemCoins), None, None)
  {
    Ke1Succeeds(cs, h);
  }

  /** The relay session of an honest login after KE2: its derivation is the one the agreement theorem speaks of. */
  lemma RelayAnswers(cs: Suite, h: Honest)
    requires cs.Valid() && Acceptable(cs, h)
    ensures C.ProperRelayCall(cs, AnswerOf(cs, h))
    ensures var s := C.RelayNext(cs, C.NewRelay(), AnswerOf(cs, h));
            && s.answered.Some? && s.completed.None?
            && s.answered.value.derived == RelayKeysOf(cs, h) && s.answered.value.rnd == h.ke2Random
            && s.state == R.GenerateKe2(cs, h.responder, Ke1Wire(Ke1Of(cs, h).1), h.accountId,
                                        StoredCredentials(cs, h), R.Blank(R.Created, 0), h.ke2Random, 0, h.ke2At).0
  {
    Ke2Succeeds(cs, h);
  }

  function ConfirmOf(h: Honest, ke2: Bytes): C.AgentCall { C.Confirm(h.responder.publicKey, ke2, h.ke3At, h.ke3At) }

  /** The agent session after KE3: what it recorded is the derivation of the agreement theorem. */
  lemma AgentConfirms(cs: Suite, h: Honest)
    requires cs.Valid() && Acceptable(cs, h)
    ensures var s := C.AgentSession(Ke1Of(cs, h).0, Some(h.ke1Random.kemCoins), None, None);
            var t := C.AgentNext(cs, s, ConfirmOf(h, Ke2Wire(RelayKeysOf(cs, h).Message())));
            && t.confirmed.Some? && t.confirmed.value.derived == AgentKeysOf(cs, h)
            && t.confirmed.value.kemCoins == h.ke1Random.kemCoins
  {
    Ke1Succeeds(cs, h);
    Ke3CoreSucceeds(cs, h);
    var s, ke2 := Ke1Of(cs, h).0, Ke2Wire(RelayKeysOf(cs, h).Message());
    ConfirmRecords(cs, h, s, h.ke1Random.kemCoins, ke2);
  }

  /** A KE3 whose core succeeds is recorded with its derivation and its coins. */
  lemma ConfirmRecords(cs: Suite, h: Honest, s: A.AgentState, coins: Bytes, ke2: Bytes)
    requires cs.Valid() && s.WellFormed() && s.phase == A.Ke1Generated && !s.Expired(h.ke3At)
    requires |ke2| == KE2_LENGTH && !AllZero(s.accountHash)
    requires A.Ke3Core(cs, h.responder.publicKey, ke2, s).Ok?
    ensures var t := C.AgentNext(cs, C.AgentSession(s, Some(coins), None, None), ConfirmOf(h, ke2));
            && t.confirmed.Some? && t.confirmed.value.kemCoins == coins
            && t.confirmed.value.derived == A.Ke3Core(cs, h.responder.publicKey, ke2, s).value.derived
  {
  }

  /** The relay session after a KE3 with the MAC it expects. */
  lemma RelayCompletes(cs: Suite, b: C.RelaySession, mac: Bytes, now: nat)
    requires cs.Valid() && b.state.WellFormed() && b.state.phase == R.Ke2Generated
    requires |mac| == MAC_LENGTH && mac == b.state.expectedInitiatorMac
    requires !b.state.Expired(now) && !AllZero(b.state.sessionKey)
    ensures var t := C.RelayNext(cs, b, C.Complete(Ke3Wire(mac), now));
            t.answered == b.answered && t.completed == Some(C.Completion(mac, b.state.sessionKey))
  {
    Ke3RoundTrip(mac, []);
  }

  /** The four calls of an honest login. */
  function HonestSteps(cs: Suite, h: Honest, y: R.RelayKeys): seq<C.Step>
    requires cs.Valid() && Acceptable(cs, h)
  {
    [C.AgentStep(0, StartOf(h)), C.RelayStep(0, AnswerOf(cs, h))]
    + [C.AgentStep(0, ConfirmOf(h, Ke2Wire(y.Message())))]
    + [C.RelayStep(0, C.Complete(Ke3Wire(y.keys.initiatorMac), h.finishedAt))]
  }

  /** In a world of one pair with one session between them, every hypothesis about the run holds. */
  lemma PairIsClean(cs: Suite, a: C.AgentSession, b: C.RelaySession)
    requires a.confirmed.Some? && b.answered.Some? && b.completed.Some?
    requires a.confirmed.value.derived.session == b.answered.value.derived.session
    requires a.confirmed.value.derived.keys.initiatorMac == b.completed.value.mac
    requires cs.KemRoundTrip(a.confirmed.value.kemCoins, b.answered.value.rnd.kemCoins)
    ensures var w := Pair(a, b);
            C.KemWorks(cs, w) && C.NoMacCollision(cs, w) && C.FreshAgents(w) && C.FreshRelays(w)
            && C.CompletedOn(w, 0, 0)
  {
  }

  /**
   Every honest login with a non-zero session key is a run in which the relay session completes on the agent
   session's KE3, and that run meets every hypothesis of the correspondence theorem.
   */
  lemma HonestLoginCorresponds(cs: Suite, h: Honest)
    requires cs.Valid() && Acceptable(cs, h)
    ensures !AllZero(RelayKeysOf(cs, h).keys.sessionKey) ==>
              var steps := HonestSteps(cs, h, RelayKeysOf(cs, h));
              && C.ProperRun(cs, steps)
              && var w := C.Run(cs, steps);
                 && C.KemWorks(cs, w) && C.NoMacCollision(cs, w) && C.FreshAgents(w) && C.FreshRelays(w)
                 && C.CompletedOn(w, 0, 0)
  {
    RelayAnswers(cs, h);
    AgentConfirms(cs, h);
    var y := RelayKeysOf(cs, h);
    if !AllZero(y.keys.sessionKey) {
      AgentStarts(cs, h);
      var x', y' := ConfirmOf(h, Ke2Wire(y.Message())), C.Complete(Ke3Wire(y.keys.initiatorMac), h.finishedAt);
      FourSteps(cs, StartOf(h), AnswerOf(cs, h), x', y');
      var a := C.AgentNext(cs, C.AgentNext(cs, C.NewAgent(), StartOf(h)), x');
      var b := C.RelayNext(cs, C.NewRelay(), AnswerOf(cs, h));
      RelayIsWaiting(cs, h);
      RelayCompletes(cs, b, y.keys.initiatorMac, h.finishedAt);
      AgentDerivesSameKeys(cs, h);
      PairIsClean(cs, a, C.RelayNext(cs, b, y'));
    }
  }

  /** After KE2 the relay session waits, in time, for the MAC of its own derivation. */
  lemma RelayIsWaiting(cs: Suite, h: Honest)
    requires cs.Valid() && Acceptable(cs, h)
    ensures C.ProperRelayCall(cs, AnswerOf(cs, h))
    ensures var s := C.RelayNext(cs, C.NewRelay(), AnswerOf(cs, h)).state;
            var y := RelayKeysOf(cs, h);
            && s.WellFormed() && s.phase == R.Ke2Generated && !s.Expired(h.finishedAt)
            && s.expectedInitiatorMac == y.keys.initiatorMac && s.sessionKey == y.keys.sessionKey
            && |y.keys.initiatorMac| == MAC_LENGTH
  {
    RelayAnswers(cs, h);
    Ke2Succeeds(cs, h);
  }
}
