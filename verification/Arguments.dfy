/** The argument checks of the entry points, stated by addresses: exactly the calls the C contract allows pass. */
module Arguments {
  import opened Types
  import opened FfiMemory
  import AE = AgentEntry
  import RE = RelayEntry

  /** Both ranges fit into the address space and share no address. */
  ghost predicate Separate(p: nat, n: nat, q: nat, m: nat) {
    p + n < ADDRESS_LIMIT && q + m < ADDRESS_LIMIT && forall a: nat :: !(InRange(a, p, n) && InRange(a, q, m))
  }

  lemma OverlapOrSeparate(p: nat, n: nat, q: nat, m: nat)
    requires 0 < n && 0 < m
    ensures !RangesOverlap(p, n, q, m) <==> Separate(p, n, q, m)
  {
    if p + n < ADDRESS_LIMIT && q + m < ADDRESS_LIMIT {
      OverlapIsExact(p, n, q, m);
    }
  }

  lemma RequestArguments(key: nat, keyLen: nat, out: nat, capacity: nat)
    ensures AE.RequestArgumentsOk(key, keyLen, out, capacity)
            <==> key != 0 && out != 0 && 1 <= keyLen <= 4096 && 33 <= capacity && Separate(key, keyLen, out, 33)
  {
    if 0 < keyLen {
      OverlapOrSeparate(key, keyLen, out, 33);
    }
  }

  lemma FinalizeArguments(response: nat, responseLen: nat, out: nat, capacity: nat)
    ensures AE.FinalizeArgumentsOk(response, responseLen, out, capacity)
            <==> response != 0 && out != 0 && responseLen == 65 && 201 <= capacity && Separate(response, 65, out, 201)
  {
    OverlapOrSeparate(response, 65, out, 201);
  }

  lemma Ke1Arguments(key: nat, keyLen: nat, accountId: nat, accountIdLen: nat, out: nat, capacity: nat)
    ensures AE.Ke1ArgumentsOk(key, keyLen, accountId, accountIdLen, out, capacity)
            <==> key != 0 && accountId != 0 && out != 0 && 1 <= keyLen <= 4096 && 1 <= accountIdLen <= 1024
                 && 1273 <= capacity && Separate(key, keyLen, out, 1273)
                 && Separate(accountId, accountIdLen, out, 1273)
  {
    if 0 < keyLen && 0 < accountIdLen {
      OverlapOrSeparate(key, keyLen, out, 1273);
      OverlapOrSeparate(accountId, accountIdLen, out, 1273);
    }
  }

  lemma Ke3Arguments(ke2: nat, ke2Len: nat, out: nat, capacity: nat)
    ensures AE.Ke3ArgumentsOk(ke2, ke2Len, out, capacity)
            <==> ke2 != 0 && out != 0 && ke2Len == 1377 && 65 <= capacity && Separate(ke2, 1377, out, 65)
  {
    OverlapOrSeparate(ke2, 1377, out, 65);
  }

  /** The two outputs of the agent's finish call are separate. */
  lemma AgentFinishArguments(session: nat, sessionCapacity: nat, export_: nat, exportCapacity: nat)
    ensures AE.FinishArgumentsOk(session, sessionCapacity, export_, exportCapacity)
            <==> session != 0 && export_ != 0 && 64 <= sessionCapacity && 32 <= exportCapacity
                 && Separate(session, 64, export_, 32)
  {
    OverlapOrSeparate(session, 64, export_, 32);
  }

  lemma ResponseArguments(
    request: nat, requestLen: nat, accountId: nat, accountIdLen: nat, out: nat, capacity: nat)
    ensures RE.ResponseArgumentsOk(request, requestLen, accountId, accountIdLen, out, capacity)
            <==> request != 0 && accountId != 0 && out != 0 && requestLen == 33 && 1 <= accountIdLen <= 1024
                 && 65 <= capacity && Separate(request, 33, out, 65) && Separate(accountId, accountIdLen, out, 65)
  {
    OverlapOrSeparate(request, 33, out, 65);
    if 0 < accountIdLen {
      OverlapOrSeparate(accountId, accountIdLen, out, 65);
    }
  }

  lemma BuildArguments(record: nat, recordLen: nat, out: nat, capacity: nat)
    ensures RE.BuildArgumentsOk(record, recordLen, out, capacity)
            <==> record != 0 && out != 0 && recordLen == 201 && 201 <= capacity && Separate(record, 201, out, 201)
  {
    OverlapOrSeparate(record, 201, out, 201);
  }

  /** A stored record is absent (length 0, any pointer) or whole. */
  lemma Ke2Arguments(
    ke1: nat, ke1Len: nat, accountId: nat, accountIdLen: nat, record: nat, recordLen: nat, out: nat, capacity: nat)
    ensures RE.Ke2ArgumentsOk(ke1, ke1Len, accountId, accountIdLen, record, recordLen, out, capacity)
            <==> ke1 != 0 && accountId != 0 && out != 0 && ke1Len == 1273 && 1 <= accountIdLen <= 1024
                 && 1377 <= capacity && Separate(ke1, 1273, out, 1377) && Separate(accountId, accountIdLen, out, 1377)
                 && (recordLen == 0 || (recordLen == 201 && record != 0 && Separate(record, 201, out, 1377)))
  {
    OverlapOrSeparate(ke1, 1273, out, 1377);
    OverlapOrSeparate(record, 201, out, 1377);
    if 0 < accountIdLen {
      OverlapOrSeparate(accountId, accountIdLen, out, 1377);
    }
  }

  /** A bad record is reported before the state handle is looked at, and only after the relay handle was taken. */
  lemma RecordIsCheckedBetweenHandles(relay: RE.RelayHandle?, handle: RE.RelayStateHandle?)
    ensures relay == null ==> RE.AdmissionCode(true, relay, false, handle) == -1
    ensures relay != null && relay.inUse ==> RE.AdmissionCode(true, relay, false, handle) == -100
    ensures relay != null && !relay.inUse ==> RE.AdmissionCode(true, relay, false, handle) == -101
    ensures relay != null && !relay.inUse && handle == null ==> RE.AdmissionCode(true, relay, true, handle) == -1
    ensures relay != null && !relay.inUse && handle != null && handle.inUse ==>
              RE.AdmissionCode(true, relay, true, handle) == -100
  {
  }

  /** The agent handle is tried before the state handle; bad arguments before both. */
  lemma AgentIsTriedFirst(agent: AE.AgentHandle?, handle: AE.AgentStateHandle?)
    ensures AE.AdmissionCode(false, agent, handle) == -1
    ensures agent == null ==> AE.AdmissionCode(true, agent, handle) == -1
    ensures agent != null && agent.inUse ==> AE.AdmissionCode(true, agent, handle) == -100
    ensures agent != null && !agent.inUse && handle == null ==> AE.AdmissionCode(true, agent, handle) == -1
    ensures agent != null && !agent.inUse && handle != null && handle.inUse ==>
              AE.AdmissionCode(true, agent, handle) == -100
    ensures agent != null && !agent.inUse && handle != null && !handle.inUse ==>
              AE.AdmissionCode(true, agent, handle) == 0
  {
  }

  lemma RelayFinishArguments(ke3: nat, ke3Len: nat, out: nat, capacity: nat)
    ensures RE.FinishArgumentsOk(ke3, ke3Len, out, capacity)
            <==> ke3 != 0 && out != 0 && ke3Len == 65 && 64 <= capacity && Separate(ke3, 65, out, 64)
  {
    OverlapOrSeparate(ke3, 65, out, 64);
  }
}
