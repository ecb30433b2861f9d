/**
 * One reconciliation cycle (src/index.ts, updateDomainRecordsIp and the cron
 * callback): look up the addresses, fetch the domain and its records, select
 * the records to change, and send one update per selected record, each in its
 * own failure boundary.
 */
module Updater {
  import opened Wrappers
  import opened Addresses
  import opened Records
  import opened Configuration

  /** An external call, recorded in the order the cycle makes it. */
  datatype Call =
    | FetchIp(family: Family)
    | GetDomain(domainId: string)
    | GetDomainRecords(domainId: string)
    | UpdateDomainRecord(domainId: string, recordId: int, target: string)

  /**
   * The answers the outside world gives during one cycle: the two echo
   * lookups, getDomain (the domain's name, or `None` when it rejects) and
   * getDomainRecords (`records.data`, or `None` when it rejects).
   */
  datatype Network = Network(
    ipv4Echo: Lookup,
    ipv6Echo: Lookup,
    domain: Option<string>,
    records: Option<seq<DomainRecord>>)

  /**
   * Whether the provider accepts the update call with this index within the
   * cycle; `false` means the call rejects.
   */
  type UpdateOracle = (nat, Call) -> bool

  /** Why a cycle is abandoned: the error that escapes updateDomainRecordsIp. */
  datatype CycleError = DomainUnavailable | RecordsUnavailable

  /** What a completed cycle worked with and what became of each update. */
  datatype CycleSummary = CycleSummary(
    ipv4: Address,
    ipv6: Address,
    pending: seq<PendingUpdate>,
    accepted: seq<bool>)

  function FetchCalls(plan: seq<Family>): seq<Call>
  {
    seq(|plan|, i requires 0 <= i < |plan| => FetchIp(plan[i]))
  }

  /** `updateDomainRecord(domainId, record.id, { id: record.id, target: record.newTarget })`. */
  function UpdateCall(domainId: string, p: PendingUpdate): Call
  {
    UpdateDomainRecord(domainId, p.record.id, p.newTarget)
  }

  function UpdateCalls(domainId: string, pending: seq<PendingUpdate>): seq<Call>
  {
    seq(|pending|, i requires 0 <= i < |pending| => UpdateCall(domainId, pending[i]))
  }

  /**
   * The update loop: one call per pending update, in order. A rejected call
   * is caught and logged, and the loop goes on with the next record, so the
   * calls made do not depend on what the provider answers.
   */
  method ApplyUpdates(domainId: string, pending: seq<PendingUpdate>, accepts: UpdateOracle)
    returns (calls: seq<Call>, accepted: seq<bool>)
    ensures |calls| == |pending| && |accepted| == |pending|
    ensures forall i :: 0 <= i < |pending| ==> calls[i] == UpdateCall(domainId, pending[i])
    ensures forall i :: 0 <= i < |pending| ==> accepted[i] == accepts(i, calls[i])
    ensures calls == UpdateCalls(domainId, pending) && accepted == Responses(domainId, pending, accepts)
  {
    calls, accepted := [], [];
    for i := 0 to |pending|
      invariant |calls| == i && |accepted| == i
      invariant forall k :: 0 <= k < i ==> calls[k] == UpdateCall(domainId, pending[k])
      invariant forall k :: 0 <= k < i ==> accepted[k] == accepts(k, calls[k])
    {
      var call := UpdateCall(domainId, pending[i]);
      // try { await updateDomainRecord(...) } catch { log the error }
      var ok := accepts(i, call);
      calls := calls + [call];
      accepted := accepted + [ok];
    }
  }

  /** The provider's answer to each update call, in order. */
  function Responses(domainId: string, pending: seq<PendingUpdate>, accepts: UpdateOracle): seq<bool>
  {
    seq(|pending|, i requires 0 <= i < |pending| => accepts(i, UpdateCall(domainId, pending[i])))
  }

  /** The allow-list and the two addresses as bound by position in this cycle. */
  function CycleCriteria(config: Config, net: Network): Criteria
  {
    var (ipv4, ipv6) := Resolve(config.recordTypes, net.ipv4Echo, net.ipv6Echo);
    Criteria(config.hostnames, ipv4, ipv6)
  }

  /** The updates a cycle sends once it has the records. */
  function CyclePending(config: Config, net: Network): seq<PendingUpdate>
    requires net.records.Some?
  {
    Select(net.records.value, CycleCriteria(config, net))
  }

  /** Every external call of one cycle, in order. */
  function CycleTrace(config: Config, net: Network): seq<Call>
  {
    var head := FetchCalls(QueuedLookups(config.recordTypes)) + [GetDomain(config.domainId)];
    if net.domain.None? then head
    else if net.records.None? then head + [GetDomainRecords(config.domainId)]
    else head + [GetDomainRecords(config.domainId)] + UpdateCalls(config.domainId, CyclePending(config, net))
  }

  /** What updateDomainRecordsIp resolves to, or the error it rejects with. */
  function CycleResult(config: Config, net: Network, accepts: UpdateOracle): Result<CycleSummary, CycleError>
  {
    if net.domain.None? then Failure(DomainUnavailable)
    else if net.records.None? then Failure(RecordsUnavailable)
    else
      var c := CycleCriteria(config, net);
      var pending := CyclePending(config, net);
      Success(CycleSummary(c.ipv4, c.ipv6, pending, Responses(config.domainId, pending, accepts)))
  }

  /** updateDomainRecordsIp: one cycle, made step by step. */
  method UpdateDomainRecordsIp(config: Config, net: Network, accepts: UpdateOracle)
    returns (trace: seq<Call>, result: Result<CycleSummary, CycleError>)
    ensures trace == CycleTrace(config, net)
    ensures result == CycleResult(config, net, accepts)
  {
    var queued, results := GetIp(config.recordTypes, net.ipv4Echo, net.ipv6Echo);
    trace := FetchCalls(queued);
    var (ipv4, ipv6) := BindByPosition(results);
    ghost var c := Criteria(config.hostnames, ipv4, ipv6);
    assert c == CycleCriteria(config, net);
    trace := trace + [GetDomain(config.domainId)];
    if net.domain.None? {
      result := Failure(DomainUnavailable);
      return;
    }
    trace := trace + [GetDomainRecords(config.domainId)];
    if net.records.None? {
      result := Failure(RecordsUnavailable);
      return;
    }
    var pending := Select(net.records.value, Criteria(config.hostnames, ipv4, ipv6));
    assert pending == CyclePending(config, net);
    var calls, accepted := ApplyUpdates(config.domainId, pending, accepts);
    trace := trace + calls;
    result := Success(CycleSummary(ipv4, ipv6, pending, accepted));
  }

  /**
   * The cron callback: run one cycle and catch whatever it rejects with. The
   * error is logged and never leaves the callback.
   */
  method OnTick(config: Config, net: Network, accepts: UpdateOracle)
    returns (trace: seq<Call>, logged: Option<CycleError>)
    ensures trace == CycleTrace(config, net)
    ensures logged.Some? <==> net.domain.None? || net.records.None?
    ensures logged.Some? ==> Failure(logged.value) == CycleResult(config, net, accepts)
  {
    var result;
    trace, result := UpdateDomainRecordsIp(config, net, accepts);
    logged := if result.Failure? then Some(result.error) else None;
  }

  /** The update calls within a trace, in order. */
  function SentUpdates(trace: seq<Call>): seq<Call>
  {
    if trace == [] then []
    else (if trace[0].UpdateDomainRecord? then [trace[0]] else []) + SentUpdates(trace[1..])
  }

  lemma {:induction false} SentUpdatesAppend(a: seq<Call>, b: seq<Call>)
    ensures SentUpdates(a + b) == SentUpdates(a) + SentUpdates(b)
  {
    if a == [] {
      assert a + b == b;
    } else {
      assert (a + b)[0] == a[0] && (a + b)[1..] == a[1..] + b;
      SentUpdatesAppend(a[1..], b);
    }
  }

  lemma {:induction false} SentUpdatesOfFetches(plan: seq<Family>)
    ensures SentUpdates(FetchCalls(plan)) == []
  {
    if plan != [] {
      assert FetchCalls(plan)[1..] == FetchCalls(plan[1..]);
      SentUpdatesOfFetches(plan[1..]);
    }
  }

  lemma {:induction false} SentUpdatesOfUpdates(domainId: string, pending: seq<PendingUpdate>)
    ensures SentUpdates(UpdateCalls(domainId, pending)) == UpdateCalls(domainId, pending)
  {
    if pending != [] {
      assert UpdateCalls(domainId, pending)[1..] == UpdateCalls(domainId, pending[1..]);
      SentUpdatesOfUpdates(domainId, pending[1..]);
    }
  }

  /**
   * The update calls of a cycle: none when getDomain or getDomainRecords
   * fails (the cycle is abandoned), and otherwise exactly one per selected
   * record, in the order of the provider's list, whatever the provider
   * answers to each of them.
   */
  lemma CycleUpdateCalls(config: Config, net: Network, accepts: UpdateOracle)
    ensures CycleResult(config, net, accepts).Failure? <==> net.domain.None? || net.records.None?
    ensures net.domain.None? ==> CycleResult(config, net, accepts) == Failure(DomainUnavailable)
    ensures net.domain.None? ==> GetDomainRecords(config.domainId) !in CycleTrace(config, net)
    ensures net.domain.None? || net.records.None? ==> SentUpdates(CycleTrace(config, net)) == []
    ensures net.domain.Some? && net.records.Some? ==>
              SentUpdates(CycleTrace(config, net)) == UpdateCalls(config.domainId, CyclePending(config, net))
    ensures CycleResult(config, net, accepts).Success? ==>
              |CycleResult(config, net, accepts).value.accepted| == |CycleResult(config, net, accepts).value.pending|
  {
    var plan := QueuedLookups(config.recordTypes);
    if net.domain.None? {
      HeadSendsNoUpdate(plan, config.domainId);
    } else if net.records.None? {
      AbandonedTraceSendsNoUpdate(plan, config.domainId);
    } else {
      CompletedTraceSendsUpdates(plan, config.domainId, CyclePending(config, net));
    }
  }

  lemma SentUpdatesOfOne(call: Call)
    ensures SentUpdates([call]) == if call.UpdateDomainRecord? then [call] else []
  {
    assert [call][1..] == [];
  }

  /** The lookups and getDomain come first in every cycle and are not updates. */
  lemma HeadSendsNoUpdate(plan: seq<Family>, domainId: string)
    ensures SentUpdates(FetchCalls(plan) + [GetDomain(domainId)]) == []
    ensures GetDomainRecords(domainId) !in FetchCalls(plan) + [GetDomain(domainId)]
  {
    SentUpdatesOfFetches(plan);
    SentUpdatesAppend(FetchCalls(plan), [GetDomain(domainId)]);
    SentUpdatesOfOne(GetDomain(domainId));
    assert forall k :: 0 <= k < |plan| ==> FetchCalls(plan)[k].FetchIp?;
  }

  /** A cycle that stops after getDomainRecords rejects sends no update. */
  lemma AbandonedTraceSendsNoUpdate(plan: seq<Family>, domainId: string)
    ensures SentUpdates(FetchCalls(plan) + [GetDomain(domainId)] + [GetDomainRecords(domainId)]) == []
  {
    HeadSendsNoUpdate(plan, domainId);
    SentUpdatesAppend(FetchCalls(plan) + [GetDomain(domainId)], [GetDomainRecords(domainId)]);
    SentUpdatesOfOne(GetDomainRecords(domainId));
  }

  /** A cycle that gets the records sends exactly the calls of the update loop. */
  lemma CompletedTraceSendsUpdates(plan: seq<Family>, domainId: string, pending: seq<PendingUpdate>)
    ensures SentUpdates(FetchCalls(plan) + [GetDomain(domainId)] + [GetDomainRecords(domainId)] +
                        UpdateCalls(domainId, pending))
            == UpdateCalls(domainId, pending)
  {
    var head := FetchCalls(plan) + [GetDomain(domainId)] + [GetDomainRecords(domainId)];
    AbandonedTraceSendsNoUpdate(plan, domainId);
    SentUpdatesAppend(head, UpdateCalls(domainId, pending));
    SentUpdatesOfUpdates(domainId, pending);
  }

  /**
   * Every update call a cycle makes writes, in the configured domain, a
   * record of the provider's list that passes the allow-list, to a target
   * that differs from its current one and that `NewTarget` chose for it.
   */
  lemma UpdatesTouchOnlySelectedRecords(config: Config, net: Network)
    requires net.domain.Some? && net.records.Some?
    ensures forall call :: call in SentUpdates(CycleTrace(config, net)) ==>
              && call.UpdateDomainRecord?
              && call.domainId == config.domainId
              && exists r :: r in net.records.value && r.id == call.recordId &&
                   HostnameAllowed(config.hostnames, r.name) && r.target != call.target &&
                   NewTarget(r, CycleCriteria(config, net)) == Some(call.target)
  {
    var c := CycleCriteria(config, net);
    var pending := CyclePending(config, net);
    CycleUpdateCalls(config, net, (_, _) => true);
    forall call | call in SentUpdates(CycleTrace(config, net))
      ensures call.UpdateDomainRecord? && call.domainId == config.domainId
      ensures exists r :: r in net.records.value && r.id == call.recordId &&
                HostnameAllowed(config.hostnames, r.name) && r.target != call.target &&
                NewTarget(r, c) == Some(call.target)
    {
      var k :| 0 <= k < |pending| && call == UpdateCall(config.domainId, pending[k]);
      SelectMembership(net.records.value, c, pending[k]);
    }
  }

  /**
   * Which address each kind of record is moved to. With the A type enabled
   * (or no RECORD_TYPES), A records get the IPv4 lookup and AAAA records the
   * IPv6 lookup. With only AAAA enabled, the IPv6 lookup is bound to `ipv4`:
   * A records are moved to the IPv6 address and AAAA records are never
   * updated. With neither, nothing is updated.
   */
  lemma PendingTargetsByFamily(config: Config, net: Network)
    requires net.records.Some?
    ensures Enabled(config.recordTypes, IPv4) ==>
              forall p :: p in CyclePending(config, net) ==>
                && (p.record.rtype == "A" ==> Some(p.newTarget) == FetchAddress(net.ipv4Echo))
                && (p.record.rtype == "AAAA" ==>
                      Enabled(config.recordTypes, IPv6) && Some(p.newTarget) == FetchAddress(net.ipv6Echo))
    ensures !Enabled(config.recordTypes, IPv4) && Enabled(config.recordTypes, IPv6) ==>
              forall p :: p in CyclePending(config, net) ==>
                p.record.rtype == "A" && Some(p.newTarget) == FetchAddress(net.ipv6Echo)
    ensures !Enabled(config.recordTypes, IPv4) && !Enabled(config.recordTypes, IPv6) ==>
              CyclePending(config, net) == []
  {
    var c := CycleCriteria(config, net);
    ResolveBindsByPosition(config.recordTypes, net.ipv4Echo, net.ipv6Echo);
    SelectedRecordsQualify(net.records.value, c);
    if !Enabled(config.recordTypes, IPv4) && !Enabled(config.recordTypes, IPv6) {
      NoAddressSelectsNothing(net.records.value, c);
    }
  }
}
