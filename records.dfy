/**
 * Choosing the records to update (src/index.ts, getDomainRecordDisplayName
 * and the `reduce` in updateDomainRecordsIp): a record is kept when its name
 * passes the hostname allow-list and it is an A record whose target differs
 * from a truthy `ipv4`, or an AAAA record whose target differs from a truthy
 * `ipv6`; it is kept together with the target it will be given.
 */
module Records {
  import opened Wrappers
  import opened Addresses

  /** The fields of a provider-side DNS record that the updater reads. */
  datatype DomainRecord = DomainRecord(id: int, name: string, rtype: string, target: string)

  /** A record to update: the record as fetched, plus the target it will get. */
  datatype PendingUpdate = PendingUpdate(record: DomainRecord, newTarget: string)

  /** What the selection reads besides the record: the allow-list and the two bound addresses. */
  datatype Criteria = Criteria(hostnames: Option<set<string>>, ipv4: Address, ipv6: Address)

  /** How a record is named in log lines; the apex (empty name) is shown as `@`. */
  function DisplayName(r: DomainRecord): string
  {
    r.rtype + " Record " + (if r.name == "" then "@" else r.name)
  }

  /**
   * For records of one type, the display name tells the names apart, except
   * that the apex and a record literally named `@` look the same.
   */
  lemma DisplayNameIdentifiesName(a: DomainRecord, b: DomainRecord)
    requires a.rtype == b.rtype
    ensures DisplayName(a) == DisplayName(b) <==>
              a.name == b.name || (a.name == "" && b.name == "@") || (a.name == "@" && b.name == "")
  {
    var prefix := a.rtype + " Record ";
    var sa := if a.name == "" then "@" else a.name;
    var sb := if b.name == "" then "@" else b.name;
    assert DisplayName(a) == prefix + sa && DisplayName(b) == prefix + sb;
    if DisplayName(a) == DisplayName(b) {
      assert sa == (prefix + sa)[|prefix|..];
      assert sb == (prefix + sb)[|prefix|..];
    }
  }

  /** The allow-list admits a name: there is none, or the name is in it. */
  predicate HostnameAllowed(hostnames: Option<set<string>>, name: string)
  {
    hostnames.None? || name in hostnames.value
  }

  /** The record has type `rtype`, the address is truthy and differs from the record's target. */
  predicate Stale(r: DomainRecord, rtype: string, a: Address)
  {
    r.rtype == rtype && Truthy(a) && r.target != a.value
  }

  /**
   * The decision for one record: the target it is to get, or `None` when it
   * is skipped. The A test comes first, then the AAAA test.
   */
  function NewTarget(r: DomainRecord, c: Criteria): (t: Option<string>)
    ensures t.Some? <==>
              HostnameAllowed(c.hostnames, r.name) && (Stale(r, "A", c.ipv4) || Stale(r, "AAAA", c.ipv6))
    ensures t.Some? ==> r.rtype == "A" || r.rtype == "AAAA"
    ensures t.Some? && r.rtype == "A" ==> t == c.ipv4
    ensures t.Some? && r.rtype == "AAAA" ==> t == c.ipv6
    ensures t.Some? ==> t.value != "" && t.value != r.target
  {
    if c.hostnames.Some? && r.name !in c.hostnames.value then
      None
    else if Truthy(c.ipv4) && r.rtype == "A" && r.target != c.ipv4.value then
      Some(c.ipv4.value)
    else if Truthy(c.ipv6) && r.rtype == "AAAA" && r.target != c.ipv6.value then
      Some(c.ipv6.value)
    else
      None
  }

  /** The reducer: push the record with its new target, or leave `results` as it is. */
  function Step(results: seq<PendingUpdate>, r: DomainRecord, c: Criteria): seq<PendingUpdate>
  {
    match NewTarget(r, c)
    case None => results
    case Some(t) => results + [PendingUpdate(r, t)]
  }

  /** `records.reduce(Step, results)`, left to right. */
  function Reduce(results: seq<PendingUpdate>, records: seq<DomainRecord>, c: Criteria): seq<PendingUpdate>
    decreases |records|
  {
    if records == [] then results else Reduce(Step(results, records[0], c), records[1..], c)
  }

  /** `recordsToUpdate`: the reduction started from the empty list. */
  function Select(records: seq<DomainRecord>, c: Criteria): seq<PendingUpdate>
  {
    Reduce([], records, c)
  }

  /** The reduction only appends to what it started from. */
  lemma {:induction false} ReduceExtends(results: seq<PendingUpdate>, records: seq<DomainRecord>, c: Criteria)
    ensures Reduce(results, records, c) == results + Select(records, c)
    decreases |records|
  {
    if records != [] {
      var first := Step([], records[0], c);
      ReduceExtends(Step(results, records[0], c), records[1..], c);
      ReduceExtends(first, records[1..], c);
      assert Step(results, records[0], c) == results + first;
    }
  }

  /** Reducing over a concatenation reduces over the first part, then over the second. */
  lemma {:induction false} ReduceAppend(results: seq<PendingUpdate>, xs: seq<DomainRecord>, ys: seq<DomainRecord>, c: Criteria)
    ensures Reduce(results, xs + ys, c) == Reduce(Reduce(results, xs, c), ys, c)
    decreases |xs|
  {
    if xs == [] {
      assert xs + ys == ys;
    } else {
      assert (xs + ys)[0] == xs[0] && (xs + ys)[1..] == xs[1..] + ys;
      ReduceAppend(Step(results, xs[0], c), xs[1..], ys, c);
    }
  }

  /** Selecting from a concatenation selects from each part, in order. */
  lemma SelectAppend(xs: seq<DomainRecord>, ys: seq<DomainRecord>, c: Criteria)
    ensures Select(xs + ys, c) == Select(xs, c) + Select(ys, c)
  {
    ReduceAppend([], xs, ys, c);
    ReduceExtends(Select(xs, c), ys, c);
  }

  /** Selecting from one record. */
  lemma SelectSingle(r: DomainRecord, c: Criteria)
    ensures Select([r], c) == Step([], r, c)
  {
    assert [r][1..] == [];
    assert Reduce([], [r], c) == Reduce(Step([], r, c), [], c);
  }

  /**
   * The indices of the records that are kept, in increasing order; a
   * reference definition of the selection, independent of the reducer.
   */
  function Picked(records: seq<DomainRecord>, c: Criteria): (idx: seq<nat>)
    ensures forall k :: 0 <= k < |idx| ==> idx[k] < |records|
    ensures forall k, l :: 0 <= k < l < |idx| ==> idx[k] < idx[l]
    ensures forall i :: 0 <= i < |records| ==> (i in idx <==> NewTarget(records[i], c).Some?)
    decreases |records|
  {
    if records == [] then []
    else
      var n := |records| - 1;
      var front := Picked(records[..n], c);
      assert forall i :: 0 <= i < n ==> records[..n][i] == records[i];
      front + (if NewTarget(records[n], c).Some? then [n] else [])
  }

  /**
   * The reduction keeps exactly the records at `Picked`, in input order, each
   * with all its fields and the target `NewTarget` gives it.
   */
  lemma {:induction false} SelectIsOrderedFilter(records: seq<DomainRecord>, c: Criteria)
    ensures |Select(records, c)| == |Picked(records, c)|
    ensures forall k :: 0 <= k < |Picked(records, c)| ==>
              Select(records, c)[k] ==
                PendingUpdate(records[Picked(records, c)[k]], NewTarget(records[Picked(records, c)[k]], c).value)
    decreases |records|
  {
    if records != [] {
      var n := |records| - 1;
      var front := records[..n];
      assert records == front + [records[n]];
      SelectAppend(front, [records[n]], c);
      SelectSingle(records[n], c);
      SelectIsOrderedFilter(front, c);
      assert forall i :: 0 <= i < n ==> front[i] == records[i];
      var last := NewTarget(records[n], c);
      if last.Some? {
        assert Picked(records, c) == Picked(front, c) + [n];
        assert Select(records, c) == Select(front, c) + [PendingUpdate(records[n], last.value)];
      } else {
        assert Picked(records, c) == Picked(front, c);
        assert Select(records, c) == Select(front, c);
      }
    }
  }

  /**
   * A pending update is selected exactly when its record is among the
   * records and `NewTarget` gives that record that target.
   */
  lemma {:induction false} SelectMembership(records: seq<DomainRecord>, c: Criteria, p: PendingUpdate)
    ensures p in Select(records, c) <==> p.record in records && NewTarget(p.record, c) == Some(p.newTarget)
    decreases |records|
  {
    if records != [] {
      var n := |records| - 1;
      var front := records[..n];
      assert records == front + [records[n]];
      SelectAppend(front, [records[n]], c);
      SelectSingle(records[n], c);
      SelectMembership(front, c, p);
    }
  }

  /**
   * Every selected update passes the hostname check, is an A record given a
   * truthy `ipv4` or an AAAA record given a truthy `ipv6`, and changes the
   * record's target.
   */
  lemma SelectedRecordsQualify(records: seq<DomainRecord>, c: Criteria)
    ensures forall p :: p in Select(records, c) ==>
              && HostnameAllowed(c.hostnames, p.record.name)
              && (p.record.rtype == "A" ==> Truthy(c.ipv4) && p.newTarget == c.ipv4.value)
              && (p.record.rtype == "AAAA" ==> Truthy(c.ipv6) && p.newTarget == c.ipv6.value)
              && (p.record.rtype == "A" || p.record.rtype == "AAAA")
              && p.newTarget != p.record.target
  {
    forall p | p in Select(records, c)
      ensures HostnameAllowed(c.hostnames, p.record.name)
      ensures p.record.rtype == "A" ==> Truthy(c.ipv4) && p.newTarget == c.ipv4.value
      ensures p.record.rtype == "AAAA" ==> Truthy(c.ipv6) && p.newTarget == c.ipv6.value
      ensures p.record.rtype == "A" || p.record.rtype == "AAAA"
      ensures p.newTarget != p.record.target
    {
      SelectMembership(records, c, p);
    }
  }

  /** A record that needs a change is never missed. */
  lemma StaleRecordsAreSelected(records: seq<DomainRecord>, c: Criteria)
    ensures forall r :: r in records && NewTarget(r, c).Some? ==>
              PendingUpdate(r, NewTarget(r, c).value) in Select(records, c)
  {
    forall r | r in records && NewTarget(r, c).Some?
      ensures PendingUpdate(r, NewTarget(r, c).value) in Select(records, c)
    {
      SelectMembership(records, c, PendingUpdate(r, NewTarget(r, c).value));
    }
  }

  /** When the records have distinct ids, so do the selected updates. */
  lemma SelectedIdsDistinct(records: seq<DomainRecord>, c: Criteria)
    requires forall i, j :: 0 <= i < j < |records| ==> records[i].id != records[j].id
    ensures forall k, l :: 0 <= k < l < |Select(records, c)| ==>
              Select(records, c)[k].record.id != Select(records, c)[l].record.id
  {
    SelectIsOrderedFilter(records, c);
  }

  /** An empty allow-list (the parsed list `[]`) admits no record at all. */
  lemma EmptyAllowListSelectsNothing(records: seq<DomainRecord>, c: Criteria)
    requires c.hostnames == Some({})
    ensures Select(records, c) == []
  {
    if Select(records, c) != [] {
      SelectMembership(records, c, Select(records, c)[0]);
    }
  }

  /** With neither address truthy (lookups failed or bodies were blank) nothing is selected. */
  lemma NoAddressSelectsNothing(records: seq<DomainRecord>, c: Criteria)
    requires !Truthy(c.ipv4) && !Truthy(c.ipv6)
    ensures Select(records, c) == []
  {
    if Select(records, c) != [] {
      SelectMembership(records, c, Select(records, c)[0]);
    }
  }

  /**
   * The provider's records after every selected update was accepted: each
   * selected record carries its new target, the others are unchanged.
   */
  function AfterUpdates(records: seq<DomainRecord>, c: Criteria): (after: seq<DomainRecord>)
    ensures |after| == |records|
  {
    seq(|records|, i requires 0 <= i < |records| =>
      match NewTarget(records[i], c)
      case None => records[i]
      case Some(t) => records[i].(target := t))
  }

  /**
   * Once every update of a cycle went through, a cycle that sees the same
   * addresses and allow-list selects nothing: the records have converged.
   */
  lemma SecondPassSelectsNothing(records: seq<DomainRecord>, c: Criteria)
    ensures Select(AfterUpdates(records, c), c) == []
  {
    var after := AfterUpdates(records, c);
    forall r | r in after ensures NewTarget(r, c).None? {
      var i :| 0 <= i < |after| && after[i] == r;
    }
    if Select(after, c) != [] {
      SelectMembership(after, c, Select(after, c)[0]);
    }
  }
}
