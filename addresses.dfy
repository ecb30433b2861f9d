/**
 * Discovering the public addresses (src/index.ts, fetchIpv4, fetchIpv6 and
 * getIp): which echo lookups are queued, how a response becomes an address,
 * and how the joined results are bound to `ipv4` and `ipv6` by position.
 */
module Addresses {
  import opened Wrappers

  datatype Family = IPv4 | IPv6

  /** The DNS record type that an address family is meant for. */
  function RecordType(f: Family): string
  {
    match f
    case IPv4 => "A"
    case IPv6 => "AAAA"
  }

  /**
   * The outcome of one request to an address-echo endpoint: the request was
   * rejected (network failure), or a response arrived with this body. A
   * response with an error status still resolves and its body is used.
   */
  datatype Lookup = Unreachable | Responded(body: string)

  /** A looked-up address as the source holds it; `None` is `undefined`. */
  type Address = Option<string>

  /** JavaScript truthiness of an address: neither `undefined` nor `''`. */
  predicate Truthy(a: Address)
  {
    a.Some? && a.value != ""
  }

  /** The characters `String.prototype.trim` removes: WhiteSpace and LineTerminator. */
  const TrimmableChars: set<char> := {
    '\t', '\n', '\U{000B}', '\U{000C}', '\r', ' ', '\U{00A0}', '\U{1680}',
    '\U{2000}', '\U{2001}', '\U{2002}', '\U{2003}', '\U{2004}', '\U{2005}',
    '\U{2006}', '\U{2007}', '\U{2008}', '\U{2009}', '\U{200A}',
    '\U{2028}', '\U{2029}', '\U{202F}', '\U{205F}', '\U{3000}', '\U{FEFF}'
  }

  predicate IsTrimmable(c: char)
  {
    c in TrimmableChars
  }

  /** `s` with its leading trimmable characters removed. */
  function TrimStart(s: string): (r: string)
    ensures |r| <= |s| && r == s[|s| - |r|..]
    ensures forall k :: 0 <= k < |s| - |r| ==> IsTrimmable(s[k])
    ensures r == [] || !IsTrimmable(r[0])
  {
    if s != [] && IsTrimmable(s[0]) then
      var r := TrimStart(s[1..]);
      assert s[1..][|s| - 1 - |r|..] == s[|s| - |r|..];
      assert forall k :: 1 <= k < |s| - |r| ==> s[k] == s[1..][k - 1];
      r
    else
      s
  }

  /** `s` with its trailing trimmable characters removed. */
  function TrimEnd(s: string): (r: string)
    ensures |r| <= |s| && r == s[..|r|]
    ensures forall k :: |r| <= k < |s| ==> IsTrimmable(s[k])
    ensures r == [] || !IsTrimmable(r[|r| - 1])
  {
    if s != [] && IsTrimmable(s[|s| - 1]) then
      var r := TrimEnd(s[..|s| - 1]);
      assert s[..|s| - 1][..|r|] == s[..|r|];
      assert forall k :: |r| <= k < |s| - 1 ==> s[k] == s[..|s| - 1][k];
      r
    else
      s
  }

  function Trim(s: string): string
  {
    TrimEnd(TrimStart(s))
  }

  /** TrimStart stops at the first character that is kept. */
  lemma {:induction false} TrimStartAt(s: string, i: nat)
    requires i <= |s|
    requires forall k :: 0 <= k < i ==> IsTrimmable(s[k])
    requires i == |s| || !IsTrimmable(s[i])
    ensures TrimStart(s) == s[i..]
  {
    if i > 0 {
      TrimStartAt(s[1..], i - 1);
      assert s[1..][i - 1..] == s[i..];
    }
  }

  /** TrimEnd stops at the last character that is kept. */
  lemma {:induction false} TrimEndAt(s: string, j: nat)
    requires j <= |s|
    requires forall k :: j <= k < |s| ==> IsTrimmable(s[k])
    requires j == 0 || !IsTrimmable(s[j - 1])
    ensures TrimEnd(s) == s[..j]
    decreases |s| - j
  {
    if j < |s| {
      var p := s[..|s| - 1];
      TrimEndAt(p, j);
      assert p[..j] == s[..j];
    }
  }

  /** A text made only of trimmable characters trims to nothing. */
  lemma TrimAllTrimmable(s: string)
    requires forall k :: 0 <= k < |s| ==> IsTrimmable(s[k])
    ensures Trim(s) == []
  {
    TrimStartAt(s, |s|);
  }

  /**
   * `Trim(s)` is the one slice `s[i..j]` that leaves only trimmable characters
   * outside and starts and ends with a character that is kept.
   */
  lemma {:induction false} TrimIsUniqueSlice(s: string, i: nat, j: nat)
    requires i <= j <= |s|
    requires forall k :: 0 <= k < i ==> IsTrimmable(s[k])
    requires forall k :: j <= k < |s| ==> IsTrimmable(s[k])
    requires i == j || (!IsTrimmable(s[i]) && !IsTrimmable(s[j - 1]))
    ensures Trim(s) == s[i..j]
  {
    if i == j {
      forall k | 0 <= k < |s| ensures IsTrimmable(s[k]) {
        if k >= i { assert j <= k; }
      }
      TrimAllTrimmable(s);
    } else {
      TrimStartAt(s, i);
      TrimEndOfSuffix(s, i, j);
    }
  }

  /** Trimming the end of the suffix that starts at `i`. */
  lemma TrimEndOfSuffix(s: string, i: nat, j: nat)
    requires i < j <= |s|
    requires forall k :: j <= k < |s| ==> IsTrimmable(s[k])
    requires !IsTrimmable(s[j - 1])
    ensures TrimEnd(s[i..]) == s[i..j]
  {
    var t := s[i..];
    forall k | j - i <= k < |t| ensures IsTrimmable(t[k]) {
      assert t[k] == s[i + k];
    }
    assert t[j - i - 1] == s[j - 1];
    TrimEndAt(t, j - i);
    assert t[..j - i] == s[i..j];
  }

  /** A body trims to `''` exactly when it holds nothing but trimmable characters. */
  lemma TrimEmptyIff(s: string)
    ensures Trim(s) == "" <==> forall k :: 0 <= k < |s| ==> IsTrimmable(s[k])
  {
    if forall k :: 0 <= k < |s| ==> IsTrimmable(s[k]) {
      TrimIsUniqueSlice(s, 0, 0);
    }
  }

  /** Trimming twice is trimming once. */
  lemma TrimIdempotent(s: string)
    ensures Trim(Trim(s)) == Trim(s)
  {
    var t := Trim(s);
    assert t != [] ==> t[0] == TrimStart(s)[0];
    TrimIsUniqueSlice(t, 0, |t|);
    assert t[0..|t|] == t;
  }

  /**
   * fetchIpv4 / fetchIpv6: a rejected request yields `undefined`; any response
   * yields its body trimmed.
   */
  function FetchAddress(l: Lookup): (a: Address)
    ensures a.None? <==> l.Unreachable?
    ensures Truthy(a) <==> l.Responded? && exists k :: 0 <= k < |l.body| && !IsTrimmable(l.body[k])
    ensures l.Responded? ==> a == Some(Trim(l.body))
    ensures a.Some? ==> |a.value| <= |l.body|
  {
    match l
    case Unreachable => None
    case Responded(body) =>
      TrimEmptyIff(body);
      Some(Trim(body))
  }

  /**
   * Reference definition of the lookups getIp queues: each family whose
   * record type is enabled, IPv4 before IPv6; with no RECORD_TYPES both are.
   */
  predicate Enabled(recordTypes: Option<set<string>>, f: Family)
  {
    recordTypes.None? || RecordType(f) in recordTypes.value
  }

  function QueuedLookups(recordTypes: Option<set<string>>): (plan: seq<Family>)
    ensures recordTypes.None? ==> plan == [IPv4, IPv6]
    ensures IPv4 in plan <==> Enabled(recordTypes, IPv4)
    ensures IPv6 in plan <==> Enabled(recordTypes, IPv6)
    ensures forall i, j :: 0 <= i < j < |plan| ==> plan[i] == IPv4 && plan[j] == IPv6
  {
    (if Enabled(recordTypes, IPv4) then [IPv4] else []) +
    (if Enabled(recordTypes, IPv6) then [IPv6] else [])
  }

  /** The echo lookup of one family. */
  function Echo(f: Family, ipv4Echo: Lookup, ipv6Echo: Lookup): Lookup
  {
    match f
    case IPv4 => ipv4Echo
    case IPv6 => ipv6Echo
  }

  /** What `Promise.all` resolves to: one address per queued lookup, in queue order. */
  function JoinedResults(plan: seq<Family>, ipv4Echo: Lookup, ipv6Echo: Lookup): (results: seq<Address>)
    ensures |results| == |plan|
    ensures forall k :: 0 <= k < |plan| ==> results[k] == FetchAddress(Echo(plan[k], ipv4Echo, ipv6Echo))
  {
    if plan == [] then []
    else
      var rest := JoinedResults(plan[1..], ipv4Echo, ipv6Echo);
      assert forall k :: 1 <= k < |plan| ==> plan[k] == plan[1..][k - 1];
      [FetchAddress(Echo(plan[0], ipv4Echo, ipv6Echo))] + rest
  }

  /**
   * getIp: queue the lookups, then wait for all of them. The task list is
   * built by pushes under the same conditions as the source.
   */
  method GetIp(recordTypes: Option<set<string>>, ipv4Echo: Lookup, ipv6Echo: Lookup)
    returns (queued: seq<Family>, results: seq<Address>)
    ensures queued == QueuedLookups(recordTypes)
    ensures results == JoinedResults(queued, ipv4Echo, ipv6Echo)
  {
    // each pushed task is identified by the lookup it runs
    queued := [];
    if recordTypes.None? {
      queued := queued + [IPv4, IPv6];
    } else {
      if "A" in recordTypes.value {
        queued := queued + [IPv4];
      }
      if "AAAA" in recordTypes.value {
        queued := queued + [IPv6];
      }
    }
    // await Promise.all(tasks)
    results := JoinedResults(queued, ipv4Echo, ipv6Echo);
  }

  /** `const [ipv4, ipv6] = results`: the first and second elements, `undefined` past the end. */
  function BindByPosition(results: seq<Address>): (Address, Address)
  {
    (if |results| > 0 then results[0] else None,
     if |results| > 1 then results[1] else None)
  }

  /** The pair of addresses one cycle works with. */
  function Resolve(recordTypes: Option<set<string>>, ipv4Echo: Lookup, ipv6Echo: Lookup): (Address, Address)
  {
    BindByPosition(JoinedResults(QueuedLookups(recordTypes), ipv4Echo, ipv6Echo))
  }

  /**
   * How the addresses are bound. When the A type is enabled, `ipv4` holds the
   * IPv4 lookup and `ipv6` the IPv6 lookup or `undefined`. When only AAAA is
   * enabled, the IPv6 lookup lands in `ipv4` and `ipv6` is `undefined`. When
   * neither is, both are `undefined`.
   */
  lemma ResolveBindsByPosition(recordTypes: Option<set<string>>, ipv4Echo: Lookup, ipv6Echo: Lookup)
    ensures Enabled(recordTypes, IPv4) ==>
              Resolve(recordTypes, ipv4Echo, ipv6Echo) ==
                (FetchAddress(ipv4Echo),
                 if Enabled(recordTypes, IPv6) then FetchAddress(ipv6Echo) else None)
    ensures !Enabled(recordTypes, IPv4) && Enabled(recordTypes, IPv6) ==>
              Resolve(recordTypes, ipv4Echo, ipv6Echo) == (FetchAddress(ipv6Echo), None)
    ensures !Enabled(recordTypes, IPv4) && !Enabled(recordTypes, IPv6) ==>
              Resolve(recordTypes, ipv4Echo, ipv6Echo) == (None, None)
  {
    var plan := QueuedLookups(recordTypes);
    JoinedBinding(plan, ipv4Echo, ipv6Echo);
    if Enabled(recordTypes, IPv4) && Enabled(recordTypes, IPv6) {
      assert plan == [IPv4, IPv6];
    } else if Enabled(recordTypes, IPv4) {
      assert plan == [IPv4];
    } else if Enabled(recordTypes, IPv6) {
      assert plan == [IPv6];
    } else {
      assert plan == [];
    }
  }

  /** Binding by position reads the first two queued lookups. */
  lemma JoinedBinding(plan: seq<Family>, ipv4Echo: Lookup, ipv6Echo: Lookup)
    ensures BindByPosition(JoinedResults(plan, ipv4Echo, ipv6Echo)) ==
              (if |plan| > 0 then FetchAddress(Echo(plan[0], ipv4Echo, ipv6Echo)) else None,
               if |plan| > 1 then FetchAddress(Echo(plan[1], ipv4Echo, ipv6Echo)) else None)
  {
  }
}
