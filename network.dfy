/** The network guard of a run: a ledger of every network attempt and the policy that
    admits or rejects each HTTP request and DNS query against the target domain. */
module Network {
  import opened Wrappers
  import opened Text
  import opened Seqs
  import opened Config

  // ---------------------------------------------------------------------------
  // Ledger
  // ---------------------------------------------------------------------------

  /** The `status` field of an entry: a numeric HTTP status or a textual one. */
  datatype Status = Code(code: int) | Label(text: string)

  /** Everything an entry records except its timestamp (the keyword arguments of
      `NetworkLedger.add`); `kind` is the entry's `type`. */
  datatype Attempt = Attempt(
    kind: string,
    destinationHost: string,
    url: Option<string>,
    httpMethod: Option<string>,
    status: Option<Status>,
    error: Option<string>,
    bytesOut: int,
    bytesIn: int,
    durationMs: int,
    queryName: Option<string>,
    recordType: Option<string>,
    success: Option<bool>)

  /** An attempt with only the required fields set, every other field at its default. */
  function Basic(kind: string, destinationHost: string, httpMethod: Option<string>): Attempt {
    Attempt(kind, destinationHost, None, httpMethod, None, None, 0, 0, 0, None, None, None)
  }

  datatype Entry = Entry(timestamp: string, attempt: Attempt)

  /** The value of `totals()`: per-type counts and byte sums keyed by entry type, the
      types in the order they first occur (a Python dict's key order), and the size. */
  datatype LedgerTotals = LedgerTotals(
    kinds: seq<string>,
    counts: map<string, int>,
    bytesOut: map<string, int>,
    bytesIn: map<string, int>,
    totalEntries: int)

  /** The value of `to_dict()`. */
  datatype LedgerDict = LedgerDict(entries: seq<Entry>, totals: LedgerTotals)

  /** How many entries have type `k`. */
  function CountOf(es: seq<Entry>, k: string): nat
    decreases |es|
  {
    if es == [] then 0
    else CountOf(es[..|es| - 1], k) + (if es[|es| - 1].attempt.kind == k then 1 else 0)
  }

  function BytesOutOf(es: seq<Entry>, k: string): int
    decreases |es|
  {
    if es == [] then 0
    else BytesOutOf(es[..|es| - 1], k) + (if es[|es| - 1].attempt.kind == k then es[|es| - 1].attempt.bytesOut else 0)
  }

  function BytesInOf(es: seq<Entry>, k: string): int
    decreases |es|
  {
    if es == [] then 0
    else BytesInOf(es[..|es| - 1], k) + (if es[|es| - 1].attempt.kind == k then es[|es| - 1].attempt.bytesIn else 0)
  }

  /** The entry types in order of first occurrence. */
  function Kinds(es: seq<Entry>): seq<string>
    decreases |es|
  {
    if es == [] then []
    else
      var ks := Kinds(es[..|es| - 1]);
      if es[|es| - 1].attempt.kind in ks then ks else ks + [es[|es| - 1].attempt.kind]
  }

  /** The sum of the counts of the types `ks`. */
  function SumCounts(es: seq<Entry>, ks: seq<string>): int
    decreases |ks|
  {
    if ks == [] then 0 else SumCounts(es, ks[..|ks| - 1]) + CountOf(es, ks[|ks| - 1])
  }

  /** A type occurs among the listed types exactly when some entry has it. */
  lemma {:induction false} KindsSpec(es: seq<Entry>)
    ensures NoDup(Kinds(es))
    ensures forall k :: k in Kinds(es) <==> CountOf(es, k) > 0
    ensures forall k :: CountOf(es, k) == 0 ==> BytesOutOf(es, k) == 0 && BytesInOf(es, k) == 0
    decreases |es|
  {
    if es != [] {
      KindsSpec(es[..|es| - 1]);
    }
  }

  lemma {:induction false} SumCountsAppend(es: seq<Entry>, e: Entry, ks: seq<string>)
    requires NoDup(ks)
    ensures SumCounts(es + [e], ks) == SumCounts(es, ks) + (if e.attempt.kind in ks then 1 else 0)
    decreases |ks|
  {
    if ks != [] {
      var init := ks[..|ks| - 1];
      assert (es + [e])[..|es + [e]| - 1] == es;
      SumCountsAppend(es, e, init);
      assert ks == init + [ks[|ks| - 1]];
    }
  }

  /** The per-type counts of a ledger add up to its number of entries. */
  lemma {:induction false} CountsSumToSize(es: seq<Entry>)
    ensures SumCounts(es, Kinds(es)) == |es|
    decreases |es|
  {
    if es != [] {
      var p := es[..|es| - 1];
      var e := es[|es| - 1];
      assert es == p + [e];
      CountsSumToSize(p);
      KindsSpec(p);
      SumCountsAppend(p, e, Kinds(p));
      if e.attempt.kind !in Kinds(p) {
        var ks := Kinds(p) + [e.attempt.kind];
        assert ks[..|ks| - 1] == Kinds(p);
      }
    }
  }

  /** Extending a prefix of the entries by one entry adds that entry to its own type
      and leaves every other type as it was. */
  lemma TotalsStep(es: seq<Entry>, i: int)
    requires 0 <= i < |es|
    ensures var k := es[i].attempt.kind;
      && Kinds(es[..i + 1]) == (if k in Kinds(es[..i]) then Kinds(es[..i]) else Kinds(es[..i]) + [k])
      && (forall j :: CountOf(es[..i + 1], j) == CountOf(es[..i], j) + (if j == k then 1 else 0))
      && (forall j :: BytesOutOf(es[..i + 1], j) == BytesOutOf(es[..i], j) + (if j == k then es[i].attempt.bytesOut else 0))
      && (forall j :: BytesInOf(es[..i + 1], j) == BytesInOf(es[..i], j) + (if j == k then es[i].attempt.bytesIn else 0))
      && (k in Kinds(es[..i]) <==> CountOf(es[..i], k) > 0)
      && (k !in Kinds(es[..i]) ==> BytesOutOf(es[..i], k) == 0 && BytesInOf(es[..i], k) == 0)
  {
    assert es[..i + 1][..i] == es[..i];
    KindsSpec(es[..i]);
  }

  /** `t` is what `totals()` returns for the entries `es`. */
  ghost predicate TotalsOf(t: LedgerTotals, es: seq<Entry>) {
    && t.kinds == Kinds(es)
    && (forall k :: k in t.counts <==> k in t.kinds)
    && (forall k :: k in t.bytesOut <==> k in t.kinds)
    && (forall k :: k in t.bytesIn <==> k in t.kinds)
    && (forall k :: k in t.counts ==> t.counts[k] == CountOf(es, k))
    && (forall k :: k in t.bytesOut ==> t.bytesOut[k] == BytesOutOf(es, k))
    && (forall k :: k in t.bytesIn ==> t.bytesIn[k] == BytesInOf(es, k))
    && t.totalEntries == |es|
  }


  /** One entry added into the running totals: its type is listed if new, and its
      count and byte sums grow. */
  function Tally(t: LedgerTotals, a: Attempt): LedgerTotals {
    var k := a.kind;
    LedgerTotals(
      if k in t.kinds then t.kinds else t.kinds + [k],
      t.counts[k := (if k in t.counts then t.counts[k] else 0) + 1],
      t.bytesOut[k := (if k in t.bytesOut then t.bytesOut[k] else 0) + a.bytesOut],
      t.bytesIn[k := (if k in t.bytesIn then t.bytesIn[k] else 0) + a.bytesIn],
      t.totalEntries + 1)
  }

  /** Adding one entry to the totals of `es` gives the totals of `es + [e]`. */
  lemma TallyStep(t: LedgerTotals, es: seq<Entry>, e: Entry)
    requires TotalsOf(t, es)
    ensures TotalsOf(Tally(t, e.attempt), es + [e])
  {
    assert (es + [e])[..|es|] == es;
    KindsSpec(es);
    TallyCounts(t, es, e);
    TallyBytesOut(t, es, e);
    TallyBytesIn(t, es, e);
  }

  lemma TallyCounts(t: LedgerTotals, es: seq<Entry>, e: Entry)
    requires forall k :: k in t.counts ==> t.counts[k] == CountOf(es, k)
    requires forall k :: k !in t.counts ==> CountOf(es, k) == 0
    ensures var r := Tally(t, e.attempt).counts;
      forall j :: j in r ==> r[j] == CountOf(es + [e], j)
  {
    assert (es + [e])[..|es|] == es;
  }

  lemma TallyBytesOut(t: LedgerTotals, es: seq<Entry>, e: Entry)
    requires forall k :: k in t.bytesOut ==> t.bytesOut[k] == BytesOutOf(es, k)
    requires forall k :: k !in t.bytesOut ==> BytesOutOf(es, k) == 0
    ensures var r := Tally(t, e.attempt).bytesOut;
      forall j :: j in r ==> r[j] == BytesOutOf(es + [e], j)
  {
    assert (es + [e])[..|es|] == es;
  }

  lemma TallyBytesIn(t: LedgerTotals, es: seq<Entry>, e: Entry)
    requires forall k :: k in t.bytesIn ==> t.bytesIn[k] == BytesInOf(es, k)
    requires forall k :: k !in t.bytesIn ==> BytesInOf(es, k) == 0
    ensures var r := Tally(t, e.attempt).bytesIn;
      forall j :: j in r ==> r[j] == BytesInOf(es + [e], j)
  {
    assert (es + [e])[..|es|] == es;
  }

  /** The totals list every type once, count only types that occur, and their counts
      add up to the number of entries. */
  lemma TotalsFacts(t: LedgerTotals, es: seq<Entry>)
    requires TotalsOf(t, es)
    ensures NoDup(t.kinds)
    ensures forall k :: k in t.counts ==> t.counts[k] > 0
    ensures SumCounts(es, t.kinds) == t.totalEntries
  {
    KindsSpec(es);
    CountsSumToSize(es);
  }

  /** The append-only list of network attempts made during a run. */
  class Ledger {
    var entries: seq<Entry>

    constructor ()
      ensures entries == []
    {
      entries := [];
    }

    /** Records one attempt, stamped with the current time `timestamp`; every earlier
        entry stays as it was. */
    method Add(timestamp: string, a: Attempt)
      modifies this
      ensures entries == old(entries) + [Entry(timestamp, a)]
    {
      entries := entries + [Entry(timestamp, a)];
    }

    /** Aggregates the entries by type. Every type that occurs has a count, and the
        counts add up to the number of entries. */
    method Totals() returns (t: LedgerTotals)
      ensures TotalsOf(t, entries)
      ensures NoDup(t.kinds)
      ensures forall k :: k in t.counts ==> t.counts[k] > 0
      ensures SumCounts(entries, t.kinds) == t.totalEntries
    {
      t := LedgerTotals([], map[], map[], map[], 0);
      var i := 0;
      while i < |entries|
        invariant 0 <= i <= |entries|
        invariant TotalsOf(t, entries[..i])
      {
        TallyStep(t, entries[..i], entries[i]);
        assert entries[..i + 1] == entries[..i] + [entries[i]];
        t := Tally(t, entries[i].attempt);
        i := i + 1;
      }
      assert entries[..i] == entries;
      TotalsFacts(t, entries);
    }

    /** The ledger as a record: its entries and their totals. */
    method ToDict() returns (d: LedgerDict)
      ensures d.entries == entries
      ensures TotalsOf(d.totals, entries)
    {
      var t := Totals();
      d := LedgerDict(entries, t);
    }
  }

  // ---------------------------------------------------------------------------
  // Policy
  // ---------------------------------------------------------------------------

  /** The ledger type of a request or query. */
  datatype Category = TargetHttp | ThirdPartyHttp | TargetDns

  function CategoryName(c: Category): string {
    match c
    case TargetHttp => "target_http"
    case ThirdPartyHttp => "third_party_http"
    case TargetDns => "target_dns"
  }

  /** Why the policy refused a request or a query (each raises `NetworkPolicyError`). */
  datatype Violation =
    | OffDomainHead
    | PassiveMode
    | RedirectsEnabled
    | MethodNotAllowed
    | TotalBudget
    | PerHostBudget(host: string)
    | PerMinuteBudget
    | OutOfScope
    | ResolutionFailed(host: string)
    | NonPublicAddress(address: string)
    | DnsDisabled
    | DnsBudget
    | DnsNotAllowed(name: string, recordType: string)

  /** One resolved address with the three `ipaddress` properties the policy reads. */
  datatype IpAddr = IpAddr(text: string, isPrivate: bool, isLoopback: bool, isLinkLocal: bool)

  predicate IsNonPublic(a: IpAddr) {
    a.isPrivate || a.isLoopback || a.isLinkLocal
  }

  /** The host is the domain itself or one of its subdomains. */
  predicate InScope(host: string, domain: string) {
    host == domain || EndsWith(host, "." + domain)
  }

  function Classify(host: string, domain: string): Category {
    if InScope(host, domain) then TargetHttp else ThirdPartyHttp
  }

  /** The lower-cased host name of a URL, empty when the URL has none. */
  function HostOf(hostname: Option<string>): string {
    Lower(hostname.GetOr(""))
  }

  /** A host made by putting labels in front of the domain is on the target. */
  lemma SubdomainIsTarget(sub: string, domain: string)
    ensures Classify(sub + "." + domain, domain) == TargetHttp
  {
    var h := sub + "." + domain;
    assert h[|h| - |"." + domain|..] == "." + domain;
  }

  /** A look-alike host that merely ends with the domain's text (`notexample.com`
      for `example.com`) is a third party. */
  lemma LookalikeIsThirdParty(prefix: string, domain: string)
    requires prefix != [] && prefix[|prefix| - 1] != '.'
    ensures Classify(prefix + domain, domain) == ThirdPartyHttp
  {
    var h := prefix + domain;
    var p := "." + domain;
    assert h[|prefix| - 1] != '.';
    if |p| <= |h| {
      assert h[|h| - |p|..][0] == h[|prefix| - 1];
      assert p[0] == '.';
    }
  }

  /** The only queries the minimal DNS policy lets through. */
  function MinimalAllowList(domain: string): set<(string, string)> {
    {(domain, "TXT"), ("_dmarc." + domain, "TXT"), (domain, "MX")}
  }

  /** A query name lower-cased and without trailing dots. */
  function NormalizeQueryName(name: string): (q: string)
    ensures HasNoUpper(q)
    ensures q == [] || q[|q| - 1] != '.'
  {
    TrimRightSpec(Lower(name), IsDot);
    TrimRight(Lower(name), IsDot)
  }


  predicate IsReadMethod(verb: string) {
    Upper(verb) == "HEAD" || Upper(verb) == "GET"
  }

  predicate AllPublic(addrs: seq<IpAddr>) {
    forall i :: 0 <= i < |addrs| ==> !IsNonPublic(addrs[i])
  }

  /** The position of the first private, loopback or link-local address. */
  function FirstNonPublic(addrs: seq<IpAddr>): (r: Option<nat>)
    ensures r.None? <==> AllPublic(addrs)
    ensures r.Some? ==> r.value < |addrs| && IsNonPublic(addrs[r.value]) && AllPublic(addrs[..r.value])
    decreases |addrs|
  {
    if addrs == [] then None
    else if IsNonPublic(addrs[0]) then Some(0)
    else match FirstNonPublic(addrs[1..])
      case None => None
      case Some(i) =>
        assert addrs[..i + 1] == [addrs[0]] + addrs[1..][..i];
        Some(i + 1)
  }

  /** Why resolving `host` to `resolved` refuses the request, if it does. */
  function ResolutionVerdict(host: string, resolved: Option<seq<IpAddr>>): Option<Violation> {
    match resolved
    case None => Some(ResolutionFailed(host))
    case Some(addrs) =>
      match FirstNonPublic(addrs)
      case None => None
      case Some(i) => Some(NonPublicAddress(addrs[i].text))
  }

  /** The per-minute count as the window step leaves it at time `now`. */
  function WindowCount(windowStart: real, minuteCount: int, now: real): int {
    if now - windowStart >= 60.0 then 0 else minuteCount
  }

  /** A counter may not pass its ceiling; a ceiling below zero blocks everything, so
      the counter stays at zero. */
  predicate WithinCeiling(count: int, ceiling: int) {
    0 <= count && (count == 0 || count <= ceiling)
  }

  /** The report of `budgets()`. */
  datatype BudgetReport = BudgetReport(
    allowTargetHttp: bool,
    dnsPolicy: string,
    maxHttpTotal: int,
    maxHttpPerHost: int,
    maxHttpPerMinute: int,
    maxRedirects: int,
    maxBytesPerResponse: int,
    maxDnsQueries: int)

  /** The admission guard for traffic that touches the target. Its ceilings are fixed
      when it is built; its counters only grow, except the per-minute window. */
  class Policy {
    const domain: string
    const mode: Mode
    const dnsPolicy: DnsPolicy
    const maxHttpTotal: int
    const maxHttpPerHost: int
    const maxHttpPerMinute: int
    const maxRedirects: int
    const maxBytesPerResponse: int
    const maxDnsQueries: int
    var httpTotal: int
    var httpPerHost: map<string, int>
    var dnsTotal: int
    var windowStart: real
    var minuteCount: int

    /** No counter is past its ceiling, and no host has more requests than the total. */
    ghost predicate Valid()
      reads this
    {
      && WithinCeiling(httpTotal, maxHttpTotal)
      && WithinCeiling(dnsTotal, maxDnsQueries)
      && WithinCeiling(minuteCount, maxHttpPerMinute)
      && (forall h :: h in httpPerHost ==> WithinCeiling(httpPerHost[h], maxHttpPerHost) && httpPerHost[h] <= httpTotal)
    }

    /** Requests admitted so far to `host` (a missing key reads as zero). */
    function HostCount(host: string): int
      reads this
    {
      if host in httpPerHost then httpPerHost[host] else 0
    }

    /** `from_config`: the domain is lower-cased, every counter starts at zero and the
        minute window opens at `now`. */
    constructor FromConfig(
      domain: string, mode: Mode, dnsPolicy: DnsPolicy,
      maxHttpTotal: int, maxHttpPerHost: int, maxHttpPerMinute: int,
      maxRedirects: int, maxBytesPerResponse: int, maxDnsQueries: int,
      now: real)
      ensures Valid()
      ensures this.domain == Lower(domain) && this.mode == mode && this.dnsPolicy == dnsPolicy
      ensures this.maxHttpTotal == maxHttpTotal && this.maxHttpPerHost == maxHttpPerHost
      ensures this.maxHttpPerMinute == maxHttpPerMinute && this.maxRedirects == maxRedirects
      ensures this.maxBytesPerResponse == maxBytesPerResponse && this.maxDnsQueries == maxDnsQueries
      ensures httpTotal == 0 && httpPerHost == map[] && dnsTotal == 0
      ensures windowStart == now && minuteCount == 0
    {
      this.domain := Lower(domain);
      this.mode := mode;
      this.dnsPolicy := dnsPolicy;
      this.maxHttpTotal := maxHttpTotal;
      this.maxHttpPerHost := maxHttpPerHost;
      this.maxHttpPerMinute := maxHttpPerMinute;
      this.maxRedirects := maxRedirects;
      this.maxBytesPerResponse := maxBytesPerResponse;
      this.maxDnsQueries := maxDnsQueries;
      httpTotal := 0;
      httpPerHost := map[];
      dnsTotal := 0;
      windowStart := now;
      minuteCount := 0;
    }

    /** Target HTTP is refused exactly in passive mode. */
    function AllowTargetHttp(): (r: bool)
      ensures r <==> mode != Passive
    {
      mode == LowNoise
    }

    /** The ledger type of a request to a URL whose host name is `hostname`. */
    function ClassifyHttp(hostname: Option<string>): (c: Category)
      ensures c == TargetHttp <==> InScope(HostOf(hostname), domain)
      ensures c != TargetDns
    {
      Classify(HostOf(hostname), domain)
    }

    function AssertHostInScope(host: string): (err: Option<Violation>)
      ensures err.None? <==> InScope(host, domain)
      ensures err.Some? ==> err.value == OutOfScope
    {
      if InScope(host, domain) then None else Some(OutOfScope)
    }

    /** Fails closed: a host that does not resolve is refused, and so is one with any
        private, loopback or link-local address; the first such address is reported. */
    method AssertPublicResolution(host: string, resolved: Option<seq<IpAddr>>) returns (err: Option<Violation>)
      ensures err == ResolutionVerdict(host, resolved)
      ensures err.None? <==> resolved.Some? && AllPublic(resolved.value)
    {
      if resolved.None? {
        return Some(ResolutionFailed(host));
      }
      var addrs := resolved.value;
      var i := 0;
      while i < |addrs|
        invariant 0 <= i <= |addrs|
        invariant AllPublic(addrs[..i])
      {
        if IsNonPublic(addrs[i]) {
          return Some(NonPublicAddress(addrs[i].text));
        }
        i := i + 1;
      }
      assert addrs[..i] == addrs;
      return None;
    }

    /** The static gates and the total and per-host budgets all pass, so the request
        reaches the per-minute window step. */
    predicate ReachesWindow(verb: string, host: string)
      reads this
    {
      && InScope(host, domain)
      && AllowTargetHttp()
      && maxRedirects == 0
      && IsReadMethod(verb)
      && WithinBudgets(host)
    }

    /** Neither the total nor the per-host budget is spent. */
    predicate WithinBudgets(host: string)
      reads this
    {
      httpTotal < maxHttpTotal && HostCount(host) < maxHttpPerHost
    }

    /** Admits or refuses one HTTP request to a URL with host name `hostname`, made at
        time `now`; `resolved` is what the host resolves to (`None` when resolution
        fails). A third-party request is only classified; a target request must pass
        every gate and budget, and only then are the counters charged. */
    method EnforceHttpRequest(verb: string, hostname: Option<string>, now: real, resolved: Option<seq<IpAddr>>)
      returns (v: Result<Category, Violation>)
      requires Valid()
      modifies this
      ensures Valid()
      ensures v.Ok? ==> v.value == ClassifyHttp(hostname)
      // third-party traffic: no counter moves; a HEAD is refused in low-noise mode
      ensures ClassifyHttp(hostname) == ThirdPartyHttp ==>
        v == (if AllowTargetHttp() && Upper(verb) == "HEAD" then Err(OffDomainHead) else Ok(ThirdPartyHttp))
        && unchanged(this)
      // the static gates, in their order
      ensures ClassifyHttp(hostname) == TargetHttp && !AllowTargetHttp() ==> v == Err(PassiveMode) && unchanged(this)
      ensures ClassifyHttp(hostname) == TargetHttp && AllowTargetHttp() && maxRedirects != 0 ==>
        v == Err(RedirectsEnabled) && unchanged(this)
      ensures ClassifyHttp(hostname) == TargetHttp && AllowTargetHttp() && maxRedirects == 0 && !IsReadMethod(verb) ==>
        v == Err(MethodNotAllowed) && unchanged(this)
      // exactly when a target request is admitted
      ensures v == Ok(TargetHttp) <==>
        old(ReachesWindow(verb, HostOf(hostname)))
        && WindowCount(old(windowStart), old(minuteCount), now) < maxHttpPerMinute
        && resolved.Some? && AllPublic(resolved.value)
      // past the static gates the budgets, the window and the resolution decide
      ensures ClassifyHttp(hostname) == TargetHttp && AllowTargetHttp() && maxRedirects == 0 && IsReadMethod(verb) ==>
        v == BudgetVerdict(old(httpTotal), old(HostCount(HostOf(hostname))), WindowCount(old(windowStart), old(minuteCount), now), HostOf(hostname), resolved)
      // admission charges each counter by one and no other host
      ensures v == Ok(TargetHttp) ==>
        && httpTotal == old(httpTotal) + 1
        && HostCount(HostOf(hostname)) == old(HostCount(HostOf(hostname))) + 1
        && minuteCount == WindowCount(old(windowStart), old(minuteCount), now) + 1
        && (forall h :: h != HostOf(hostname) ==> HostCount(h) == old(HostCount(h)))
      // a refusal charges nothing, but a window reset reached before it stays
      ensures v.Err? ==>
        && httpTotal == old(httpTotal)
        && (forall h :: HostCount(h) == old(HostCount(h)))
        && minuteCount == (if old(ReachesWindow(verb, HostOf(hostname))) then WindowCount(old(windowStart), old(minuteCount), now) else old(minuteCount))
      ensures windowStart == (if old(ReachesWindow(verb, HostOf(hostname))) && now - old(windowStart) >= 60.0 then now else old(windowStart))
      ensures dnsTotal == old(dnsTotal)
      ensures httpPerHost.Keys <= old(httpPerHost.Keys) + {HostOf(hostname)}
    {
      var host := HostOf(hostname);
      var category := ClassifyHttp(hostname);
      if category != TargetHttp {
        if AllowTargetHttp() && Upper(verb) == "HEAD" {
          return Err(OffDomainHead);
        }
        return Ok(category);
      }
      if !AllowTargetHttp() {
        return Err(PassiveMode);
      }
      if maxRedirects != 0 {
        return Err(RedirectsEnabled);
      }
      var m := Upper(verb);
      if m != "HEAD" && m != "GET" {
        return Err(MethodNotAllowed);
      }
      v := ChargeTarget(host, now, resolved);
    }

    /** The outcome of the budget, window and resolution steps for an in-scope target
        request that finds `total` requests admitted, `hostCount` of them to `host`
        and `windowCount` in the current minute. */
    function BudgetVerdict(total: int, hostCount: int, windowCount: int, host: string, resolved: Option<seq<IpAddr>>)
      : (r: Result<Category, Violation>)
      ensures r.Ok? <==>
        total < maxHttpTotal && hostCount < maxHttpPerHost && windowCount < maxHttpPerMinute
        && resolved.Some? && AllPublic(resolved.value)
      ensures r.Ok? ==> r.value == TargetHttp
      ensures total >= maxHttpTotal ==> r == Err(TotalBudget)
      ensures resolved.None? && total < maxHttpTotal && hostCount < maxHttpPerHost && windowCount < maxHttpPerMinute
        ==> r == Err(ResolutionFailed(host))
    {
      if total >= maxHttpTotal then Err(TotalBudget)
      else if hostCount >= maxHttpPerHost then Err(PerHostBudget(host))
      else if windowCount >= maxHttpPerMinute then Err(PerMinuteBudget)
      else match ResolutionVerdict(host, resolved)
        case None => Ok(TargetHttp)
        case Some(e) => Err(e)
    }

    /** The budget, window, scope and resolution steps for a target request that has
        passed the static gates; an admitted request is charged to every counter. */
    method ChargeTarget(host: string, now: real, resolved: Option<seq<IpAddr>>) returns (v: Result<Category, Violation>)
      requires Valid() && InScope(host, domain)
      modifies this
      ensures Valid()
      ensures v == BudgetVerdict(old(httpTotal), old(HostCount(host)), WindowCount(old(windowStart), old(minuteCount), now), host, resolved)
      ensures v.Ok? ==>
        && httpTotal == old(httpTotal) + 1
        && HostCount(host) == old(HostCount(host)) + 1
        && minuteCount == WindowCount(old(windowStart), old(minuteCount), now) + 1
        && (forall h :: h != host ==> HostCount(h) == old(HostCount(h)))
      ensures v.Err? ==>
        && httpTotal == old(httpTotal)
        && (forall h :: HostCount(h) == old(HostCount(h)))
        && minuteCount == (if old(WithinBudgets(host)) then WindowCount(old(windowStart), old(minuteCount), now) else old(minuteCount))
      ensures windowStart == (if old(WithinBudgets(host)) && now - old(windowStart) >= 60.0 then now else old(windowStart))
      ensures dnsTotal == old(dnsTotal)
      ensures httpPerHost.Keys <= old(httpPerHost.Keys) + {host}
    {
      if httpTotal >= maxHttpTotal {
        return Err(TotalBudget);
      }
      TouchHost(host);
      if httpPerHost[host] >= maxHttpPerHost {
        return Err(PerHostBudget(host));
      }
      RollWindow(now);
      if minuteCount >= maxHttpPerMinute {
        return Err(PerMinuteBudget);
      }
      v := Admit(host, resolved);
    }

    /** Reading a missing key of the per-host table stores a zero for it; no count
        changes. */
    method TouchHost(host: string)
      requires Valid()
      modifies this
      ensures Valid()
      ensures httpPerHost == (if host in old(httpPerHost) then old(httpPerHost) else old(httpPerHost)[host := 0])
      ensures forall h :: HostCount(h) == old(HostCount(h))
      ensures httpTotal == old(httpTotal) && dnsTotal == old(dnsTotal)
      ensures windowStart == old(windowStart) && minuteCount == old(minuteCount)
    {
      if host !in httpPerHost {
        httpPerHost := httpPerHost[host := 0];
      }
    }

    /** A minute or more after the window opened, a new window opens at `now` with
        nothing counted in it. */
    method RollWindow(now: real)
      requires Valid()
      modifies this
      ensures Valid()
      ensures windowStart == (if now - old(windowStart) >= 60.0 then now else old(windowStart))
      ensures minuteCount == WindowCount(old(windowStart), old(minuteCount), now)
      ensures httpTotal == old(httpTotal) && httpPerHost == old(httpPerHost) && dnsTotal == old(dnsTotal)
    {
      if now - windowStart >= 60.0 {
        windowStart := now;
        minuteCount := 0;
      }
    }

    /** The scope and resolution checks for a request within every budget, then the
        charge: one more request in total, to `host`, and in the current minute. */
    method Admit(host: string, resolved: Option<seq<IpAddr>>) returns (v: Result<Category, Violation>)
      requires Valid() && InScope(host, domain)
      requires httpTotal < maxHttpTotal && host in httpPerHost && httpPerHost[host] < maxHttpPerHost
      requires minuteCount < maxHttpPerMinute
      modifies this
      ensures Valid()
      ensures v == (match ResolutionVerdict(host, resolved) case None => Ok(TargetHttp) case Some(e) => Err(e))
      ensures v.Ok? ==>
        && httpTotal == old(httpTotal) + 1
        && httpPerHost == old(httpPerHost)[host := old(httpPerHost[host]) + 1]
        && minuteCount == old(minuteCount) + 1
      ensures v.Err? ==> httpTotal == old(httpTotal) && httpPerHost == old(httpPerHost) && minuteCount == old(minuteCount)
      ensures windowStart == old(windowStart) && dnsTotal == old(dnsTotal)
    {
      var scope := AssertHostInScope(host);
      if scope.Some? {
        return Err(OutOfScope);
      }
      var safe := AssertPublicResolution(host, resolved);
      if safe.Some? {
        return Err(safe.value);
      }
      httpTotal := httpTotal + 1;
      httpPerHost := httpPerHost[host := httpPerHost[host] + 1];
      minuteCount := minuteCount + 1;
      return Ok(TargetHttp);
    }

    /** Admits or refuses one DNS query. Nothing passes under the `none` policy; the
        minimal policy passes only its three queries; an admitted query is charged. */
    method EnforceDnsQuery(queryName: string, recordType: string) returns (err: Option<Violation>)
      requires Valid()
      modifies this
      ensures Valid()
      ensures err.None? <==>
        && dnsPolicy != NoDns
        && old(dnsTotal) < maxDnsQueries
        && (dnsPolicy == Minimal ==> (NormalizeQueryName(queryName), Upper(recordType)) in MinimalAllowList(domain))
      ensures dnsPolicy == NoDns ==> err == Some(DnsDisabled)
      ensures dnsPolicy != NoDns && old(dnsTotal) >= maxDnsQueries ==> err == Some(DnsBudget)
      ensures dnsPolicy == Minimal && old(dnsTotal) < maxDnsQueries
        && (NormalizeQueryName(queryName), Upper(recordType)) !in MinimalAllowList(domain)
        ==> err == Some(DnsNotAllowed(NormalizeQueryName(queryName), Upper(recordType)))
      ensures dnsTotal == old(dnsTotal) + (if err.None? then 1 else 0)
      ensures httpTotal == old(httpTotal) && httpPerHost == old(httpPerHost)
      ensures windowStart == old(windowStart) && minuteCount == old(minuteCount)
    {
      var q := NormalizeQueryName(queryName);
      var rt := Upper(recordType);
      if dnsPolicy == NoDns {
        return Some(DnsDisabled);
      }
      if dnsTotal >= maxDnsQueries {
        return Some(DnsBudget);
      }
      if dnsPolicy == Minimal && (q, rt) !in MinimalAllowList(domain) {
        return Some(DnsNotAllowed(q, rt));
      }
      dnsTotal := dnsTotal + 1;
      return None;
    }

    /** The configured ceilings; reads no counter, so it changes nothing and is the
        same before and after any request. */
    function Budgets(): (b: BudgetReport)
      ensures b.allowTargetHttp <==> mode == LowNoise
      ensures DnsPolicyFromValue(b.dnsPolicy) == Some(dnsPolicy)
      ensures b.maxHttpTotal == maxHttpTotal && b.maxHttpPerHost == maxHttpPerHost
      ensures b.maxHttpPerMinute == maxHttpPerMinute && b.maxRedirects == maxRedirects
      ensures b.maxBytesPerResponse == maxBytesPerResponse && b.maxDnsQueries == maxDnsQueries
    {
      BudgetReport(AllowTargetHttp(), DnsPolicyValue(dnsPolicy), maxHttpTotal, maxHttpPerHost,
        maxHttpPerMinute, maxRedirects, maxBytesPerResponse, maxDnsQueries)
    }
  }

  // ---------------------------------------------------------------------------
  // Scenarios of the policy's own tests
  // ---------------------------------------------------------------------------

  /** A policy for `example.com` with the command line's default ceilings. */
  method DefaultPolicy(mode: Mode, dnsPolicy: DnsPolicy, maxRedirects: int) returns (p: Policy)
    ensures fresh(p) && p.Valid()
    ensures p.domain == "example.com" && p.mode == mode && p.dnsPolicy == dnsPolicy
    ensures p.maxRedirects == maxRedirects && p.maxHttpTotal == 12 && p.maxHttpPerHost == 3
    ensures p.maxHttpPerMinute == 12 && p.maxDnsQueries == 25
    ensures p.httpTotal == 0 && p.httpPerHost == map[] && p.dnsTotal == 0 && p.minuteCount == 0
  {
    LowerUnchanged("example.com");
    p := new Policy.FromConfig("example.com", mode, dnsPolicy, 12, 3, 12, maxRedirects, 262144, 25, 0.0);
  }

  /** Two attempts of different types are counted once each. */
  method LedgerTotalsExample() returns (t: LedgerTotals)
    ensures t.counts.Keys == {"third_party_http", "target_dns"}
    ensures t.counts["third_party_http"] == 1 && t.counts["target_dns"] == 1
    ensures t.totalEntries == 2
  {
    var e0 := Entry("t0", Basic("third_party_http", "crt.sh", Some("GET")));
    var e1 := Entry("t1", Basic("target_dns", "example.com", Some("DNS")));
    assert e0.attempt.kind[1] != e1.attempt.kind[1];
    var ledger := new Ledger();
    ledger.Add(e0.timestamp, e0.attempt);
    ledger.Add(e1.timestamp, e1.attempt);
    assert ledger.entries == [e0, e1];
    t := ledger.Totals();
    TwoKinds(t, e0, e1);
  }

  /** The totals of two entries of different types: both types, counted once each. */
  lemma TwoKinds(t: LedgerTotals, e0: Entry, e1: Entry)
    requires e0.attempt.kind != e1.attempt.kind
    requires TotalsOf(t, [e0, e1])
    ensures t.kinds == [e0.attempt.kind, e1.attempt.kind]
    ensures t.counts.Keys == {e0.attempt.kind, e1.attempt.kind}
    ensures t.counts[e0.attempt.kind] == 1 && t.counts[e1.attempt.kind] == 1
    ensures t.totalEntries == 2
  {
    var k0, k1 := e0.attempt.kind, e1.attempt.kind;
    TwoEntries(e0, e1);
    assert t.kinds == [k0, k1];
    assert forall k :: k in t.counts.Keys <==> k == k0 || k == k1;
  }

  lemma TwoEntries(e0: Entry, e1: Entry)
    requires e0.attempt.kind != e1.attempt.kind
    ensures Kinds([e0, e1]) == [e0.attempt.kind, e1.attempt.kind]
    ensures CountOf([e0, e1], e0.attempt.kind) == 1 && CountOf([e0, e1], e1.attempt.kind) == 1
  {
    var k0, k1 := e0.attempt.kind, e1.attempt.kind;
    var s0, s1 := [e0], [e0, e1];
    assert s1[..|s1| - 1] == s0 && s0[..|s0| - 1] == [];
    assert Kinds(s0) == [k0];
    assert CountOf(s0, k0) == 1 && CountOf(s0, k1) == 0;
  }

  /** In low-noise mode an off-domain HEAD is refused. */
  method OffDomainHeadExample() returns (v: Result<Category, Violation>)
    ensures v == Err(OffDomainHead)
  {
    var p := DefaultPolicy(LowNoise, Minimal, 0);
    LowerUnchanged("evil.com");
    UpperUnchanged("HEAD");
    v := p.EnforceHttpRequest("HEAD", Some("evil.com"), 1.0, None);
  }

  /** A non-zero redirect budget refuses every target request. */
  method RedirectBudgetExample() returns (v: Result<Category, Violation>)
    ensures v == Err(RedirectsEnabled)
  {
    var p := DefaultPolicy(LowNoise, Minimal, 1);
    LowerUnchanged("example.com");
    v := p.EnforceHttpRequest("HEAD", Some("example.com"), 1.0, None);
  }

  /** A target host that resolves to a loopback address is refused. */
  method LoopbackResolutionExample() returns (v: Result<Category, Violation>)
    ensures v == Err(NonPublicAddress("127.0.0.1"))
  {
    var p := DefaultPolicy(LowNoise, Minimal, 0);
    LowerUnchanged("example.com");
    UpperUnchanged("HEAD");
    var loopback := IpAddr("127.0.0.1", false, true, false);
    v := p.EnforceHttpRequest("HEAD", Some("example.com"), 1.0, Some([loopback]));
  }

  /** Under the minimal DNS policy the apex TXT query passes and an A query does not;
      under `none` nothing passes. */
  method DnsPolicyExample() returns (txt: Option<Violation>, a: Option<Violation>, off: Option<Violation>)
    ensures txt == None
    ensures a == Some(DnsNotAllowed("example.com", "A"))
    ensures off == Some(DnsDisabled)
  {
    var minimal := DefaultPolicy(Passive, Minimal, 0);
    LowerUnchanged("example.com");
    UpperUnchanged("TXT");
    UpperUnchanged("A");
    assert NormalizeQueryName("example.com") == "example.com";
    txt := minimal.EnforceDnsQuery("example.com", "TXT");
    a := minimal.EnforceDnsQuery("example.com", "A");
    var none := DefaultPolicy(Passive, NoDns, 0);
    off := none.EnforceDnsQuery("example.com", "TXT");
  }
}
