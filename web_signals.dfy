/** Web signals: the portal host names worth a look, technology hints read off the
    subdomain names, and, in the `enhanced` mode only, the sanitised headers of a
    HEAD request to each candidate. The HTTP client is the `probe` parameter. */
module WebSignals {
  import opened Wrappers
  import opened Text
  import opened Seqs
  import opened Config
  import opened Normalize

  // ---------------------------------------------------------------------------
  // Technology hints
  // ---------------------------------------------------------------------------

  /** The two hints `infer_tech_hints` can give, rendered by `HintText`. */
  datatype Hint = MailHint | SsoHint

  function HintText(h: Hint): string {
    match h
    case MailHint => "Mail-related subdomain detected."
    case SsoHint => "SSO or identity portal detected via subdomain naming."
  }

  predicate IsSsoName(name: string) {
    StartsWith(name, "login.") || StartsWith(name, "sso.")
  }

  predicate IsMailName(name: string) {
    Contains(name, "mail")
  }

  /** The hints of one name, in the order the loop appends them, for the tests
      `sso` and `mail` (the loop's are `IsSsoName` and `IsMailName`). */
  function NameHints(name: string, sso: string -> bool, mail: string -> bool): seq<Hint> {
    (if sso(name) then [SsoHint] else []) + (if mail(name) then [MailHint] else [])
  }

  /** The list `hints` the loop builds. */
  function RawHints(names: seq<string>, sso: string -> bool, mail: string -> bool): seq<Hint>
    decreases |names|
  {
    if names == [] then []
    else RawHints(names[..|names| - 1], sso, mail) + NameHints(names[|names| - 1], sso, mail)
  }

  /** `sorted(set(hints))`: each hint once, in the order of their texts. */
  function SortedHints(hints: seq<Hint>): seq<Hint> {
    (if MailHint in hints then [MailHint] else []) + (if SsoHint in hints then [SsoHint] else [])
  }

  /** The technology hints for the given subdomain names. */
  function TechHints(names: seq<string>): seq<Hint> {
    SortedHints(RawHints(names, IsSsoName, IsMailName))
  }

  /** `infer_tech_hints` */
  method InferTechHints(subdomains: seq<string>) returns (r: seq<Hint>)
    ensures r == TechHints(subdomains)
  {
    var hints: seq<Hint> := [];
    var k := 0;
    while k < |subdomains|
      invariant 0 <= k <= |subdomains|
      invariant hints == RawHints(subdomains[..k], IsSsoName, IsMailName)
    {
      var name := subdomains[k];
      assert subdomains[..k + 1][..k] == subdomains[..k];
      if StartsWith(name, "login.") || StartsWith(name, "sso.") {
        hints := hints + [SsoHint];
      }
      if Contains(name, "mail") {
        hints := hints + [MailHint];
      }
      k := k + 1;
    }
    assert subdomains[..k] == subdomains;
    r := SortedHints(hints);
  }

  /** Some name passes `p`. */
  predicate AnyName(names: seq<string>, p: string -> bool) {
    exists i :: 0 <= i < |names| && p(names[i])
  }

  /** The loop's list holds a hint exactly when some name passes that hint's test. */
  lemma RawHintsSpec(names: seq<string>, sso: string -> bool, mail: string -> bool)
    ensures MailHint in RawHints(names, sso, mail) <==> AnyName(names, mail)
    ensures SsoHint in RawHints(names, sso, mail) <==> AnyName(names, sso)
  {
    RawHintsMail(names, sso, mail);
    RawHintsSso(names, sso, mail);
  }

  lemma {:induction false} RawHintsMail(names: seq<string>, sso: string -> bool, mail: string -> bool)
    ensures MailHint in RawHints(names, sso, mail) <==> AnyName(names, mail)
    decreases |names|
  {
    if names != [] {
      var init, last := names[..|names| - 1], names[|names| - 1];
      RawHintsMail(init, sso, mail);
      AnyNameSnoc(names, mail);
      assert RawHints(names, sso, mail) == RawHints(init, sso, mail) + NameHints(last, sso, mail);
      assert MailHint in NameHints(last, sso, mail) <==> mail(last);
    }
  }

  lemma {:induction false} RawHintsSso(names: seq<string>, sso: string -> bool, mail: string -> bool)
    ensures SsoHint in RawHints(names, sso, mail) <==> AnyName(names, sso)
    decreases |names|
  {
    if names != [] {
      var init, last := names[..|names| - 1], names[|names| - 1];
      RawHintsSso(init, sso, mail);
      AnyNameSnoc(names, sso);
      assert RawHints(names, sso, mail) == RawHints(init, sso, mail) + NameHints(last, sso, mail);
      assert SsoHint in NameHints(last, sso, mail) <==> sso(last);
    }
  }

  /** Some name passes `p` exactly when an earlier one or the last one does. */
  lemma AnyNameSnoc(names: seq<string>, p: string -> bool)
    requires names != []
    ensures AnyName(names, p) <==> AnyName(names[..|names| - 1], p) || p(names[|names| - 1])
  {
    var init := names[..|names| - 1];
    if AnyName(init, p) {
      var i :| 0 <= i < |init| && p(init[i]);
      assert names[i] == init[i];
    }
    if AnyName(names, p) {
      var i :| 0 <= i < |names| && p(names[i]);
      if i < |init| {
        assert init[i] == names[i];
      }
    }
  }

  /** The hints are distinct, the mail hint (whose text sorts first) ahead of the
      single sign-on hint, and a hint is given exactly when some name calls for it. */
  lemma TechHintsSpec(names: seq<string>)
    ensures var r := TechHints(names);
      && NoDup(r)
      && (|r| == 2 ==> r == [MailHint, SsoHint])
      && (MailHint in r <==> AnyName(names, IsMailName))
      && (SsoHint in r <==> AnyName(names, IsSsoName))
  {
    RawHintsSpec(names, IsSsoName, IsMailName);
  }

  // ---------------------------------------------------------------------------
  // Portal candidates
  // ---------------------------------------------------------------------------

  const CommonPortals: seq<string> := ["www", "login", "portal", "sso", "id", "account"]

  /** `[f"{p}.{domain}" for p in COMMON_PORTALS]` */
  function PortalHosts(domain: string): (r: seq<string>)
    ensures |r| == |CommonPortals|
  {
    seq(|CommonPortals|, i requires 0 <= i < |CommonPortals| => CommonPortals[i] + "." + domain)
  }

  /** A subdomain with at most three dots. */
  predicate FewDots(name: string) {
    CountChar(name, '.') <= 3
  }

  /** The common portal hosts are distinct: the portal names start with distinct
      letters. */
  lemma PortalHostsDistinct(domain: string)
    ensures NoDup(PortalHosts(domain))
  {
    var r := PortalHosts(domain);
    forall i, j | 0 <= i < j < |r|
      ensures r[i] != r[j]
    {
      assert r[i][0] == CommonPortals[i][0] && r[j][0] == CommonPortals[j][0];
    }
  }

  /** The candidate list before the `max_pages` cut: the common portals, then the
      shallow subdomains, each once in order of first appearance. The six common
      portal hosts come first, in their fixed order. */
  function PortalCandidates(domain: string, subdomains: seq<string>): (r: seq<string>)
    ensures NoDup(r)
    ensures |r| >= |CommonPortals| && r[..|CommonPortals|] == PortalHosts(domain)
  {
    var s := PortalHosts(domain) + Filter(subdomains, FewDots);
    DedupeSpec(s);
    PortalHostsDistinct(domain);
    assert s[..|CommonPortals|] == PortalHosts(domain);
    DedupePrefix(s, |CommonPortals|);
    DedupeNoDup(PortalHosts(domain));
    Dedupe(s)
  }

  /** The candidates are exactly the common portal hosts and the subdomains with at
      most three dots, in the order in which each first appears in that list. */
  lemma PortalCandidatesSpec(domain: string, subdomains: seq<string>)
    ensures var s := PortalHosts(domain) + Filter(subdomains, FewDots);
      var r := PortalCandidates(domain, subdomains);
      && r[0] == "www." + domain
      && (forall x :: x in r <==> x in PortalHosts(domain) || (x in subdomains && FewDots(x)))
      && (forall i, j :: 0 <= i < j < |r| ==> IndexOf(s, r[i]) < IndexOf(s, r[j]))
  {
    var s := PortalHosts(domain) + Filter(subdomains, FewDots);
    DedupeSpec(s);
    FilterMembers(subdomains, FewDots);
    DedupeOrder(s);
    assert PortalCandidates(domain, subdomains)[0] == PortalHosts(domain)[0];
  }

  // ---------------------------------------------------------------------------
  // Header samples
  // ---------------------------------------------------------------------------

  /** A successful HEAD response; a request that raises is `None`. */
  datatype Response = Response(status: int, headers: map<string, string>)

  datatype HeaderSample = HeaderSample(url: string, status: int, headers: map<string, string>)

  function UrlOf(host: string): string {
    "https://" + host
  }

  /** The sample list for the probed hosts; failures are skipped. */
  function Samples(hosts: seq<string>, probe: string -> Option<Response>): (r: seq<HeaderSample>)
    ensures |r| <= |hosts|
    decreases |hosts|
  {
    if hosts == [] then []
    else
      var host := hosts[|hosts| - 1];
      var rest := Samples(hosts[..|hosts| - 1], probe);
      match probe(UrlOf(host))
      case None => rest
      case Some(resp) => rest + [HeaderSample(UrlOf(host), resp.status, Sanitized(resp.headers))]
  }

  /** The probing loop of `run`. */
  method ProbeHeaders(hosts: seq<string>, probe: string -> Option<Response>) returns (samples: seq<HeaderSample>)
    ensures samples == Samples(hosts, probe)
  {
    samples := [];
    var k := 0;
    while k < |hosts|
      invariant 0 <= k <= |hosts|
      invariant samples == Samples(hosts[..k], probe)
    {
      var url := "https://" + hosts[k];
      assert hosts[..k + 1][..k] == hosts[..k];
      var resp := probe(url);
      if resp.Some? {
        var headers := SanitizeHeaders(resp.value.headers);
        samples := samples + [HeaderSample(url, resp.value.status, headers)];
      }
      k := k + 1;
    }
    assert hosts[..k] == hosts;
  }

  /** No sample carries a credential, and every sample is the answer of a probed
      host. */
  lemma {:induction false} SamplesSpec(hosts: seq<string>, probe: string -> Option<Response>)
    ensures forall s, k :: s in Samples(hosts, probe) && k in s.headers && IsSecretHeader(k) ==>
      s.headers[k] == Redacted
    ensures forall s :: s in Samples(hosts, probe) ==>
      exists i :: 0 <= i < |hosts| && s.url == UrlOf(hosts[i]) && probe(s.url).Some?
    decreases |hosts|
  {
    if hosts != [] {
      var init := hosts[..|hosts| - 1];
      SamplesSpec(init, probe);
      assert forall i :: 0 <= i < |init| ==> init[i] == hosts[i];
    }
  }

  // ---------------------------------------------------------------------------
  // Run
  // ---------------------------------------------------------------------------

  datatype WebSignalsResult = WebSignalsResult(
    portalCandidates: seq<string>,
    technologyHints: seq<Hint>,
    headersSamples: seq<HeaderSample>)

  /** `run`: the candidates cut to `maxPages`, the hints, and header samples only
      when `mode` is `enhanced`. */
  method Run(domain: string, subdomains: seq<string>, mode: string,
             probe: string -> Option<Response>, maxPages: int) returns (r: WebSignalsResult)
    ensures r.portalCandidates == Take(PortalCandidates(domain, subdomains), maxPages)
    ensures r.technologyHints == TechHints(subdomains)
    ensures r.headersSamples == if mode == "enhanced" then Samples(r.portalCandidates, probe) else []
  {
    var candidates := PortalCandidates(domain, subdomains);
    var hints := InferTechHints(subdomains);
    var samples: seq<HeaderSample> := [];
    if mode == "enhanced" {
      samples := ProbeHeaders(Take(candidates, maxPages), probe);
    }
    r := WebSignalsResult(Take(candidates, maxPages), hints, samples);
  }

  /** No value of the closed mode set is `enhanced`: under either mode a run sends
      no request to the target. */
  lemma ModesNeverProbe(m: Mode)
    ensures ModeValue(m) != "enhanced"
  {
  }
}
