/** Document signals: candidate policy and document URLs on the domain's hosts, and
    the ones a HEAD request shows to be documents of reasonable size. The HTTP
    client is the `probe` parameter. */
module DocSignals {
  import opened Wrappers
  import opened Text
  import opened Seqs

  // ---------------------------------------------------------------------------
  // Candidates
  // ---------------------------------------------------------------------------

  const CommonPaths: seq<string> := ["/privacy", "/security", "/policies", "/documents"]

  function DocUrl(host: string, path: string): string {
    "https://" + host + path
  }

  /** The hosts `build_candidates` visits: the `www` host and every subdomain. */
  function HostSet(domain: string, subdomains: seq<string>): set<string> {
    {"www." + domain} + set s | s in subdomains
  }

  /** The four candidate URLs of one host, in path order. */
  function PathUrls(host: string): (r: seq<string>)
    ensures |r| == |CommonPaths|
  {
    seq(|CommonPaths|, j requires 0 <= j < |CommonPaths| => DocUrl(host, CommonPaths[j]))
  }

  /** The candidate list for hosts visited in the order `order`. */
  function UrlsFor(order: seq<string>): (r: seq<string>)
    ensures |r| == 4 * |order|
    decreases |order|
  {
    if order == [] then [] else UrlsFor(order[..|order| - 1]) + PathUrls(order[|order| - 1])
  }

  /** `build_candidates`: every host of the set once, in the set's iteration order
      (which Python leaves unspecified and the model leaves open), each followed
      by its four paths. `order` is the order the hosts were visited in. */
  method BuildCandidates(domain: string, subdomains: seq<string>) returns (urls: seq<string>, ghost order: seq<string>)
    ensures NoDup(order)
    ensures forall h :: h in order <==> h in HostSet(domain, subdomains)
    ensures urls == UrlsFor(order)
    ensures |urls| == 4 * |HostSet(domain, subdomains)|
  {
    var hosts := HostSet(domain, subdomains);
    urls, order := [], [];
    while hosts != {}
      invariant hosts <= HostSet(domain, subdomains)
      invariant NoDup(order)
      invariant forall h :: h in order <==> h in HostSet(domain, subdomains) && h !in hosts
      invariant urls == UrlsFor(order)
      invariant |order| + |hosts| == |HostSet(domain, subdomains)|
      decreases |hosts|
    {
      var sub :| sub in hosts;
      ghost var before := urls;
      var j := 0;
      while j < |CommonPaths|
        invariant 0 <= j <= |CommonPaths|
        invariant urls == before + PathUrls(sub)[..j]
      {
        urls := urls + [DocUrl(sub, CommonPaths[j])];
        assert PathUrls(sub)[..j + 1] == PathUrls(sub)[..j] + [DocUrl(sub, CommonPaths[j])];
        j := j + 1;
      }
      assert PathUrls(sub)[..j] == PathUrls(sub);
      assert (order + [sub])[..|order|] == order;
      hosts := hosts - {sub};
      order := order + [sub];
    }
  }

  /** The URL for host number `k` and path number `j` stands at `4 * k + j`: each
      host's four URLs are adjacent, in path order. */
  lemma {:induction false} UrlsForSpec(order: seq<string>)
    ensures forall k, j :: 0 <= k < |order| && 0 <= j < 4 ==>
      UrlsFor(order)[4 * k + j] == PathUrls(order[k])[j]
    decreases |order|
  {
    if order != [] {
      var init := order[..|order| - 1];
      var last := order[|order| - 1];
      UrlsForSpec(init);
      var u := UrlsFor(order);
      assert u == UrlsFor(init) + PathUrls(last);
      forall k, j | 0 <= k < |order| && 0 <= j < 4
        ensures u[4 * k + j] == PathUrls(order[k])[j]
      {
        if k < |init| {
          assert order[k] == init[k];
          assert u[4 * k + j] == UrlsFor(init)[4 * k + j];
        } else {
          assert u[4 * k + j] == PathUrls(last)[j];
        }
      }
    }
  }

  /** The `www` host is always visited: its privacy page is always a candidate. */
  lemma WwwAlwaysCandidate(domain: string, subdomains: seq<string>, order: seq<string>)
    requires forall h :: h in order <==> h in HostSet(domain, subdomains)
    ensures DocUrl("www." + domain, CommonPaths[0]) in UrlsFor(order)
  {
    var w := "www." + domain;
    assert w in HostSet(domain, subdomains);
    var k :| 0 <= k < |order| && order[k] == w;
    UrlsForSpec(order);
    assert UrlsFor(order)[4 * k + 0] == PathUrls(w)[0];
  }

  // ---------------------------------------------------------------------------
  // Documents
  // ---------------------------------------------------------------------------

  const MaxContentLength := 5_000_000

  /** The headers of a HEAD response, keyed by lower-case name; a request that
      raises is `None`. */
  datatype Head = Head(headers: map<string, string>)

  datatype Document = Document(
    url: string,
    kind: string,
    discoveredVia: string,
    contentType: string,
    contentLength: Option<string>)

  function ContentType(h: Head): string {
    if "content-type" in h.headers then h.headers["content-type"] else ""
  }

  function ContentLength(h: Head): Option<string> {
    if "content-length" in h.headers then Some(h.headers["content-length"]) else None
  }

  /** The size test: no declared length, or one that parses to at most 5,000,000.
      A length `int` cannot parse raises, and the URL is skipped like a failure. */
  predicate SizeAllowed(length: Option<string>) {
    match length
    case None => true
    case Some(v) =>
      v == [] || (ParseInt(v).Some? && ParseInt(v).value <= MaxContentLength)
  }

  /** `any(ext in url for ext in DOCUMENT_EXTS)`: a substring anywhere in the URL. */
  predicate HasDocumentExt(url: string) {
    Contains(url, ".pdf") || Contains(url, ".doc") || Contains(url, ".docx") || Contains(url, ".xls")
    || Contains(url, ".xlsx") || Contains(url, ".ppt") || Contains(url, ".pptx")
  }

  /** What one probed URL contributes: a document exactly when the probe answered,
      the declared length, if any, is within the limit, and the URL or the content
      type looks like a document; the document is that URL's, with a type. */
  function Examine(url: string, resp: Option<Head>): (r: Option<Document>)
    ensures r.Some? <==> resp.Some? && SizeAllowed(ContentLength(resp.value))
                         && (HasDocumentExt(url) || Contains(ContentType(resp.value), "pdf"))
    ensures r.Some? ==> r.value.url == url && r.value.kind != []
                        && r.value.contentType == ContentType(resp.value)
                        && SizeAllowed(r.value.contentLength)
  {
    match resp
    case None => None
    case Some(h) =>
      var contentType := ContentType(h);
      var contentLength := ContentLength(h);
      if !SizeAllowed(contentLength) then None
      else if HasDocumentExt(url) || Contains(contentType, "pdf") then
        Some(Document(url, if contentType == [] then "unknown" else contentType, "heuristic",
                      contentType, contentLength))
      else None
  }

  /** The documents found among the probed URLs, in order. */
  function Documents(urls: seq<string>, probe: string -> Option<Head>): (r: seq<Document>)
    ensures |r| <= |urls|
    decreases |urls|
  {
    if urls == [] then []
    else
      var url := urls[|urls| - 1];
      var rest := Documents(urls[..|urls| - 1], probe);
      match Examine(url, probe(url))
      case None => rest
      case Some(d) => rest + [d]
  }

  /** A document is found exactly for the probed URLs `Examine` accepts. */
  lemma {:induction false} DocumentsSpec(urls: seq<string>, probe: string -> Option<Head>)
    ensures forall d :: d in Documents(urls, probe) ==> d.url in urls && Examine(d.url, probe(d.url)) == Some(d)
    ensures forall i :: 0 <= i < |urls| && Examine(urls[i], probe(urls[i])).Some? ==>
      Examine(urls[i], probe(urls[i])).value in Documents(urls, probe)
    decreases |urls|
  {
    if urls != [] {
      var init := urls[..|urls| - 1];
      DocumentsSpec(init, probe);
      assert forall i :: 0 <= i < |init| ==> init[i] == urls[i];
      forall d | d in Documents(urls, probe)
        ensures d.url in urls && Examine(d.url, probe(d.url)) == Some(d)
      {
        if d !in Documents(init, probe) {
          assert d == Examine(urls[|urls| - 1], probe(urls[|urls| - 1])).value;
        }
      }
    }
  }

  /** `run`: the first `maxPages` candidates probed, the documents kept. */
  method Run(domain: string, subdomains: seq<string>, probe: string -> Option<Head>, maxPages: int)
    returns (docs: seq<Document>, ghost order: seq<string>)
    ensures NoDup(order)
    ensures forall h :: h in order <==> h in HostSet(domain, subdomains)
    ensures docs == Documents(Take(UrlsFor(order), maxPages), probe)
    ensures maxPages >= 0 ==> |docs| <= maxPages
  {
    var urls;
    urls, order := BuildCandidates(domain, subdomains);
    var candidates := Take(urls, maxPages);
    docs := [];
    var k := 0;
    while k < |candidates|
      invariant 0 <= k <= |candidates|
      invariant docs == Documents(candidates[..k], probe)
    {
      var url := candidates[k];
      assert candidates[..k + 1][..k] == candidates[..k];
      var resp := probe(url);
      var found := Examine(url, resp);
      if found.Some? {
        docs := docs + [found.value];
      }
      k := k + 1;
    }
    assert candidates[..k] == candidates;
  }
}
