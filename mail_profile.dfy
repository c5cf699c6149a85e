/** The mail-security profile of a domain: a lenient reading of its SPF record
    (RFC 7208) and DMARC record (RFC 7489), the passive DKIM placeholder, and the
    risk flags and recommendations drawn from them. DNS answers are inputs. */
module MailProfile {
  import opened Wrappers
  import opened Text
  import opened Seqs

  /** The warnings the parsers raise, one constructor per message. */
  datatype Warning =
    | SoftfailWarning | AllowsAllWarning | ManyIncludesWarning | BroadIpWarning | NoSpfWarning
    | PolicyNoneWarning | PctWarning | NoRuaWarning | NoDmarcWarning

  function WarningText(w: Warning): string {
    match w
    case SoftfailWarning => "SPF uses softfail (~all). Consider -all for stricter policy."
    case AllowsAllWarning => "SPF allows all. Consider restricting with -all."
    case ManyIncludesWarning => "SPF contains many includes; review for overly broad scope."
    case BroadIpWarning => "SPF contains overly broad IP ranges (0.0.0.0/0 or ::/0)."
    case NoSpfWarning => "No SPF record found."
    case PolicyNoneWarning => "DMARC policy is none; consider quarantine or reject."
    case PctWarning => "DMARC enforcement is not 100% (pct != 100)."
    case NoRuaWarning => "DMARC policy is enforce but rua reporting is missing."
    case NoDmarcWarning => "No DMARC record found."
  }

  /** The recommendations of `run`, one constructor per message. */
  datatype Recommendation = SpfRecommendation | DmarcRecommendation | EnforceRecommendation | DkimRecommendation

  function RecommendationText(r: Recommendation): string {
    match r
    case SpfRecommendation => "Publish an SPF record scoped to authorized senders."
    case DmarcRecommendation => "Publish a DMARC record with at least quarantine policy."
    case EnforceRecommendation => "Move DMARC policy to quarantine or reject once monitoring is stable."
    case DkimRecommendation => "Confirm DKIM signing is enabled for outbound mail."
  }

  // ---------------------------------------------------------------------------
  // Record patterns
  // ---------------------------------------------------------------------------

  /** The version tags, lower-case: `SPF_RE` wants whitespace after its tag, `DMARC_RE`
      does not. */
  const SpfMarker := "v=spf1"
  const DmarcMarker := "v=dmarc1;"

  /** `marker` occurs at `i`, ignoring case, followed by whitespace when `needSpace`. */
  predicate MatchAt(s: string, i: int, marker: string, needSpace: bool) {
    && 0 <= i && i + |marker| <= |s|
    && Lower(s[i..i + |marker|]) == marker
    && (needSpace ==> i + |marker| < |s| && IsSpace(s[i + |marker|]))
  }

  /** The leftmost match position at or after `from`. */
  function FindFrom(s: string, marker: string, needSpace: bool, from: nat): (r: Option<nat>)
    requires from <= |s|
    ensures r.Some? ==> from <= r.value && r.value + |marker| <= |s|
    decreases |s| - from
  {
    if MatchAt(s, from, marker, needSpace) then Some(from)
    else if from == |s| then None
    else FindFrom(s, marker, needSpace, from + 1)
  }

  /** `FindFrom` finds a match, and no match lies between `from` and it. */
  lemma {:induction false} FindFromSpec(s: string, marker: string, needSpace: bool, from: nat)
    requires from <= |s|
    ensures var r := FindFrom(s, marker, needSpace, from);
      && (r.Some? ==> MatchAt(s, r.value, marker, needSpace))
      && (r.Some? ==> forall j :: from <= j < r.value ==> !MatchAt(s, j, marker, needSpace))
      && (r.None? ==> forall j :: from <= j <= |s| ==> !MatchAt(s, j, marker, needSpace))
    decreases |s| - from
  {
    if !MatchAt(s, from, marker, needSpace) && from < |s| {
      FindFromSpec(s, marker, needSpace, from + 1);
    }
  }

  /** `re.search(...).group(1)` for the pattern "marker, whitespace, `(.*)`", matched
      without regard to case: the rest of the record after the leftmost marker and
      the whitespace after it, up to the end of the line. */
  function Search(s: string, marker: string, needSpace: bool): Option<string> {
    match FindFrom(s, marker, needSpace, 0)
    case None => None
    case Some(i) => Some(TakeLine(TrimLeft(s[i + |marker|..], IsSpace)))
  }

  /** The records `SPF_RE` and `DMARC_RE` find a match in. */
  predicate IsSpfRecord(rec: string) { Search(rec, SpfMarker, true).Some? }
  predicate IsDmarcRecord(rec: string) { Search(rec, DmarcMarker, false).Some? }

  /** A matching record contains its marker, so it is never empty. */
  lemma MatchNonEmpty(s: string, marker: string, needSpace: bool)
    requires marker != [] && Search(s, marker, needSpace).Some?
    ensures s != []
  {
  }

  /** `tag.startswith(key + "=")` */
  predicate HasKey(tag: string, key: string) {
    |key| < |tag| && tag[..|key|] == key && tag[|key|] == '='
  }

  /** `tag.split("=", 1)[1]` for a tag that starts with `key=`: the key holds no `=`,
      so the first `=` is the one after it. */
  function ValueOf(tag: string, key: string): string
    requires HasKey(tag, key)
  {
    tag[|key| + 1..]
  }

  // ---------------------------------------------------------------------------
  // SPF
  // ---------------------------------------------------------------------------

  datatype Spf = Spf(
    raw: Option<string>,
    mechanisms: seq<string>,
    all: Option<string>,
    warnings: seq<Warning>,
    redirect: Option<string>,
    exp: Option<string>,
    includeCount: int,
    hasOverlyBroadIp: bool)

  const EmptySpf := Spf(None, [], None, [], None, None, 0, false)

  predicate IsRedirect(part: string) { HasKey(part, "redirect") }
  predicate IsExp(part: string) { HasKey(part, "exp") }
  predicate IsModifier(part: string) { IsRedirect(part) || IsExp(part) }
  /** A term the parser takes for `exp=`: one it has not taken for `redirect=`. */
  predicate IsExpTerm(part: string) { !IsRedirect(part) && IsExp(part) }
  /** A term the parser takes for the `all` mechanism: anything ending in `all`. */
  predicate IsAllTerm(part: string) { !IsModifier(part) && EndsWith(part, "all") }
  predicate IsMechanism(part: string) { !IsModifier(part) && !EndsWith(part, "all") }
  predicate IsInclude(part: string) { !IsModifier(part) && StartsWith(part, "include:") }
  predicate IsSoftfail(part: string) { IsAllTerm(part) && StartsWith(part, "~") }
  predicate AllowsAll(part: string) {
    IsAllTerm(part) && (StartsWith(part, "+") || part == "all" || StartsWith(part, "?"))
  }

  /** The effect of one whitespace-separated term of the record. */
  function SpfTerm(spf: Spf, part: string): Spf {
    if IsRedirect(part) then spf.(redirect := Some(ValueOf(part, "redirect")))
    else if IsExp(part) then spf.(exp := Some(ValueOf(part, "exp")))
    else
      var counted := if StartsWith(part, "include:") then spf.(includeCount := spf.includeCount + 1) else spf;
      if EndsWith(part, "all") then
        counted.(
          all := Some(part),
          warnings := counted.warnings
            + (if StartsWith(part, "~") then [SoftfailWarning] else [])
            + (if StartsWith(part, "+") || part == "all" || StartsWith(part, "?") then [AllowsAllWarning] else []))
      else counted.(mechanisms := counted.mechanisms + [part])
  }

  function ScanSpf(spf: Spf, parts: seq<string>): Spf
    decreases |parts|
  {
    if parts == [] then spf else SpfTerm(ScanSpf(spf, parts[..|parts| - 1]), parts[|parts| - 1])
  }

  /** The checks on the whole record once its terms are read. */
  function FinishSpf(spf: Spf, rec: string): Spf {
    var counted := if spf.includeCount > 10 then spf.(warnings := spf.warnings + [ManyIncludesWarning]) else spf;
    if Contains(rec, "ip4:0.0.0.0/0") || Contains(rec, "ip6::/0") then
      counted.(hasOverlyBroadIp := true, warnings := counted.warnings + [BroadIpWarning])
    else counted
  }

  /** The terms of a matching record. */
  function SpfTerms(rec: string): seq<string>
    requires IsSpfRecord(rec)
  {
    SplitWhitespace(Search(rec, SpfMarker, true).value)
  }

  /** The reading of one matching record. */
  function ReadSpf(rec: string): Spf
    requires IsSpfRecord(rec)
  {
    FinishSpf(ScanSpf(EmptySpf.(raw := Some(rec)), SpfTerms(rec)), rec)
  }

  /** What `parse_spf` returns for the TXT records `records`. */
  function SpfOf(records: seq<string>): Spf {
    var i := FirstWhere(records, IsSpfRecord);
    var spf := if i == |records| then EmptySpf else ReadSpf(records[i]);
    if spf.raw.None? || spf.raw.value == "" then spf.(warnings := spf.warnings + [NoSpfWarning]) else spf
  }

  /** `parse_spf`: reads the first record that carries the SPF version tag. */
  method ParseSpf(records: seq<string>) returns (spf: Spf)
    ensures spf == SpfOf(records)
  {
    spf := EmptySpf;
    var i := 0;
    while i < |records| && Search(records[i], SpfMarker, true).None?
      invariant 0 <= i <= |records|
      invariant forall j :: 0 <= j < i ==> !IsSpfRecord(records[j])
    {
      i := i + 1;
    }
    assert i == FirstWhere(records, IsSpfRecord);
    if i < |records| {
      var rec := records[i];
      var parts := SplitWhitespace(Search(rec, SpfMarker, true).value);
      assert parts == SpfTerms(rec);
      spf := ScanTerms(EmptySpf.(raw := Some(rec)), parts);
      if spf.includeCount > 10 {
        spf := spf.(warnings := spf.warnings + [ManyIncludesWarning]);
      }
      if Contains(rec, "ip4:0.0.0.0/0") || Contains(rec, "ip6::/0") {
        spf := spf.(hasOverlyBroadIp := true, warnings := spf.warnings + [BroadIpWarning]);
      }
      assert spf == ReadSpf(rec);
    }
    if spf.raw.None? || spf.raw.value == "" {
      spf := spf.(warnings := spf.warnings + [NoSpfWarning]);
    }
  }

  /** The term loop of `parse_spf`. */
  method ScanTerms(start: Spf, parts: seq<string>) returns (spf: Spf)
    ensures spf == ScanSpf(start, parts)
  {
    spf := start;
    var k := 0;
    while k < |parts|
      invariant 0 <= k <= |parts|
      invariant spf == ScanSpf(start, parts[..k])
    {
      spf := ApplyTerm(spf, parts[k]);
      assert parts[..k + 1][..k] == parts[..k];
      k := k + 1;
    }
    assert parts[..k] == parts;
  }

  /** The body of the term loop of `parse_spf`: one term. */
  method ApplyTerm(spf0: Spf, part: string) returns (spf: Spf)
    ensures spf == SpfTerm(spf0, part)
  {
    spf := spf0;
    if HasKey(part, "redirect") {
      spf := spf.(redirect := Some(ValueOf(part, "redirect")));
      return;
    }
    if HasKey(part, "exp") {
      spf := spf.(exp := Some(ValueOf(part, "exp")));
      return;
    }
    if StartsWith(part, "include:") {
      spf := spf.(includeCount := spf.includeCount + 1);
    }
    if EndsWith(part, "all") {
      spf := spf.(all := Some(part));
      if StartsWith(part, "~") {
        spf := spf.(warnings := spf.warnings + [SoftfailWarning]);
      }
      if StartsWith(part, "+") || part == "all" || StartsWith(part, "?") {
        spf := spf.(warnings := spf.warnings + [AllowsAllWarning]);
      }
    } else {
      spf := spf.(mechanisms := spf.mechanisms + [part]);
    }
  }

  /** What one term does to each field. */
  lemma SpfTermEffect(spf: Spf, part: string)
    ensures var r := SpfTerm(spf, part);
      && r.raw == spf.raw && r.hasOverlyBroadIp == spf.hasOverlyBroadIp
      && r.mechanisms == spf.mechanisms + (if IsMechanism(part) then [part] else [])
      && r.includeCount == spf.includeCount + (if IsInclude(part) then 1 else 0)
      && r.all == (if IsAllTerm(part) then Some(part) else spf.all)
      && r.redirect == (if IsRedirect(part) then Some(ValueOf(part, "redirect")) else spf.redirect)
      && r.exp == (if IsExpTerm(part) then Some(ValueOf(part, "exp")) else spf.exp)
      && r.warnings == spf.warnings
           + (if IsSoftfail(part) then [SoftfailWarning] else [])
           + (if AllowsAll(part) then [AllowsAllWarning] else [])
  {
  }

  /** Every term that is neither a modifier nor an `all` term is a mechanism, kept in
      order. */
  lemma {:induction false} ScanSpfMechanisms(spf: Spf, parts: seq<string>)
    ensures ScanSpf(spf, parts).mechanisms == spf.mechanisms + Filter(parts, IsMechanism)
    ensures ScanSpf(spf, parts).raw == spf.raw
    ensures ScanSpf(spf, parts).hasOverlyBroadIp == spf.hasOverlyBroadIp
    decreases |parts|
  {
    if parts != [] {
      var init, last := parts[..|parts| - 1], parts[|parts| - 1];
      ScanSpfMechanisms(spf, init);
      SpfTermEffect(ScanSpf(spf, init), last);
    }
  }

  /** `include:` terms are counted. */
  lemma {:induction false} ScanSpfIncludes(spf: Spf, parts: seq<string>)
    ensures ScanSpf(spf, parts).includeCount == spf.includeCount + |Filter(parts, IsInclude)|
    decreases |parts|
  {
    if parts != [] {
      var init, last := parts[..|parts| - 1], parts[|parts| - 1];
      ScanSpfIncludes(spf, init);
      SpfTermEffect(ScanSpf(spf, init), last);
    }
  }

  /** The last `all` term wins. */
  lemma {:induction false} ScanSpfAll(spf: Spf, parts: seq<string>)
    ensures ScanSpf(spf, parts).all
      == (if Filter(parts, IsAllTerm) == [] then spf.all else Some(LastOr(Filter(parts, IsAllTerm), "")))
    decreases |parts|
  {
    if parts != [] {
      var init, last := parts[..|parts| - 1], parts[|parts| - 1];
      ScanSpfAll(spf, init);
      SpfTermEffect(ScanSpf(spf, init), last);
    }
  }

  /** The last `redirect=` term wins. */
  lemma {:induction false} ScanSpfRedirect(spf: Spf, parts: seq<string>)
    ensures ScanSpf(spf, parts).redirect
      == (if Filter(parts, IsRedirect) == [] then spf.redirect
          else Some(ValueOf(LastOr(Filter(parts, IsRedirect), ""), "redirect")))
    decreases |parts|
  {
    if parts != [] {
      var init, last := parts[..|parts| - 1], parts[|parts| - 1];
      ScanSpfRedirect(spf, init);
      SpfTermEffect(ScanSpf(spf, init), last);
    }
  }

  /** The last `exp=` term wins; a term read as `redirect=` first is not one. */
  lemma {:induction false} ScanSpfExp(spf: Spf, parts: seq<string>)
    ensures ScanSpf(spf, parts).exp
      == (if Filter(parts, IsExpTerm) == [] then spf.exp
          else Some(ValueOf(LastOr(Filter(parts, IsExpTerm), ""), "exp")))
    decreases |parts|
  {
    if parts != [] {
      var init, last := parts[..|parts| - 1], parts[|parts| - 1];
      ScanSpfExp(spf, init);
      SpfTermEffect(ScanSpf(spf, init), last);
    }
  }

  /** The softfail and allow-all warnings are raised exactly by their terms, and they
      are the only warnings the terms raise. */
  lemma ScanSpfWarnings(spf: Spf, parts: seq<string>)
    ensures var r := ScanSpf(spf, parts);
      && (SoftfailWarning in r.warnings <==> SoftfailWarning in spf.warnings || exists p :: p in parts && IsSoftfail(p))
      && (AllowsAllWarning in r.warnings <==> AllowsAllWarning in spf.warnings || exists p :: p in parts && AllowsAll(p))
      && (forall w :: w in r.warnings ==> w in spf.warnings || w == SoftfailWarning || w == AllowsAllWarning)
  {
    ScanSpfSoftfail(spf, parts);
    ScanSpfAllowsAll(spf, parts);
    ScanSpfWarningKinds(spf, parts);
  }

  lemma {:induction false} ScanSpfSoftfail(spf: Spf, parts: seq<string>)
    ensures SoftfailWarning in ScanSpf(spf, parts).warnings
      <==> SoftfailWarning in spf.warnings || exists p :: p in parts && IsSoftfail(p)
    decreases |parts|
  {
    if parts != [] {
      var init, last := parts[..|parts| - 1], parts[|parts| - 1];
      ScanSpfSoftfail(spf, init);
      SpfTermEffect(ScanSpf(spf, init), last);
      assert parts == init + [last];
      assert forall p :: p in parts <==> p in init || p == last;
    }
  }

  lemma {:induction false} ScanSpfAllowsAll(spf: Spf, parts: seq<string>)
    ensures AllowsAllWarning in ScanSpf(spf, parts).warnings
      <==> AllowsAllWarning in spf.warnings || exists p :: p in parts && AllowsAll(p)
    decreases |parts|
  {
    if parts != [] {
      var init, last := parts[..|parts| - 1], parts[|parts| - 1];
      ScanSpfAllowsAll(spf, init);
      SpfTermEffect(ScanSpf(spf, init), last);
      assert parts == init + [last];
      assert forall p :: p in parts <==> p in init || p == last;
    }
  }

  lemma {:induction false} ScanSpfWarningKinds(spf: Spf, parts: seq<string>)
    ensures forall w :: w in ScanSpf(spf, parts).warnings ==>
      w in spf.warnings || w == SoftfailWarning || w == AllowsAllWarning
    decreases |parts|
  {
    if parts != [] {
      var init, last := parts[..|parts| - 1], parts[|parts| - 1];
      ScanSpfWarningKinds(spf, init);
      SpfTermEffect(ScanSpf(spf, init), last);
    }
  }

  /** The checks on the whole record add only their own warnings. */
  lemma FinishSpfEffect(spf: Spf, rec: string)
    ensures var r := FinishSpf(spf, rec);
      && r.raw == spf.raw && r.mechanisms == spf.mechanisms && r.includeCount == spf.includeCount
      && r.hasOverlyBroadIp == (spf.hasOverlyBroadIp || Contains(rec, "ip4:0.0.0.0/0") || Contains(rec, "ip6::/0"))
      && r.warnings == spf.warnings
           + (if spf.includeCount > 10 then [ManyIncludesWarning] else [])
           + (if Contains(rec, "ip4:0.0.0.0/0") || Contains(rec, "ip6::/0") then [BroadIpWarning] else [])
  {
  }

  /** The fields of a matching record's reading follow its terms; the include-count
      and broad-range checks govern their warnings; "No SPF record found." is not
      among them. */
  lemma ReadSpfSpec(rec: string)
    requires IsSpfRecord(rec)
    ensures var spf := ReadSpf(rec);
      var parts := SpfTerms(rec);
      && spf.raw == Some(rec) && rec != ""
      && spf.mechanisms == Filter(parts, IsMechanism)
      && spf.includeCount == |Filter(parts, IsInclude)|
      && (ManyIncludesWarning in spf.warnings <==> spf.includeCount > 10)
      && (spf.hasOverlyBroadIp <==> Contains(rec, "ip4:0.0.0.0/0") || Contains(rec, "ip6::/0"))
      && (BroadIpWarning in spf.warnings <==> spf.hasOverlyBroadIp)
      && NoSpfWarning !in spf.warnings
  {
    MatchNonEmpty(rec, SpfMarker, true);
    var start := EmptySpf.(raw := Some(rec));
    var parts := SpfTerms(rec);
    var scanned := ScanSpf(start, parts);
    ScanSpfMechanisms(start, parts);
    ScanSpfIncludes(start, parts);
    ScanSpfWarnings(start, parts);
    FinishSpfEffect(scanned, rec);
    assert ManyIncludesWarning !in scanned.warnings && BroadIpWarning !in scanned.warnings;
    assert NoSpfWarning !in scanned.warnings;
  }

  /** Which record `parse_spf` reads: the first one carrying the tag; with none,
      the result is empty but for "No SPF record found.". */
  lemma SpfOfRecord(records: seq<string>)
    ensures var spf := SpfOf(records);
      && (spf.raw.None? <==> forall j :: 0 <= j < |records| ==> !IsSpfRecord(records[j]))
      && (spf.raw.None? ==> spf == EmptySpf.(warnings := [NoSpfWarning]))
      && (NoSpfWarning in spf.warnings <==> spf.raw.None?)
      && (spf.raw.Some? ==>
            exists i :: 0 <= i < |records| && spf.raw.value == records[i] && IsSpfRecord(records[i])
              && (forall j :: 0 <= j < i ==> !IsSpfRecord(records[j]))
              && spf == ReadSpf(records[i]))
  {
    var i := FirstWhere(records, IsSpfRecord);
    if i < |records| {
      ReadSpfSpec(records[i]);
      assert SpfOf(records) == ReadSpf(records[i]);
    }
  }

  // ---------------------------------------------------------------------------
  // DMARC reporting addresses
  // ---------------------------------------------------------------------------

  /** An item of a `rua=` / `ruf=` list that is a `mailto:` URI, in any case. */
  predicate IsMailto(item: string) { StartsWith(Lower(item), "mailto:") }

  /** The trimmed items of `items` that are `mailto:` URIs, in order. */
  function MailtoItems(items: seq<string>): seq<string>
    decreases |items|
  {
    if items == [] then []
    else
      var item := Strip(items[|items| - 1]);
      MailtoItems(items[..|items| - 1]) + (if IsMailto(item) then [item] else [])
  }

  /** What `_parse_mailto` returns for a `rua=` / `ruf=` value. */
  function MailtoUris(value: string): seq<string> {
    MailtoItems(Split(value, ','))
  }

  /** `_parse_mailto` */
  method ParseMailto(value: string) returns (uris: seq<string>)
    ensures uris == MailtoUris(value)
  {
    var items := Split(value, ',');
    uris := [];
    var k := 0;
    while k < |items|
      invariant 0 <= k <= |items|
      invariant uris == MailtoItems(items[..k])
    {
      var item := Strip(items[k]);
      if StartsWith(Lower(item), "mailto:") {
        uris := uris + [item];
      }
      assert items[..k + 1][..k] == items[..k];
      k := k + 1;
    }
    assert items[..k] == items;
  }

  /** Exactly the trimmed items that are `mailto:` URIs are kept. */
  lemma {:induction false} MailtoItemsMembers(items: seq<string>)
    ensures forall u :: u in MailtoItems(items) <==> IsMailto(u) && exists i :: 0 <= i < |items| && u == Strip(items[i])
    decreases |items|
  {
    if items != [] {
      var init := items[..|items| - 1];
      MailtoItemsMembers(init);
      forall u | IsMailto(u) && exists i :: 0 <= i < |items| && u == Strip(items[i])
        ensures u in MailtoItems(items)
      {
        var i :| 0 <= i < |items| && u == Strip(items[i]);
        if i < |items| - 1 {
          assert u == Strip(init[i]);
        }
      }
      forall u | u in MailtoItems(init)
        ensures exists i :: 0 <= i < |items| && u == Strip(items[i])
      {
        var i :| 0 <= i < |init| && u == Strip(init[i]);
        assert u == Strip(items[i]);
      }
    }
  }

  /** Every item trimmed. */
  function Trimmed(items: seq<string>): (r: seq<string>)
    ensures |r| == |items|
  {
    seq(|items|, i requires 0 <= i < |items| => Strip(items[i]))
  }

  /** The kept items are the input's `mailto:` items, trimmed, as a subsequence in
      their input order: filtering the trimmed items by the `mailto:` test. */
  lemma {:induction false} MailtoItemsInOrder(items: seq<string>)
    ensures MailtoItems(items) == Filter(Trimmed(items), IsMailto)
    decreases |items|
  {
    if items != [] {
      var init := items[..|items| - 1];
      MailtoItemsInOrder(init);
      assert Trimmed(items)[..|items| - 1] == Trimmed(init);
    }
  }

  /** Items that are already trimmed `mailto:` URIs are all kept, in order. */
  lemma {:induction false} MailtoItemsKeepAll(items: seq<string>)
    requires forall i :: 0 <= i < |items| ==> IsMailto(items[i]) && Strip(items[i]) == items[i]
    ensures MailtoItems(items) == items
    decreases |items|
  {
    if items != [] {
      var init, last := items[..|items| - 1], items[|items| - 1];
      MailtoItemsKeepAll(init);
      assert Strip(last) == last && IsMailto(last);
      assert MailtoItems(items) == init + [last];
      assert items == init + [last];
    }
  }

  /** Writing a list of trimmed `mailto:` URIs with commas and reading it back gives
      the list. */
  lemma MailtoJoinRoundTrip(uris: seq<string>)
    requires forall i :: 0 <= i < |uris| ==> IsMailto(uris[i]) && ',' !in uris[i] && Strip(uris[i]) == uris[i]
    ensures MailtoUris(Join(uris, ",")) == uris
  {
    if uris == [] {
      assert Split("", ',') == [""];
      assert Strip("") == "";
      assert MailtoItems([""]) == MailtoItems([]) + [];
    } else {
      SplitJoin(uris, ',');
      MailtoItemsKeepAll(uris);
    }
  }

  // ---------------------------------------------------------------------------
  // DMARC
  // ---------------------------------------------------------------------------

  /** What the tags of a DMARC record say; the `alignment` dictionary is kept as its
      two possible keys. */
  datatype TagValues = TagValues(
    policy: Option<string>,
    pct: Option<string>,
    rua: Option<string>,
    ruaParsed: seq<string>,
    ruf: Option<string>,
    rufParsed: seq<string>,
    adkim: Option<string>,
    aspf: Option<string>)

  const NoTags := TagValues(None, None, None, [], None, [], None, None)

  datatype Dmarc = Dmarc(
    raw: Option<string>,
    tags: TagValues,
    warnings: seq<Warning>,
    valid: bool,
    invalidTags: seq<string>)

  const EmptyDmarc := Dmarc(None, NoTags, [], true, [])

  /** The raw tag names `key` once trimmed. */
  predicate TagFor(key: string, raw: string) { HasKey(Strip(raw), key) }

  /** The value a tag gives `key`, or `current` when it is about another key. */
  function TagValue(tag: string, key: string, current: Option<string>): Option<string> {
    if HasKey(tag, key) then Some(ValueOf(tag, key)) else current
  }

  /** The `p=` and `pct=` checks of the tag loop. */
  function PolicyTags(t: TagValues, tag: string): TagValues {
    t.(policy := TagValue(tag, "p", t.policy), pct := TagValue(tag, "pct", t.pct))
  }

  /** The `rua=` and `ruf=` checks of the tag loop: each also parses its addresses. */
  function ReportTags(t: TagValues, tag: string): TagValues {
    t.(rua := TagValue(tag, "rua", t.rua),
       ruaParsed := if HasKey(tag, "rua") then MailtoUris(ValueOf(tag, "rua")) else t.ruaParsed,
       ruf := TagValue(tag, "ruf", t.ruf),
       rufParsed := if HasKey(tag, "ruf") then MailtoUris(ValueOf(tag, "ruf")) else t.rufParsed)
  }

  /** The `adkim=` and `aspf=` checks of the tag loop. */
  function AlignmentTags(t: TagValues, tag: string): TagValues {
    t.(adkim := TagValue(tag, "adkim", t.adkim), aspf := TagValue(tag, "aspf", t.aspf))
  }

  /** The effect of one `;`-separated tag of the record; an empty one is skipped. */
  function DmarcTag(t: TagValues, raw: string): TagValues {
    var tag := Strip(raw);
    if tag == [] then t else AlignmentTags(ReportTags(PolicyTags(t, tag), tag), tag)
  }

  function ScanDmarc(t: TagValues, tags: seq<string>): TagValues
    decreases |tags|
  {
    if tags == [] then t else DmarcTag(ScanDmarc(t, tags[..|tags| - 1]), tags[|tags| - 1])
  }

  predicate IsKnownPolicy(p: string) { p == "none" || p == "quarantine" || p == "reject" }

  /** `int(pct)` succeeds with a value in 0..100. */
  predicate PctInRange(pct: string) {
    var n := ParseInt(pct);
    n.Some? && 0 <= n.value <= 100
  }

  predicate BadPolicy(t: TagValues) { t.policy.Some? && !IsKnownPolicy(t.policy.value) }
  predicate BadPct(t: TagValues) { t.pct.Some? && !PctInRange(t.pct.value) }
  predicate PolicyIsNone(t: TagValues) { t.policy == Some("none") || t.policy.None? }
  predicate PctBelowFull(t: TagValues) { t.pct.Some? && t.pct.value != "" && t.pct.value != "100" }
  predicate EnforcedWithoutRua(t: TagValues) {
    (t.policy == Some("quarantine") || t.policy == Some("reject")) && (t.rua.None? || t.rua.value == "")
  }

  /** The verdicts once the tags are read: an unknown policy and a pct that is not
      an integer in 0..100 make the record invalid and are named, in that order; then
      the three warnings, each raised by its own condition, in that order. */
  /** The tags `parse_dmarc` reports as invalid, in the order it checks them. */
  function InvalidTagsOf(t: TagValues): seq<string> {
    (if BadPolicy(t) then ["p"] else []) + (if BadPct(t) then ["pct"] else [])
  }

  /** The warnings `parse_dmarc` derives from the tag values, in order. */
  function TagWarningsOf(t: TagValues): seq<Warning> {
    (if PolicyIsNone(t) then [PolicyNoneWarning] else [])
    + (if PctBelowFull(t) then [PctWarning] else [])
    + (if EnforcedWithoutRua(t) then [NoRuaWarning] else [])
  }

  function FinishDmarc(d: Dmarc): Dmarc {
    var t := d.tags;
    d.(valid := d.valid && !BadPolicy(t) && !BadPct(t),
       invalidTags := d.invalidTags + InvalidTagsOf(t),
       warnings := d.warnings + TagWarningsOf(t))
  }


  /** The tags of a matching record. */
  function DmarcTags(rec: string): seq<string>
    requires IsDmarcRecord(rec)
  {
    Split(Search(rec, DmarcMarker, false).value, ';')
  }

  /** The reading of one matching record. */
  function ReadDmarc(rec: string): Dmarc
    requires IsDmarcRecord(rec)
  {
    FinishDmarc(EmptyDmarc.(raw := Some(rec), tags := ScanDmarc(NoTags, DmarcTags(rec))))
  }

  /** What `parse_dmarc` returns for the TXT records `records`. */
  function DmarcOf(records: seq<string>): Dmarc {
    var i := FirstWhere(records, IsDmarcRecord);
    var d := if i == |records| then EmptyDmarc else ReadDmarc(records[i]);
    if d.raw.None? || d.raw.value == "" then d.(warnings := d.warnings + [NoDmarcWarning]) else d
  }

  /** `parse_dmarc`: reads the first record that carries the DMARC version tag. */
  method ParseDmarc(records: seq<string>) returns (dmarc: Dmarc)
    ensures dmarc == DmarcOf(records)
  {
    dmarc := EmptyDmarc;
    var i := 0;
    while i < |records| && Search(records[i], DmarcMarker, false).None?
      invariant 0 <= i <= |records|
      invariant forall j :: 0 <= j < i ==> !IsDmarcRecord(records[j])
    {
      i := i + 1;
    }
    assert i == FirstWhere(records, IsDmarcRecord);
    if i < |records| {
      var rec := records[i];
      var parts := Split(Search(rec, DmarcMarker, false).value, ';');
      assert parts == DmarcTags(rec);
      var tags := ScanTags(dmarc.tags, parts);
      dmarc := dmarc.(raw := Some(rec), tags := tags);
      dmarc := CheckTags(dmarc);
      assert dmarc == ReadDmarc(rec);
    }
    if dmarc.raw.None? || dmarc.raw.value == "" {
      dmarc := dmarc.(warnings := dmarc.warnings + [NoDmarcWarning]);
    }
  }

  /** The tag loop of `parse_dmarc`. */
  method ScanTags(start: TagValues, parts: seq<string>) returns (t: TagValues)
    ensures t == ScanDmarc(start, parts)
  {
    t := start;
    var k := 0;
    while k < |parts|
      invariant 0 <= k <= |parts|
      invariant t == ScanDmarc(start, parts[..k])
    {
      t := ApplyTag(t, parts[k]);
      assert parts[..k + 1][..k] == parts[..k];
      k := k + 1;
    }
    assert parts[..k] == parts;
  }

  /** The body of the tag loop of `parse_dmarc`: one tag. */
  method ApplyTag(t0: TagValues, raw: string) returns (t: TagValues)
    ensures t == DmarcTag(t0, raw)
  {
    t := t0;
    var tag := Strip(raw);
    if tag == [] {
      return;
    }
    if HasKey(tag, "p") {
      t := t.(policy := Some(ValueOf(tag, "p")));
    }
    if HasKey(tag, "pct") {
      t := t.(pct := Some(ValueOf(tag, "pct")));
    }
    assert t == PolicyTags(t0, tag);
    ghost var t1 := t;
    if HasKey(tag, "rua") {
      var value := ValueOf(tag, "rua");
      var parsed := ParseMailto(value);
      t := t.(rua := Some(value), ruaParsed := parsed);
    }
    if HasKey(tag, "ruf") {
      var value := ValueOf(tag, "ruf");
      var parsed := ParseMailto(value);
      t := t.(ruf := Some(value), rufParsed := parsed);
    }
    assert t == ReportTags(t1, tag);
    ghost var t2 := t;
    if HasKey(tag, "adkim") {
      t := t.(adkim := Some(ValueOf(tag, "adkim")));
    }
    if HasKey(tag, "aspf") {
      t := t.(aspf := Some(ValueOf(tag, "aspf")));
    }
    assert t == AlignmentTags(t2, tag);
  }

  /** The validity checks and warnings of `parse_dmarc` once the tags are read. */
  method CheckTags(d: Dmarc) returns (dmarc: Dmarc)
    ensures dmarc == FinishDmarc(d)
  {
    var invalid := CheckValues(d.tags);
    var warnings := TagWarnings(d.tags);
    dmarc := d.(valid := d.valid && invalid == [], invalidTags := d.invalidTags + invalid,
                warnings := d.warnings + warnings);
  }

  /** The validity checks on `p` and `pct`. */
  method CheckValues(t: TagValues) returns (invalid: seq<string>)
    ensures invalid == InvalidTagsOf(t)
    ensures invalid == [] <==> !BadPolicy(t) && !BadPct(t)
  {
    invalid := [];
    if t.policy.Some? && !IsKnownPolicy(t.policy.value) {
      invalid := invalid + ["p"];
    }
    if t.pct.Some? {
      var n := ParseInt(t.pct.value);
      if n.None? || n.value < 0 || n.value > 100 {
        invalid := invalid + ["pct"];
      }
    }
  }

  /** The warnings raised on the policy, the percentage and the missing report address. */
  method TagWarnings(t: TagValues) returns (warnings: seq<Warning>)
    ensures warnings == TagWarningsOf(t)
  {
    warnings := [];
    if t.policy == Some("none") || t.policy.None? {
      warnings := warnings + [PolicyNoneWarning];
    }
    if t.pct.Some? && t.pct.value != "" && t.pct.value != "100" {
      warnings := warnings + [PctWarning];
    }
    if EnforcedWithoutRua(t) {
      warnings := warnings + [NoRuaWarning];
    }
  }

  /** The value the last trimmed tag for `key` gives it, if any tag does. */
  function LastTagValue(tags: seq<string>, key: string): Option<string>
    decreases |tags|
  {
    if tags == [] then None
    else
      var tag := Strip(tags[|tags| - 1]);
      if HasKey(tag, key) then Some(ValueOf(tag, key)) else LastTagValue(tags[..|tags| - 1], key)
  }

  /** A key has no value exactly when no tag names it. */
  lemma {:induction false} LastTagValueNone(tags: seq<string>, key: string)
    ensures LastTagValue(tags, key).None? <==> forall i :: 0 <= i < |tags| ==> !TagFor(key, tags[i])
    decreases |tags|
  {
    if tags != [] {
      var n := |tags| - 1;
      LastTagValueNone(tags[..n], key);
      assert forall i :: 0 <= i < n ==> tags[i] == tags[..n][i];
    }
  }

  /** `tags[i]` names `key` and no later tag does. */
  predicate LastTagAt(tags: seq<string>, key: string, i: int) {
    0 <= i < |tags| && TagFor(key, tags[i]) && forall j :: i < j < |tags| ==> !TagFor(key, tags[j])
  }

  /** Later tags override earlier ones: a key's value is that of the last tag naming it. */
  lemma {:induction false} LastTagValueLast(tags: seq<string>, key: string)
    ensures LastTagValue(tags, key).Some? ==>
      exists i :: LastTagAt(tags, key, i) && LastTagValue(tags, key).value == ValueOf(Strip(tags[i]), key)
    decreases |tags|
  {
    if tags != [] {
      var n := |tags| - 1;
      var init := tags[..n];
      if TagFor(key, tags[n]) {
        assert LastTagAt(tags, key, n);
      } else if LastTagValue(init, key).Some? {
        LastTagValueLast(init, key);
        var i :| LastTagAt(init, key, i) && LastTagValue(init, key).value == ValueOf(Strip(init[i]), key);
        assert tags[i] == init[i];
        forall j | i < j < |tags|
          ensures !TagFor(key, tags[j])
        {
          if j < n {
            assert tags[j] == init[j];
          }
        }
        assert LastTagAt(tags, key, i);
      }
    }
  }

  /** What one tag does to each field. */
  lemma DmarcTagEffect(t: TagValues, raw: string)
    ensures var r := DmarcTag(t, raw);
      var tag := Strip(raw);
      && r.policy == TagValue(tag, "p", t.policy)
      && r.pct == TagValue(tag, "pct", t.pct)
      && r.rua == TagValue(tag, "rua", t.rua)
      && r.ruf == TagValue(tag, "ruf", t.ruf)
      && r.adkim == TagValue(tag, "adkim", t.adkim)
      && r.aspf == TagValue(tag, "aspf", t.aspf)
      && r.ruaParsed == (if HasKey(tag, "rua") then MailtoUris(ValueOf(tag, "rua")) else t.ruaParsed)
      && r.rufParsed == (if HasKey(tag, "ruf") then MailtoUris(ValueOf(tag, "ruf")) else t.rufParsed)
  {
  }

  /** Each field holds the value of the last tag for its key, and the parsed address
      lists follow the last `rua=` / `ruf=` tag. */
  lemma ScanDmarcSpec(t: TagValues, tags: seq<string>)
    ensures var r := ScanDmarc(t, tags);
      && r.policy == (if LastTagValue(tags, "p").Some? then LastTagValue(tags, "p") else t.policy)
      && r.pct == (if LastTagValue(tags, "pct").Some? then LastTagValue(tags, "pct") else t.pct)
      && r.rua == (if LastTagValue(tags, "rua").Some? then LastTagValue(tags, "rua") else t.rua)
      && r.ruf == (if LastTagValue(tags, "ruf").Some? then LastTagValue(tags, "ruf") else t.ruf)
      && r.adkim == (if LastTagValue(tags, "adkim").Some? then LastTagValue(tags, "adkim") else t.adkim)
      && r.aspf == (if LastTagValue(tags, "aspf").Some? then LastTagValue(tags, "aspf") else t.aspf)
      && r.ruaParsed == (if LastTagValue(tags, "rua").Some? then MailtoUris(LastTagValue(tags, "rua").value) else t.ruaParsed)
      && r.rufParsed == (if LastTagValue(tags, "ruf").Some? then MailtoUris(LastTagValue(tags, "ruf").value) else t.rufParsed)
  {
    ScanDmarcPolicy(t, tags);
    ScanDmarcReports(t, tags);
    ScanDmarcAlignment(t, tags);
  }

  lemma {:induction false} ScanDmarcPolicy(t: TagValues, tags: seq<string>)
    ensures var r := ScanDmarc(t, tags);
      && r.policy == (if LastTagValue(tags, "p").Some? then LastTagValue(tags, "p") else t.policy)
      && r.pct == (if LastTagValue(tags, "pct").Some? then LastTagValue(tags, "pct") else t.pct)
    decreases |tags|
  {
    if tags != [] {
      var init := tags[..|tags| - 1];
      ScanDmarcPolicy(t, init);
      DmarcTagEffect(ScanDmarc(t, init), tags[|tags| - 1]);
    }
  }

  lemma {:induction false} ScanDmarcReports(t: TagValues, tags: seq<string>)
    ensures var r := ScanDmarc(t, tags);
      && r.rua == (if LastTagValue(tags, "rua").Some? then LastTagValue(tags, "rua") else t.rua)
      && r.ruf == (if LastTagValue(tags, "ruf").Some? then LastTagValue(tags, "ruf") else t.ruf)
      && r.ruaParsed == (if LastTagValue(tags, "rua").Some? then MailtoUris(LastTagValue(tags, "rua").value) else t.ruaParsed)
      && r.rufParsed == (if LastTagValue(tags, "ruf").Some? then MailtoUris(LastTagValue(tags, "ruf").value) else t.rufParsed)
    decreases |tags|
  {
    if tags != [] {
      var init := tags[..|tags| - 1];
      ScanDmarcReports(t, init);
      DmarcTagEffect(ScanDmarc(t, init), tags[|tags| - 1]);
    }
  }

  lemma {:induction false} ScanDmarcAlignment(t: TagValues, tags: seq<string>)
    ensures var r := ScanDmarc(t, tags);
      && r.adkim == (if LastTagValue(tags, "adkim").Some? then LastTagValue(tags, "adkim") else t.adkim)
      && r.aspf == (if LastTagValue(tags, "aspf").Some? then LastTagValue(tags, "aspf") else t.aspf)
    decreases |tags|
  {
    if tags != [] {
      var init := tags[..|tags| - 1];
      ScanDmarcAlignment(t, init);
      DmarcTagEffect(ScanDmarc(t, init), tags[|tags| - 1]);
    }
  }


  /** Each field of a matching record's reading is the last tag's value, and the
      parsed address lists follow `rua` and `ruf`. */
  lemma ReadDmarcFields(rec: string)
    requires IsDmarcRecord(rec)
    ensures var d := ReadDmarc(rec);
      var t := d.tags;
      var tags := DmarcTags(rec);
      && d.raw == Some(rec) && rec != ""
      && t.policy == LastTagValue(tags, "p") && t.pct == LastTagValue(tags, "pct")
      && t.rua == LastTagValue(tags, "rua") && t.ruf == LastTagValue(tags, "ruf")
      && t.adkim == LastTagValue(tags, "adkim") && t.aspf == LastTagValue(tags, "aspf")
      && t.ruaParsed == (if t.rua.Some? then MailtoUris(t.rua.value) else [])
      && t.rufParsed == (if t.ruf.Some? then MailtoUris(t.ruf.value) else [])
  {
    MatchNonEmpty(rec, DmarcMarker, false);
    ScanDmarcSpec(NoTags, DmarcTags(rec));
  }

  /** A matching record is invalid exactly for an unknown policy or a pct that is not
      an integer in 0..100, and names exactly those tags; each warning is raised
      exactly by its condition, and "No DMARC record found." is not among them. */
  /** `p` is reported invalid exactly for an unknown policy, `pct` exactly for a
      percentage that is not an integer in 0..100. */
  lemma InvalidTagsSpec(t: TagValues)
    ensures ("p" in InvalidTagsOf(t) <==> BadPolicy(t))
    ensures ("pct" in InvalidTagsOf(t) <==> BadPct(t))
    ensures |InvalidTagsOf(t)| <= 2
  {
  }

  /** Each value warning is raised exactly when its condition holds. */
  lemma TagWarningsSpec(t: TagValues)
    ensures (PolicyNoneWarning in TagWarningsOf(t) <==> PolicyIsNone(t))
    ensures (PctWarning in TagWarningsOf(t) <==> PctBelowFull(t))
    ensures (NoRuaWarning in TagWarningsOf(t) <==> EnforcedWithoutRua(t))
    ensures NoDmarcWarning !in TagWarningsOf(t)
  {
  }

  lemma ReadDmarcVerdicts(rec: string)
    requires IsDmarcRecord(rec)
    ensures var d := ReadDmarc(rec);
      var t := d.tags;
      && (d.valid <==> !BadPolicy(t) && !BadPct(t))
      && ("p" in d.invalidTags <==> BadPolicy(t))
      && ("pct" in d.invalidTags <==> BadPct(t))
      && |d.invalidTags| <= 2
      && (PolicyNoneWarning in d.warnings <==> PolicyIsNone(t))
      && (PctWarning in d.warnings <==> PctBelowFull(t))
      && (NoRuaWarning in d.warnings <==> EnforcedWithoutRua(t))
      && NoDmarcWarning !in d.warnings
  {
    var d := ReadDmarc(rec);
    assert d.invalidTags == InvalidTagsOf(d.tags);
    assert d.warnings == TagWarningsOf(d.tags);
    InvalidTagsSpec(d.tags);
    TagWarningsSpec(d.tags);
  }


  /** Which record `parse_dmarc` reads: the first one carrying the tag; with none,
      the result is empty and valid but for "No DMARC record found.". */
  lemma DmarcOfRecord(records: seq<string>)
    ensures var d := DmarcOf(records);
      && (d.raw.None? <==> forall j :: 0 <= j < |records| ==> !IsDmarcRecord(records[j]))
      && (d.raw.None? ==> d == EmptyDmarc.(warnings := [NoDmarcWarning]))
      && (NoDmarcWarning in d.warnings <==> d.raw.None?)
      && (d.raw.Some? ==>
            exists i :: 0 <= i < |records| && d.raw.value == records[i] && IsDmarcRecord(records[i])
              && (forall j :: 0 <= j < i ==> !IsDmarcRecord(records[j]))
              && d == ReadDmarc(records[i]))
  {
    var i := FirstWhere(records, IsDmarcRecord);
    if i < |records| {
      MatchNonEmpty(records[i], DmarcMarker, false);
      ReadDmarcVerdicts(records[i]);
      assert DmarcOf(records) == ReadDmarc(records[i]);
    }
  }


  // ---------------------------------------------------------------------------
  // DKIM and the profile
  // ---------------------------------------------------------------------------

  /** A selector that answered, with its TXT records. */
  datatype DkimHit = DkimHit(selector: string, records: seq<string>)

  datatype Dkim = Dkim(status: string, selectorsChecked: seq<string>, found: seq<DkimHit>, mode: string, note: string)

  /** `check_dkim(domain, False)`: no selector is looked up, so nothing is known. */
  function PassiveDkim(domain: string): (d: Dkim)
    ensures d.status == "unknown" && d.selectorsChecked == [] && d.found == []
    ensures d.mode == "passive"
  {
    Dkim("unknown", [], [], "passive", "Passive mode does not query selectors.")
  }

  /** The DKIM check looked at selectors and none answered. */
  predicate DkimMissing(d: Dkim) { d.status == "checked" && d.found == [] }

  /** The answers `run` gathers for the domain itself. */
  datatype DnsRecords = DnsRecords(a: seq<string>, aaaa: seq<string>, ns: seq<string>, mx: seq<string>, txt: seq<string>)

  datatype Profile = Profile(
    records: DnsRecords,
    spf: Spf,
    dmarc: Dmarc,
    dkim: Dkim,
    riskFlags: seq<Warning>,
    recommendations: seq<Recommendation>)

  /** The recommendations of `run`, in the order it makes them. */
  function Recommendations(spf: Spf, dmarc: Dmarc, dkim: Dkim): seq<Recommendation> {
    (if spf.raw.None? then [SpfRecommendation] else [])
    + (if dmarc.raw.None? then [DmarcRecommendation] else [])
    + (if dmarc.tags.policy == Some("none") then [EnforceRecommendation] else [])
    + (if DkimMissing(dkim) then [DkimRecommendation] else [])
  }

  /** `run(domain, enhanced)` on the answers it gets: `records` for the domain, `dmarcTxt`
      for `_dmarc.<domain>`, and `dkim` from the DKIM check. */
  method Run(records: DnsRecords, dmarcTxt: seq<string>, dkim: Dkim) returns (p: Profile)
    ensures p.records == records && p.dkim == dkim
    ensures p.spf == SpfOf(records.txt) && p.dmarc == DmarcOf(dmarcTxt)
    ensures p.riskFlags == p.spf.warnings + p.dmarc.warnings
    ensures p.recommendations == Recommendations(p.spf, p.dmarc, dkim)
  {
    var spf := ParseSpf(records.txt);
    var dmarc := ParseDmarc(dmarcTxt);
    var flags := RiskFlags(spf, dmarc);
    var recs := Recommend(spf, dmarc, dkim);
    p := Profile(records, spf, dmarc, dkim, flags, recs);
  }

  /** The risk flags of `run`: the SPF warnings, then the DMARC warnings. */
  method RiskFlags(spf: Spf, dmarc: Dmarc) returns (flags: seq<Warning>)
    ensures flags == spf.warnings + dmarc.warnings
  {
    flags := [];
    if spf.warnings != [] {
      flags := flags + spf.warnings;
    }
    if dmarc.warnings != [] {
      flags := flags + dmarc.warnings;
    }
  }

  method Recommend(spf: Spf, dmarc: Dmarc, dkim: Dkim) returns (recs: seq<Recommendation>)
    ensures recs == Recommendations(spf, dmarc, dkim)
  {
    recs := [];
    if spf.raw.None? {
      recs := recs + [SpfRecommendation];
    }
    if dmarc.raw.None? {
      recs := recs + [DmarcRecommendation];
    }
    if dmarc.tags.policy == Some("none") {
      recs := recs + [EnforceRecommendation];
    }
    if dkim.status == "checked" && dkim.found == [] {
      recs := recs + [DkimRecommendation];
    }
  }



  /** Each recommendation is made exactly when its condition holds, at most once. */
  lemma RecommendationsSpec(spf: Spf, dmarc: Dmarc, dkim: Dkim)
    ensures var r := Recommendations(spf, dmarc, dkim);
      && (SpfRecommendation in r <==> spf.raw.None?)
      && (DmarcRecommendation in r <==> dmarc.raw.None?)
      && (EnforceRecommendation in r <==> dmarc.tags.policy == Some("none"))
      && (DkimRecommendation in r <==> DkimMissing(dkim))
      && NoDup(r) && |r| <= 4
  {
    // One case for each combination of the four conditions.
    var a, b, c, d := spf.raw.None?, dmarc.raw.None?, dmarc.tags.policy == Some("none"), DkimMissing(dkim);
    if a {
      if b {
        if c { if d {} else {} } else { if d {} else {} }
      } else {
        if c { if d {} else {} } else { if d {} else {} }
      }
    } else {
      if b {
        if c { if d {} else {} } else { if d {} else {} }
      } else {
        if c { if d {} else {} } else { if d {} else {} }
      }
    }
  }

  /** The profile recommends an SPF (DMARC) record exactly when it flags the record as
      missing, and the passive DKIM check never asks for DKIM signing. */
  lemma ProfileConsistent(records: DnsRecords, dmarcTxt: seq<string>, domain: string)
    ensures var spf := SpfOf(records.txt);
      var dmarc := DmarcOf(dmarcTxt);
      var r := Recommendations(spf, dmarc, PassiveDkim(domain));
      var flags := spf.warnings + dmarc.warnings;
      && (SpfRecommendation in r <==> NoSpfWarning in flags)
      && (DmarcRecommendation in r <==> NoDmarcWarning in flags)
      && DkimRecommendation !in r
  {
    var spf := SpfOf(records.txt);
    var dmarc := DmarcOf(dmarcTxt);
    SpfOfRecord(records.txt);
    DmarcOfRecord(dmarcTxt);
    RecommendationsSpec(spf, dmarc, PassiveDkim(domain));
    SpfWarningsOwn(records.txt);
    DmarcWarningsOwn(dmarcTxt);
  }

  /** `parse_spf` raises only SPF warnings. */
  lemma SpfWarningsOwn(records: seq<string>)
    ensures NoDmarcWarning !in SpfOf(records).warnings
  {
    var i := FirstWhere(records, IsSpfRecord);
    if i < |records| {
      var rec := records[i];
      ReadSpfSpec(rec);
      assert SpfOf(records) == ReadSpf(rec);
      var start := EmptySpf.(raw := Some(rec));
      var scanned := ScanSpf(start, SpfTerms(rec));
      ScanSpfWarnings(start, SpfTerms(rec));
      assert NoDmarcWarning !in scanned.warnings;
      FinishSpfEffect(scanned, rec);
    }
  }

  /** `parse_dmarc` raises only DMARC warnings. */
  lemma DmarcWarningsOwn(records: seq<string>)
    ensures NoSpfWarning !in DmarcOf(records).warnings
  {
    var i := FirstWhere(records, IsDmarcRecord);
    if i < |records| {
      var d := ReadDmarc(records[i]);
      assert d.warnings == TagWarningsOf(d.tags);
      assert NoSpfWarning !in d.warnings;
      assert DmarcOf(records).warnings <= d.warnings + [NoDmarcWarning];
    }
  }
}
