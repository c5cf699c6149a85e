/** Passive discovery of user accounts that may belong to the target organisation:
    the query terms derived from the domain and the company name, the confidence
    given to a handle, and the collection, de-duplication, ordering and truncation of
    what the three public user searches return. The searches themselves are HTTP
    calls and enter the model as the `fetch` parameter. */
module PassiveUsers {
  import opened Wrappers
  import opened Text
  import opened Seqs

  // ---------------------------------------------------------------------------
  // Query terms
  // ---------------------------------------------------------------------------

  predicate NonEmpty(s: string) { s != [] }

  /** `_base_company_terms`: the company name trimmed, and lower-cased with its
      spaces removed or turned into dashes; empty spellings dropped. */
  function BaseCompanyTerms(company: Option<string>): (r: seq<string>)
    ensures |r| <= 3
    ensures forall i :: 0 <= i < |r| ==> r[i] != []
    ensures company.None? || company.value == [] ==> r == []
    ensures company.Some? && company.value != [] ==> forall t ::
      t in r <==> t != [] && t in CompanySpellings(company.value)
  {
    if company.None? || company.value == [] then []
    else
      FilterMembers(CompanySpellings(company.value), NonEmpty);
      Filter(CompanySpellings(company.value), NonEmpty)
  }

  /** The three spellings of a company name: trimmed, lower-cased without spaces,
      and lower-cased with dashes for spaces. */
  function CompanySpellings(c: string): seq<string> {
    [Strip(c), ReplaceChar(Lower(c), ' ', ""), ReplaceChar(Lower(c), ' ', "-")]
  }

  /** The first piece of `s` before a dot (`s.split(".")[0]`). */
  function RootLabel(s: string): string {
    Split(s, '.')[0]
  }

  /** The domain as `_query_terms` uses it: trimmed and lower-cased. */
  function QueryDomain(domain: string): string {
    Lower(Strip(domain))
  }

  /** The domain's first label, or the whole domain when it has no dot. */
  function QueryRoot(domain: string): string {
    var d := QueryDomain(domain);
    if '.' in d then RootLabel(d) else d
  }

  /** The candidate terms before cleaning: the domain, its first label, then the
      company spellings. */
  function RawTerms(domain: string, company: Option<string>): seq<string> {
    [QueryDomain(domain), QueryRoot(domain)] + BaseCompanyTerms(company)
  }

  predicate NotBlank(t: string) { t != [] && Strip(t) != [] }

  /** `[t.strip() for t in terms if t and t.strip()]` */
  function StrippedTerms(terms: seq<string>): (r: seq<string>)
    ensures |r| <= |terms|
    decreases |terms|
  {
    if terms == [] then []
    else
      var last := terms[|terms| - 1];
      StrippedTerms(terms[..|terms| - 1]) + (if NotBlank(last) then [Strip(last)] else [])
  }

  /** `_query_terms`: distinct terms, none empty or padded with whitespace. */
  function QueryTerms(domain: string, company: Option<string>): (r: seq<string>)
    ensures NoDup(r)
    ensures forall x :: x in r ==> x != [] && Strip(x) == x
  {
    var s := StrippedTerms(RawTerms(domain, company));
    StrippedTermsSpec(RawTerms(domain, company));
    DedupeSpec(s);
    Dedupe(s)
  }

  lemma {:induction false} StrippedTermsSpec(terms: seq<string>)
    ensures forall x :: x in StrippedTerms(terms) ==> x != [] && Strip(x) == x
    ensures forall x :: x in terms && NotBlank(x) ==> Strip(x) in StrippedTerms(terms)
    decreases |terms|
  {
    if terms != [] {
      var init := terms[..|terms| - 1];
      StrippedTermsSpec(init);
      assert terms == init + [terms[|terms| - 1]];
      StripIdempotent(terms[|terms| - 1]);
    }
  }

  /** The query terms are exactly the trimmed non-blank candidates, each kept once,
      in the order of its first occurrence among the cleaned candidates. */
  lemma QueryTermsSpec(domain: string, company: Option<string>)
    ensures var s := StrippedTerms(RawTerms(domain, company));
      var r := QueryTerms(domain, company);
      && (forall x :: x in r ==> x in s)
      && (forall x :: x in RawTerms(domain, company) && NotBlank(x) ==> Strip(x) in r)
      && (forall i, j :: 0 <= i < j < |r| ==> IndexOf(s, r[i]) < IndexOf(s, r[j]))
  {
    var s := StrippedTerms(RawTerms(domain, company));
    StrippedTermsSpec(RawTerms(domain, company));
    DedupeSpec(s);
    DedupeOrder(s);
  }

  /** A domain that is not blank is the first query term, trimmed and lower-cased. */
  lemma QueryTermsFirst(domain: string, company: Option<string>)
    requires QueryDomain(domain) != []
    ensures QueryTerms(domain, company) != []
    ensures QueryTerms(domain, company)[0] == QueryDomain(domain)
  {
    var d := QueryDomain(domain);
    var raw := RawTerms(domain, company);
    QueryDomainClean(domain);
    assert StrippedTerms(raw[..1]) == [d];
    StrippedPrefix(raw, 1);
    var s := StrippedTerms(raw);
    DedupeHead(s);
  }

  /** The query domain is already trimmed. */
  lemma QueryDomainClean(domain: string)
    ensures Strip(QueryDomain(domain)) == QueryDomain(domain)
  {
    StripLower(Strip(domain));
    StripIdempotent(domain);
  }

  /** A domain with a dot whose first label is neither blank nor, once trimmed, the
      domain itself gives that label, trimmed, as the second query term. */
  lemma QueryTermsSecond(domain: string, company: Option<string>)
    requires QueryDomain(domain) != []
    requires NotBlank(QueryRoot(domain)) && Strip(QueryRoot(domain)) != QueryDomain(domain)
    ensures |QueryTerms(domain, company)| >= 2
    ensures QueryTerms(domain, company)[1] == Strip(QueryRoot(domain))
  {
    var raw := RawTerms(domain, company);
    assert raw[0] == QueryDomain(domain) && raw[1] == QueryRoot(domain);
    QueryDomainClean(domain);
    CleanedFrontPair(raw);
  }

  /** A trimmed first candidate and a different non-blank second one are the first
      two terms once cleaned and de-duplicated. */
  lemma CleanedFrontPair(raw: seq<string>)
    requires |raw| >= 2 && raw[0] != [] && Strip(raw[0]) == raw[0]
    requires NotBlank(raw[1]) && Strip(raw[1]) != raw[0]
    ensures |Dedupe(StrippedTerms(raw))| >= 2
    ensures Dedupe(StrippedTerms(raw))[1] == Strip(raw[1])
  {
    StrippedFrontPair(raw);
    DedupeFrontPair(StrippedTerms(raw), raw[0], Strip(raw[1]));
  }

  /** Two non-blank candidates in front are cleaned into the first two terms. */
  lemma StrippedFrontPair(raw: seq<string>)
    requires |raw| >= 2 && NotBlank(raw[0]) && NotBlank(raw[1])
    ensures |StrippedTerms(raw)| >= 2
    ensures StrippedTerms(raw)[..2] == [Strip(raw[0]), Strip(raw[1])]
  {
    assert StrippedTerms(raw[..2]) == [Strip(raw[0]), Strip(raw[1])] by {
      assert raw[..2][..1] == raw[..1];
      assert raw[..1][..0] == [];
    }
    StrippedPrefix(raw, 2);
  }

  /** Cleaning a longer list keeps the cleaned shorter list in front. */
  lemma {:induction false} StrippedPrefix(terms: seq<string>, k: nat)
    requires k <= |terms|
    ensures StrippedTerms(terms[..k]) <= StrippedTerms(terms)
    ensures |StrippedTerms(terms[..k])| <= |StrippedTerms(terms)|
    decreases |terms|
  {
    if k < |terms| {
      var init := terms[..|terms| - 1];
      StrippedPrefix(init, k);
      assert init[..k] == terms[..k];
    } else {
      assert terms[..k] == terms;
    }
  }

  // ---------------------------------------------------------------------------
  // Confidence
  // ---------------------------------------------------------------------------

  datatype Confidence = High | Medium | Low

  function ConfidenceName(c: Confidence): string {
    match c
    case High => "high"
    case Medium => "medium"
    case Low => "low"
  }

  /** `_confidence`: high for a handle equal to the query or the domain, medium for
      one containing the query or the domain's first label, low otherwise (all
      compared lower-cased). The grades nest: a handle is low exactly when it
      contains neither the query nor the domain's first label, so an exact match is
      never low. */
  function ConfidenceOf(handle: string, query: string, domain: string): (r: Confidence)
    ensures r == High <==> Lower(handle) == Lower(query) || Lower(handle) == Lower(domain)
    ensures r == Low <==>
      !Contains(Lower(handle), Lower(query)) && !Contains(Lower(handle), RootLabel(Lower(domain)))
  {
    var h := Lower(handle);
    var q := Lower(query);
    var d := Lower(domain);
    ExactMatchContains(h, q, d);
    if h == q || h == d then High
    else if Contains(h, q) || Contains(h, RootLabel(d)) then Medium
    else Low
  }

  /** Every piece of a split is a prefix-free run up to the separator: the first
      piece is a prefix of the string. */
  lemma {:induction false} RootLabelPrefix(s: string)
    ensures StartsWith(s, RootLabel(s))
    decreases |s|
  {
    if s == [] || s[0] == '.' {
      assert RootLabel(s) == [];
    } else {
      RootLabelPrefix(s[1..]);
      var p := RootLabel(s[1..]);
      assert RootLabel(s) == [s[0]] + p;
      assert s[..|p| + 1] == [s[0]] + s[1..][..|p|];
    }
  }

  /** A handle equal to the query or to the domain contains the query or the
      domain's first label. */
  lemma ExactMatchContains(h: string, q: string, d: string)
    ensures h == q || h == d ==> Contains(h, q) || Contains(h, RootLabel(d))
  {
    if h == q {
      assert StartsWith(h, q);
      ContainsPrefix(h, q);
    }
    if h == d {
      RootLabelPrefix(d);
      ContainsPrefix(h, RootLabel(d));
    }
  }

  // ---------------------------------------------------------------------------
  // Collection
  // ---------------------------------------------------------------------------

  datatype Source = GitHubSearch | GitLabSearch | KeybaseAutocomplete

  function SourceName(s: Source): string {
    match s
    case GitHubSearch => "github_search"
    case GitLabSearch => "gitlab_search"
    case KeybaseAutocomplete => "keybase_autocomplete"
  }

  /** The sources in the order `run` asks them. */
  const Sources: seq<Source> := [GitHubSearch, GitLabSearch, KeybaseAutocomplete]

  /** A user record; the profile URL, account type and score pass through. */
  datatype User = User(
    handle: Option<string>,
    profileUrl: Option<string>,
    kind: Option<string>,
    score: Option<int>,
    source: Source,
    query: string,
    confidence: Confidence)

  /** What one search returns: its users, or the warning it failed with. */
  datatype Answer = Found(users: seq<User>) | Failed(message: string)

  datatype Call = Call(source: Source, answer: Answer)

  /** The three searches for one term. */
  function TermCalls(term: string, fetch: (string, Source) -> Answer): (r: seq<Call>)
    ensures |r| == |Sources|
    ensures forall j :: 0 <= j < |r| ==> r[j] == Call(Sources[j], fetch(term, Sources[j]))
  {
    [Call(GitHubSearch, fetch(term, GitHubSearch)),
     Call(GitLabSearch, fetch(term, GitLabSearch)),
     Call(KeybaseAutocomplete, fetch(term, KeybaseAutocomplete))]
  }

  /** Every search `run` makes, term by term. */
  function AllCalls(terms: seq<string>, fetch: (string, Source) -> Answer): (r: seq<Call>)
    ensures |r| == 3 * |terms|
    decreases |terms|
  {
    if terms == [] then []
    else AllCalls(terms[..|terms| - 1], fetch) + TermCalls(terms[|terms| - 1], fetch)
  }

  /** The users of the successful searches, in order. */
  function Collected(calls: seq<Call>): seq<User>
    decreases |calls|
  {
    if calls == [] then []
    else
      var c := calls[|calls| - 1];
      Collected(calls[..|calls| - 1]) + (if c.answer.Found? then c.answer.users else [])
  }

  /** The warnings of the failed searches, in order. */
  function Failures(calls: seq<Call>): seq<string>
    decreases |calls|
  {
    if calls == [] then []
    else
      var c := calls[|calls| - 1];
      Failures(calls[..|calls| - 1]) + (if c.answer.Failed? then [c.answer.message] else [])
  }

  /** The number of users source `s` returned, failures counting nothing. */
  function Count(calls: seq<Call>, s: Source): nat
    decreases |calls|
  {
    if calls == [] then 0
    else
      var c := calls[|calls| - 1];
      Count(calls[..|calls| - 1], s) + (if c.source == s && c.answer.Found? then |c.answer.users| else 0)
  }

  /** The number of searches that failed. */
  function FailedCalls(calls: seq<Call>): nat
    decreases |calls|
  {
    if calls == [] then 0
    else FailedCalls(calls[..|calls| - 1]) + (if calls[|calls| - 1].answer.Failed? then 1 else 0)
  }

  /** Loop state after the searches `calls`. */
  predicate Gathered(users: seq<User>, warnings: seq<string>, counts: map<Source, nat>, calls: seq<Call>) {
    && users == Collected(calls)
    && warnings == Failures(calls)
    && forall s: Source :: s in counts && counts[s] == Count(calls, s)
  }

  /** Every user of the collection is counted under its search's source: the counts
      add up to the collection, and each failure leaves exactly one warning. */
  lemma {:induction false} CountsAddUp(calls: seq<Call>)
    ensures Count(calls, GitHubSearch) + Count(calls, GitLabSearch) + Count(calls, KeybaseAutocomplete)
      == |Collected(calls)|
    ensures |Failures(calls)| == FailedCalls(calls)
    decreases |calls|
  {
    if calls != [] {
      CountsAddUp(calls[..|calls| - 1]);
    }
  }

  // ---------------------------------------------------------------------------
  // De-duplication and order
  // ---------------------------------------------------------------------------

  /** The identity `run` de-duplicates on: the source and the lower-cased handle. */
  function KeyOf(u: User): (Source, string) {
    (u.source, Lower(u.handle.GetOr("")))
  }

  function Keys(users: seq<User>): (r: seq<(Source, string)>)
    ensures |r| == |users|
  {
    seq(|users|, i requires 0 <= i < |users| => KeyOf(users[i]))
  }

  /** The de-duplicated users: the first user for every key, skipping users with no
      or an empty handle. */
  function Deduped(users: seq<User>): seq<User>
    decreases |users|
  {
    if users == [] then []
    else
      var d := Deduped(users[..|users| - 1]);
      var u := users[|users| - 1];
      if KeyOf(u).1 == [] || KeyOf(u) in Keys(d) then d else d + [u]
  }

  /** The kept users come from the input, have a handle, and have distinct keys; and
      every user with a handle has its key represented. */
  lemma {:induction false} DedupedSpec(users: seq<User>)
    ensures var d := Deduped(users);
      && NoDup(Keys(d))
      && (forall u :: u in d ==> u in users && KeyOf(u).1 != [])
      && (forall i :: 0 <= i < |users| && KeyOf(users[i]).1 != [] ==> KeyOf(users[i]) in Keys(d))
    decreases |users|
  {
    if users != [] {
      var init := users[..|users| - 1];
      var u := users[|users| - 1];
      DedupedSpec(init);
      var d := Deduped(init);
      assert Keys(d + [u]) == Keys(d) + [KeyOf(u)];
      forall i | 0 <= i < |users| && KeyOf(users[i]).1 != []
        ensures KeyOf(users[i]) in Keys(Deduped(users))
      {
        if i < |users| - 1 {
          assert users[i] == init[i];
        }
      }
    }
  }

  /** The user kept for a key is the first input user with that key. */
  lemma {:induction false} DedupedKeepsFirst(users: seq<User>, k: nat, i: nat)
    requires k < |Deduped(users)| && i < |users|
    requires KeyOf(users[i]) == KeyOf(Deduped(users)[k])
    ensures exists j :: 0 <= j <= i && users[j] == Deduped(users)[k]
    decreases |users|
  {
    var init := users[..|users| - 1];
    var d := Deduped(init);
    var u := users[|users| - 1];
    DedupedSpec(init);
    assert Keys(d + [u]) == Keys(d) + [KeyOf(u)];
    if k < |d| {
      if i < |users| - 1 {
        assert users[i] == init[i];
        DedupedKeepsFirst(init, k, i);
        var j :| 0 <= j <= i && init[j] == d[k];
        assert users[j] == init[j];
      } else {
        assert Keys(d)[k] == KeyOf(u);
        var i' := KeyIndex(init, KeyOf(u));
        DedupedKeepsFirst(init, k, i');
        var j :| 0 <= j <= i' && init[j] == d[k];
        assert users[j] == init[j];
      }
    } else {
      assert Deduped(users)[k] == u;
      if i < |users| - 1 {
        assert false;
      }
      assert users[|users| - 1] == u;
    }
  }

  /** Some input user has every key the de-duplicated list holds. */
  lemma KeyIndex(users: seq<User>, key: (Source, string)) returns (i: nat)
    requires key in Keys(Deduped(users))
    ensures i < |users| && KeyOf(users[i]) == key
  {
    DedupedSpec(users);
    var d := Deduped(users);
    var k :| 0 <= k < |d| && Keys(d)[k] == key;
    assert d[k] in users;
    i :| 0 <= i < |users| && users[i] == d[k];
  }

  /** Sort weight of a confidence. */
  function Weight(c: Confidence): nat {
    match c
    case High => 0
    case Medium => 1
    case Low => 2
  }

  /** The sort key of `run`: the confidence weight, then the handle. */
  predicate UserLe(a: User, b: User) {
    Weight(a.confidence) < Weight(b.confidence)
    || (Weight(a.confidence) == Weight(b.confidence) && LessEq(a.handle.GetOr(""), b.handle.GetOr("")))
  }

  lemma UserLeOrder()
    ensures Total(UserLe) && Transitive(UserLe)
  {
    LessEqTotal();
  }

  /** Users in the order of `run`: most confident first, then by handle. */
  function Ordered(users: seq<User>): seq<User> {
    Sort(users, UserLe)
  }

  // ---------------------------------------------------------------------------
  // Run
  // ---------------------------------------------------------------------------

  datatype UsersResult = UsersResult(
    status: string,
    users: seq<User>,
    warnings: seq<string>,
    sources: seq<Source>,
    perSourceCounts: map<Source, nat>,
    queries: seq<string>)

  /** The users `run` reports for the given searches. */
  function Reported(calls: seq<Call>, maxResults: int): seq<User> {
    Take(Ordered(Deduped(Collected(calls))), maxResults)
  }

  /** The searches of `run`, one term at a time. */
  method Search(terms: seq<string>, fetch: (string, Source) -> Answer)
    returns (users: seq<User>, warnings: seq<string>, counts: map<Source, nat>)
    ensures Gathered(users, warnings, counts, AllCalls(terms, fetch))
  {
    users, warnings := [], [];
    counts := map[GitHubSearch := 0, GitLabSearch := 0, KeybaseAutocomplete := 0];
    assert terms[..0] == [];
    forall s: Source
      ensures s in counts && counts[s] == Count([], s)
    {
      match s
      case GitHubSearch =>
      case GitLabSearch =>
      case KeybaseAutocomplete =>
    }
    var i := 0;
    while i < |terms|
      invariant 0 <= i <= |terms|
      invariant Gathered(users, warnings, counts, AllCalls(terms[..i], fetch))
    {
      users, warnings, counts := SearchTerm(terms[i], fetch, users, warnings, counts, AllCalls(terms[..i], fetch));
      assert terms[..i + 1][..i] == terms[..i];
      i := i + 1;
    }
    assert terms[..i] == terms;
  }

  /** The three searches for one term, added to what the earlier terms gave. */
  method SearchTerm(term: string, fetch: (string, Source) -> Answer,
                    users0: seq<User>, warnings0: seq<string>, counts0: map<Source, nat>, ghost done: seq<Call>)
    returns (users: seq<User>, warnings: seq<string>, counts: map<Source, nat>)
    requires Gathered(users0, warnings0, counts0, done)
    ensures Gathered(users, warnings, counts, done + TermCalls(term, fetch))
  {
    users, warnings, counts := users0, warnings0, counts0;
    ghost var cs := TermCalls(term, fetch);
    assert done + cs[..0] == done;
    var j := 0;
    while j < |Sources|
      invariant 0 <= j <= |Sources|
      invariant Gathered(users, warnings, counts, done + cs[..j])
    {
      ghost var before := done + cs[..j];
      users, warnings, counts := SearchOne(term, Sources[j], fetch, users, warnings, counts, before);
      assert before + [cs[j]] == done + cs[..j + 1];
      j := j + 1;
    }
    assert cs[..j] == cs;
  }

  /** One search: a failure adds its warning, a success its users and their count. */
  method SearchOne(term: string, source: Source, fetch: (string, Source) -> Answer,
                   users0: seq<User>, warnings0: seq<string>, counts0: map<Source, nat>, ghost done: seq<Call>)
    returns (users: seq<User>, warnings: seq<string>, counts: map<Source, nat>)
    requires Gathered(users0, warnings0, counts0, done)
    ensures Gathered(users, warnings, counts, done + [Call(source, fetch(term, source))])
  {
    users, warnings, counts := users0, warnings0, counts0;
    var answer := fetch(term, source);
    GatheredStep(users, warnings, counts, done, Call(source, answer));
    if answer.Failed? {
      warnings := warnings + [answer.message];
    } else {
      users := users + answer.users;
      counts := counts[source := counts[source] + |answer.users|];
    }
  }

  lemma GatheredStep(users: seq<User>, warnings: seq<string>, counts: map<Source, nat>, calls: seq<Call>, c: Call)
    requires Gathered(users, warnings, counts, calls)
    ensures c.answer.Failed? ==> Gathered(users, warnings + [c.answer.message], counts, calls + [c])
    ensures c.answer.Found? ==>
      Gathered(users + c.answer.users, warnings,
               counts[c.source := counts[c.source] + |c.answer.users|], calls + [c])
  {
    assert (calls + [c])[..|calls|] == calls;
  }

  /** `run`: the query terms, the searches, then the users de-duplicated, ordered
      and cut to `maxResults`. */
  method Run(domain: string, company: Option<string>, fetch: (string, Source) -> Answer, maxResults: int)
    returns (r: UsersResult)
    ensures r.queries == QueryTerms(domain, company)
    ensures r.status == "ok" && r.sources == Sources
    ensures r.users == Reported(AllCalls(r.queries, fetch), maxResults)
    ensures Gathered(Collected(AllCalls(r.queries, fetch)), r.warnings, r.perSourceCounts, AllCalls(r.queries, fetch))
  {
    var terms := QueryTerms(domain, company);
    var users, warnings, counts := Search(terms, fetch);
    var deduped := DedupeUsers(users);
    r := UsersResult("ok", Take(Ordered(deduped), maxResults), warnings, Sources, counts, terms);
  }

  /** The de-duplication loop of `run`. */
  method DedupeUsers(users: seq<User>) returns (deduped: seq<User>)
    ensures deduped == Deduped(users)
  {
    deduped := [];
    var seen: set<(Source, string)> := {};
    var k := 0;
    while k < |users|
      invariant 0 <= k <= |users|
      invariant deduped == Deduped(users[..k])
      invariant forall key :: key in seen <==> key in Keys(deduped)
    {
      var user := users[k];
      var key := KeyOf(user);
      assert users[..k + 1][..k] == users[..k];
      if key.1 != [] && key !in seen {
        assert Keys(deduped + [user]) == Keys(deduped) + [key];
        seen := seen + {key};
        deduped := deduped + [user];
      }
      k := k + 1;
    }
    assert users[..k] == users;
  }

  /** The reported users are at most `maxResults` distinct accounts with a handle,
      each returned by a search, most confident first and then by handle. */
  lemma ReportedSpec(calls: seq<Call>, maxResults: int)
    ensures var r := Reported(calls, maxResults);
      && (maxResults >= 0 ==> |r| <= maxResults)
      && SortedBy(r, UserLe)
      && (forall u :: u in r ==> u in Collected(calls) && KeyOf(u).1 != [])
      && NoDup(Keys(r))
  {
    var d := Deduped(Collected(calls));
    var o := Ordered(d);
    var r := Reported(calls, maxResults);
    DedupedSpec(Collected(calls));
    UserLeOrder();
    SortSorted(d, UserLe);
    assert r == o[..|r|];
    forall u | u in r
      ensures u in d
    {
      assert u in multiset(o);
    }
    KeysPermutation(d, o);
    forall i, j | 0 <= i < j < |r|
      ensures Keys(r)[i] != Keys(r)[j]
    {
      assert Keys(r)[i] == Keys(o)[i] && Keys(r)[j] == Keys(o)[j];
    }
  }

  /** The reported users are the leading part of all de-duplicated users in the
      order of `run`, which reorders them without losing or adding any: exactly
      `maxResults` of them when there are that many, and no user left out ranks
      ahead of a reported one. */
  lemma ReportedLeads(calls: seq<Call>, maxResults: int)
    ensures var d := Deduped(Collected(calls));
      var r := Reported(calls, maxResults);
      && r == Ordered(d)[..|r|]
      && multiset(Ordered(d)) == multiset(d)
      && (maxResults >= 0 ==> |r| == if maxResults < |d| then maxResults else |d|)
      && (forall u, v :: u in r && v in d && v !in r ==> UserLe(u, v))
  {
    var d := Deduped(Collected(calls));
    var o := Ordered(d);
    var r := Reported(calls, maxResults);
    assert |o| == |d| by {
      assert |multiset(o)| == |multiset(d)|;
    }
    UserLeOrder();
    SortSorted(d, UserLe);
    forall u, v | u in r && v in d && v !in r
      ensures UserLe(u, v)
    {
      assert v in multiset(o) by {
        assert v in multiset(d);
      }
      var k :| 0 <= k < |o| && o[k] == v;
      var i :| 0 <= i < |r| && r[i] == u;
      assert |r| <= k;
      assert o[i] == u;
    }
  }

  /** Two users tie in the order of `run` exactly when they have the same
      confidence and handle, and the sort is stable: the users tied with any `c`
      keep the order in which the searches returned them. */
  lemma OrderedStable(users: seq<User>, c: User)
    ensures forall a :: IsTied(a, c, UserLe) <==>
      a.confidence == c.confidence && a.handle.GetOr("") == c.handle.GetOr("")
    ensures Tied(Ordered(users), c, UserLe) == Tied(users, c, UserLe)
  {
    forall a
      ensures IsTied(a, c, UserLe) <==>
        a.confidence == c.confidence && a.handle.GetOr("") == c.handle.GetOr("")
    {
      LessAsymmetric(a.handle.GetOr(""), c.handle.GetOr(""));
      LessIrreflexive(a.handle.GetOr(""));
    }
    UserLeOrder();
    SortStable(users, c, UserLe);
  }

  /** Reordering a list of users with distinct keys keeps the keys distinct. */
  lemma KeysPermutation(s: seq<User>, t: seq<User>)
    requires NoDup(Keys(s)) && multiset(t) == multiset(s)
    ensures NoDup(Keys(t))
  {
    assert NoDup(s) by {
      forall p, q | 0 <= p < q < |s|
        ensures s[p] != s[q]
      {
        assert Keys(s)[p] != Keys(s)[q];
      }
    }
    forall i, j | 0 <= i < j < |t|
      ensures Keys(t)[i] != Keys(t)[j]
    {
      assert t[i] in multiset(s) && t[j] in multiset(s);
      var p :| 0 <= p < |s| && s[p] == t[i];
      var q :| 0 <= q < |s| && s[q] == t[j];
      if p == q {
        MultisetTwice(t, i, j);
        MultisetNoDup(s, t[i]);
      } else {
        assert Keys(s)[p] != Keys(s)[q];
      }
    }
  }
}
