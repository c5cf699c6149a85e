# OSINT posture: a verified model of its core

`osint_posture` is a command-line tool. It builds a passive and low-noise security
posture picture of one Internet domain. The picture covers the mail records (SPF,
DMARC, DKIM), likely portal hosts, public documents and third-party user accounts,
and it ends in a score and a prioritised remediation backlog.

Every request and DNS query that touches the target passes through one guard. The
guard is a per-run policy with budgets and a minute window, and an append-only ledger
records each attempt.

This project models that core in Dafny and proves what the code promises about it:

- `Network`: the network policy and ledger (`utils/network.py`). `Policy` and
  `Ledger` are classes whose methods update their counters, per-host table and entry
  list in place.
- `RateLimit`: the pacer that spaces requests evenly (`utils/rate_limit.py`), as a
  class with one mutable field.
- `Normalize`: name normalisation, the subdomain validity test, the sorted de-duplicated
  subdomain list, and header redaction (`utils/normalize.py`).
- `MailProfile`: the lenient SPF and DMARC readers, the `mailto:` list parser, the
  passive DKIM answer, and the flags and recommendations of the mail profile
  (`modules/dns_mail_profile.py`).
- `Synthesis`: the e-mail posture and exposure scores, the backlog and the evidence
  excerpts (`modules/synthesis.py`).
- `PassiveUsers`: query terms, match confidence, and the gather / de-duplicate / sort /
  cut pipeline of third-party user discovery (`modules/passive_users.py`).
- `WebSignals`: technology hints, portal candidates and the mode-gated header samples
  (`modules/web_signals.py`).
- `DocSignals`: document candidate URLs and the acceptance test for a HEAD answer
  (`modules/doc_signals.py`).
- `Markdown`: the Markdown summary report (`reporting/markdown.py`).
- `Cli`: `parse_mode_alias`. `Config` gives the closed mode and DNS-policy values.

The helper modules are `Wrappers` (Option, Result), `Text` (the Python string
operations the code uses, on `seq<char>`) and `Seqs` (filtering, first-occurrence
de-duplication, Python slicing, a stable sort).

The outside world comes in as parameters:

- the clock is a `now: real` argument, and ledger and report timestamps are strings;
- `getaddrinfo` becomes an `Option<seq<IpAddr>>`, where `None` means resolution failed;
- a URL's parsed host name becomes an `Option<string>`;
- the HTTP client and the user-search fetchers are functions from a URL (or a term and
  a source) to an optional answer;
- the DNS answers of the mail profile are a record of lists.

Every loop of the source is a method with invariants. Each method is proved equal to a
specification function, and the properties are lemmas about those functions.

## Model

| member | source | states |
|---|---|---|
| Network.Ledger.constructor | osint_posture/utils/network.py:36-38 | a new ledger has no entries |
| Network.Ledger.Add | osint_posture/utils/network.py:40-41 | appends exactly one entry, stamped with the given time; every earlier entry is untouched |
| Network.Ledger.Totals | osint_posture/utils/network.py:46-59 | the totals are those of the entries and the ledger is not changed; each type is listed once; every listed type has a positive count; the per-type counts sum to the number of entries |
| Network.Ledger.ToDict | osint_posture/utils/network.py:43-44 | the record holds the entries unchanged and their totals |
| Network.KindsSpec | osint_posture/utils/network.py:50-53 | a type is listed exactly when some entry has it, without repeats; a type with no entries has zero byte sums |
| Network.CountsSumToSize | osint_posture/utils/network.py:54-59 | the counts of the listed types add up to the number of entries |
| Network.TallyStep | osint_posture/utils/network.py:50-53 | adding one entry's type, count and bytes to the running totals of a prefix gives the totals of the longer prefix |
| Network.TotalsStep | osint_posture/utils/network.py:50-53 | one more entry raises only its own type's count and byte sums, and lists its type if new |
| Network.TotalsFacts | osint_posture/utils/network.py:46-59 | totals that match the entries list each type once, count only occurring types, and add up to the total |
| Network.SubdomainIsTarget | osint_posture/utils/network.py:97-101 | a host formed by labels in front of the domain is classified as target traffic |
| Network.LookalikeIsThirdParty | osint_posture/utils/network.py:97-101 | a host that merely ends with the domain's text, without a dot before it, is classified as third-party traffic |
| Network.Policy.FromConfig | osint_posture/utils/network.py:79-91 | the domain is lower-cased, the ceilings are copied, every counter starts at zero and the window opens at `now`; the invariant holds |
| Network.Policy.AllowTargetHttp | osint_posture/utils/network.py:93-95 | target HTTP is permitted in low-noise mode and refused exactly in passive mode |
| Network.Policy.ClassifyHttp | osint_posture/utils/network.py:97-101 | target traffic exactly when the lower-cased host equals the domain or ends with a dot plus the domain; never the DNS type |
| Network.Policy.AssertHostInScope | osint_posture/utils/network.py:138-140 | refuses exactly the hosts that are out of scope |
| Network.FirstNonPublic | osint_posture/utils/network.py:145-152 | finds the first private, loopback or link-local address; there is none exactly when all addresses are public |
| Network.Policy.AssertPublicResolution | osint_posture/utils/network.py:142-152 | fails closed: it passes exactly when resolution succeeded and every address is public, and otherwise names the failed host or the first non-public address |
| Network.Policy.EnforceHttpRequest | osint_posture/utils/network.py:103-136 | see the list under the table |
| Network.Policy.BudgetVerdict | osint_posture/utils/network.py:118-131 | admits exactly when the total, per-host and per-minute counts are below their ceilings and the host resolves only to public addresses; the total budget is checked first |
| Network.Policy.ChargeTarget | osint_posture/utils/network.py:118-136 | the budget, window, scope and resolution steps in order; an admission raises each counter by one for this host only; a refusal charges nothing but keeps a window reset it reached |
| Network.Policy.TouchHost | osint_posture/utils/network.py:120 | reading a missing per-host key stores a zero and changes no count |
| Network.Policy.RollWindow | osint_posture/utils/network.py:123-125 | a minute or more after the window opened, the window restarts at `now` with a zero count; nothing else changes |
| Network.Policy.Admit | osint_posture/utils/network.py:129-135 | after the scope and resolution checks, an admission charges the total, the host and the minute by one; a refusal changes nothing |
| Network.NormalizeQueryName | osint_posture/utils/network.py:155 | the query name has no upper-case letter and no trailing dot |
| Network.Policy.EnforceDnsQuery | osint_posture/utils/network.py:154-171 | see the list under the table |
| Network.Policy.Budgets | osint_posture/utils/network.py:173-183 | reports the configured ceilings, the DNS policy value and the HTTP permission, and reads no counter |
| Network.DefaultPolicy | tests/test_network_policy.py:11-18 | a policy for `example.com` with the default ceilings and zeroed counters |
| Network.LedgerTotalsExample | tests/test_network_policy.py:21-27 | two attempts of different types are counted once each, with two entries in total |
| Network.TwoKinds | tests/test_network_policy.py:21-27 | two entries of different types list both types, each with count one |
| Network.OffDomainHeadExample | tests/test_network_policy.py:30-33 | a low-noise HEAD to `evil.com` is refused as an off-domain HEAD |
| Network.RedirectBudgetExample | tests/test_network_policy.py:36-39 | a non-zero redirect budget refuses a target request |
| Network.LoopbackResolutionExample | tests/test_network_policy.py:42-50 | a target host that resolves to `127.0.0.1` is refused, and the address is named |
| Network.DnsPolicyExample | tests/test_network_policy.py:82-99 | under the minimal policy the apex TXT query passes and the apex A query is refused; under `none` every query is refused |
| RateLimit.ClampRate | osint_posture/utils/rate_limit.py:9 | the rate is at least one, and it is the configured rate whenever that is positive |
| RateLimit.RateLimiter.constructor | osint_posture/utils/rate_limit.py:8-12 | the rate is clamped, the interval is 60 seconds over the clamped rate, and the first slot is free at `now` |
| RateLimit.Release | osint_posture/utils/rate_limit.py:16-19 | a caller is released no earlier than it arrives and no earlier than the free slot |
| RateLimit.RateLimiter.Wait | osint_posture/utils/rate_limit.py:14-19 | the delay is the time to the free slot when the caller is early and zero otherwise; the next slot is one interval after the release and strictly later than before |
| RateLimit.NextAfterBound | osint_posture/utils/rate_limit.py:12-19 | after n calls the free slot is at least n intervals past where it started |
| RateLimit.ReleasesSpaced | osint_posture/utils/rate_limit.py:14-19 | every caller is released at or after its arrival, and successive releases are at least one interval apart |
| RateLimit.ReleasesApart | osint_posture/utils/rate_limit.py:14-19 | releases k calls apart are at least k intervals apart |
| RateLimit.RateWithinLimit | osint_posture/utils/rate_limit.py:8-19 | fewer than rate + 1 callers are released within any span shorter than a minute |
| RateLimit.SpacedWithinLimit | osint_posture/utils/rate_limit.py:10 | with times spaced 60 / m apart, fewer than m + 1 fall within any span shorter than a minute |
| RateLimit.AtLeastAMinute | osint_posture/utils/rate_limit.py:10 | m or more intervals of 60 / m seconds span at least a minute |
| Config.ModeFromValue | tests/test_modes.py:11-14 | a mode is found only for its own value (`passive`, `low-noise`) |
| Config.DnsPolicyFromValue | osint_posture/cli.py:59-63 | a DNS policy is found only for its own value |
| Cli.ParseModeAlias | osint_posture/cli.py:38-46 | the trimmed, lower-cased input `enhanced` or `active` gives low-noise with a deprecation notice; any other input gives the mode with that value and no notice, or an error when there is none |
| Cli.ModeValueRoundTrip | osint_posture/cli.py:38-46 | every word that lower-cases to a mode's value (any mix of upper and lower case), padded with blanks, gives that mode without a notice |
| Normalize.NormalizeDomain | osint_posture/utils/normalize.py:8-11 | the result is no longer than the input |
| Normalize.NormalizeDomainSpec | osint_posture/utils/normalize.py:8-11 | the result has no upper-case letter, no leading whitespace and no trailing dot |
| Normalize.NormalizeDomainNotIdempotent | osint_posture/utils/normalize.py:8-11 | normalising `a .` gives `a `, which normalises further to `a`: the whitespace check comes before the dot strip |
| Normalize.NormalizeSubdomain | osint_posture/utils/normalize.py:22-25 | the result is no longer than the input |
| Normalize.NormalizeSubdomainSpec | osint_posture/utils/normalize.py:22-25 | the result has no upper-case letter, does not start with `*` or `.`, and does not end with `.` |
| Normalize.DoubleDot | osint_posture/utils/normalize.py:17 | `..` occurs in a string exactly when two dots stand side by side |
| Normalize.IsValidSubdomain | osint_posture/utils/normalize.py:14-19 | a name is valid exactly when it fully matches the domain pattern and no two of its dots are adjacent |
| Normalize.TrailingNewlineKept | osint_posture/utils/normalize.py:5 | the written check accepts `a\n`, which the input `a\n.` normalises to; the intended check rejects it |
| Normalize.ValidityAgrees | osint_posture/utils/normalize.py:5-19 | the written check accepts everything the intended check accepts, and it differs only on names that end in a line break |
| Normalize.CleanedSpec | osint_posture/utils/normalize.py:28-37 | the kept names are distinct, and a name is kept exactly when it is a non-empty, valid normalisation of some input |
| Normalize.CleanedDomainChars | osint_posture/utils/normalize.py:28-37 | every kept name consists of domain characters only |
| Normalize.DedupeSubdomains | osint_posture/utils/normalize.py:28-38 | the result is the sorted list of kept names |
| Normalize.DedupeSubdomainsSpec | osint_posture/utils/normalize.py:28-38 | the result is strictly increasing; every element is a kept normalisation of some input; every input with a kept normalisation is present |
| Normalize.SanitizeHeaders | osint_posture/utils/normalize.py:41-49 | the same header names; a credential header's value is redacted and every other value kept |
| Normalize.SanitizedValueSpec | osint_posture/utils/normalize.py:44-48 | a credential is always redacted, any other value is unchanged, and sanitising twice equals sanitising once |
| MailProfile.FindFromSpec | osint_posture/modules/dns_mail_profile.py:11-12 | the marker search finds the leftmost case-insensitive match at or after the start, or reports none when none exists |
| MailProfile.MatchNonEmpty | osint_posture/modules/dns_mail_profile.py:11-12 | a record that matches a marker is never empty |
| MailProfile.ParseSpf | osint_posture/modules/dns_mail_profile.py:15-57 | the reading of the records as the specification function gives it |
| MailProfile.ScanTerms | osint_posture/modules/dns_mail_profile.py:32-48 | the term loop equals the specified scan of the terms |
| MailProfile.ApplyTerm | osint_posture/modules/dns_mail_profile.py:33-48 | one term's effect equals the specified step |
| MailProfile.SpfTermEffect | osint_posture/modules/dns_mail_profile.py:33-48 | a `redirect=` or `exp=` term sets only its own field; a term ending in `all` sets `all` and adds its softfail or allow-all warning; any other term is appended to the mechanisms; `include:` terms are counted |
| MailProfile.ScanSpfMechanisms | osint_posture/modules/dns_mail_profile.py:47-48 | the mechanisms are exactly the terms that are neither modifiers nor `all` terms, in order |
| MailProfile.ScanSpfIncludes | osint_posture/modules/dns_mail_profile.py:39-40 | the include count is the number of `include:` terms |
| MailProfile.ScanSpfAll | osint_posture/modules/dns_mail_profile.py:41-42 | `all` is the last `all` term, or stays as it was when there is none |
| MailProfile.ScanSpfRedirect | osint_posture/modules/dns_mail_profile.py:33-35 | `redirect` is the value of the last `redirect=` term, or stays as it was when there is none |
| MailProfile.ScanSpfExp | osint_posture/modules/dns_mail_profile.py:36-38 | `exp` is the value of the last `exp=` term not already read as `redirect=`, or stays as it was when there is none |
| MailProfile.ScanSpfWarnings | osint_posture/modules/dns_mail_profile.py:43-46 | the softfail and allow-all warnings are raised exactly by their terms |
| MailProfile.FinishSpfEffect | osint_posture/modules/dns_mail_profile.py:49-53 | the whole-record checks add the many-includes warning iff there are more than ten includes and the broad-range warning iff the record holds `ip4:0.0.0.0/0` or `ip6::/0` |
| MailProfile.ReadSpfSpec | osint_posture/modules/dns_mail_profile.py:30-53 | a matching record's reading keeps the record, its mechanisms and include count follow its terms, and each whole-record warning appears exactly for its condition |
| MailProfile.SpfOfRecord | osint_posture/modules/dns_mail_profile.py:26-56 | only the first matching record is read; with none, the result is empty except for the missing-record warning, and that warning appears exactly then |
| MailProfile.ParseMailto | osint_posture/modules/dns_mail_profile.py:60-66 | the loop equals the specified list of `mailto:` items |
| MailProfile.MailtoItemsMembers | osint_posture/modules/dns_mail_profile.py:60-66 | exactly the trimmed items that start with `mailto:` in any case are kept |
| MailProfile.MailtoItemsInOrder | osint_posture/modules/dns_mail_profile.py:60-66 | the kept items are the input's `mailto:` items, trimmed, as a subsequence in their input order |
| MailProfile.MailtoItemsKeepAll | osint_posture/modules/dns_mail_profile.py:60-66 | items that are already trimmed `mailto:` URIs are all kept, in order |
| MailProfile.MailtoJoinRoundTrip | osint_posture/modules/dns_mail_profile.py:60-66 | a comma-joined list of trimmed `mailto:` URIs without commas reads back as the same list |
| MailProfile.ParseDmarc | osint_posture/modules/dns_mail_profile.py:69-127 | the reading of the records as the specification function gives it |
| MailProfile.ScanTags | osint_posture/modules/dns_mail_profile.py:89-106 | the tag loop equals the specified scan of the tags |
| MailProfile.ApplyTag | osint_posture/modules/dns_mail_profile.py:89-106 | one tag's effect equals the specified step |
| MailProfile.CheckTags | osint_posture/modules/dns_mail_profile.py:107-123 | the validity checks and warnings equal the specified finish |
| MailProfile.CheckValues | osint_posture/modules/dns_mail_profile.py:107-117 | the invalid-tag list is empty exactly when no present policy is unknown and no present pct fails to be an integer in 0..100; a record without a `p=` or `pct=` tag gets no invalid tag for it |
| MailProfile.TagWarnings | osint_posture/modules/dns_mail_profile.py:118-123 | the warnings equal the specified list |
| MailProfile.LastTagValueNone | osint_posture/modules/dns_mail_profile.py:89-106 | a key has no value exactly when no tag names it |
| MailProfile.LastTagValueLast | osint_posture/modules/dns_mail_profile.py:89-106 | a key's value is that of the last tag naming it |
| MailProfile.DmarcTagEffect | osint_posture/modules/dns_mail_profile.py:89-106 | one tag sets only its own key's field, and `rua`/`ruf` also parse their addresses |
| MailProfile.ScanDmarcSpec | osint_posture/modules/dns_mail_profile.py:89-106 | after the scan, each field holds the value of the last tag for its key, or its previous value when no tag names it |
| MailProfile.ScanDmarcPolicy | osint_posture/modules/dns_mail_profile.py:93-96 | `p` and `pct` hold their last tags' values |
| MailProfile.ScanDmarcReports | osint_posture/modules/dns_mail_profile.py:97-102 | `rua` and `ruf` hold their last tags' values, and the parsed addresses are those values' `mailto:` items |
| MailProfile.ScanDmarcAlignment | osint_posture/modules/dns_mail_profile.py:103-106 | `adkim` and `aspf` hold their last tags' values |
| MailProfile.ReadDmarcFields | osint_posture/modules/dns_mail_profile.py:80-106 | a matching record's reading keeps the record, and every field is its last tag's value |
| MailProfile.InvalidTagsSpec | osint_posture/modules/dns_mail_profile.py:107-117 | `p` is invalid exactly for an unknown policy, and `pct` exactly when it is not an integer in 0..100 |
| MailProfile.TagWarningsSpec | osint_posture/modules/dns_mail_profile.py:118-123 | the policy-none, partial-pct and missing-rua warnings are each raised exactly for their condition |
| MailProfile.ReadDmarcVerdicts | osint_posture/modules/dns_mail_profile.py:107-123 | the record is valid exactly when neither tag is invalid, and each warning appears exactly for its condition |
| MailProfile.DmarcOfRecord | osint_posture/modules/dns_mail_profile.py:79-126 | only the first matching record is read; with none, the result is empty except for the missing-record warning, and that warning appears exactly then |
| MailProfile.PassiveDkim | osint_posture/modules/dns_mail_profile.py:130-138 | without enhanced mode the DKIM status is unknown, no selector is checked or found, and the mode is passive |
| MailProfile.Run | osint_posture/modules/dns_mail_profile.py:154-191 | the profile holds the records, the SPF and DMARC readings, the DKIM answer, the risk flags and the recommendations |
| MailProfile.RiskFlags | osint_posture/modules/dns_mail_profile.py:167-173 | the risk flags are the SPF warnings followed by the DMARC warnings |
| MailProfile.Recommend | osint_posture/modules/dns_mail_profile.py:175-182 | the recommendations equal the specified list |
| MailProfile.RecommendationsSpec | osint_posture/modules/dns_mail_profile.py:175-182 | each recommendation is made exactly when its condition holds, and at most once |
| MailProfile.ProfileConsistent | osint_posture/modules/dns_mail_profile.py:163-182 | an SPF or DMARC record is recommended exactly when its missing-record flag is raised; in passive mode DKIM is never recommended |
| MailProfile.SpfWarningsOwn | osint_posture/modules/dns_mail_profile.py:15-57 | the SPF reader never raises the missing-DMARC warning |
| MailProfile.DmarcWarningsOwn | osint_posture/modules/dns_mail_profile.py:69-127 | the DMARC reader never raises the missing-SPF warning |
| Synthesis.ScoreEmailPosture | osint_posture/modules/synthesis.py:6-21 | the notes are the applicable deductions in order; the score is 100 minus their points and lies in 15..100, so the floor at zero never applies |
| Synthesis.TotalPointsConcat | osint_posture/modules/synthesis.py:6-21 | the points of two lists of notes add up |
| Synthesis.EmailDeductionsSpec | osint_posture/modules/synthesis.py:9-20 | at most four distinct notes, each present exactly for its condition |
| Synthesis.EmailNotesPoints | osint_posture/modules/synthesis.py:9-21 | the notes account for the whole deduction |
| Synthesis.NoDmarcChargedTwice | osint_posture/modules/synthesis.py:12-17 | a missing DMARC record with no policy costs both the record and the policy deduction |
| Synthesis.ScoreExposure | osint_posture/modules/synthesis.py:24-30 | the score is `100 - min(30, 5n)`, with one note exactly when there are services |
| Synthesis.ExposureScoreSpec | osint_posture/modules/synthesis.py:24-30 | the score lies in 70..100, is 100 exactly without services, never rises with more services, and is 70 from six services on |
| Synthesis.BuildBacklog | osint_posture/modules/synthesis.py:33-71 | the loop equals the specified task list |
| Synthesis.BacklogSpec | osint_posture/modules/synthesis.py:33-71 | at most four distinct tasks; SPF iff no SPF record, DMARC iff no DMARC record, enforce iff the policy is exactly `none`, DKIM iff checked and nothing found |
| Synthesis.BacklogFollowsRecommendations | osint_posture/modules/synthesis.py:33-71 | the backlog built from a mail profile answers its recommendations one for one, in order |
| Synthesis.Excerpt | osint_posture/modules/synthesis.py:111-116 | an excerpt has at most 300 characters |
| Synthesis.ExcerptSpec | osint_posture/modules/synthesis.py:111-116 | an excerpt is a prefix of the record, the whole record when it is short, and empty when there is none |
| Synthesis.Run | osint_posture/modules/synthesis.py:74-127 | the summary holds both scores and their notes, with the exposed-services note exactly when some service is listed; the backlog is the specified one, and the evidence holds the excerpts and the checked selectors |
| Synthesis.MissingProfile | osint_posture/modules/synthesis.py:75-80 | without a mail profile, the notes are no SPF, no DMARC and policy none (75 points), and the backlog asks for SPF and DMARC |
| PassiveUsers.BaseCompanyTerms | osint_posture/modules/passive_users.py:8-15 | no terms without a company name; otherwise exactly the non-empty ones of its three spellings (trimmed, lower-cased without spaces, lower-cased with dashes), at most three |
| PassiveUsers.StrippedTermsSpec | osint_posture/modules/passive_users.py:23 | every kept term is non-empty and trimmed, and every non-blank term's trimmed form is kept |
| PassiveUsers.QueryTerms | osint_posture/modules/passive_users.py:18-23 | the query terms are distinct, and none is empty or padded with whitespace |
| PassiveUsers.QueryTermsSpec | osint_posture/modules/passive_users.py:18-23 | the query terms are exactly the trimmed forms of the non-blank candidates (domain, first label, company spellings), each kept once, in the order of its first occurrence |
| PassiveUsers.QueryTermsFirst | osint_posture/modules/passive_users.py:19-21 | for a non-blank domain, the first query term is the trimmed, lower-cased domain |
| PassiveUsers.QueryTermsSecond | osint_posture/modules/passive_users.py:19-23 | when the domain's first label is not blank and differs, trimmed, from the domain, it is the second query term |
| PassiveUsers.QueryDomainClean | osint_posture/modules/passive_users.py:19 | the trimmed, lower-cased domain has no padding left to trim |
| PassiveUsers.RootLabelPrefix | osint_posture/modules/passive_users.py:20 | the first label is a prefix of the name |
| PassiveUsers.ConfidenceOf | osint_posture/modules/passive_users.py:26-34 | high exactly when the lower-cased handle equals the query or the domain; low exactly when neither the query nor the domain's first label occurs in it; so an exact match is never low, and medium is everything else |
| PassiveUsers.ExactMatchContains | osint_posture/modules/passive_users.py:30-32 | a handle equal to the query or the domain contains the query or the domain's first label, so the high grade lies inside the medium test |
| PassiveUsers.CountsAddUp | osint_posture/modules/passive_users.py:121-132 | the three per-source counts add up to the number of users gathered, and there is one warning per failed call |
| PassiveUsers.Search | osint_posture/modules/passive_users.py:121-132 | the users, warnings and counts are those the calls for all terms and sources give, in order |
| PassiveUsers.SearchOne | osint_posture/modules/passive_users.py:127-132 | after one more source's answer, the users, warnings and per-source counts are still the ones the answers so far give: a failure adds only its warning, a success its users and their number to its source's count |
| PassiveUsers.SearchTerm | osint_posture/modules/passive_users.py:122-132 | one term's three calls extend the users, warnings and counts accordingly |
| PassiveUsers.GatheredStep | osint_posture/modules/passive_users.py:127-132 | a failed call adds one warning and nothing else; a successful one adds its users and raises only its source's count |
| PassiveUsers.DedupeUsers | osint_posture/modules/passive_users.py:134-143 | the loop with its seen set equals the specified de-duplication |
| PassiveUsers.DedupedSpec | osint_posture/modules/passive_users.py:134-143 | the kept users come from the input, have non-empty handles and distinct (source, lower-cased handle) keys, and every non-empty key is represented |
| PassiveUsers.DedupedKeepsFirst | osint_posture/modules/passive_users.py:140-143 | the kept user for a key is the earliest user with that key |
| PassiveUsers.UserLeOrder | osint_posture/modules/passive_users.py:145-146 | the order by confidence weight, then handle, is total and transitive |
| PassiveUsers.KeysPermutation | osint_posture/modules/passive_users.py:146 | reordering users with distinct keys keeps the keys distinct |
| PassiveUsers.ReportedSpec | osint_posture/modules/passive_users.py:134-150 | at most `max_results` users when that is non-negative; ordered by weight then handle; each a gathered user with a non-empty handle; keys distinct |
| PassiveUsers.ReportedLeads | osint_posture/modules/passive_users.py:145-150 | the reported users are the first of the sorted de-duplicated users, the sort neither loses nor adds a user, exactly `min(max_results, number of users)` are reported for a non-negative `max_results`, and no user left out ranks ahead of a reported one |
| PassiveUsers.OrderedStable | osint_posture/modules/passive_users.py:145-146 | two users tie in the sort exactly when they have the same confidence and handle, and tied users keep the order in which the searches returned them |
| PassiveUsers.Run | osint_posture/modules/passive_users.py:115-158 | the queries are the query terms, the status is `ok`, the sources are the three in order, the users are the reported ones, and the warnings and counts are those the calls give |
| WebSignals.InferTechHints | osint_posture/modules/web_signals.py:12-19 | the loop equals the specified hint list |
| WebSignals.RawHintsSpec | osint_posture/modules/web_signals.py:14-18 | the loop's list holds a hint exactly when some name passes that hint's test |
| WebSignals.TechHintsSpec | osint_posture/modules/web_signals.py:12-19 | the hints are distinct and sorted (mail before single sign-on); the mail hint is given iff some name contains `mail`, and the sign-on hint iff some name starts with `login.` or `sso.` |
| WebSignals.PortalHostsDistinct | osint_posture/modules/web_signals.py:23 | the six common portal hosts are distinct |
| WebSignals.PortalCandidates | osint_posture/modules/web_signals.py:23-25 | the candidates are distinct and the first six are the common portal hosts in their fixed order |
| WebSignals.PortalCandidatesSpec | osint_posture/modules/web_signals.py:23-25 | the candidates start with the `www` host and are exactly the six portal hosts and the subdomains with at most three dots, in the order of each one's first appearance |
| WebSignals.ProbeHeaders | osint_posture/modules/web_signals.py:31-44 | the probing loop equals the specified sample list |
| WebSignals.SamplesSpec | osint_posture/modules/web_signals.py:31-44 | no sample carries a credential value, and every sample is the answer of a probed host |
| WebSignals.Run | osint_posture/modules/web_signals.py:22-50 | the candidates are cut to `max_pages`, the hints are the specified ones, and samples are taken, from the cut list, only when the mode is `enhanced` |
| WebSignals.ModesNeverProbe | osint_posture/modules/web_signals.py:30 | no value of the closed mode set is `enhanced` |
| DocSignals.BuildCandidates | osint_posture/modules/doc_signals.py:12-17 | every host of the set `{www.domain} ∪ subdomains` is visited exactly once, in some order, each followed by its four paths, so there are four candidates per distinct host |
| DocSignals.UrlsForSpec | osint_posture/modules/doc_signals.py:14-16 | the URL for host k and path j stands at position 4k + j |
| DocSignals.WwwAlwaysCandidate | osint_posture/modules/doc_signals.py:14 | the `www` host's privacy page is always a candidate |
| DocSignals.Examine | osint_posture/modules/doc_signals.py:25-41 | a document is recorded exactly for an answered probe whose size is allowed and whose URL has a document extension or whose type mentions `pdf`; it keeps the URL and content type, and its type is never empty |
| DocSignals.DocumentsSpec | osint_posture/modules/doc_signals.py:23-43 | every document comes from a candidate that the acceptance test accepts, and every accepted candidate gives its document |
| DocSignals.Run | osint_posture/modules/doc_signals.py:20-45 | every host is visited once (no repeats, exactly the host set); the documents are those of the first `max_pages` candidates, so there are at most `max_pages` of them |
| Markdown.BuildSummary | osint_posture/reporting/markdown.py:6-29 | the text is the report's lines joined with line breaks |
| Markdown.AppendNotes | osint_posture/reporting/markdown.py:17-20 | appends one `- note` line per note, in order |
| Markdown.AppendItems | osint_posture/reporting/markdown.py:26-27 | appends one `- priority \| title: remediation` line per backlog item, in order |
| Markdown.SummaryLayout | osint_posture/reporting/markdown.py:10-27 | the report has 11 + e + x + max(1, b) lines; the e-mail notes start at line 9, followed by the exposure notes; the backlog items follow their heading |
| Markdown.FindingLinesLayout | osint_posture/reporting/markdown.py:16-21 | the findings section lists the e-mail notes, then the exposure notes |
| Markdown.BacklogLinesLayout | osint_posture/reporting/markdown.py:23-27 | the backlog section lists one line per item after its heading |
| Markdown.SummaryLinesOneLine | osint_posture/reporting/markdown.py:10-27 | when no copied text holds a line break, no line of the report does |
| Markdown.SummaryRoundTrip | osint_posture/reporting/markdown.py:29 | splitting the report at its line breaks gives its lines back when no copied text holds a line break |

`Network.Policy.EnforceHttpRequest` states the following. `Valid()` means that no
counter is past its ceiling and no host has more requests than the total.

- A third-party request changes nothing. It is refused only when it is a HEAD, in any
  case, in low-noise mode.
- A target request is refused, with nothing changed, in passive mode, with a non-zero
  redirect budget, and for any method other than HEAD or GET.
- It is admitted exactly when it passed those gates, both budgets and the window, and
  resolved only to public addresses.
- Admission charges the total, the host and the minute by exactly one, and no other
  host.
- A refusal charges nothing, though a window reset it reached stays.
- `Valid()` is kept.

`Network.Policy.EnforceDnsQuery` states the following.

- A query passes exactly when the policy is not `none`, the budget is not spent, and,
  under `minimal`, the normalised (name, type) pair is one of the apex TXT, the
  `_dmarc` TXT and the apex MX.
- Each refusal carries its reason.
- Only an admission raises the DNS count, by one, and no HTTP counter moves.

## Left out

- Network I/O and the clock are parameters:
  - HTTP (`httpx`), DNS resolution (`dns.resolver`, `socket.getaddrinfo`), `urlparse`,
    and the `ipaddress` classification (three flags on each address);
  - `time.monotonic` and `datetime.now`/`utcnow`.
- The `asyncio.Lock` and the sleep of the rate limiter are not modelled. `Wait`
  returns the delay instead of sleeping, and the async awaiting of every module is
  sequential here.
- Times and the rate limiter's interval are exact `real`s, so float rounding is not
  modelled.
- `check_dkim` in enhanced mode (`osint_posture/modules/dns_mail_profile.py:139-151`)
  does DNS lookups. Only the passive answer is modelled. `MailProfile.Run` takes the
  DKIM answer as an input.
- The user-search fetchers of `osint_posture/modules/passive_users.py:37-112` are HTTP
  and JSON decoding. Their results are the `fetch` parameter, which gives users or an
  error message per term and source.
- The Keybase fetcher's skipping of empty handles happens inside the fetchers. It is
  therefore part of the `fetch` input.
- `PassiveUsers.Run`: the fixed `note` text of the attribution record is not part of
  the result record.
- `SPF_RE` and `DMARC_RE` are modelled as a case-insensitive (ASCII) search for the
  version marker. The captured group is the rest of the line after the whitespace. No
  other regular-expression behaviour is modelled.
- `DOMAIN_RE` is used as a full-string predicate. The `$`-before-final-line-break
  behaviour of Python is modelled separately, as a finding.
- Case mapping (`lower`, `upper`) is ASCII only. Whitespace is the full set of
  characters for which Python's `str.isspace` holds, including the Unicode spaces.
- Python `int()` of pct and content-length is modelled as optional blanks, an optional
  sign and decimal digits. Underscores and non-ASCII digits are not modelled.
- Header maps are Dafny `map`s, so the order of a dict's keys is not modelled. Header
  names are matched as given: `httpx`'s case-insensitive header lookup is not modelled,
  and the names are assumed lower-case.
- The per-type totals of the ledger keep the order of first occurrence as a separate
  list, `kinds`.
- Python's set iteration order is unspecified. `DocSignals.BuildCandidates` returns the
  order it chose as a ghost output, and the rest of the model is stated for any such
  order.
- `sorted()` is modelled as an insertion sort over a total preorder. Its stability,
  and so its agreement with Python's stable sort, is stated by
  `PassiveUsers.OrderedStable`.
- The warning, note and recommendation messages are constructors rendered by text
  functions. No lemma is stated about the message texts.
- The `scoring_rubric` of `synthesis.run` is a constant and is not modelled. The
  third-party evidence is passed through unchanged and is not modelled either.
- Synthesis reads the mail profile through `MailView`, with `None` for a missing
  dictionary key. The service list is generic.
- `osint_posture/models/config.py` still declares the modes `passive`/`active` and no
  DNS policy. The model follows the values the other code uses: `passive`/`low-noise`
  and `none`/`minimal`/`full`.
- The web-signals runner compares the mode with `enhanced`, a value no mode has any
  more. `WebSignals.ModesNeverProbe` states that no mode has it.
- `Markdown.BuildSummary`: a score key present with the value `None` would print
  `None`. The model has only a present integer score or a missing one (`n/a`), which
  is what synthesis produces.
- The Typer commands, JSON logging, cache, runner, HTML and CSV reports, third-party
  intel and passive subdomain fetcher are not part of this model.
- `osint_posture/utils/http.py` and `osint_posture/utils/dns.py` are not part of this
  model either.

## Findings

| source | as written | input that shows it | evidently intended | confidence | as-written member | corrected member |
|---|---|---|---|---|---|---|
| osint_posture/utils/normalize.py:5 | `DOMAIN_RE.match` ends in `$`, which Python also lets match just before a final line break. `normalize_subdomain` strips whitespace before it strips trailing dots, so it can leave such a line break. | `dedupe_subdomains(["a\n."])` keeps `"a\n"` | only names made of `[A-Za-z0-9.-]` are valid (a full match, e.g. `\Z` or `fullmatch`) | high for the regular-expression semantics; not executed | Normalize.TrailingNewlineKept | Normalize.CleanedDomainChars |
