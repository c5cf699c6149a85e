/** Normalisation of domain and host names, the validity test for subdomains, the
    de-duplicated sorted list of subdomains, and the redaction of secret headers. */
module Normalize {
  import opened Text
  import opened Seqs

  // ---------------------------------------------------------------------------
  // Names
  // ---------------------------------------------------------------------------

  /** `normalize_domain`: trimmed, lower-cased, without trailing dots. */
  function NormalizeDomain(domain: string): (r: string)
    ensures |r| <= |domain|
  {
    TrimRight(Lower(Strip(domain)), IsDot)
  }

  /** A normalised domain has no upper-case letter, no leading whitespace and no
      trailing dot (it may end in whitespace that stood before the dots). */
  lemma NormalizeDomainSpec(domain: string)
    ensures var r := NormalizeDomain(domain);
      && HasNoUpper(r)
      && (r == [] || (!IsSpace(r[0]) && r[|r| - 1] != '.'))
  {
    var s := Strip(domain);
    var l := Lower(s);
    StripSpec(domain);
    TrimRightSpec(l, IsDot);
    var r := TrimRight(l, IsDot);
    if r != [] {
      assert r[0] == l[0] == LowerChar(s[0]);
      LowerCharSpace(s[0]);
    }
  }

  /** Normalising twice is not normalising once: the trailing dot goes after the
      whitespace check, so whitespace in front of it survives the first pass. */
  lemma NormalizeDomainNotIdempotent()
    ensures NormalizeDomain("a .") == "a "
    ensures NormalizeDomain("a ") == "a"
  {
    assert Strip("a .") == "a .";
    assert TrimRight("a .", IsDot) == "a ";
    assert TrimRight("a ", IsSpace) == "a";
  }

  predicate IsStarOrDot(c: char) { c == '*' || c == '.' }

  /** `normalize_subdomain`: trimmed, lower-cased, without trailing dots, and without
      the leading run of `*` and `.` characters (a character set, not a prefix). */
  function NormalizeSubdomain(name: string): (r: string)
    ensures |r| <= |name|
  {
    TrimLeft(TrimRight(Lower(Strip(name)), IsDot), IsStarOrDot)
  }

  lemma NormalizeSubdomainSpec(name: string)
    ensures var r := NormalizeSubdomain(name);
      && HasNoUpper(r)
      && (r == [] || (r[0] != '*' && r[0] != '.' && r[|r| - 1] != '.'))
  {
    var t := TrimRight(Lower(Strip(name)), IsDot);
    TrimRightSpec(Lower(Strip(name)), IsDot);
    TrimLeftSpec(t, IsStarOrDot);
    var r := TrimLeft(t, IsStarOrDot);
    if r != [] {
      assert r[|r| - 1] == t[|t| - 1];
    }
  }

  /** A character of the class `[A-Za-z0-9.-]`. */
  predicate IsDomainChar(c: char) {
    ('A' <= c <= 'Z') || ('a' <= c <= 'z') || ('0' <= c <= '9') || c == '.' || c == '-'
  }

  /** A full match of `DOMAIN_RE`: 1 to 253 domain characters, neither first nor last
      a hyphen. */
  predicate MatchesDomainPattern(name: string) {
    && 1 <= |name| <= 253
    && (forall i :: 0 <= i < |name| ==> IsDomainChar(name[i]))
    && name[0] != '-' && name[|name| - 1] != '-'
  }

  /** `is_valid_subdomain`: a full match of the domain pattern in which no two dots
      stand side by side, so every label between two dots is non-empty. */
  function IsValidSubdomain(name: string): (r: bool)
    ensures r <==> MatchesDomainPattern(name)
                   && forall i :: 0 <= i < |name| - 1 && name[i] == '.' ==> name[i + 1] != '.'
  {
    DoubleDot(name);
    MatchesDomainPattern(name) && !Contains(name, "..")
  }

  /** `DOMAIN_RE.match(name)` as Python evaluates it: `$` also matches just in front
      of a final line break, so a matching name followed by one `\n` matches too. */
  predicate MatchesDomainRegex(name: string) {
    || MatchesDomainPattern(name)
    || (|name| >= 2 && name[|name| - 1] == '\n' && MatchesDomainPattern(name[..|name| - 1]))
  }

  /** `is_valid_subdomain` as written, with Python's reading of `$`. */
  predicate IsValidSubdomainAsWritten(name: string) {
    MatchesDomainRegex(name) && !Contains(name, "..")
  }

  /** The check as written lets a trailing line break through, and normalisation
      can leave one in front of a stripped dot: `a\n.` is kept as `a\n`. */
  lemma TrailingNewlineKept()
    ensures NormalizeSubdomain("a\n.") == "a\n"
    ensures IsValidSubdomainAsWritten("a\n") && !IsValidSubdomain("a\n")
  {
    assert Strip("a\n.") == "a\n.";
    assert Lower("a\n.") == "a\n.";
    assert TrimRight("a\n.", IsDot) == "a\n";
    assert "a\n"[..1] == "a";
  }

  /** The two checks differ only on names ending in a line break, which only the
      written one accepts. */
  lemma ValidityAgrees(name: string)
    ensures IsValidSubdomain(name) ==> IsValidSubdomainAsWritten(name)
    ensures IsValidSubdomainAsWritten(name) && !IsValidSubdomain(name) ==> name[|name| - 1] == '\n'
  {
  }

  /** `".." in s` holds exactly when two dots stand side by side. */
  lemma {:induction false} DoubleDot(s: string)
    ensures Contains(s, "..") <==> exists i :: 0 <= i < |s| - 1 && s[i] == '.' && s[i + 1] == '.'
    decreases |s|
  {
    if s != [] {
      DoubleDot(s[1..]);
      if StartsWith(s, "..") {
        assert s[0] == '.' && s[1] == '.';
      }
      if exists i :: 0 <= i < |s| - 1 && s[i] == '.' && s[i + 1] == '.' {
        var i :| 0 <= i < |s| - 1 && s[i] == '.' && s[i + 1] == '.';
        if i > 0 {
          assert s[1..][i - 1] == '.' && s[1..][i] == '.';
        } else {
          assert s[..2] == "..";
        }
      }
      if exists i :: 0 <= i < |s[1..]| - 1 && s[1..][i] == '.' && s[1..][i + 1] == '.' {
        var i :| 0 <= i < |s[1..]| - 1 && s[1..][i] == '.' && s[1..][i + 1] == '.';
        assert s[i + 1] == '.' && s[i + 2] == '.';
      }
    }
  }

  // ---------------------------------------------------------------------------
  // De-duplication
  // ---------------------------------------------------------------------------

  /** A normalised name that `dedupe_subdomains` keeps. */
  predicate Kept(value: string) {
    value != [] && IsValidSubdomain(value)
  }

  /** The list `out` of `dedupe_subdomains` before sorting: the kept normalised names
      in order of first occurrence. */
  function Cleaned(names: seq<string>): seq<string>
    decreases |names|
  {
    if names == [] then []
    else
      var c := Cleaned(names[..|names| - 1]);
      var v := NormalizeSubdomain(names[|names| - 1]);
      if !Kept(v) || v in c then c else c + [v]
  }

  /** Every kept name is made of domain characters only: no line break or other
      stray character reaches the subdomain list. */
  lemma CleanedDomainChars(names: seq<string>)
    ensures forall x, i :: x in Cleaned(names) && 0 <= i < |x| ==> IsDomainChar(x[i])
  {
    CleanedSpec(names);
  }

  /** `[normalize_subdomain(n) for n in names]` */
  function NormalizedNames(names: seq<string>): (r: seq<string>)
    ensures |r| == |names|
  {
    seq(|names|, i requires 0 <= i < |names| => NormalizeSubdomain(names[i]))
  }

  /** The kept names are distinct, and they are exactly the valid normalisations of
      the inputs. */
  lemma {:induction false} CleanedSpec(names: seq<string>)
    ensures NoDup(Cleaned(names))
    ensures forall x :: x in Cleaned(names) <==> Kept(x) && x in NormalizedNames(names)
    decreases |names|
  {
    if names != [] {
      var init := names[..|names| - 1];
      CleanedSpec(init);
      assert NormalizedNames(names) == NormalizedNames(init) + [NormalizeSubdomain(names[|names| - 1])];
    }
  }

  /** `dedupe_subdomains`: normalise each name, skip the empty and invalid ones and
      the ones already seen, then sort. */
  method DedupeSubdomains(names: seq<string>) returns (r: seq<string>)
    ensures r == SortStrings(Cleaned(names))
  {
    var seen: set<string> := {};
    var out: seq<string> := [];
    var k := 0;
    while k < |names|
      invariant 0 <= k <= |names|
      invariant out == Cleaned(names[..k])
      invariant forall x :: x in seen <==> x in out
    {
      var value := NormalizeSubdomain(names[k]);
      assert names[..k + 1][..k] == names[..k];
      if Kept(value) && value !in seen {
        seen := seen + {value};
        out := out + [value];
      }
      k := k + 1;
    }
    assert names[..k] == names;
    r := SortStrings(out);
  }

  /** The result of `dedupe_subdomains` is strictly increasing, holds only valid
      normalisations of inputs, and holds every one of them. */
  lemma DedupeSubdomainsSpec(names: seq<string>)
    ensures var r := SortStrings(Cleaned(names));
      && StrictlySorted(r)
      && (forall x :: x in r ==> Kept(x) && exists i :: 0 <= i < |names| && NormalizeSubdomain(names[i]) == x)
      && (forall i :: 0 <= i < |names| && Kept(NormalizeSubdomain(names[i])) ==> NormalizeSubdomain(names[i]) in r)
  {
    CleanedSpec(names);
    SortStringsSpec(Cleaned(names));
    var n := NormalizedNames(names);
    forall x | x in n
      ensures exists i :: 0 <= i < |names| && NormalizeSubdomain(names[i]) == x
    {
      var i :| 0 <= i < |n| && n[i] == x;
      assert NormalizeSubdomain(names[i]) == x;
    }
    forall i | 0 <= i < |names|
      ensures NormalizeSubdomain(names[i]) in n
    {
      assert n[i] == NormalizeSubdomain(names[i]);
    }
  }

  // ---------------------------------------------------------------------------
  // Headers
  // ---------------------------------------------------------------------------

  const Redacted := "[redacted]"

  /** A header whose value is a credential: `Authorization`, `Cookie` or `Set-Cookie`,
      in any case. */
  predicate IsSecretHeader(name: string) {
    var key := Lower(name);
    key == "authorization" || key == "cookie" || key == "set-cookie"
  }

  /** The value `sanitize_headers` gives a header. */
  function SanitizedValue(name: string, value: string): string {
    if IsSecretHeader(name) then Redacted else value
  }

  /** The headers with every credential's value replaced. */
  function Sanitized(headers: map<string, string>): map<string, string> {
    map k | k in headers :: SanitizedValue(k, headers[k])
  }

  /** `sanitize_headers`: the same header names, a credential's value replaced. */
  method SanitizeHeaders(headers: map<string, string>) returns (r: map<string, string>)
    ensures r.Keys == headers.Keys
    ensures forall k :: k in r ==> r[k] == SanitizedValue(k, headers[k])
    ensures r == Sanitized(headers)
  {
    r := map[];
    var todo := headers.Keys;
    while todo != {}
      invariant todo <= headers.Keys
      invariant r.Keys == headers.Keys - todo
      invariant forall k :: k in r ==> r[k] == SanitizedValue(k, headers[k])
      decreases |todo|
    {
      var k :| k in todo;
      if IsSecretHeader(k) {
        r := r[k := Redacted];
      } else {
        r := r[k := headers[k]];
      }
      todo := todo - {k};
    }
  }

  /** No credential survives, every other value is kept, and sanitising again changes
      nothing. */
  lemma SanitizedValueSpec(name: string, value: string)
    ensures IsSecretHeader(name) ==> SanitizedValue(name, value) == Redacted
    ensures !IsSecretHeader(name) ==> SanitizedValue(name, value) == value
    ensures SanitizedValue(name, SanitizedValue(name, value)) == SanitizedValue(name, value)
  {
  }
}
