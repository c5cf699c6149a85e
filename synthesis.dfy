/** The synthesis step: the e-mail posture and exposure scores with their notes, the
    prioritised remediation backlog, and the evidence excerpts, drawn from the mail
    profile and the third-party services. */
module Synthesis {
  import opened Wrappers
  import opened Seqs
  import MailProfile

  /** What synthesis reads of the mail profile. Every field is `.get` on a dictionary
      that may be missing, so every field may be absent. */
  datatype MailView = MailView(
    spfRaw: Option<string>,
    dmarcRaw: Option<string>,
    dmarcPolicy: Option<string>,
    dkimStatus: Option<string>,
    dkimFound: nat,
    dkimSelectorsChecked: seq<string>)

  /** The view of a run without a mail profile: every lookup falls back. */
  const NoMailProfile := MailView(None, None, None, None, 0, [])

  function ViewOf(spf: MailProfile.Spf, dmarc: MailProfile.Dmarc, dkim: MailProfile.Dkim): MailView {
    MailView(spf.raw, dmarc.raw, dmarc.tags.policy, Some(dkim.status), |dkim.found|, dkim.selectorsChecked)
  }

  predicate PolicyNoneOrAbsent(v: MailView) { v.dmarcPolicy == Some("none") || v.dmarcPolicy.None? }
  predicate DkimNotFound(v: MailView) { v.dkimStatus == Some("checked") && v.dkimFound == 0 }

  // ---------------------------------------------------------------------------
  // Scores
  // ---------------------------------------------------------------------------

  /** The score notes, one per deduction. */
  datatype Note = NoSpfNote | NoDmarcNote | PolicyNoneNote | NoDkimNote | ExposedNote

  function NoteText(n: Note): string {
    match n
    case NoSpfNote => "No SPF record"
    case NoDmarcNote => "No DMARC record"
    case PolicyNoneNote => "DMARC policy is none"
    case NoDkimNote => "No DKIM selectors found in safe list"
    case ExposedNote => "Third-party intel shows exposed services"
  }

  /** The points each e-mail deduction costs. */
  function Points(n: Note): nat {
    match n
    case NoSpfNote => 25
    case NoDmarcNote => 35
    case PolicyNoneNote => 15
    case NoDkimNote => 10
    case ExposedNote => 0
  }

  function TotalPoints(notes: seq<Note>): nat
    decreases |notes|
  {
    if notes == [] then 0 else TotalPoints(notes[..|notes| - 1]) + Points(notes[|notes| - 1])
  }

  /** The e-mail deductions that apply, in the order they are checked. */
  function EmailDeductions(v: MailView): seq<Note> {
    (if v.spfRaw.None? then [NoSpfNote] else [])
    + (if v.dmarcRaw.None? then [NoDmarcNote] else [])
    + (if PolicyNoneOrAbsent(v) then [PolicyNoneNote] else [])
    + (if DkimNotFound(v) then [NoDkimNote] else [])
  }

  /** The points the applicable e-mail deductions cost together. */
  function EmailPoints(v: MailView): nat {
    (if v.spfRaw.None? then 25 else 0)
    + (if v.dmarcRaw.None? then 35 else 0)
    + (if PolicyNoneOrAbsent(v) then 15 else 0)
    + (if DkimNotFound(v) then 10 else 0)
  }

  /** `score_email_posture`: the deductions total at most 85 points, so the floor at
      zero never applies. */
  method ScoreEmailPosture(v: MailView) returns (score: int, notes: seq<Note>)
    ensures notes == EmailDeductions(v)
    ensures score == 100 - EmailPoints(v)
    ensures 15 <= score <= 100
  {
    score := 100;
    notes := [];
    if v.spfRaw.None? {
      score := score - 25;
      notes := notes + [NoSpfNote];
    }
    if v.dmarcRaw.None? {
      score := score - 35;
      notes := notes + [NoDmarcNote];
    }
    if v.dmarcPolicy == Some("none") || v.dmarcPolicy.None? {
      score := score - 15;
      notes := notes + [PolicyNoneNote];
    }
    if v.dkimStatus == Some("checked") && v.dkimFound == 0 {
      score := score - 10;
      notes := notes + [NoDkimNote];
    }
    score := if score < 0 then 0 else score;
  }

  lemma {:induction false} TotalPointsConcat(a: seq<Note>, b: seq<Note>)
    ensures TotalPoints(a + b) == TotalPoints(a) + TotalPoints(b)
    decreases |b|
  {
    if b != [] {
      assert (a + b)[..|a + b| - 1] == a + b[..|b| - 1];
      TotalPointsConcat(a, b[..|b| - 1]);
    } else {
      assert a + b == a;
    }
  }

  /** Each note stands for exactly one condition. */
  lemma EmailDeductionsSpec(v: MailView)
    ensures var ds := EmailDeductions(v);
      && |ds| <= 4 && NoDup(ds)
      && (NoSpfNote in ds <==> v.spfRaw.None?)
      && (NoDmarcNote in ds <==> v.dmarcRaw.None?)
      && (PolicyNoneNote in ds <==> PolicyNoneOrAbsent(v))
      && (NoDkimNote in ds <==> DkimNotFound(v))
      && ExposedNote !in ds
  {
  }

  /** Each note carries its deduction: the notes account for the whole score. */
  lemma EmailNotesPoints(v: MailView)
    ensures TotalPoints(EmailDeductions(v)) == EmailPoints(v)
  {
    var a := if v.spfRaw.None? then [NoSpfNote] else [];
    var b := if v.dmarcRaw.None? then [NoDmarcNote] else [];
    var c := if PolicyNoneOrAbsent(v) then [PolicyNoneNote] else [];
    var d := if DkimNotFound(v) then [NoDkimNote] else [];
    assert EmailDeductions(v) == a + b + c + d;
    TotalPointsConcat(a, b);
    TotalPointsConcat(a + b, c);
    TotalPointsConcat(a + b + c, d);
  }

  /** A profile missing its DMARC record is charged for the record and for the policy. */
  lemma NoDmarcChargedTwice(v: MailView)
    requires v.dmarcRaw.None? && v.dmarcPolicy.None?
    ensures NoDmarcNote in EmailDeductions(v) && PolicyNoneNote in EmailDeductions(v)
    ensures EmailPoints(v) >= 50
  {
    EmailDeductionsSpec(v);
  }

  /** `100 - min(30, 5 * n)` for `n` services, 100 for none. */
  function ExposureScore(n: nat): int {
    if n == 0 then 100 else 100 - (if 5 * n < 30 then 5 * n else 30)
  }

  /** `score_exposure`: five points off per exposed service, at most thirty. */
  method ScoreExposure<S>(services: seq<S>) returns (score: int, notes: seq<Note>)
    ensures score == ExposureScore(|services|)
    ensures notes == (if services == [] then [] else [ExposedNote])
  {
    score := 100;
    notes := [];
    if services != [] {
      score := score - (if 30 < 5 * |services| then 30 else 5 * |services|);
      notes := notes + [ExposedNote];
    }
    score := if score < 0 then 0 else score;
  }

  /** The exposure score is 100 exactly without services, never below 70, and never
      rises as services are added. */
  lemma ExposureScoreSpec(n: nat, m: nat)
    ensures 70 <= ExposureScore(n) <= 100
    ensures ExposureScore(n) == 100 <==> n == 0
    ensures n <= m ==> ExposureScore(m) <= ExposureScore(n)
    ensures n >= 6 ==> ExposureScore(n) == 70
  {
  }

  // ---------------------------------------------------------------------------
  // Backlog
  // ---------------------------------------------------------------------------

  /** The backlog items, in their fixed order. */
  datatype Task = PublishSpf | PublishDmarc | EnforceDmarc | EnableDkim

  datatype BacklogItem = BacklogItem(title: string, priority: string, evidence: string, remediation: string)

  function ItemOf(t: Task): BacklogItem {
    match t
    case PublishSpf =>
      BacklogItem("Publish SPF record", "High", "No SPF TXT record found", "Create SPF record with authorized senders and -all")
    case PublishDmarc =>
      BacklogItem("Publish DMARC record", "High", "No DMARC record found", "Create DMARC with quarantine or reject")
    case EnforceDmarc =>
      BacklogItem("Enforce DMARC", "Medium", "DMARC policy set to none", "Move to quarantine/reject once reports are stable")
    case EnableDkim =>
      BacklogItem("Enable DKIM signing", "Medium", "No DKIM selectors detected in safe list", "Enable DKIM on outbound mail system")
  }

  /** The entries `build_backlog` lists. Only a policy of exactly "none" asks for
      enforcement; an absent policy does not. */
  function Backlog(v: MailView): seq<Task> {
    (if v.spfRaw.None? then [PublishSpf] else [])
    + (if v.dmarcRaw.None? then [PublishDmarc] else [])
    + (if v.dmarcPolicy == Some("none") then [EnforceDmarc] else [])
    + (if DkimNotFound(v) then [EnableDkim] else [])
  }

  /** `build_backlog` */
  method BuildBacklog(v: MailView) returns (backlog: seq<Task>)
    ensures backlog == Backlog(v)
  {
    backlog := [];
    if v.spfRaw.None? {
      backlog := backlog + [PublishSpf];
    }
    if v.dmarcRaw.None? {
      backlog := backlog + [PublishDmarc];
    }
    if v.dmarcPolicy == Some("none") {
      backlog := backlog + [EnforceDmarc];
    }
    if v.dkimStatus == Some("checked") && v.dkimFound == 0 {
      backlog := backlog + [EnableDkim];
    }
  }

  /** At most four tasks, each for exactly its condition. */
  lemma BacklogSpec(v: MailView)
    ensures var b := Backlog(v);
      && |b| <= 4 && NoDup(b)
      && (PublishSpf in b <==> v.spfRaw.None?)
      && (PublishDmarc in b <==> v.dmarcRaw.None?)
      && (EnforceDmarc in b <==> v.dmarcPolicy == Some("none"))
      && (EnableDkim in b <==> DkimNotFound(v))
  {
  }

  /** The recommendation of the mail profile that each task answers. */
  function TaskFor(r: MailProfile.Recommendation): Task {
    match r
    case SpfRecommendation => PublishSpf
    case DmarcRecommendation => PublishDmarc
    case EnforceRecommendation => EnforceDmarc
    case DkimRecommendation => EnableDkim
  }

  /** The backlog drawn from a mail profile follows its recommendations one for one. */
  lemma BacklogFollowsRecommendations(spf: MailProfile.Spf, dmarc: MailProfile.Dmarc, dkim: MailProfile.Dkim)
    ensures var recs := MailProfile.Recommendations(spf, dmarc, dkim);
      var b := Backlog(ViewOf(spf, dmarc, dkim));
      |b| == |recs| && forall i :: 0 <= i < |b| ==> b[i] == TaskFor(recs[i])
  {
  }

  // ---------------------------------------------------------------------------
  // Run
  // ---------------------------------------------------------------------------

  datatype Summary = Summary(emailPostureScore: int, exposureScore: int, emailNotes: seq<Note>, exposureNotes: seq<Note>)

  datatype Evidence = Evidence(spfRaw: string, dmarcRaw: string, dkimSelectorsChecked: seq<string>)

  datatype SynthesisResult = SynthesisResult(summary: Summary, backlog: seq<Task>, evidence: Evidence)

  /** `(raw or "")[:300]` */
  function Excerpt(raw: Option<string>): (r: string)
    ensures |r| <= 300
  {
    Take(raw.GetOr(""), 300)
  }

  /** An excerpt is the start of the record, whole when it is short; nothing when the
      record is missing. */
  lemma ExcerptSpec(raw: Option<string>)
    ensures raw.None? ==> Excerpt(raw) == ""
    ensures raw.Some? ==> Excerpt(raw) == raw.value[..|Excerpt(raw)|]
    ensures raw.Some? && |raw.value| <= 300 ==> Excerpt(raw) == raw.value
  {
  }

  /** `run(results)`, given what it reads of the mail profile (`NoMailProfile` when
      that result is missing) and the third-party services (empty when missing). */
  method Run<S>(mail: MailView, services: seq<S>) returns (r: SynthesisResult)
    ensures r.summary.emailNotes == EmailDeductions(mail)
    ensures r.summary.emailPostureScore == 100 - EmailPoints(mail)
    ensures r.summary.exposureScore == ExposureScore(|services|)
    ensures r.summary.exposureNotes == (if services == [] then [] else [ExposedNote])
    ensures r.backlog == Backlog(mail)
    ensures r.evidence == Evidence(Excerpt(mail.spfRaw), Excerpt(mail.dmarcRaw), mail.dkimSelectorsChecked)
  {
    var emailScore, emailNotes := ScoreEmailPosture(mail);
    var exposureScore, exposureNotes := ScoreExposure(services);
    var prioritized := BuildBacklog(mail);
    var summary := Summary(emailScore, exposureScore, emailNotes, exposureNotes);
    r := SynthesisResult(summary, prioritized,
      Evidence(Excerpt(mail.spfRaw), Excerpt(mail.dmarcRaw), mail.dkimSelectorsChecked));
  }

  /** With no mail profile at all, every record counts as missing: 25 + 35 + 15 points
      off, and the SPF and DMARC tasks, but no DKIM task and no enforcement task. */
  lemma MissingProfile()
    ensures EmailDeductions(NoMailProfile) == [NoSpfNote, NoDmarcNote, PolicyNoneNote]
    ensures EmailPoints(NoMailProfile) == 75
    ensures Backlog(NoMailProfile) == [PublishSpf, PublishDmarc]
  {
  }
}
