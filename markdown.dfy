/** The Markdown summary report: scores, findings and the remediation backlog of a
    findings document, one line per entry. The generation time stamp is the
    `generated` parameter. */
module Markdown {
  import opened Wrappers
  import opened Text

  /** The `summary` object of the findings document; a missing object or list is
      empty and a missing score is `None`. */
  datatype SummaryFields = SummaryFields(
    emailPostureScore: Option<int>,
    exposureScore: Option<int>,
    emailNotes: seq<string>,
    exposureNotes: seq<string>)

  /** One backlog entry; a missing field prints as `None`. */
  datatype ItemFields = ItemFields(priority: Option<string>, title: Option<string>, remediation: Option<string>)

  datatype Findings = Findings(summary: SummaryFields, backlog: seq<ItemFields>)

  /** A score as the report prints it, `n/a` when absent. */
  function ScoreText(score: Option<int>): string {
    match score
    case None => "n/a"
    case Some(n) => IntToString(n)
  }

  /** A field as an f-string prints it. */
  function FieldText(field: Option<string>): string {
    field.GetOr("None")
  }

  function NoteLine(note: string): string {
    "- " + note
  }

  function ItemLine(item: ItemFields): string {
    "- " + FieldText(item.priority) + " | " + FieldText(item.title) + ": " + FieldText(item.remediation)
  }

  function NoteLines(notes: seq<string>): (r: seq<string>)
    ensures |r| == |notes|
  {
    seq(|notes|, i requires 0 <= i < |notes| => NoteLine(notes[i]))
  }

  function ItemLines(items: seq<ItemFields>): (r: seq<string>)
    ensures |r| == |items|
  {
    seq(|items|, i requires 0 <= i < |items| => ItemLine(items[i]))
  }

  /** Title, time stamp and the scores section. */
  function HeadLines(s: SummaryFields, generated: string): (r: seq<string>)
    ensures |r| == 8
  {
    ["# OSINT Posture Summary", "", "Generated: " + generated, "",
     "## Scores", "- Email posture: " + ScoreText(s.emailPostureScore),
     "- Exposure: " + ScoreText(s.exposureScore), ""]
  }

  /** The findings section: e-mail notes, then exposure notes. */
  function FindingLines(s: SummaryFields): (r: seq<string>)
    ensures |r| == 2 + |s.emailNotes| + |s.exposureNotes|
  {
    ["## Findings"] + NoteLines(s.emailNotes) + NoteLines(s.exposureNotes) + [""]
  }

  /** The backlog section, with a placeholder line when the backlog is empty. */
  function BacklogLines(items: seq<ItemFields>): (r: seq<string>)
    ensures |r| == 1 + (if items == [] then 1 else |items|)
  {
    ["## Prioritized Remediation Backlog"]
    + (if items == [] then ["- No prioritized items."] else [])
    + ItemLines(items)
  }

  /** The report's lines. */
  function SummaryLines(f: Findings, generated: string): seq<string> {
    HeadLines(f.summary, generated) + FindingLines(f.summary) + BacklogLines(f.backlog)
  }

  /** `build_summary` */
  method BuildSummary(f: Findings, generated: string) returns (text: string)
    ensures text == Join(SummaryLines(f, generated), "\n")
  {
    var s := f.summary;
    var lines := ["# OSINT Posture Summary", "", "Generated: " + generated, ""];
    lines := lines + ["## Scores"];
    lines := lines + ["- Email posture: " + ScoreText(s.emailPostureScore)];
    lines := lines + ["- Exposure: " + ScoreText(s.exposureScore)];
    lines := lines + [""];
    assert lines == HeadLines(s, generated);
    lines := lines + ["## Findings"];
    lines := AppendNotes(lines, s.emailNotes);
    lines := AppendNotes(lines, s.exposureNotes);
    lines := lines + [""];
    assert lines == HeadLines(s, generated) + FindingLines(s);
    ghost var head := lines;
    lines := lines + ["## Prioritized Remediation Backlog"];
    if f.backlog == [] {
      lines := lines + ["- No prioritized items."];
    }
    lines := AppendItems(lines, f.backlog);
    assert lines == head + BacklogLines(f.backlog);
    text := Join(lines, "\n");
  }

  /** One `- item` line per backlog item, appended. */
  method AppendItems(lines0: seq<string>, items: seq<ItemFields>) returns (lines: seq<string>)
    ensures lines == lines0 + ItemLines(items)
  {
    lines := lines0;
    var k := 0;
    while k < |items|
      invariant 0 <= k <= |items|
      invariant lines == lines0 + ItemLines(items[..k])
    {
      assert ItemLines(items[..k + 1]) == ItemLines(items[..k]) + [ItemLine(items[k])];
      lines := lines + [ItemLine(items[k])];
      k := k + 1;
    }
    assert items[..k] == items;
  }

  /** One `- note` line per note, appended. */
  method AppendNotes(lines0: seq<string>, notes: seq<string>) returns (lines: seq<string>)
    ensures lines == lines0 + NoteLines(notes)
  {
    lines := lines0;
    var k := 0;
    while k < |notes|
      invariant 0 <= k <= |notes|
      invariant lines == lines0 + NoteLines(notes[..k])
    {
      assert NoteLines(notes[..k + 1]) == NoteLines(notes[..k]) + [NoteLine(notes[k])];
      lines := lines + [NoteLine(notes[k])];
      k := k + 1;
    }
    assert notes[..k] == notes;
  }

  /** Where each entry stands: the e-mail notes from line 9, the exposure notes
      after them, the backlog items after the backlog heading, and a placeholder
      line exactly when there are no items. */
  lemma SummaryLayout(f: Findings, generated: string)
    ensures var lines := SummaryLines(f, generated);
      var e := f.summary.emailNotes;
      var x := f.summary.exposureNotes;
      var b := f.backlog;
      && |lines| == 11 + |e| + |x| + (if b == [] then 1 else |b|)
      && (forall i :: 0 <= i < |e| ==> lines[9 + i] == NoteLine(e[i]))
      && (forall i :: 0 <= i < |x| ==> lines[9 + |e| + i] == NoteLine(x[i]))
      && (forall i :: 0 <= i < |b| ==> lines[11 + |e| + |x| + i] == ItemLine(b[i]))
  {
    EmailNotesAt(f, generated);
    ExposureNotesAt(f, generated);
    ItemsAt(f, generated);
  }

  lemma EmailNotesAt(f: Findings, generated: string)
    ensures var e := f.summary.emailNotes;
      forall i :: 0 <= i < |e| ==> SummaryLines(f, generated)[9 + i] == NoteLine(e[i])
  {
    var e := f.summary.emailNotes;
    var fl := FindingLines(f.summary);
    var lines := SummaryLines(f, generated);
    assert lines == HeadLines(f.summary, generated) + fl + BacklogLines(f.backlog);
    FindingLinesLayout(f.summary);
    forall i | 0 <= i < |e|
      ensures lines[9 + i] == NoteLine(e[i])
    {
      assert lines[9 + i] == fl[1 + i];
    }
  }

  lemma ExposureNotesAt(f: Findings, generated: string)
    ensures var e := f.summary.emailNotes;
      var x := f.summary.exposureNotes;
      forall i :: 0 <= i < |x| ==> SummaryLines(f, generated)[9 + |e| + i] == NoteLine(x[i])
  {
    var e := f.summary.emailNotes;
    var x := f.summary.exposureNotes;
    var fl := FindingLines(f.summary);
    var lines := SummaryLines(f, generated);
    assert lines == HeadLines(f.summary, generated) + fl + BacklogLines(f.backlog);
    FindingLinesLayout(f.summary);
    forall i | 0 <= i < |x|
      ensures lines[9 + |e| + i] == NoteLine(x[i])
    {
      assert lines[9 + |e| + i] == fl[1 + |e| + i];
    }
  }

  lemma ItemsAt(f: Findings, generated: string)
    ensures var e := f.summary.emailNotes;
      var x := f.summary.exposureNotes;
      var b := f.backlog;
      forall i :: 0 <= i < |b| ==> SummaryLines(f, generated)[11 + |e| + |x| + i] == ItemLine(b[i])
  {
    var e := f.summary.emailNotes;
    var x := f.summary.exposureNotes;
    var b := f.backlog;
    var bl := BacklogLines(b);
    var lines := SummaryLines(f, generated);
    assert lines == HeadLines(f.summary, generated) + FindingLines(f.summary) + bl;
    BacklogLinesLayout(b);
    forall i | 0 <= i < |b|
      ensures lines[11 + |e| + |x| + i] == ItemLine(b[i])
    {
      assert lines[11 + |e| + |x| + i] == bl[1 + i];
    }
  }

  lemma FindingLinesLayout(s: SummaryFields)
    ensures forall i :: 0 <= i < |s.emailNotes| ==> FindingLines(s)[1 + i] == NoteLine(s.emailNotes[i])
    ensures forall i :: 0 <= i < |s.exposureNotes| ==>
      FindingLines(s)[1 + |s.emailNotes| + i] == NoteLine(s.exposureNotes[i])
  {
    var e := s.emailNotes;
    var x := s.exposureNotes;
    var fl := FindingLines(s);
    forall i | 0 <= i < |e|
      ensures fl[1 + i] == NoteLine(e[i])
    {
      assert fl[1 + i] == NoteLines(e)[i];
    }
    forall i | 0 <= i < |x|
      ensures fl[1 + |e| + i] == NoteLine(x[i])
    {
      assert fl[1 + |e| + i] == NoteLines(x)[i];
    }
  }

  lemma BacklogLinesLayout(items: seq<ItemFields>)
    ensures forall i :: 0 <= i < |items| ==> BacklogLines(items)[1 + i] == ItemLine(items[i])
  {
    var bl := BacklogLines(items);
    forall i | 0 <= i < |items|
      ensures bl[1 + i] == ItemLine(items[i])
    {
      assert bl[1 + i] == ItemLines(items)[i];
    }
  }

  /** A string without a line break. */
  predicate OneLine(s: string) {
    '\n' !in s
  }

  predicate FieldOneLine(field: Option<string>) {
    field.None? || OneLine(field.value)
  }

  /** Every input text the report copies is free of line breaks. */
  predicate PlainFindings(f: Findings, generated: string) {
    && OneLine(generated)
    && (forall i :: 0 <= i < |f.summary.emailNotes| ==> OneLine(f.summary.emailNotes[i]))
    && (forall i :: 0 <= i < |f.summary.exposureNotes| ==> OneLine(f.summary.exposureNotes[i]))
    && (forall i :: 0 <= i < |f.backlog| ==>
          FieldOneLine(f.backlog[i].priority) && FieldOneLine(f.backlog[i].title)
          && FieldOneLine(f.backlog[i].remediation))
  }

  lemma ScoreTextOneLine(score: Option<int>)
    ensures OneLine(ScoreText(score))
  {
    if score.Some? {
      var n := score.value;
      var digits := NatToString(if n < 0 then -n else n);
      assert IsDigits(digits);
      assert forall i :: 0 <= i < |digits| ==> IsDigit(digits[i]);
    }
  }

  lemma HeadLinesOneLine(s: SummaryFields, generated: string)
    requires OneLine(generated)
    ensures forall i :: 0 <= i < 8 ==> OneLine(HeadLines(s, generated)[i])
  {
    ScoreTextOneLine(s.emailPostureScore);
    ScoreTextOneLine(s.exposureScore);
  }

  lemma ItemLineOneLine(item: ItemFields)
    requires FieldOneLine(item.priority) && FieldOneLine(item.title) && FieldOneLine(item.remediation)
    ensures OneLine(ItemLine(item))
  {
  }

  /** Every line of the report is a single line, given inputs without line breaks. */
  lemma SummaryLinesOneLine(f: Findings, generated: string)
    requires PlainFindings(f, generated)
    ensures forall i :: 0 <= i < |SummaryLines(f, generated)| ==> OneLine(SummaryLines(f, generated)[i])
  {
    var lines := SummaryLines(f, generated);
    var e := f.summary.emailNotes;
    var x := f.summary.exposureNotes;
    var b := f.backlog;
    SummaryLayout(f, generated);
    HeadLinesOneLine(f.summary, generated);
    assert lines[..8] == HeadLines(f.summary, generated);
    forall i | 0 <= i < |b|
      ensures OneLine(ItemLine(b[i]))
    {
      ItemLineOneLine(b[i]);
    }
    forall i | 0 <= i < |lines|
      ensures OneLine(lines[i])
    {
      if i < 8 {
        assert lines[i] == lines[..8][i];
      } else if 9 <= i < 9 + |e| {
        assert lines[i] == NoteLine(e[i - 9]);
      } else if 9 + |e| <= i < 9 + |e| + |x| {
        assert lines[i] == NoteLine(x[i - 9 - |e|]);
      } else if 11 + |e| + |x| <= i && b != [] {
        assert lines[i] == ItemLine(b[i - 11 - |e| - |x|]);
      } else {
        SectionLines(f, generated, i);
      }
    }
  }

  /** The heading, blank and placeholder lines. */
  lemma SectionLines(f: Findings, generated: string, i: nat)
    requires i < |SummaryLines(f, generated)|
    requires i == 8 || i == 9 + |f.summary.emailNotes| + |f.summary.exposureNotes|
      || i == 10 + |f.summary.emailNotes| + |f.summary.exposureNotes|
      || (i == 11 + |f.summary.emailNotes| + |f.summary.exposureNotes| && f.backlog == [])
    ensures OneLine(SummaryLines(f, generated)[i])
  {
    var n := |f.summary.emailNotes| + |f.summary.exposureNotes|;
    var h := HeadLines(f.summary, generated);
    var fl := FindingLines(f.summary);
    var bl := BacklogLines(f.backlog);
    var lines := SummaryLines(f, generated);
    if i == 8 {
      assert lines[i] == fl[0];
    } else if i == 9 + n {
      assert lines[i] == fl[1 + n];
    } else if i == 10 + n {
      assert lines[i] == bl[0];
    } else {
      assert lines[i] == bl[1];
    }
  }

  /** Splitting the report at its line breaks gives its lines back, provided the
      copied texts hold no line break of their own. */
  lemma SummaryRoundTrip(f: Findings, generated: string)
    requires PlainFindings(f, generated)
    ensures Split(Join(SummaryLines(f, generated), "\n"), '\n') == SummaryLines(f, generated)
  {
    SummaryLinesOneLine(f, generated);
    SplitJoin(SummaryLines(f, generated), '\n');
  }
}
