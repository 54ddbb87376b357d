/**
 * The organizer's report (`this.report`) and `generateReport`, which renders
 * it as Markdown lines joined by newlines.
 */
module Reporting {
  import opened Wrappers
  import opened Text

  /** A file moved to `to`. */
  datatype Rename = Rename(from: String, to: String)

  /** A code file in which every `from` became `to`. */
  datatype CodeUpdate = CodeUpdate(file: String, from: String, to: String)

  /** The five lists the organizer appends to. */
  datatype Report = Report(
    originalFiles: seq<String>,
    renamedFiles: seq<Rename>,
    duplicatesRemoved: seq<String>,
    codeUpdates: seq<CodeUpdate>,
    errors: seq<String>)

  const EmptyReport: Report := Report([], [], [], [], [])

  // ---------------------------------------------------------------------------
  // The lines of the report

  const Arrow: String := " \U{2192} "

  function SummaryLine(caption: String, n: nat): String
  {
    "- " + caption + ": " + NatToString(n)
  }

  function RenameLines(renames: seq<Rename>): seq<String>
  {
    seq(|renames|, i requires 0 <= i < |renames| => "- " + renames[i].from + Arrow + renames[i].to)
  }

  function UpdateLines(updates: seq<CodeUpdate>): seq<String>
  {
    seq(|updates|, i requires 0 <= i < |updates| =>
      "- " + updates[i].file + ": " + updates[i].from + Arrow + updates[i].to)
  }

  function Bullets(items: seq<String>): seq<String>
  {
    seq(|items|, i requires 0 <= i < |items| => "- " + items[i])
  }

  /** The captions of the summary lines, in order. */
  const Captions: seq<String> :=
    ["Original files found", "Files renamed", "Duplicates removed", "Code files updated", "Errors encountered"]

  /** The lengths the summary lines state, in the order of `Captions`. */
  function Tally(r: Report): seq<nat>
  {
    [|r.originalFiles|, |r.renamedFiles|, |r.duplicatesRemoved|, |r.codeUpdates|, |r.errors|]
  }

  /** The five summary lines. */
  function Counts(r: Report): seq<String>
  {
    seq(5, k requires 0 <= k < 5 => SummaryLine(Captions[k], Tally(r)[k]))
  }

  /** The title and the summary. */
  function Head(r: Report): seq<String>
  {
    ["# Image Organization Report", "", "## Summary"] + Counts(r) + [""]
  }

  /** The three lists, which every report has. */
  function Sections(r: Report): seq<String>
  {
    ["## Renamed Files"] + RenameLines(r.renamedFiles)
    + ["", "## Duplicates Removed"] + Bullets(r.duplicatesRemoved)
    + ["", "## Code Updates"] + UpdateLines(r.codeUpdates)
    + [""]
  }

  /** The errors section, pushed only when there are errors. */
  function ErrorSection(r: Report): seq<String>
  {
    if |r.errors| > 0 then ["## Errors"] + Bullets(r.errors) else []
  }

  /** The lines of the report. */
  function ReportLines(r: Report): (lines: seq<String>)
    ensures |lines| == 15 + |r.renamedFiles| + |r.duplicatesRemoved| + |r.codeUpdates|
                         + (if |r.errors| > 0 then 1 + |r.errors| else 0)
  {
    Head(r) + Sections(r) + ErrorSection(r)
  }

  lemma CountOfReport(r: Report, k: nat)
    requires k < 5
    ensures ReportLines(r)[3 + k] == Counts(r)[k]
  {
    assert (Head(r) + Sections(r))[3 + k] == Head(r)[3 + k];
    assert (["# Image Organization Report", "", "## Summary"] + Counts(r))[3 + k] == Counts(r)[k];
  }

  /** `generateReport()`: the lines joined by newlines. */
  function RenderReport(r: Report): String
  {
    Join(ReportLines(r), "\n")
  }

  // ---------------------------------------------------------------------------
  // Reading the report back

  /** The count a summary line states for `caption`, if the line is one. */
  function ReadCount(line: String, caption: String): Option<nat>
  {
    var prefix := "- " + caption + ": ";
    if StartsWith(line, prefix) && |line| > |prefix|
       && forall i :: |prefix| <= i < |line| ==> IsDigit(line[i])
    then Some(ParseDecimal(line[|prefix|..]))
    else None
  }

  lemma SummaryLineReadsBack(caption: String, n: nat)
    ensures ReadCount(SummaryLine(caption, n), caption) == Some(n)
  {
    var prefix := "- " + caption + ": ";
    var line := SummaryLine(caption, n);
    assert line == prefix + NatToString(n);
    assert line[..|prefix|] == prefix;
    assert line[|prefix|..] == NatToString(n);
    ParseNatToString(n);
  }

  /** Each summary line states the length of the list it counts. */
  lemma SummaryCounts(r: Report)
    ensures forall k :: 0 <= k < 5 ==> ReadCount(ReportLines(r)[3 + k], Captions[k]) == Some(Tally(r)[k])
  {
    forall k | 0 <= k < 5 ensures ReadCount(ReportLines(r)[3 + k], Captions[k]) == Some(Tally(r)[k]) {
      CountOfReport(r, k);
      SummaryLineReadsBack(Captions[k], Tally(r)[k]);
    }
  }

  /** A report whose list of original files is empty says it found none. */
  lemma NoOriginalFiles(r: Report)
    requires r.originalFiles == []
    ensures ReportLines(r)[3] == "- Original files found: 0"
  {
    CountOfReport(r, 0);
    ZeroFound();
  }

  lemma ZeroFound()
    ensures SummaryLine(Captions[0], 0) == "- Original files found: 0"
  {
    assert NatToString(0) == "0";
  }

  /** Every line starts with a dash. */
  predicate Dashed(lines: seq<String>)
  {
    forall k :: 0 <= k < |lines| ==> |lines[k]| > 0 && lines[k][0] == '-'
  }

  lemma DashedAvoids(lines: seq<String>, heading: String)
    requires Dashed(lines) && |heading| > 0 && heading[0] != '-'
    ensures heading !in lines
  {
  }

  lemma ListsAreDashed(r: Report)
    ensures Dashed(RenameLines(r.renamedFiles))
    ensures Dashed(Bullets(r.duplicatesRemoved))
    ensures Dashed(UpdateLines(r.codeUpdates))
    ensures Dashed(Bullets(r.errors))
  {
  }

  lemma HeadAvoidsErrorsHeading(r: Report)
    ensures "## Errors" !in Head(r)
  {
    assert Dashed(Counts(r));
    DashedAvoids(Counts(r), "## Errors");
  }

  lemma SectionsAvoidErrorsHeading(r: Report)
    ensures "## Errors" !in Sections(r)
  {
    var heading := "## Errors";
    ListsAreDashed(r);
    DashedAvoids(RenameLines(r.renamedFiles), heading);
    DashedAvoids(Bullets(r.duplicatesRemoved), heading);
    DashedAvoids(UpdateLines(r.codeUpdates), heading);
  }

  /** The errors section appears exactly when there are errors. */
  lemma ErrorsSectionIff(r: Report)
    ensures "## Errors" in ReportLines(r) <==> |r.errors| > 0
  {
    HeadAvoidsErrorsHeading(r);
    SectionsAvoidErrorsHeading(r);
    assert "## Errors" in ErrorSection(r) <==> |r.errors| > 0 by {
      if |r.errors| > 0 {
        assert ErrorSection(r)[0] == "## Errors";
      }
    }
  }

  /** No line holds a line break. */
  predicate Unbroken(lines: seq<String>)
  {
    forall k :: 0 <= k < |lines| ==> '\n' !in lines[k]
  }

  /** No path, name or message in the report holds a line break. */
  predicate SingleLine(r: Report)
  {
    (forall i :: 0 <= i < |r.renamedFiles| ==> '\n' !in r.renamedFiles[i].from && '\n' !in r.renamedFiles[i].to)
    && (forall i :: 0 <= i < |r.duplicatesRemoved| ==> '\n' !in r.duplicatesRemoved[i])
    && (forall i :: 0 <= i < |r.codeUpdates| ==>
          '\n' !in r.codeUpdates[i].file && '\n' !in r.codeUpdates[i].from && '\n' !in r.codeUpdates[i].to)
    && (forall i :: 0 <= i < |r.errors| ==> '\n' !in r.errors[i])
  }

  lemma UnbrokenAppend(a: seq<String>, b: seq<String>)
    requires Unbroken(a) && Unbroken(b)
    ensures Unbroken(a + b)
  {
    forall k | 0 <= k < |a + b| ensures '\n' !in (a + b)[k] {
      if k >= |a| {
        assert (a + b)[k] == b[k - |a|];
      }
    }
  }

  lemma ListsAreUnbroken(r: Report)
    requires SingleLine(r)
    ensures Unbroken(RenameLines(r.renamedFiles))
    ensures Unbroken(Bullets(r.duplicatesRemoved))
    ensures Unbroken(UpdateLines(r.codeUpdates))
    ensures Unbroken(Bullets(r.errors))
  {
  }

  lemma CaptionsUnbroken()
    ensures forall k :: 0 <= k < |Captions| ==> '\n' !in Captions[k]
  {
  }

  lemma TitleUnbroken()
    ensures Unbroken(["# Image Organization Report", "", "## Summary"])
  {
  }

  lemma SummaryUnbroken(caption: String, n: nat)
    requires '\n' !in caption
    ensures '\n' !in SummaryLine(caption, n)
  {
    var digits := NatToString(n);
    assert forall i :: 0 <= i < |digits| ==> digits[i] != '\n';
  }

  lemma HeadUnbroken(r: Report)
    ensures Unbroken(Head(r))
  {
    CaptionsUnbroken();
    forall k | 0 <= k < 5 ensures '\n' !in Counts(r)[k] {
      SummaryUnbroken(Captions[k], Tally(r)[k]);
    }
    TitleUnbroken();
    assert Unbroken(Counts(r));
    UnbrokenAppend(["# Image Organization Report", "", "## Summary"], Counts(r));
    UnbrokenAppend(["# Image Organization Report", "", "## Summary"] + Counts(r), [""]);
  }

  lemma SectionsUnbroken(r: Report)
    requires SingleLine(r)
    ensures Unbroken(Sections(r))
  {
    ListsAreUnbroken(r);
    var p1 := ["## Renamed Files"] + RenameLines(r.renamedFiles);
    UnbrokenAppend(["## Renamed Files"], RenameLines(r.renamedFiles));
    UnbrokenAppend(p1, ["", "## Duplicates Removed"]);
    var p2 := p1 + ["", "## Duplicates Removed"];
    UnbrokenAppend(p2, Bullets(r.duplicatesRemoved));
    var p3 := p2 + Bullets(r.duplicatesRemoved);
    UnbrokenAppend(p3, ["", "## Code Updates"]);
    var p4 := p3 + ["", "## Code Updates"];
    UnbrokenAppend(p4, UpdateLines(r.codeUpdates));
    UnbrokenAppend(p4 + UpdateLines(r.codeUpdates), [""]);
  }

  lemma LinesAreSingle(r: Report)
    requires SingleLine(r)
    ensures Unbroken(ReportLines(r))
  {
    HeadUnbroken(r);
    SectionsUnbroken(r);
    ListsAreUnbroken(r);
    if |r.errors| > 0 {
      UnbrokenAppend(["## Errors"], Bullets(r.errors));
    }
    UnbrokenAppend(Head(r), Sections(r));
    UnbrokenAppend(Head(r) + Sections(r), ErrorSection(r));
  }

  /** Splitting the rendered report at newlines gives its lines back. */
  lemma RenderReportSplits(r: Report)
    requires SingleLine(r)
    ensures Split(RenderReport(r), "\n") == ReportLines(r)
  {
    LinesAreSingle(r);
    SplitJoin(ReportLines(r), "\n");
  }
}
