/**
 * The report script's objects: a `VariantInfo` per watch-list entry, a
 * `VariantSet` grouping the samples for one watch-list, the `SampleSet` of all
 * parsed samples, and how a report section places its title, table and text.
 */
module Report {
  import opened Options
  import opened Text
  import opened Samples
  import opened Aggregate
  import opened Pdf

  /** Table headers: mutation sets have three columns, variant sets four. */
  const MutationHeader: seq<string> := ["Mutation", "Found in" + Spaces(25), "Samples"]
  const VariantHeader: seq<string> := ["Variant", "First detected" + Spaces(6), "Samples", "Frequency"]
  const SampleHeader: seq<string> := ["Sample name", "Closest known variant", "Class"]

  function Spaces(n: nat): (r: string)
    ensures |r| == n && forall i :: 0 <= i < n ==> r[i] == ' '
  {
    seq(n, _ => ' ')
  }

  function Header(isMutation: bool): (header: seq<string>)
    ensures |header| == if isMutation then 3 else 4
  {
    if isMutation then MutationHeader else VariantHeader
  }

  /**
   * The frequency cell: `str(0)` without hits, else the text of the rounded
   * ratio, which `floatText` stands for (`str(round(float(hits) / total, 2))`).
   */
  function FrequencyText(f: Fraction, floatText: (nat, nat) -> string): string
  {
    match f
    case IntZero => "0"
    case Ratio(hits, total) => floatText(hits, total)
  }

  class VariantInfo {
    const name: string
    const loc: string
    var samples: seq<Sample>
    const issue: Issue

    constructor (name: string, location: string, issue: Issue)
      ensures this.name == name && loc == location && this.issue == issue && samples == []
    {
      this.name, loc, this.issue := name, location, issue;
      samples := [];
    }

    /** `addSamples`: the group's samples are replaced by the given list. */
    method AddSamples(listOfNames: seq<Sample>)
      modifies this
      ensures samples == listOfNames
    {
      samples := listOfNames;
    }

    /** The texts of this group's table row. */
    function TableLine(totalSampleCount: nat, mutation: bool, floatText: (nat, nat) -> string): (texts: seq<string>)
      reads this
      ensures |texts| == if mutation then 3 else 4
      ensures texts[0] == name && texts[1] == loc
    {
      var count := DecimalString(|samples|);
      if mutation then [name, loc, count]
      else [name, loc, count, FrequencyText(Frequency(|samples|, totalSampleCount), floatText)]
    }

    /**
     * `printTableLine`: one body row with the given widths. The division by the
     * total is only reached with hits, so the total must then be positive.
     */
    method PrintTableLine(pdf: PDF, colWidths: seq<real>, totalSampleCount: nat, mutation: bool,
                          floatText: (nat, nat) -> string)
      requires pdf.Valid()
      requires |colWidths| == if mutation then 3 else 4
      requires !mutation && samples != [] ==> totalSampleCount > 0
      modifies pdf
      ensures pdf.marks == old(pdf.marks) + RowMarks(old(pdf.x), old(pdf.y), TableLine(totalSampleCount, mutation, floatText),
                                                     colWidths, pdf.RowHeight(), old(pdf.fillColour), false)
      ensures pdf.x == pdf.lMargin && pdf.y == old(pdf.y) + pdf.RowHeight()
      ensures pdf.fillColour == White && !pdf.bold && pdf.fontSize == pdf.TableFontSize()
    {
      if mutation {
        var none := pdf.BuildTable([name, loc, DecimalString(|samples|)], Some(colWidths), false);
        return;
      }
      var hitCount := |samples|;
      var fract := IntZero;
      if hitCount > 0 {
        fract := Ratio(hitCount, totalSampleCount);
      }
      var none := pdf.BuildTable([name, loc, DecimalString(hitCount), FrequencyText(fract, floatText)], Some(colWidths), false);
    }
  }

  /**
   * A group's row names the variant and its origin and carries the sample
   * count in decimal, which reads back as the group size; a variant row adds
   * the frequency, which is `0` exactly when the group is empty (given that
   * the rounded ratio never prints as the integer `0`).
   */
  lemma TableLineColumns(v: VariantInfo, totalSampleCount: nat, mutation: bool, floatText: (nat, nat) -> string)
    ensures var texts := v.TableLine(totalSampleCount, mutation, floatText);
      && texts[0] == v.name && texts[1] == v.loc
      && (forall i :: 0 <= i < |texts[2]| ==> '0' <= texts[2][i] <= '9')
      && DecimalValue(texts[2]) == |v.samples|
      && (!mutation && v.samples == [] ==> texts[3] == "0")
      && (!mutation && v.samples != [] ==> texts[3] == floatText(|v.samples|, totalSampleCount))
      && (!mutation && (forall h: nat, t: nat :: h > 0 ==> floatText(h, t) != "0") ==> (texts[3] == "0" <==> v.samples == []))
  {
    DecimalRoundTrip(|v.samples|);
  }

  /** The body rows of a variant table, one per group, in list order. */
  function TableRows(vs: seq<VariantInfo>, total: nat, mutation: bool, floatText: (nat, nat) -> string)
    : (rows: seq<seq<string>>)
    reads vs
    ensures |rows| == |vs|
    ensures forall i :: 0 <= i < |rows| ==> |rows[i]| == if mutation then 3 else 4
    decreases |vs|
  {
    if vs == [] then []
    else TableRows(vs[..|vs| - 1], total, mutation, floatText) + [vs[|vs| - 1].TableLine(total, mutation, floatText)]
  }

  /** Row `i` of the table is group `i`'s line. */
  lemma {:induction false} TableRowsAt(vs: seq<VariantInfo>, total: nat, mutation: bool, floatText: (nat, nat) -> string, i: nat)
    requires i < |vs|
    ensures TableRows(vs, total, mutation, floatText)[i] == vs[i].TableLine(total, mutation, floatText)
    decreases |vs|
  {
    if i < |vs| - 1 {
      TableRowsAt(vs[..|vs| - 1], total, mutation, floatText, i);
    }
  }

  class VariantSet {
    const isMutation: bool
    var varList: seq<VariantInfo>
    var sCount: nat
    /** Set only when something matched. */
    var totalSamples: Option<nat>
    var issue: Option<Issue>

    /** Without matches the set has no groups and no total; with matches no group outgrows them, nor they the total. */
    ghost predicate Valid()
      reads this, varList
    {
      && (sCount == 0 ==> varList == [] && totalSamples == None && issue == None)
      && (sCount > 0 ==> totalSamples.Some? && sCount <= totalSamples.value && issue.Some?)
      && (forall i :: 0 <= i < |varList| ==> |varList[i].samples| <= sCount)
    }

    /**
     * `VariantSet(samples, variantDict, isMutation)`: counts the matched
     * samples; when there are any, records the total and the first match's
     * label, and builds one new group per dictionary entry, in dictionary
     * order, holding the matched samples of that entry (empty groups included).
     */
    constructor (samples: seq<Sample>, variantDict: WatchList, isMutation: bool)
      requires isMutation ==> MutationReady(samples)
      ensures this.isMutation == isMutation && Valid()
      ensures isMutation ==> HaveSpikeMuts(Matched(samples, variantDict, isMutation))
      ensures var matched := Matched(samples, variantDict, isMutation);
        && sCount == |matched|
        && (sCount > 0 ==> totalSamples == Some(|samples|) && issue == Some(matched[0].issue) && |varList| == |variantDict|)
        && (forall i :: 0 <= i < |varList| ==>
              && fresh(varList[i])
              && varList[i].name == variantDict[i].0 && varList[i].loc == variantDict[i].1
              && Some(varList[i].issue) == issue
              && varList[i].samples == Group(matched, variantDict[i].0, isMutation))
        && (forall i, j :: 0 <= i < j < |varList| ==> varList[i] != varList[j])
    {
      var matched := Matched(samples, variantDict, isMutation);
      if isMutation {
        MatchedMutationReady(samples, variantDict);
      }
      this.isMutation := isMutation;
      if |matched| == 0 {
        varList, sCount, totalSamples, issue := [], 0, None, None;
      } else {
        var firstIssue := matched[0].issue;
        var vs: seq<VariantInfo> := [];
        for i := 0 to |variantDict|
          invariant |vs| == i
          invariant forall j :: 0 <= j < i ==>
            && fresh(vs[j])
            && vs[j].name == variantDict[j].0 && vs[j].loc == variantDict[j].1 && vs[j].issue == firstIssue
            && vs[j].samples == Group(matched, variantDict[j].0, isMutation)
          invariant forall j, l :: 0 <= j < l < i ==> vs[j] != vs[l]
        {
          var (variant, location) := variantDict[i];
          var v := new VariantInfo(variant, location, firstIssue);
          v.AddSamples(Group(matched, variant, isMutation));
          vs := vs + [v];
        }
        varList, sCount, totalSamples, issue := vs, |matched|, Some(|samples|), Some(firstIssue);
      }
    }

    /** The loop of `tableIfHits`: each group prints its row, one row height below the previous one. */
    method PrintRows(pdf: PDF, widths: seq<real>, floatText: (nat, nat) -> string)
      requires pdf.Valid() && totalSamples.Some? && totalSamples.value > 0
      requires |widths| == if isMutation then 3 else 4
      requires pdf.x == pdf.lMargin && pdf.fillColour == White && !pdf.bold && pdf.fontSize == pdf.TableFontSize()
      modifies pdf
      ensures pdf.marks == old(pdf.marks)
                           + BodyMarks(pdf.lMargin, old(pdf.y), old(TableRows(varList, totalSamples.value, isMutation, floatText)), widths, pdf.RowHeight())
      ensures pdf.x == pdf.lMargin && pdf.y == old(pdf.y) + RowOffset(|varList|, pdf.RowHeight())
      ensures pdf.fillColour == White && !pdf.bold && pdf.fontSize == pdf.TableFontSize()
    {
      ghost var h := pdf.RowHeight();
      ghost var rows := TableRows(varList, totalSamples.value, isMutation, floatText);
      for i := 0 to |varList|
        invariant pdf.marks == old(pdf.marks) + BodyMarks(pdf.lMargin, old(pdf.y), rows[..i], widths, h)
        invariant pdf.x == pdf.lMargin && pdf.y == old(pdf.y) + RowOffset(i, h)
        invariant pdf.fillColour == White && !pdf.bold && pdf.fontSize == pdf.TableFontSize()
      {
        TableRowsAt(varList, totalSamples.value, isMutation, floatText, i);
        varList[i].PrintTableLine(pdf, widths, totalSamples.value, isMutation, floatText);
        BodyMarksStep(old(pdf.marks), pdf.lMargin, old(pdf.y), rows, widths, h, i);
      }
      assert rows[..|varList|] == rows;
    }

    /**
     * `tableIfHits`: without matches nothing is drawn and the cursor's x is
     * returned. Otherwise a header row sized to its texts is drawn, then one
     * row per group below it, and the returned x lies 15 units past the sum
     * of the column widths, where the section's text goes.
     */
    method TableIfHits(pdf: PDF, floatText: (nat, nat) -> string) returns (xOffset: real)
      requires Valid() && pdf.Valid()
      modifies pdf
      ensures sCount == 0 ==> xOffset == old(pdf.x) && unchanged(pdf)
      ensures sCount > 0 ==> xOffset == Sum(pdf.HeaderWidths(Header(isMutation))) + 15.0
      ensures sCount > 0 ==>
        pdf.marks == old(pdf.marks)
                     + RowMarks(old(pdf.x), old(pdf.y), Header(isMutation), pdf.HeaderWidths(Header(isMutation)),
                                pdf.RowHeight(), HeaderFill, true)
                     + BodyMarks(pdf.lMargin, old(pdf.y) + pdf.RowHeight(), old(TableRows(varList, totalSamples.value, isMutation, floatText)),
                                 pdf.HeaderWidths(Header(isMutation)), pdf.RowHeight())
      ensures sCount > 0 ==> pdf.x == pdf.lMargin && pdf.y == old(pdf.y) + pdf.RowHeight() + RowOffset(|varList|, pdf.RowHeight())
      ensures sCount > 0 ==> pdf.fillColour == White && !pdf.bold && pdf.fontSize == pdf.TableFontSize()
    {
      if sCount == 0 {
        return pdf.x;
      }
      var header := Header(isMutation);
      var colWidths := pdf.BuildTable(header, None, true);
      var widths := colWidths.value;
      ghost var y1 := pdf.y;
      assert y1 == old(pdf.y) + pdf.RowHeight();
      PrintRows(pdf, widths, floatText);
      return Sum(widths) + 15.0;
    }
  }

  /**
   * The index `max(xs, key=len)` picks: a longest string, and the first one
   * when several tie, since `max` only replaces its pick with a strictly longer one.
   */
  function LongestIndex(xs: seq<string>): (k: nat)
    requires xs != []
    ensures k < |xs|
    ensures forall i :: 0 <= i < |xs| ==> |xs[i]| <= |xs[k]|
    ensures forall i :: 0 <= i < k ==> |xs[i]| < |xs[k]|
    decreases |xs|
  {
    if |xs| == 1 then 0
    else
      var n := |xs| - 1;
      var k := LongestIndex(xs[..n]);
      assert forall i :: 0 <= i < n ==> xs[..n][i] == xs[i];
      if |xs[n]| > |xs[k]| then n else k
  }

  /** Being a first longest string pins down the index. */
  lemma LongestIndexUnique(xs: seq<string>, k: nat)
    requires k < |xs|
    requires forall i :: 0 <= i < |xs| ==> |xs[i]| <= |xs[k]|
    requires forall i :: 0 <= i < k ==> |xs[i]| < |xs[k]|
    ensures LongestIndex(xs) == k
  {
  }

  function Longest(xs: seq<string>): string
    requires xs != []
  {
    xs[LongestIndex(xs)]
  }

  function Names(entries: seq<Sample>): (r: seq<string>)
    ensures |r| == |entries| && forall i :: 0 <= i < |entries| ==> r[i] == entries[i].name
  {
    seq(|entries|, i requires 0 <= i < |entries| => entries[i].name)
  }

  function Neighbors(entries: seq<Sample>): (r: seq<string>)
    ensures |r| == |entries| && forall i :: 0 <= i < |entries| ==> r[i] == entries[i].neighbor
  {
    seq(|entries|, i requires 0 <= i < |entries| => entries[i].neighbor)
  }

  function Labels(entries: seq<Sample>): (r: seq<string>)
    ensures |r| == |entries| && forall i :: 0 <= i < |entries| ==> r[i] == Label(entries[i].issue)
  {
    seq(|entries|, i requires 0 <= i < |entries| => Label(entries[i].issue))
  }

  /** One body row of the per-sample table per sample: name, neighbour, label. */
  function SampleRows(entries: seq<Sample>): (rows: seq<seq<string>>)
    ensures |rows| == |entries|
    ensures forall i :: 0 <= i < |rows| ==> |rows[i]| == 3
    decreases |entries|
  {
    if entries == [] then []
    else
      var n := |entries| - 1;
      SampleRows(entries[..n]) + [SampleRow(entries[n])]
  }

  function SampleRow(v: Sample): seq<string>
  {
    [v.name, v.neighbor, Label(v.issue)]
  }

  /** Row `i` of the per-sample table is sample `i`'s name, closest known variant and class. */
  lemma {:induction false} SampleRowsAt(entries: seq<Sample>, i: nat)
    requires i < |entries|
    ensures SampleRows(entries)[i] == [entries[i].name, entries[i].neighbor, Label(entries[i].issue)]
    decreases |entries|
  {
    if i < |entries| - 1 {
      SampleRowsAt(entries[..|entries| - 1], i);
      assert entries[..|entries| - 1][i] == entries[i];
    }
  }

  /**
   * The per-sample column widths: 5 plus the regular 10-point width of the
   * longest name, of the longest neighbour or header text, and of the longest
   * label. `perSampleTable` measures them in the current font, which it has
   * just set to that regular 10-point one.
   */
  function SampleColumnWidths(pdf: PDF, entries: seq<Sample>): (ws: seq<real>)
    requires pdf.Valid() && entries != []
    ensures |ws| == 3
  {
    [ColumnWidth(pdf, Names(entries)), ColumnWidth(pdf, Neighbors(entries) + SampleHeader), ColumnWidth(pdf, Labels(entries))]
  }

  /** 5 plus the regular 10-point width of the longest of a column's texts. */
  function ColumnWidth(pdf: PDF, texts: seq<string>): real
    requires pdf.Valid() && texts != []
  {
    5.0 + pdf.stringWidth(Longest(texts), false, pdf.TableFontSize())
  }

  /** A column is as wide as 5 plus the width of one of its texts that no other text of it is longer than. */
  ghost predicate SizedByLongest(pdf: PDF, texts: seq<string>, w: real)
    requires pdf.Valid()
  {
    exists t :: t in texts && w == 5.0 + pdf.stringWidth(t, false, pdf.TableFontSize()) && forall u :: u in texts ==> |u| <= |t|
  }

  /** The longest text is one of the texts, and no text is longer. */
  lemma LongestSizes(pdf: PDF, texts: seq<string>)
    requires pdf.Valid() && texts != []
    ensures SizedByLongest(pdf, texts, ColumnWidth(pdf, texts))
  {
    var k := LongestIndex(texts);
    assert texts[k] in texts;
  }

  /**
   * Each per-sample column is sized by one of its own texts that is at least as
   * long as all the others in that column (the header texts count for the
   * neighbour column only).
   */
  lemma SampleColumnWidthsMeasure(pdf: PDF, entries: seq<Sample>)
    requires pdf.Valid() && entries != []
    ensures var ws := SampleColumnWidths(pdf, entries);
      && SizedByLongest(pdf, Names(entries), ws[0])
      && SizedByLongest(pdf, Neighbors(entries) + SampleHeader, ws[1])
      && SizedByLongest(pdf, Labels(entries), ws[2])
  {
    var names, cells, labels := Names(entries), Neighbors(entries) + SampleHeader, Labels(entries);
    var ws := SampleColumnWidths(pdf, entries);
    assert SizedByLongest(pdf, names, ws[0]) by {
      LongestSizes(pdf, names);
      assert ws[0] == ColumnWidth(pdf, names);
    }
    assert SizedByLongest(pdf, cells, ws[1]) by {
      LongestSizes(pdf, cells);
      assert ws[1] == ColumnWidth(pdf, cells);
    }
    assert SizedByLongest(pdf, labels, ws[2]) by {
      LongestSizes(pdf, labels);
      assert ws[2] == ColumnWidth(pdf, labels);
    }
  }

  class SampleSet {
    var entries: seq<Sample>

    constructor ()
      ensures entries == []
    {
      entries := [];
    }

    /**
     * `add`: parses one line. A sample is appended after the earlier entries,
     * which stay as they were; a line that fails to parse (the script would
     * raise) adds nothing.
     */
    method Add(inline: string, vocs: WatchList, vois: WatchList, mocs: WatchList) returns (r: Result<Sample>)
      modifies this
      ensures ParsedFrom(r, inline, vocs, vois, mocs)
      ensures r.Ok? ==> entries == old(entries) + [r.value]
      ensures r.Err? ==> entries == old(entries)
    {
      r := ParseSample(inline, vocs, vois, mocs);
      if r.Ok? {
        entries := entries + [r.value];
      }
    }

    /** The loop of `perSampleTable`: each sample prints its row, one row height below the previous one. */
    method PrintSampleRows(pdf: PDF, colWidths: seq<real>)
      requires pdf.Valid() && |colWidths| == 3
      requires pdf.x == pdf.lMargin && pdf.fillColour == White && !pdf.bold && pdf.fontSize == pdf.TableFontSize()
      modifies pdf
      ensures pdf.marks == old(pdf.marks) + BodyMarks(pdf.lMargin, old(pdf.y), SampleRows(entries), colWidths, pdf.RowHeight())
      ensures pdf.x == pdf.lMargin && pdf.y == old(pdf.y) + RowOffset(|entries|, pdf.RowHeight())
      ensures pdf.fillColour == White && !pdf.bold && pdf.fontSize == pdf.TableFontSize()
    {
      ghost var h := pdf.RowHeight();
      ghost var rows := SampleRows(entries);
      for i := 0 to |entries|
        invariant pdf.marks == old(pdf.marks) + BodyMarks(pdf.lMargin, old(pdf.y), rows[..i], colWidths, h)
        invariant pdf.x == pdf.lMargin && pdf.y == old(pdf.y) + RowOffset(i, h)
        invariant pdf.fillColour == White && !pdf.bold && pdf.fontSize == pdf.TableFontSize()
      {
        var v := entries[i];
        SampleRowsAt(entries, i);
        var none := pdf.BuildTable([v.name, v.neighbor, Label(v.issue)], Some(colWidths), false);
        BodyMarksStep(old(pdf.marks), pdf.lMargin, old(pdf.y), rows, colWidths, h, i);
      }
      assert rows[..|entries|] == rows;
    }

    /**
     * `perSampleTable`: a header row with the chosen widths, then one row per
     * sample in entry order. With no samples `max` of the empty name list
     * fails right after the font is set, and nothing is drawn.
     */
    method PerSampleTable(pdf: PDF) returns (ok: bool)
      requires pdf.Valid()
      modifies pdf
      ensures ok <==> entries != []
      ensures !ok ==> pdf.marks == old(pdf.marks) && pdf.x == old(pdf.x) && pdf.y == old(pdf.y)
      ensures ok ==> pdf.marks == old(pdf.marks)
                                  + RowMarks(old(pdf.x), old(pdf.y), SampleHeader, SampleColumnWidths(pdf, entries),
                                             pdf.RowHeight(), HeaderFill, true)
                                  + BodyMarks(pdf.lMargin, old(pdf.y) + pdf.RowHeight(), SampleRows(entries),
                                              SampleColumnWidths(pdf, entries), pdf.RowHeight())
      ensures ok ==> pdf.x == pdf.lMargin && pdf.y == old(pdf.y) + pdf.RowHeight() + RowOffset(|entries|, pdf.RowHeight())
      ensures pdf.fillColour == (if ok then White else old(pdf.fillColour)) && !pdf.bold && pdf.fontSize == pdf.TableFontSize()
    {
      pdf.SetFont("", 10.0);
      if entries == [] {
        return false;
      }
      var colWidths := SampleColumnWidths(pdf, entries);
      DrawSampleTable(pdf, colWidths);
      return true;
    }

    /** The table of `perSampleTable` once the font is set and there are samples to measure. */
    method DrawSampleTable(pdf: PDF, colWidths: seq<real>)
      requires pdf.Valid() && |colWidths| == 3 && !pdf.bold && pdf.fontSize == pdf.TableFontSize()
      modifies pdf
      ensures pdf.marks == old(pdf.marks)
                           + RowMarks(old(pdf.x), old(pdf.y), SampleHeader, colWidths, pdf.RowHeight(), HeaderFill, true)
                           + BodyMarks(pdf.lMargin, old(pdf.y) + pdf.RowHeight(), SampleRows(entries), colWidths, pdf.RowHeight())
      ensures pdf.x == pdf.lMargin && pdf.y == old(pdf.y) + pdf.RowHeight() + RowOffset(|entries|, pdf.RowHeight())
      ensures pdf.fillColour == White && !pdf.bold && pdf.fontSize == pdf.TableFontSize()
    {
      var none := pdf.BuildTable(SampleHeader, Some(colWidths), true);
      ghost var y1 := pdf.y;
      assert y1 == old(pdf.y) + pdf.RowHeight();
      PrintSampleRows(pdf, colWidths);
    }
  }

  /** A section title: `None found` without matches, else the count of samples (never a singular form). */
  function SectionTitle(prefix: string, sCount: nat): string
  {
    if sCount > 0 then prefix + ": " + DecimalString(sCount) + " samples" else prefix + ": None found"
  }

  /**
   * A title can be read back: it starts with the prefix and `: `, says `None
   * found` exactly when nothing matched, and otherwise carries the count in
   * decimal before ` samples`.
   */
  lemma SectionTitleReadsBack(prefix: string, sCount: nat)
    ensures var t := SectionTitle(prefix, sCount);
      var rest := t[|prefix| + 2..];
      && t[..|prefix| + 2] == prefix + ": "
      && (sCount == 0 <==> rest == "None found")
      && (sCount > 0 ==>
            && |rest| > 8 && rest[|rest| - 8..] == " samples"
            && (forall i :: 0 <= i < |rest| - 8 ==> '0' <= rest[i] <= '9')
            && DecimalValue(rest[..|rest| - 8]) == sCount)
  {
    var t := SectionTitle(prefix, sCount);
    var rest := t[|prefix| + 2..];
    if sCount > 0 {
      var digits := DecimalString(sCount);
      assert rest == digits + " samples";
      assert rest[..|rest| - 8] == digits;
      assert '0' <= rest[0] <= '9';
      DecimalRoundTrip(sCount);
    }
  }

  /** Titles for different counts differ. */
  lemma SectionTitleInjective(prefix: string, m: nat, n: nat)
    requires SectionTitle(prefix, m) == SectionTitle(prefix, n)
    ensures m == n
  {
    SectionTitleReadsBack(prefix, m);
    SectionTitleReadsBack(prefix, n);
  }

  /** `max(endOfTable, endOfText)`. */
  function Max(a: real, b: real): (m: real)
    ensures m >= a && m >= b && (m == a || m == b)
  {
    if a >= b then a else b
  }

  /**
   * The watch-list table (if anything matched) at the cursor, with the
   * paragraph beside it starting at the same height; the next content
   * continues below whichever of the two ends lower.
   */
  method TableBesideText(pdf: PDF, vs: VariantSet, intro: string, bulletText: seq<string>,
                         floatText: (nat, nat) -> string)
    returns (xOffset: real, endOfTable: real, endOfText: real)
    requires pdf.Valid() && vs.Valid()
    modifies pdf
    ensures old(pdf.marks) <= pdf.marks
    ensures xOffset == if vs.sCount == 0 then old(pdf.x) else Sum(pdf.HeaderWidths(Header(vs.isMutation))) + 15.0
    ensures endOfTable == old(pdf.y) + (if vs.sCount == 0 then 0.0 else pdf.RowHeight() + RowOffset(|vs.varList|, pdf.RowHeight()))
    ensures TextMark(xOffset, old(pdf.y), pdf.ParWidth(xOffset), 5.0, intro) in pdf.marks
    ensures endOfText == pdf.IntroEnd(intro, xOffset, old(pdf.y)) + 5.0 * BulletLines(bulletText, pdf.ParWidth(xOffset), pdf.wrapLines) as real
    ensures pdf.y == Max(endOfTable, endOfText) && pdf.y >= endOfTable && pdf.y >= endOfText && pdf.x == pdf.lMargin
  {
    var yOffset := pdf.y;
    xOffset := vs.TableIfHits(pdf, floatText);
    endOfTable := pdf.y;
    ghost var tabled := pdf.marks;
    assert old(pdf.marks) <= tabled;
    pdf.PrintPar(intro, bulletText, xOffset, yOffset);
    assert pdf.marks[|tabled|] == TextMark(xOffset, yOffset, pdf.ParWidth(xOffset), 5.0, intro);
    endOfText := pdf.y;
    pdf.SetY(Max(endOfTable, endOfText));
  }

  /**
   * One report section: the title, then the table with the paragraph beside
   * it, both starting just below the title.
   */
  method ReportSection(pdf: PDF, vs: VariantSet, prefix: string, intro: string, bulletText: seq<string>,
                       floatText: (nat, nat) -> string)
    returns (xOffset: real, endOfTable: real, endOfText: real)
    requires pdf.Valid() && vs.Valid()
    modifies pdf
    ensures old(pdf.marks) < pdf.marks
    ensures pdf.marks[|old(pdf.marks)|] == CellMark(old(pdf.x), old(pdf.y), 150.0, 10.0, SectionTitle(prefix, vs.sCount), false, None, true)
    ensures xOffset == if vs.sCount == 0 then pdf.lMargin else Sum(pdf.HeaderWidths(Header(vs.isMutation))) + 15.0
    ensures endOfTable == old(pdf.y) + 10.0 + (if vs.sCount == 0 then 0.0 else pdf.RowHeight() + RowOffset(|vs.varList|, pdf.RowHeight()))
    ensures TextMark(xOffset, old(pdf.y) + 10.0, pdf.ParWidth(xOffset), 5.0, intro) in pdf.marks
    ensures endOfText == pdf.IntroEnd(intro, xOffset, old(pdf.y) + 10.0) + 5.0 * BulletLines(bulletText, pdf.ParWidth(xOffset), pdf.wrapLines) as real
    ensures pdf.y == Max(endOfTable, endOfText) && pdf.y >= endOfTable && pdf.y >= endOfText && pdf.x == pdf.lMargin
  {
    var title := SectionTitle(prefix, vs.sCount);
    pdf.Chapter(title);
    xOffset, endOfTable, endOfText := TableBesideText(pdf, vs, intro, bulletText, floatText);
  }
}
