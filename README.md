# usherPDF report core, modelled in Dafny

usherPDF turns an UShER sample-placement table into a PDF report. Each line
of the table becomes a `SampleInfo` with a label chosen by priority rules:
variant of concern, variant of interest, mutation of concern, or none.
For each of three watch-lists a `VariantSet` groups the matched samples per
entry. The report writes one section per watch-list and then a per-sample
table. Each section has a title, a table of the groups, and an explanatory
paragraph placed beside the table. The cursor then continues below whichever
of the table and the paragraph ends lower.

The model has six modules:

- `Options`: an optional-value datatype.
- `Text`: the parts of Python 2's `str` the script relies on:
  - `split` with a one-character separator;
  - `strip()` and `lstrip(chars)`;
  - `str` of a non-negative integer.
- `Samples` and `SampleLemmas`: `SampleInfo.__init__` and `splitMuts`. A
  malformed line gives an explicit `Err` where the script would raise.
- `Aggregate`: the list comprehensions `VariantSet` uses to match samples to
  a watch-list and to its entries, the frequency cell, and what the counts
  add up to.
- `Pdf`: the `PDF` class of myPDF.py as a Dafny class. It works over an
  abstract canvas that keeps:
  - the cursor;
  - the font's boldness and size;
  - the fill colour;
  - the list of marks drawn so far.
- `Report`: the classes `VariantInfo`, `VariantSet` and `SampleSet`, the
  section title, and the placement of a section.

The fpdf primitives (`set_font`, `cell`, `ln`, `set_xy`, `multi_cell`, `line`,
...) are methods whose contracts state the effect the script relies on. Font
metrics (`get_string_width`) and line wrapping are functions the canvas is
given. Each method of `PDF`, `VariantInfo`, `VariantSet` and `SampleSet`
specifies the exact list of marks it appends. `TableBesideText` and
`ReportSection` state the marks they rely on and the positions (see
"## Left out").

The model keeps these behaviours of the script as written:

- A section title always says `N samples`, even for one sample. There is no
  singular form.
- No sample-count threshold guards anything in the core: the per-sample
  table is drawn for any number of samples. No chart is drawn at all, since
  the script never imports or calls the chart code.
- `mut.lstrip('S:')` strips any leading run of the characters `S` and `:`,
  not the prefix `S:`. So the script's own watch-list entry `S13I` is stored
  as `13I` and can never be reported.
- Variant groups are built by comparing neighbours only. Samples are not
  also checked against the category.
- A neighbour that is a key of both variant watch-lists is counted in both
  sections. Counts add up to the number of samples only when the two lists
  are disjoint.
- Empty groups are always kept.

## Model

| member | source | states |
|---|---|---|
| Text.Split | usher_PDF_report.py:36 | `split` always yields at least one piece, and no piece contains the separator |
| Text.JoinSplit | usher_PDF_report.py:36 | joining the pieces of a split with the separator gives back the original string |
| Text.SplitJoin | usher_PDF_report.py:38 | splitting a join of separator-free pieces gives back the pieces |
| Text.SplitLength | usher_PDF_report.py:38 | a split has exactly one more piece than there are separators |
| Text.LStrip | usher_PDF_report.py:40 | `lstrip(chars)` returns a suffix whose first character is not in `chars`, and every removed character is in `chars` |
| Text.RStrip | usher_PDF_report.py:15 | `rstrip(chars)` returns a prefix whose last character is not in `chars`, and every removed character is in `chars` |
| Text.LStripUnique | usher_PDF_report.py:40 | the result of `lstrip` is determined: a prefix of `chars` followed by a rest not starting with one gives that rest |
| Text.DecimalString | usher_PDF_report.py:56 | `str(n)` is a non-empty string of digits with no leading zero unless `n` is 0 |
| Text.DecimalRoundTrip | usher_PDF_report.py:56 | reading back the digits of `str(n)` gives `n` |
| Text.DecimalStringInjective | usher_PDF_report.py:62 | different counts are printed differently |
| Samples.SplitToken | usher_PDF_report.py:38 | `orf, mut = combi.split(':')` succeeds exactly when the token has one colon; the two parts rejoin to the token; otherwise the error names the token |
| Samples.SpikeChangesErrPersists | usher_PDF_report.py:37-38 | once a token raises, the tokens after it do not change the outcome |
| Samples.ListOfSet | usher_PDF_report.py:41 | `list(spikeMuts)` holds each element of the set exactly once and nothing else |
| Samples.KeepKeys | usher_PDF_report.py:41 | the comprehension keeps exactly the listed strings that are watch-list keys, and keeps them distinct |
| Samples.SplitMuts | usher_PDF_report.py:32-41 | `splitMuts` fails exactly when the token scan fails, with the same error; otherwise it returns, without repetition, exactly the stripped spike changes that are mutation-of-concern keys |
| Samples.ParseSample | usher_PDF_report.py:13-31 | a line with fewer than 16 fields is an error. Otherwise the sample has name field 0 and neighbour field 15, and its label is the first applicable rule. On a variant match `muts` and `spikeMuts` are absent. Otherwise `muts` is field 2 and `spikeMuts` lists each matched change once. A bad mutation token is the error |
| SampleLemmas.ClassifyPriority | usher_PDF_report.py:18-31 | each label holds exactly when its rule is the first that applies (concern, then interest, then mutation, then none), and an error exactly when the mutation scan is reached and fails |
| SampleLemmas.EmptyMutationField | usher_PDF_report.py:25-31 | an empty mutation field never fails, never gives a mutation of concern, and gives no label when neither variant list matches |
| SampleLemmas.TokenRoundTrip | usher_PDF_report.py:38 | a token built as `orf:mut` from colon-free parts splits back into those parts |
| SampleLemmas.SpikeChangesFails | usher_PDF_report.py:36-40 | the scan fails exactly when some token is not `ORF:change`, and it reports the first such token |
| SampleLemmas.SpikeChangesMembers | usher_PDF_report.py:36-40 | a change is collected exactly when some `S` token yields it after `lstrip('S:')` |
| SampleLemmas.SpikeChangesOrderFree | usher_PDF_report.py:35-40 | the collected set depends only on which tokens occur, not on their order or repetition |
| SampleLemmas.MocMatchesFails | usher_PDF_report.py:26-38 | a mutation field fails exactly when it is non-empty and one of its comma-separated tokens does not have exactly one colon |
| SampleLemmas.SpikeChangesNoLeadingS | usher_PDF_report.py:40 | no collected change starts with `S` or `:` |
| SampleLemmas.UnmatchableKeys | usher_PDF_report.py:40-41 | a watch-list key starting with `S` or `:` is never matched, whatever the mutation field |
| SampleLemmas.S13IStoredAs13I | usher_PDF_report.py:40 | the token `S:S13I` contributes `13I`, not `S13I` |
| SampleLemmas.S13INeverMatches | usher_PDF_report.py:152 | `S13I` is a key of the script's mutation watch-list and is never among a sample's matches |
| Aggregate.WithIssue | usher_PDF_report.py:71 | the mutation set's matched samples are exactly the samples labelled mutation of concern, each as many times as it occurs in the input |
| Aggregate.NeighborIn | usher_PDF_report.py:74 | a variant set's matched samples are exactly the samples whose neighbour is a watch-list key, each as many times as it occurs in the input |
| Aggregate.WithNeighbor | usher_PDF_report.py:88 | a variant group holds exactly the matched samples whose neighbour is that variant, each as many times as it is matched |
| Aggregate.Carrying | usher_PDF_report.py:86 | a mutation group holds exactly the matched samples whose `spikeMuts` contain that mutation, each as many times as it is matched |
| Aggregate.MatchedMutationReady | usher_PDF_report.py:70-86 | every sample the mutation set matches has `spikeMuts`, so `variant in m.spikeMuts` cannot fail |
| Aggregate.GroupFrequency | usher_PDF_report.py:58-61 | a group holds at most the matched samples, and they at most all samples. The frequency is the integer 0 exactly for an empty group; otherwise it is a ratio with 0 < hits <= total, so the division never sees a zero total |
| Aggregate.VariantGroupsPartition | usher_PDF_report.py:83-89 | with distinct keys, the variant group sizes add up to `sCount`: every matched sample is in exactly one group |
| Aggregate.MutationGroupsCover | usher_PDF_report.py:83-89 | for classified samples, the mutation group sizes add up to at least `sCount` and at most `sCount` times the number of entries |
| Aggregate.MutationGroupsOverlap | usher_PDF_report.py:86 | a sample with two matched mutations is in both groups |
| Aggregate.CountsConserved | usher_PDF_report.py:71-74 | with disjoint variant watch-lists, the three section counts plus the unlabelled samples add up to the number of samples |
| Aggregate.SharedKeyCountedTwice | usher_PDF_report.py:19-24 | a neighbour in both variant watch-lists gets the concern label but is counted in two sections |
| Aggregate.ScriptWatchLists | usher_PDF_report.py:134-155 | the script's three watch-lists each have distinct keys, and the variant of concern and variant of interest lists share none |
| Aggregate.ScriptCountsConserved | usher_PDF_report.py:164-166 | with the script's own watch-lists, the three section counts plus the unlabelled samples add up to the number of samples, and each variant section's group sizes add up to its count |
| Pdf.RowMarksAt | myPDF.py:29-30 | cell `i` of a table row sits at the row's x plus the widths before it, with its own text and width, bordered and filled |
| Pdf.RowOffsetIsProduct | myPDF.py:32 | row `i` of a table starts `i` row heights below row 0 |
| Pdf.BodyMarksStep | myPDF.py:28-32 | each body row's cells follow those of the rows above it, one row height further down |
| Pdf.BodyMarksPrefix | myPDF.py:28-32 | drawing fewer rows draws a prefix of the marks |
| Pdf.BodyMarksAt | myPDF.py:28-32 | the body is a grid: cell `j` of row `i` is at `Sum(widths[..j])` across and `i` row heights down, with that row's text |
| Pdf.BulletMarksAt | myPDF.py:79-81 | bullet block `i` starts at `xloc`, no higher than the first, and reads `- ` followed by its text |
| Pdf.PDF.DrawRow | myPDF.py:29-30 | the cell loop appends one bordered, filled cell per text, left to right, and moves right by the sum of the widths |
| Pdf.PDF.BuildTable | myPDF.py:13-36 | `buildTable` draws exactly one row, on the header fill in bold for a header and in the current fill otherwise. Without supplied widths, each column is the bold text width plus 2. The cursor ends one row height lower at the left margin, with a white fill and the regular font. Only a header row returns its widths |
| Pdf.PDF.ChapterSpace | myPDF.py:37-51 | a rule 10 units down across the margins, then an empty placeholder cell 10 units further down, whose position is returned |
| Pdf.PDF.ChapterFill | myPDF.py:52-66 | the title cell is drawn at the given position and the cursor ends exactly where it was |
| Pdf.PDF.Chapter | myPDF.py:67-72 | a 150 by 10 bold title cell at the cursor, then the start of the next line |
| Pdf.PDF.PrintPar | myPDF.py:73-81 | the intro block at (xloc, yloc), then one `- ` block per bullet, each starting at `xloc` below the previous one. The cursor ends below the last block |
| Report.Header | usher_PDF_report.py:95-98 | mutation tables have three columns, variant tables four |
| Report.VariantInfo.constructor | usher_PDF_report.py:45-49 | a new group has the given name, origin and label, and no samples |
| Report.VariantInfo.AddSamples | usher_PDF_report.py:50-52 | the group's samples are replaced by the given list |
| Report.VariantInfo.PrintTableLine | usher_PDF_report.py:53-62 | one body row with the group's texts and the given widths, one row height below the cursor |
| Report.TableLineColumns | usher_PDF_report.py:53-62 | a row names the variant and its origin, and its count reads back as the group size. For a variant row, the frequency is `0` for an empty group and the rounded ratio otherwise. When the rounded ratio never prints as `0`, the frequency is `0` exactly for an empty group |
| Report.TableRowsAt | usher_PDF_report.py:100-101 | body row `i` of a watch-list table is group `i`'s line |
| Report.VariantSet.constructor | usher_PDF_report.py:66-89 | `sCount` is the number of matched samples. With matches, the total is the number of samples and the label is the first match's. There is then one new group per watch-list entry, in order, holding exactly that entry's matched samples. Without matches there are no groups |
| Report.VariantSet.PrintRows | usher_PDF_report.py:100-101 | the groups' rows are drawn in list order, each one row height below the previous |
| Report.VariantSet.TableIfHits | usher_PDF_report.py:91-102 | without matches nothing is drawn and the cursor's x is returned. Otherwise a header row with default widths is drawn, then the group rows below it, and the sum of the widths plus 15 is returned |
| Report.LongestIndex | usher_PDF_report.py:117-119 | `max(..., key=len)` picks a longest string, the first one among ties |
| Report.LongestIndexUnique | usher_PDF_report.py:117-119 | being a first longest string pins down the pick |
| Report.SampleRowsAt | usher_PDF_report.py:122-123 | row `i` of the per-sample table is sample `i`'s name, closest variant and label |
| Report.SampleSet.constructor | usher_PDF_report.py:107-108 | a new sample set is empty |
| Report.SampleSet.Add | usher_PDF_report.py:109-111 | the line is parsed as `ParseSample` states. A parsed sample is appended after the earlier entries, which are unchanged. A failing line adds nothing |
| Report.SampleColumnWidthsMeasure | usher_PDF_report.py:116-120 | each column width is 5 plus the regular 10-point width of one of that column's texts (names; neighbours or header texts; labels) that no other text of the column is longer than |
| Report.SampleSet.PrintSampleRows | usher_PDF_report.py:122-123 | one row per sample, in entry order, each one row height below the previous |
| Report.SampleSet.DrawSampleTable | usher_PDF_report.py:120-123 | the header row with the given widths, then the sample rows below it |
| Report.SampleSet.PerSampleTable | usher_PDF_report.py:112-123 | the table is drawn exactly when there are samples. With none, nothing is drawn and the cursor does not move. Otherwise the header row with the measured widths is drawn, then one row per sample |
| Report.SectionTitleReadsBack | usher_PDF_report.py:192-194 | a title starts with its prefix and `: `. It says `None found` exactly when nothing matched; otherwise the count is in decimal before ` samples` |
| Report.SectionTitleInjective | usher_PDF_report.py:192-194 | different counts give different titles |
| Report.Max | usher_PDF_report.py:214 | `max(endOfTable, endOfText)` is one of the two and no lower than either |
| Report.TableBesideText | usher_PDF_report.py:197-214 | the table starts at the cursor. The paragraph starts at the same height. Its x is the sum of the column widths plus 15, or the cursor's x when there is no table. The cursor ends at the left margin below whichever of the two ends lower |
| Report.ReportSection | usher_PDF_report.py:192-214 | a section draws its title first. The table and paragraph then start 10 units lower, as `TableBesideText` states |

## Left out

- usherFigs.py (the proportion chart) is not part of this model; the report script never calls it.
- File input and output are left out: reading the sample table, `pdf.output`, and the images of the page header.
- `date.today()` is left out.
- `txtWithUrl`, `cdc_link`, `header` and `footer` are left out. They write fixed text and links and do not take part in the section layout.
- Text and draw colours and the font family are not modelled. Only boldness, size and fill colour are.
- Page breaks are not modelled: fpdf's automatic page break would move the cursor to a new page. The canvas is one unbounded page.
- Floating-point rounding is not modelled. The frequency is the exact pair (hits, total), and the text `str(round(hits / total, 2))` is a function parameter `floatText`.
- Pdf.PDF.BuildTable: requires widths for a body row. Without them `map(None, text, False)` raises a `TypeError`, which no call in the script reaches; the model does not represent that error.
- `map(None, text, colWidths)` pads the shorter list with `None`. The model requires equal lengths, which every call in the script has.
- `ln(h='10')` passes a string, and fpdf then falls back to the last cell height. The model moves down 10 units, the height the call is evidently meant to use.
- Dictionary iteration order is not modelled. The watch-lists are sequences, and groups are built in sequence order; the `dict` literals of the script have no defined order in Python 2.
- The order in which `list(spikeMuts)` lists a set is left open: `Samples.ListOfSet` may pick any order.
- Exceptions are explicit results. A missing field and a malformed mutation token are `Err` values. `max` of an empty list makes `PerSampleTable` return `false` after setting the font.
- The loop that reads the sample file, skipping its header line, is not modelled. Each line reaches `SampleSet.Add` as a string.
- Report.VariantSet.TableIfHits: the body rows are those of the groups as they are when the table is drawn (`old(...)` in the contract). Drawing does not change the groups.
- Report.ReportSection: states the title mark, the intro mark and all positions, not the complete list of marks. The table's marks are stated by `VariantSet.TableIfHits` and the paragraph's by `PDF.PrintPar`.
- Report.TableBesideText: states the intro mark and the positions, not the complete list of marks, for the same reason.
