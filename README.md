# twish diff viewer — a Dafny model

twish is a two-pane text comparison page. The user pastes an original text
into the left pane and a modified text into the right pane. Compare then
snapshots both texts and renders a side-by-side, line-level diff. This
project models two parts of it:

- **The row aligner of `DiffView`.** A line-diff library turns the two texts
  into spans (`Change` objects). Each span is equal, added or removed, and
  carries a `value` and a `count`. `buildRows` turns the spans into a flat
  table of `DiffRow`s. Each column has its own line counter. A removed span
  immediately followed by an added span is zipped into `changed` rows. Around
  it are the statistics badges, the choice between "No differences found."
  and the table, and the red/green shading and "-"/"+" markers of each row.
- **The `DiffApp` state machine.** It has five state fields: both pane texts,
  both pane languages, and the snapshot of the last comparison. The handlers
  are Compare, Swap, Clear and the panes' value and language setters.

Files:

- `wrappers.dfy`: `Option`, for the source's `null` and `??`.
- `lines.dfy`: the line splitter `value.replace(/\n$/, "").split("\n")`.
- `changes.dfy`: the spans and the statistics reductions.
- `rows.dfy`: `DiffRow`, the specification `RowsOf`, and the loop
  `BuildRows` proved against it. The lemmas state reconstruction, numbering,
  well-formedness and the pairing rule.
- `diffview.dfy`: row classification, cells, badges, the rendered screen,
  and the agreement between the statistics and the markers.
- `languages.dfy`: the `Language` options of the selector.
- `diffapp.dfy`: the state as a value (`AppState`) with one function per
  handler, the lemmas about them, and the class `DiffApp` whose methods
  update the five fields.

The line-diff algorithm (`diffLines` of the `diff` package) is not part of
this model. Its output is the parameter `changes`.

Three behaviours of the code worth knowing:

- The statistics are sums of the library's span `count`s (DiffView.tsx
  lines 93-94). They are not counted over rows. `DiffView.StatsMatchMarks`
  proves the two agree whenever each count equals its span's number of
  split lines.
- A `changed` row can have one side missing, when the two spans of a pair
  have different lengths. Such rows keep the type `changed`.
- A span whose value is empty or a lone line feed gives one empty line,
  because `"".split("\n")` is `[""]`. It does not give zero lines.

## Model

| member | source | states |
|---|---|---|
| Lines.StripTrailingLF | src/components/app/DiffView.tsx:24 | removes exactly one trailing line feed when there is one, and otherwise leaves the value unchanged |
| Lines.Split | src/components/app/DiffView.tsx:24 | `split("\n")` never returns an empty array |
| Lines.SplitLines | src/components/app/DiffView.tsx:24-67 | every span value gives at least one line |
| Lines.SplitLinesJoin | src/components/app/DiffView.tsx:24-67 | the split lines contain no line feed, and joining them with line feeds gives back the value without its trailing line feed |
| Lines.SplitFree | src/components/app/DiffView.tsx:24 | no piece of a split contains the separator |
| Lines.JoinSplit | src/components/app/DiffView.tsx:24 | joining the pieces of a split gives back the string |
| Lines.SplitJoin | src/components/app/DiffView.tsx:24 | splitting a join of line-feed-free lines gives back those lines |
| Changes.OfKind | src/components/app/DiffView.tsx:93-94 | every span the `filter` keeps has the kind, and every span of the kind is kept; order and multiplicity are stated by `Changes.OfKindAppend` and `Changes.OfKindOne` |
| Changes.OfKindAppend | src/components/app/DiffView.tsx:93-94 | filtering a concatenation is concatenating the filtered parts, so the filter keeps order and multiplicity |
| Changes.OfKindOne | src/components/app/DiffView.tsx:93-94 | a single span is kept exactly when it has the kind; with `Changes.OfKindAppend` this fixes the filter's result |
| Changes.SumCounts | src/components/app/DiffView.tsx:93-94 | the `reduce` adding `count ?? 0`; `Changes.SumCountsZero` and `Changes.StatsAreSums` state its properties |
| Changes.Stats | src/components/app/DiffView.tsx:93-95 | the statistics pair; `Changes.StatsAreSums` and `Changes.StatsZero` state what it is |
| Changes.StatsAreSums | src/components/app/DiffView.tsx:93-94 | `stats.added` is the sum of `count ?? 0` over the added spans and `stats.removed` over the removed spans, for any counts |
| Changes.SumCountsZero | src/components/app/DiffView.tsx:93-94 | a `reduce` of `count ?? 0` is zero iff every count is missing or zero |
| Changes.StatsZero | src/components/app/DiffView.tsx:93-94 | `stats.added` (`stats.removed`) is zero iff no added (removed) span has a positive count, so both are 0 when there is no such span |
| Rows.EqualRows | src/components/app/DiffView.tsx:24-33 | one `equal` row per line of an equal span, both counters advancing; `Rows.PushEqual`, `Rows.BlockShape`, `Rows.Reconstruction` and `Rows.Numbering` state its properties |
| Rows.PairedRows | src/components/app/DiffView.tsx:37-50 | a replace pair zipped by index, the shorter side padded with nulls; `Rows.PushPaired` and `Rows.PairedShape` state its properties |
| Rows.RemovedRows | src/components/app/DiffView.tsx:54-63 | one left-only `removed` row per line; `Rows.PushRemoved` and `Rows.BlockShape` state its properties |
| Rows.AddedRows | src/components/app/DiffView.tsx:67-76 | one right-only `added` row per line; `Rows.PushAdded` and `Rows.BlockShape` state its properties |
| Rows.Block | src/components/app/DiffView.tsx:22-78 | the rows of one turn of the outer loop, by the four branches; `Rows.PushBlock`, `Rows.BlockShape` and `Rows.OneAhead` state its properties |
| Rows.RowsOf | src/components/app/DiffView.tsx:19-79 | the whole table from given counters; `Rows.BuildRows` computes it and `Rows.Reconstruction`, `Rows.Numbering` and `Rows.WellFormedRows` state its properties |
| Rows.Width | src/components/app/DiffView.tsx:34-77 | each turn of the loop consumes one or two spans and never runs past the end |
| Rows.BuildRows | src/components/app/DiffView.tsx:12-82 | the loop computes `RowsOf` of the spans from counters 1 and 1, its columns reproduce both sides and are numbered 1, 2, 3, ..., and every row is well formed |
| Rows.PushBlock | src/components/app/DiffView.tsx:20-78 | one turn of the outer loop appends the first block's rows, advances the index by the block's width and the counters by its lines |
| Rows.PushEqual | src/components/app/DiffView.tsx:24-34 | the loop over an equal span appends one equal row per line and advances both counters by the number of lines |
| Rows.PushPaired | src/components/app/DiffView.tsx:35-51 | the loop over a replace pair appends the zipped rows and advances each counter by its own side's line count |
| Rows.PushRemoved | src/components/app/DiffView.tsx:52-64 | the loop over an unpaired removed span appends one left-only row per line and advances only the left counter |
| Rows.PushAdded | src/components/app/DiffView.tsx:65-77 | the loop over an unpaired added span appends one right-only row per line and advances only the right counter |
| Rows.Reconstruction | src/components/app/DiffView.tsx:19-79 | the non-null `left` texts read in order are the split lines of every non-added span, and the `right` texts are those of every non-removed span |
| Rows.Numbering | src/components/app/DiffView.tsx:14-73 | over rows with a left (right) text, `leftLineNum` (`rightLineNum`) runs from the counter's start consecutively, one number per line of that side |
| Rows.IotaIndex | src/components/app/DiffView.tsx:14-15 | the numbering sequence holds the consecutive numbers from its start |
| Rows.WellFormedRows | src/components/app/DiffView.tsx:26-75 | in every row the text is null iff its number is, at least one side is present, equal rows show the same text on both sides, removed rows are left-only and added rows right-only |
| Rows.BlockTexts | src/components/app/DiffView.tsx:24-77 | a block shows in a column exactly the lines of the spans it consumes that belong to that column |
| Rows.BlockNums | src/components/app/DiffView.tsx:29-73 | a block numbers a column consecutively from the counter, once per line it shows there |
| Rows.PairedShape | src/components/app/DiffView.tsx:39-50 | a replace pair gives the larger of the two line counts rows, all `changed` |
| Rows.BlockShape | src/components/app/DiffView.tsx:22-78 | a removed span followed by an added span gives max-many changed rows and consumes two spans; otherwise one span is consumed, giving one equal, removed or added row per line |
| Rows.OneAhead | src/components/app/DiffView.tsx:35 | lookahead never exceeds one span: the first block and the counter advances depend on the first two spans only |
| DiffView.IsRemoved | src/components/app/DiffView.tsx:137 | `isRemoved`: the row is `removed` or `changed`; `DiffView.MarkerRule` states the marker it yields |
| DiffView.IsAdded | src/components/app/DiffView.tsx:138 | `isAdded`: the row is `added` or `changed`; `DiffView.MarkerRule` states the marker it yields |
| DiffView.Marked | src/components/app/DiffView.tsx:146-208 | a column is styled as a change iff its classification holds and its text is non-null; `DiffView.MarkerRule` and `DiffView.TableMarks` state its properties |
| DiffView.MarkerChar | src/components/app/DiffView.tsx:169-207 | the left marker is "-" and the right marker "+"; `DiffView.MarkerRule` states when each is drawn |
| DiffView.HasChanges | src/components/app/DiffView.tsx:98 | `hasChanges`: either statistic is positive; `DiffView.NoDifferencesIff` and `DiffView.TableBadges` state what it decides |
| DiffView.Badge | src/components/app/DiffView.tsx:113-122 | a badge shows its number only when positive; when counts are line counts, `DiffView.TableBadges` states it equals the marker count |
| DiffView.ScreenOf | src/components/app/DiffView.tsx:98-221 | the message or the table; `DiffView.Render`, `DiffView.NoDifferencesIff` and `DiffView.TableBadges` state its properties |
| DiffView.CellOf | src/components/app/DiffView.tsx:143-211 | a cell shows the row's number and text for its side, and a marker only next to a text |
| DiffView.MarkerRule | src/components/app/DiffView.tsx:137-208 | on a well-formed row the left column is marked "-" and shaded red iff the row is removed or changed with a left line, the right column is marked "+" and shaded green iff it is added or changed with a right line; equal rows are never marked, and a cell is blank iff it has no number |
| DiffView.TableMarks | src/components/app/DiffView.tsx:166-208 | the table built by the aligner (lines 19-79) has one "-" per line of the removed spans and one "+" per line of the added spans |
| DiffView.SumCountsIsLines | src/components/app/DiffView.tsx:93-94 | when counts are line counts, the reduction over one kind sums that kind's split lines |
| DiffView.StatsMatchMarks | src/components/app/DiffView.tsx:93-94 | when counts are line counts, `stats.removed` is the number of "-" markers and `stats.added` the number of "+" markers |
| DiffView.Render | src/components/app/DiffView.tsx:89-221 | the component shows "No differences found." iff both stats are 0 and `original === modified`, and the table otherwise |
| DiffView.NoDifferencesIff | src/components/app/DiffView.tsx:98-100 | "No differences found." is shown iff the texts are equal and no added or removed span has a positive count |
| DiffView.TableBadges | src/components/app/DiffView.tsx:111-124 | when counts are line counts, the "+N" and "-N" badges show the numbers of "+" and "-" markers when positive, "Identical" shows iff there is no marker, and there is one pair of cells per row |
| Languages.Code | src/components/app/LanguageSelector.tsx:4-12 | an option's `value`; `Languages.OptionsRoundTrip` states the values are distinct and select their language again |
| Languages.Label | src/components/app/LanguageSelector.tsx:4-12 | an option's `label`; `Languages.OptionsRoundTrip` states the labels are distinct |
| Languages.FromCode | src/components/app/LanguageSelector.tsx:3-15 | an option value that names a language names that language's code |
| Languages.OptionsRoundTrip | src/components/app/LanguageSelector.tsx:3-15 | every language is an option, option values are distinct, and a language's value selects it again |
| DiffApp.Compared | src/components/app/DiffApp.tsx:22-24 | the effect of `handleCompare`; `DiffApp.CompareShowsPanes` and `DiffApp.SwapCommutesWithCompare` state its properties |
| DiffApp.Swapped | src/components/app/DiffApp.tsx:26-35 | the effect of `handleSwap`; `DiffApp.SwapTwice`, `DiffApp.SwapResnapshots` and `DiffApp.SwapCommutesWithCompare` state its properties |
| DiffApp.Cleared | src/components/app/DiffApp.tsx:37-41 | the effect of `handleClear`; `DiffApp.ClearResets` and `DiffApp.InitialState` state its properties |
| DiffApp.LeftEdited | src/components/app/DiffApp.tsx:75 | the left pane's `onValueChange`; `DiffApp.EditLeavesSnapshot` states its properties |
| DiffApp.RightEdited | src/components/app/DiffApp.tsx:90 | the right pane's `onValueChange`; `DiffApp.EditLeavesSnapshot` states its properties |
| DiffApp.LeftLangSet | src/components/app/DiffApp.tsx:76 | the left pane's `onLanguageChange`; `DiffApp.LanguageIsDisplayOnly` states its properties |
| DiffApp.RightLangSet | src/components/app/DiffApp.tsx:91 | the right pane's `onLanguageChange`; `DiffApp.LanguageIsDisplayOnly` states its properties |
| DiffApp.OutputOf | src/components/app/DiffApp.tsx:101-111 | the diff view is shown iff there is a snapshot, and it shows the snapshot's texts; the hint is shown otherwise |
| DiffApp.InitialState | src/components/app/DiffApp.tsx:13-17 | the page starts with empty panes, plain-text languages, no diff and the hint |
| DiffApp.CompareShowsPanes | src/components/app/DiffApp.tsx:22-24 | Compare snapshots the current panes, changes nothing else, and is idempotent |
| DiffApp.SwapTwice | src/components/app/DiffApp.tsx:26-35 | swapping twice restores both texts and both languages, and restores the snapshot iff it was in sync with the panes |
| DiffApp.SwapResnapshots | src/components/app/DiffApp.tsx:31-34 | Swap leaves a missing snapshot missing and replaces a present one by (old right, old left), which is the new panes' own snapshot |
| DiffApp.SwapCommutesWithCompare | src/components/app/DiffApp.tsx:22-34 | comparing after a swap gives the same state as swapping after a compare |
| DiffApp.ClearResets | src/components/app/DiffApp.tsx:37-41 | Clear empties both texts and drops the snapshot, keeps both languages, and is idempotent |
| DiffApp.EditLeavesSnapshot | src/components/app/DiffApp.tsx:75-90 | an edit changes only its pane's text and keeps the snapshot, which goes stale unless the edit restores the text, until the next Compare |
| DiffApp.LanguageIsDisplayOnly | src/components/app/DiffApp.tsx:76-91 | a language change changes only its pane's language and never what is shown below the toolbar |
| DiffApp.DiffApp.constructor | src/components/app/DiffApp.tsx:13-17 | the five fields start at the initial state |
| DiffApp.DiffApp.Compare | src/components/app/DiffApp.tsx:22-24 | sets the snapshot to the current texts and changes no other field |
| DiffApp.DiffApp.Swap | src/components/app/DiffApp.tsx:26-35 | exchanges texts and languages, and re-snapshots only when a snapshot exists |
| DiffApp.DiffApp.Clear | src/components/app/DiffApp.tsx:37-41 | empties both texts and drops the snapshot, keeping the languages |
| DiffApp.DiffApp.EditLeft | src/components/app/DiffApp.tsx:75 | changes only the left text |
| DiffApp.DiffApp.EditRight | src/components/app/DiffApp.tsx:90 | changes only the right text |
| DiffApp.DiffApp.SetLeftLang | src/components/app/DiffApp.tsx:76 | changes only the left language |
| DiffApp.DiffApp.SetRightLang | src/components/app/DiffApp.tsx:91 | changes only the right language |
| DiffApp.DiffApp.Output | src/components/app/DiffApp.tsx:101-111 | shows the snapshot's diff iff there is a snapshot |

## Left out

- `diffLines` from the `diff` package: its code is not part of this model. Its spans are a parameter.
- `diffLines` is also assumed to report, as each added or removed span's `count`, that span's number of split lines. This is `DiffView.CountsAreLines`, a precondition of `DiffView.SumCountsIsLines`, `DiffView.StatsMatchMarks` and `DiffView.TableBadges` only. Without it a badge can differ from the table: a single added span `"a\nb"` with count 1 shows "+1" above two "+" rows.
- Properties that depend on the diff algorithm are not stated. These include equal texts giving only equal rows, mirror consistency when the operands are swapped, and minimality.
- JSX markup, Tailwind classes and table layout. Shading is kept as three values: highlighted, plain and blank.
- The "line"/"lines" plural and the number formatting in the badges are presentation and are left out.
- `useMemo` caching: it has no behaviour of its own.
- A span kind is one of equal, added and removed. The source's two booleans `added` and `removed` could both be true, which would send the span down the removed branches of `buildRows` and count it in both statistics; `diffLines` never produces such a span, so the model does not represent it.
- `EditorPanel.tsx` is not part of this model. It covers file loading (I/O), drag and drop (UI) and the CodeMirror language packages.
- The keyboard listener (DiffApp.tsx lines 44-59) is left out. It only calls Compare and Clear, which are modelled.
- The `focusedPanel` ref is left out. It is written but never read.
- `astro.config.ts`: build and PWA configuration.
- Numbers are unbounded. JavaScript's line counters would lose precision only past 2^53 lines.
