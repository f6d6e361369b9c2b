# Subtensor tooling and metering, modelled in Dafny

This project models the parts of the Subtensor repository that have real loops, shared state or
budget arithmetic, and proves what they keep over every input and every run.

* **Weight-file merge** (`scripts/benchmark_action.py`). Two hand-written scanners find matching
  braces and signature ends in Rust text; a span finder attaches blank, doc and attribute lines to
  functions; `patch_section` splices generated functions into a committed section. The scanners
  are loops over a mode; they are proved against a recursive scan, and the scan against a token
  grammar that does not mention it. The merge is proved on the segmentation of a section body into
  gaps and functions: frame, exactly-once, both orders, idempotence, composition, change count.
* **Benchmark selection** (same file): selector lists, pallet rows, benchmark rows, measured merge.
* **Gas and weight metering** (`precompiles/src/extensions.rs`): check, reserve, dispatch, charge,
  refund on a mutable handle, for an arbitrary outcome of the dispatched call, one call and whole
  frames.
* **Budgeted deletion** (`common/src/lib.rs`): `clear_prefix_with_meter`, once and over many blocks.
* **Shared timestamp source** (`node/src/service.rs`): an atomic counter as a read and
  compare-and-swap protocol, under every interleaving.
* **Summed alpha price** (`precompiles/src/alpha.rs`): saturating fixed point and staged read charges.
* **Raw-spec patch** (`node/src/clone_spec.rs`): inserts, removals and prefix removals on the raw state.
* **Run selection** (`scripts/apply_benchmark_patch.py`): the newest real benchmark attempt.

`dafny verify dfyconfig.toml` checks the whole project.

## How the modules build on each other

| modules | content |
|---|---|
| `RustLexer`, `ScanGrammar`, `ScanTheorems`, `Literals`, `Scanners`, `Seams` | token grammar, scan, agreement of the two, what is passed over, loops, seams between texts |
| `Spans`, `Sections`, `SectionSearch`, `SectionMoves`, `FileSlots` | doc lines, items, tiling, `find_section`, the same body at another position, the search in a file whose sections move |
| `Merge`, `MergePlaces`, `MergeFrame`, `MergeOnce`, `MergeOrder`, `MergeCompose`, `MergeUnshared`, `ComposeText`, `ChangeCount` | the merge on pieces and its theorems |
| `PatchText`, `PatchMethod`, `Reassembly`, `PatchTheorems`, `NestedFunctions` | the merge on file text: the imperative `patch_section`, what it promises and where it does not |
| `Ordering`, `Selectors`, `BenchmarkSelection` | selection lists |
| `MeasuredMerge`, `MeasuredFile` | the measured merge, on segmentations and on one file |
| `Weights`, `Metering`, `MeteringTheorems`, `PrefixClearing`, `AlphaPrice` | weights, the handle, the weight meter, prices |
| `TimestampSource`, `RawSpec`, `ClonePatch`, `CloneTheorems`, `RunSelection` | the remaining components |

## Properties with a condition

Six properties that one may expect of the code hold only under a condition. Each is proved
together with its exact condition.

* **Patching with targets `a` and then with `b` writes the same text as patching with both.** It
  does if and only if the committed and generated sections share a name, or `a` inserts something,
  or the gaps that `a` leaves behind its last survivor and the texts that `b` adds commute as
  strings (`ComposeText.TextComposesIff`). Otherwise the functions that `b` adds land before those
  gaps instead of behind them. On segmentations the condition is that a name is shared, or `a`
  inserts something, or `b` inserts nothing, or `a` keeps the last function
  (`MergeUnshared.ComposesIff`). The order of the functions composes in every case
  (`MergeUnshared.OrderComposes`).
* **Generated names come out in generated order.** They do if and only if both sections list their
  common names in the same order (`MergeOrder.GeneratedOrderIff`).
* **Item spans tile the section body.** They do if and only if no function reaches past the body or
  the next header and some line that is neither blank, doc comment nor attribute separates
  neighbours (`Sections.TilesIff`); a last line that starts with neither `///` nor `#[` is such a
  line.
* **Patching with nothing to do returns the file as it was, and a count of zero means an unchanged
  file.** With no targets, or with every target already in place, the count is always zero and the
  file comes back as it was if and only if the item spans tile the body; otherwise it comes back
  longer (`PatchTheorems.SettledTextIff`, `PatchTheorems.NoTargetsNoChange`). A count of zero means
  an unchanged file if and only if the spans tile the body or something is left to do
  (`PatchTheorems.CountIsZeroIff`). For a section that was found both conditions speak about its
  functions (`SectionSearch.FoundKeepsIff`). A function inside another breaks them: the text behind
  its start is written twice, with a count of zero (`NestedFunctions.NestedIsRepeated`).
* **A successful `select_benchmarks` runs every requested extrinsic.** A request is run if and only
  if a pallet that asks for it lists it itself (`BenchmarkSelection.CoveredIff`). Rows from
  `select_pallets` always meet this (`BenchmarkSelection.PipelineCovers`); rows with different
  selectors need not (`BenchmarkSelection.MixedSelectorsCanLose`).
* **Synthetic timestamps increase strictly.** They do if and only if the last but one is below the
  largest u64 (`TimestampSource.IncreasingUntilSaturation`).

## Model

| member | source | states |
|---|---|---|
| `ScanGrammar.ScanSound` | scripts/benchmark_action.py:142-300 | whatever a scanner has passed over is a sequence of complete comments, literals and code characters in which the accepted character is the first that hits |
| `ScanGrammar.ScanComplete` | scripts/benchmark_action.py:142-300 | conversely, any text with such a lexing makes the scanner stop at its last character |
| `ScanGrammar.SkippedIsToken` | scripts/benchmark_action.py:153-217 | a comment or literal that is skipped is complete and contains its own terminator nowhere but at its end |
| `ScanGrammar.TokenIsSkipped` | scripts/benchmark_action.py:153-217 | a complete comment, string, char or raw string with any hash count is skipped whole |
| `ScanTheorems.ScanIsGrammatical` | scripts/benchmark_action.py:142-300 | a scanner returns `k` if and only if the text up to `k` is grammatical; it fails if and only if no prefix of the rest is |
| `ScanTheorems.ScanIsLocal` | scripts/benchmark_action.py:142-300 | the answer depends only on the characters up to it, despite the look-ahead, and moves with them: the same window at another offset of any other text gives the shifted answer |
| `ScanTheorems.LexingIsUnique` | scripts/benchmark_action.py:142-300 | a text has at most one lexing, so "code character" is well defined |
| `ScanTheorems.AcceptsIsFirstHit` | scripts/benchmark_action.py:218-226 | acceptance token by token is the same as: the last code character hits and no earlier one does |
| `ScanTheorems.FirstHitIsEnclosed` | scripts/benchmark_action.py:218-226 | started on `{`, the first hit is where the depth over code braces returns to zero for the first time |
| `ScanTheorems.MatchingBraceIs` | scripts/benchmark_action.py:142-226 | on an opening brace the result is exactly the end of that brace's own block, braces in comments and literals not counted |
| `ScanTheorems.SignatureEndIs` | scripts/benchmark_action.py:229-300 | the result is exactly the first `{` or `;` in code position at which every parenthesis and bracket since the start is closed |
| `ScanTheorems.ExcessCounts` | scripts/benchmark_action.py:218-226 | the depth is the number of opening characters minus the number of closing ones |
| `Literals.LineCommentIsSkipped` | scripts/benchmark_action.py:153-157 | `//` and everything up to the next line end is passed over |
| `Literals.BlockCommentIsSkipped` | scripts/benchmark_action.py:159-165 | `/*` and everything up to the first `*/` is passed over, without nesting |
| `Literals.QuotedIsSkipped` | scripts/benchmark_action.py:167-185 | a string or character literal is passed over up to its first quote that no backslash escapes |
| `Literals.RawStringIsSkipped` | scripts/benchmark_action.py:187-193 | a raw string with any number of hashes is passed over up to the first quote followed by as many |
| `Scanners.SkipStep` | scripts/benchmark_action.py:153-193 | one turn inside a comment or literal moves on and leaves the final answer unchanged |
| `Scanners.OpenStep` | scripts/benchmark_action.py:195-217 | the opener tests, in source order, enter a mode from which the answer is the scan's |
| `Scanners.ScanForBrace` | scripts/benchmark_action.py:142-226 | the loop with its depth counter and state computes the scan for the matching brace |
| `Scanners.ScanForTerminator` | scripts/benchmark_action.py:229-300 | the loop with its two depth counters computes the scan for the end of a signature |
| `Scanners.FindMatchingBrace` | scripts/benchmark_action.py:142-226 | returns the closing brace of the block that opens at the index, or fails when no block opens there; from any other index the end of a grammatical text |
| `Scanners.FindSignatureTerminator` | scripts/benchmark_action.py:229-300 | returns the `{` or `;` that ends the signature, and its index, or fails when no signature starts there |
| `Seams.LexingsJoin` | scripts/benchmark_action.py:142-226 | lexings of two texts join when no opener can run across the seam |
| `Seams.ClosedBodyIsMatched` | scripts/benchmark_action.py:142-226 | a body of whole tokens with balanced braces is closed by the brace right after it |
| `Seams.SpliceIsMatched` | scripts/benchmark_action.py:438-444 | a closed body spliced between the braces of a section is matched by the section's closing brace |
| `Spans.IncludeLeadingDocs` | scripts/benchmark_action.py:303-314 | the start returned begins the maximal run of lines above the header that are blank or begin with `///` or `#[` behind white space |
| `Spans.AttachedIff` | scripts/benchmark_action.py:308-311 | a line belongs to the function below if and only if it is all white space or its first other characters are `///` or `#[` |
| `Spans.IndentedLines` | scripts/benchmark_action.py:308-311 | under any indentation doc comments, attributes and blank lines belong to the function below, plain comments and code do not |
| `Spans.LeadingRunIs` | scripts/benchmark_action.py:303-314 | that maximal run is unique: the loop's answer is its start and nothing else is |
| `Sections.FindCodeEnd` | scripts/benchmark_action.py:330-334 | the two scans in a row find where the function ends |
| `Sections.CodeEndIs` | scripts/benchmark_action.py:330-334 | that is behind the `;` of the signature, or behind the block that the `{` of the signature opens |
| `Sections.ParseItem` | scripts/benchmark_action.py:327-336 | one header yields its name, its span and the text of the span, or the scanners' failure |
| `Sections.ItemIff` | scripts/benchmark_action.py:327-336 | an item is exactly the name, the maximal run of doc lines above, the function to its end and a newline behind it inside the body |
| `Sections.ParseItems` | scripts/benchmark_action.py:323-338 | every header yields its item in order, unless some scan fails |
| `Sections.DisjointIff` | scripts/benchmark_action.py:303-338 | two neighbouring spans are disjoint if and only if a separating line stands between them |
| `Sections.TilesIff` | scripts/benchmark_action.py:323-338 | the spans are ordered, disjoint and inside the body if and only if the functions stay apart |
| `Sections.EndingLineFences` | scripts/benchmark_action.py:303-338 | a function whose last line starts with neither `///` nor `#[` is kept apart from the next |
| `SectionSearch.FindSection` | scripts/benchmark_action.py:341-360 | the body runs from the first brace of the match to its matching brace with all its items; a missing section is an error only when required; other failures mean that a scan failed |
| `SectionSearch.FoundIsTiledIff` | scripts/benchmark_action.py:323-360 | a found section is tiled if and only if its functions stay apart |
| `SectionSearch.FoundKeepsIff` | scripts/benchmark_action.py:323-444 | for a found section: no targets return the file as it was if and only if its functions stay apart, and the count tells an unchanged file from a changed one if and only if they do or something is left to do |
| `SectionSearch.PlainSectionReassembles` | scripts/benchmark_action.py:303-338 | functions that do not nest, end inside the body and end on a line that starts with neither `///` nor `#[` yield gaps and items that concatenate back to the body |
| `SectionMoves.CodeEndMoves` | scripts/benchmark_action.py:329-334 | where a function ends depends on its own text alone |
| `SectionMoves.LeadingMoves` | scripts/benchmark_action.py:303-314 | where its doc lines begin depends on the body alone |
| `SectionMoves.ItemsMoveIff` | scripts/benchmark_action.py:323-338 | a body at any position of any text yields exactly its own items, moved by the position |
| `SectionMoves.PiecesMove` | scripts/benchmark_action.py:404-432 | and its own segmentation |
| `MergePlaces.BeforeIs` | scripts/benchmark_action.py:384-400 | what stands before an anchor is the missing targets between the previous live name and it, in generated order |
| `MergePlaces.AfterIs` | scripts/benchmark_action.py:384-400 | only the last live name has inserts behind it, namely all missing targets that follow it |
| `MergePlaces.TailIs` | scripts/benchmark_action.py:384-400 | the tail list is used if and only if no generated name is live |
| `MergeFrame.PatchedFrame` | scripts/benchmark_action.py:404-444 | every gap and every function that is not a target survives unchanged and in order |
| `MergeFrame.PatchedTexts` | scripts/benchmark_action.py:414-418 | every target in the result carries its generated text |
| `MergeFrame.PatchedNames` | scripts/benchmark_action.py:370-444 | the names are the old ones that are not targets and the targets that were generated |
| `MergeFrame.UnchangedIsSettled` | scripts/benchmark_action.py:404-444 | the segmentation is left alone if and only if the targets present are the generated ones with generated text |
| `MergeFrame.PatchedIsIdempotent` | scripts/benchmark_action.py:404-444 | patching again with the same targets and generated section changes nothing |
| `MergeOnce.PatchedOnce` | scripts/benchmark_action.py:370-444 | distinct names in both sections give distinct names in the result |
| `MergeOrder.CommittedOrderKept` | scripts/benchmark_action.py:404-432 | the surviving committed names stand in committed order, whatever is inserted |
| `MergeOrder.GeneratedOrderIff` | scripts/benchmark_action.py:372-432 | the generated names come out in generated order if and only if both sections list their common names in the same order |
| `MergeCompose.RunComposes` | scripts/benchmark_action.py:384-424 | a run of targets inserted in front of an anchor, re-expanded for further targets, is the run inserted for both |
| `MergeCompose.AnchorComposes` | scripts/benchmark_action.py:404-424 | one committed function patched for `a` and then `b` is patched for both, inserts included |
| `MergeCompose.SharedComposes` | scripts/benchmark_action.py:363-444 | with a shared name, patching with `a` and then `b` equals patching with both |
| `MergeUnshared.ComposesIff` | scripts/benchmark_action.py:363-444 | the exact condition for composition of segmentations in which a gap precedes the last function, which those of a file always are; the condition on the text is `ComposeText.TextComposesIff` |
| `MergeUnshared.OrderComposes` | scripts/benchmark_action.py:363-444 | the order of the functions composes in every case |
| `ComposeText.TwoOrders` | scripts/benchmark_action.py:427-432 | without a shared name and when the first targets insert nothing, the two results differ only in the order of the gaps left behind and the functions added |
| `ComposeText.TextComposesIff` | scripts/benchmark_action.py:363-444 | for all sections and targets, two patches write the same text as one if and only if a name is shared, the first targets insert something, or the gaps left behind and the texts added commute |
| `ComposeText.NothingMoves` | scripts/benchmark_action.py:427-432 | they commute when the first targets keep the last function or the second add nothing |
| `ComposeText.TailMovesInText` | scripts/benchmark_action.py:427-432 | the smallest failing family, with both texts written out: one function is deleted, then one is added |
| `PatchText.TilesFlatten` | scripts/benchmark_action.py:404-432 | gaps and items of a tiled body concatenate back to the body |
| `PatchText.PiecesShape` | scripts/benchmark_action.py:404-432 | the segmentation of a file alternates, ends with a gap and lists the items' names |
| `PatchText.ZeroChangesIsIdentity` | scripts/benchmark_action.py:404-444 | a change count of zero means that every piece came through as it was |
| `PatchMethod.FindPlace` | scripts/benchmark_action.py:386-402 | the two anchor searches find the next live name, else the previous one, else the tail |
| `PatchMethod.PlanInserts` | scripts/benchmark_action.py:378-402 | the three dictionaries hold, for every anchor, exactly the missing targets placed there |
| `PatchMethod.PatchSelf` | scripts/benchmark_action.py:414-422 | a committed function is kept, replaced or dropped, and counted when it changes |
| `PatchMethod.PatchItem` | scripts/benchmark_action.py:408-426 | one function: its inserts, itself, its inserts are appended and its changes counted |
| `PatchMethod.PatchNext` | scripts/benchmark_action.py:408-427 | one turn of the main loop extends text and count by a gap and a function |
| `PatchMethod.PatchItems` | scripts/benchmark_action.py:404-427 | the main loop over the committed items emits the expansion of all pieces up to the cursor |
| `PatchMethod.PatchBody` | scripts/benchmark_action.py:370-434 | the new body is the merge of the segmentation, the count is its number of changes |
| `PatchMethod.PatchSection` | scripts/benchmark_action.py:363-444 | the file is rewritten inside the body only; a missing section or an unchanged body returns the input and zero |
| `Reassembly.ReassemblesIff` | scripts/benchmark_action.py:404-432 | the gaps and items of any parsed section concatenate back to its body if and only if the items tile it |
| `Reassembly.ParsedIsSliced` | scripts/benchmark_action.py:323-338 | every item of a parsed section is a non-empty slice of the text that starts in the body |
| `PatchTheorems.ChangesAreZeroIff` | scripts/benchmark_action.py:404-432 | no change is counted if and only if every target present is generated and has its generated text, and every generated target is present |
| `PatchTheorems.SettledTextIff` | scripts/benchmark_action.py:404-444 | when nothing is left to do the count is zero, and the file comes back as it was if and only if the items tile the body |
| `PatchTheorems.CountIsZeroIff` | scripts/benchmark_action.py:434-444 | an unchanged file has count zero; count zero means an unchanged file if and only if the items tile the body or something is left to do |
| `PatchTheorems.NoTargetsNoChange` | scripts/benchmark_action.py:363-444 | an empty target list returns zero, and the input text if and only if the items tile the body |
| `PatchTheorems.NoTargetsLonger` | scripts/benchmark_action.py:404-444 | where the items do not tile the body, an empty target list returns a longer file |
| `PatchTheorems.OverlapRepeats` | scripts/benchmark_action.py:404-444 | of two overlapping items the overlap and what follows is written twice, with count zero |
| `NestedFunctions.NestedIsRewritten` | scripts/benchmark_action.py:323-444 | a function that begins inside the one before it makes the file longer even with no targets, with count zero |
| `NestedFunctions.SectionEnds` | scripts/benchmark_action.py:341-360 | a short text with one function inside another is one section, closed by its last brace |
| `NestedFunctions.NestedIsParsed` | scripts/benchmark_action.py:323-338 | in it `parse_items` finds the outer function and the inner one inside it |
| `NestedFunctions.NestedIsRepeated` | scripts/benchmark_action.py:404-444 | patching it with no targets returns it with its second half repeated, and zero |
| `PatchTheorems.PatchedIsClosed` | scripts/benchmark_action.py:404-444 | merging pieces of whole tokens with balanced braces gives such a body |
| `PatchTheorems.PatchedSectionIsFound` | scripts/benchmark_action.py:341-360 | in the patched file the section's opening brace is matched right after the new body |
| `ChangeCount.ChangesAreCounted` | scripts/benchmark_action.py:404-432 | with distinct names the count is the number of functions inserted plus deleted plus rewritten |
| `PatchTheorems.CountIs` | scripts/benchmark_action.py:404-444 | the returned count is zero for an unchanged file and otherwise the number of functions inserted, deleted and rewritten |
| `PatchTheorems.LookupIsText` | scripts/benchmark_action.py:371 | of several generated functions with one name the last gives the text |
| `MeasuredMerge.HasDuplicates` | scripts/benchmark_action.py:496-497 | the length comparison detects exactly the lists with a repetition |
| `MeasuredMerge.Validate` | scripts/benchmark_action.py:488-508 | the validation pass succeeds if and only if every section is there where required and measures exactly the targets, each once |
| `MeasuredMerge.FitIff` | scripts/benchmark_action.py:491-508 | a section is fit if and only if it is there where it must be and its generated functions neither repeat, lack nor add a name |
| `MeasuredMerge.MergeMeasured` | scripts/benchmark_action.py:475-513 | all or nothing on segmentations: it succeeds if and only if the names are explicit and every section passes, by the list of its functions; then every section keeps its functions in order and gains exactly the targets, with their generated text |
| `MeasuredMerge.AcceptedIsUpsert` | scripts/benchmark_action.py:488-513 | whatever passes the validation loses no function in any section |
| `MeasuredMerge.MergedIsUpsert` | scripts/benchmark_action.py:509-513 | a merged section has the old names and the targets, deletes nothing, keeps the old order, gives every target its generated text and leaves all else |
| `MeasuredMerge.MergedAgain` | scripts/benchmark_action.py:509-513 | merging the same measurements again changes nothing |
| `FileSlots.FoundInPlace` | scripts/benchmark_action.py:341-360 | wherever the earlier sections have moved it, a section is found in the whole text: its brace is matched, its items are those of its body, moved, and tile it if and only if they tiled the body |
| `FileSlots.FoundIsSlot` | scripts/benchmark_action.py:341-360 | whatever the search returns for a match that opens at the section is that section |
| `FileSlots.FindSlot` | scripts/benchmark_action.py:341-360 | the search in the whole text succeeds and returns exactly the section of the body, or the error for a missing required one |
| `FileSlots.PatchReplaces` | scripts/benchmark_action.py:438-444 | patching a section of the whole text replaces its body and nothing else |
| `MeasuredFile.StillLaid` | scripts/benchmark_action.py:509-510 | patching some sections leaves the body and the braces of every other section as they were |
| `MeasuredFile.MergeOne` | scripts/benchmark_action.py:363-444 | one call searches the section in the current text and replaces its body by the merge, or fails when a required section is missing |
| `MeasuredFile.MergeFile` | scripts/benchmark_action.py:509-510 | the loop of `patch_section` calls on one text, each with its own search, replaces every body by the merge of its first content, or fails when a required section is missing |
| `MeasuredFile.FindAll` | scripts/benchmark_action.py:491-492 | the searches of the validation pass find all sections, or fail when a required one is missing |
| `MeasuredFile.MergeMeasuredFile` | scripts/benchmark_action.py:475-513 | all or nothing on one file, from the searches through the validation to the patches: it succeeds if and only if the names are explicit and every section passes; then the file differs in the bodies of its sections and nowhere else |
| `MeasuredFile.EachMergedAlone` | scripts/benchmark_action.py:509-510 | each section of the new file is the merge of its own old body, as if it stood alone; one without a generated section is left alone |
| `MeasuredFile.WrittenIsUpsert` | scripts/benchmark_action.py:488-513 | when a file is written, every section that was there is an upsert of its own old functions |
| `Selectors.FieldsOfJoin` | scripts/benchmark_action.py:25 | splitting at commas and white space undoes joining with commas |
| `Selectors.ParseIs` | scripts/benchmark_action.py:21-31 | a blank value or a lone `*` selects everything; anything else fails if it has no field or one that is no name, and otherwise gives exactly its fields, ascending |
| `Selectors.AnySeparator` | scripts/benchmark_action.py:25 | commas, blanks, tabs and line ends separate fields, alone or in a row |
| `Selectors.HyphensOnly` | scripts/benchmark_action.py:28 | the two kinds of names differ in hyphens alone |
| `Selectors.ParsedIsNormalised` | scripts/benchmark_action.py:21-31 | a parsed selection is everything, or an ascending list without repetition of valid names, the same names as in the input |
| `Selectors.RoundTrip` | scripts/benchmark_action.py:21-31 | parsing the comma-joined text of a normalised selection gives it back |
| `Selectors.ParseIsIdempotent` | scripts/benchmark_action.py:21-31 | parsing the joined output of a parse gives the same list |
| `BenchmarkSelection.CheckListing` | scripts/benchmark_action.py:38-53 | the discovery listing is accepted if and only if all rows are well formed and no pallet repeats; the dictionary holds exactly its rows |
| `BenchmarkSelection.DirOfIff` | scripts/benchmark_action.py:47-49 | a path is accepted if and only if it is the weights file of one directory below `pallets/`, which it then yields |
| `BenchmarkSelection.AnswersIff` | scripts/benchmark_action.py:51-63 | a requested name means the pallet of that name or the one whose weights file lies in that directory |
| `BenchmarkSelection.SelectPallets` | scripts/benchmark_action.py:34-67 | one row for each pallet that a requested name or directory selects, in order, all with the same selectors; every failure condition |
| `BenchmarkSelection.CheckSelection` | scripts/benchmark_action.py:74-86 | the selection is accepted if and only if rows are well formed, selectors parse and no pallet repeats |
| `BenchmarkSelection.CheckUnknown` | scripts/benchmark_action.py:104-108 | the check fires if and only if some requested extrinsic is listed by no selected pallet |
| `BenchmarkSelection.MatchRows` | scripts/benchmark_action.py:110-116 | the rows are the pallets with something to run, in order, each with what it runs |
| `BenchmarkSelection.SelectBenchmarks` | scripts/benchmark_action.py:70-121 | the rows on success, and failure if and only if one of the checks fails |
| `BenchmarkSelection.RowsAre` | scripts/benchmark_action.py:110-120 | a pallet that asks for everything is run as `*`; another is run if and only if it lists something it asks for, with just those extrinsics and its own path |
| `BenchmarkSelection.RunsAreSelected` | scripts/benchmark_action.py:74-116 | every row that is run has the pallet and the weights file of a selected row and no extrinsic that row does not ask for |
| `BenchmarkSelection.CoveredIff` | scripts/benchmark_action.py:104-120 | an explicit extrinsic is run if and only if a pallet that asks for it lists it itself |
| `BenchmarkSelection.EmittedIsListed` | scripts/benchmark_action.py:110-120 | every explicit pair that is emitted is in the runtime's listing |
| `BenchmarkSelection.PipelineCovers` | scripts/benchmark_action.py:56-120 | on rows from `select_pallets`, success means that every explicitly requested extrinsic is run by some row |
| `BenchmarkSelection.PalletRowsAreValid` | scripts/benchmark_action.py:66-86 | the rows of `select_pallets` always pass the row checks of `select_benchmarks` |
| `BenchmarkSelection.MixedSelectorsCanLose` | scripts/benchmark_action.py:104-116 | two valid rows with different selectors pass every check, so that `select_benchmarks` succeeds, and a requested extrinsic is run by no row |
| `Metering.FixedIsLawful` | vendor/frontier/frame/evm/src/lib.rs:1043-1068 | the fixed mapping never prices a weight above the gas it is worth, with saturation and rounding |
| `Metering.Handle.constructor` | vendor/frontier/frame/evm/src/runner/stack.rs:1712-1750 | a handle starts from a given frame |
| `Metering.Handle.RecordCost` | precompiles/src/extensions.rs:156-164 | a charge that fits is added; one that does not exhausts the frame |
| `Metering.Handle.RecordExternalCost` | vendor/frontier/primitives/evm/src/lib.rs:120-164 | reference time, then proof size; it succeeds if and only if every counter there is has room; the first without room is left at its limit and ends the recording |
| `Metering.Handle.RefundExternalCost` | vendor/frontier/primitives/evm/src/lib.rs:166-178 | both counters go down, not below zero |
| `Metering.Handle.ChargeAndRefund` | precompiles/src/extensions.rs:193-222 | gas for the actual weight, then a refund of what was declared beyond it; no refund when the charge fails |
| `Metering.Handle.DispatchWithInfo` | precompiles/src/extensions.rs:136-191 | the new frame and the exit for every outcome; the call runs if and only if the gas left is worth its declared reference time and both counters have room for what it declares |
| `Metering.Handle.TryDispatchStakeExit` | precompiles/src/extensions.rs:101-132 | a call with declared walks records the list read first and dispatches the reduced weight |
| `Metering.Handle.RecordDbReads` | precompiles/src/extensions.rs:39-45 | a saturating product of read cost and count is charged |
| `MeteringTheorems.ReservesIff` | vendor/frontier/primitives/evm/src/lib.rs:120-164 | a reservation succeeds if and only if each counter is missing or has room |
| `MeteringTheorems.ReserveLeaves` | vendor/frontier/primitives/evm/src/lib.rs:120-164 | it leaves both counters grown, or the first without room at its limit and the other as it was or recorded |
| `MeteringTheorems.RunsIff` | precompiles/src/extensions.rs:136-191 | when a call is run, as inequalities on gas, limits and usages |
| `MeteringTheorems.StakeExitRunsIff` | precompiles/src/extensions.rs:101-132 | a stake exit is run if and only if there is room for the list read and then for the reduced weight, and gas for the latter |
| `MeteringTheorems.ActualIsCapped` | precompiles/src/extensions.rs:204 | the weight charged is the largest within both the declared and the reported one, component by component; a call that reports nothing is charged what it declared |
| `MeteringTheorems.DispatchIsPaidFor` | precompiles/src/extensions.rs:136-222 | a call that ran can always be paid for, in success and failure; the external counters grow by exactly the actual weight; a failed check spends all gas, runs nothing and reserves nothing |
| `MeteringTheorems.StakeExitIsPaidFor` | precompiles/src/extensions.rs:101-132 | the same for stake exits: an unaffordable list read runs nothing and spends no gas, a failed check keeps the read, spends all gas and runs nothing, a failed reservation runs nothing and spends no gas, a call that ran grows the counters by the read and the actual weight |
| `MeteringTheorems.SizedPassesToo` | precompiles/src/extensions.rs:121-130 | reducing the declared weight never turns a passing check into a failing one |
| `MeteringTheorems.RunStaysInLimit` | precompiles/src/extensions.rs:136-222 | over any sequence of dispatches gas stays within the limit and covers every call that ran |
| `MeteringTheorems.RunGasIsTheSum` | precompiles/src/extensions.rs:148-222 | when all calls pass the check, the gas used is exactly the sum over the calls that ran; a failed reservation costs no gas |
| `MeteringTheorems.RunIsTheSum` | precompiles/src/extensions.rs:148-222 | when all calls run, gas used and both net external costs are exactly the sums over the calls |
| `MeteringTheorems.FrameChargeIsClose` | precompiles/src/extensions.rs:148-222 | when all calls pass the check and `k` of them run, `W` times the gas charged is at most the reference time used and at least that minus `k` times `W - 1` |
| `PrefixClearing.WeightMeter.Consume` | common/src/lib.rs:357 | consumption adds up, saturating |
| `PrefixClearing.Prefix.Clear` | common/src/lib.rs:356 | up to the limit is removed and a cursor remains exactly when entries do |
| `PrefixClearing.AffordableNoneIff` | common/src/lib.rs:346-348 | the division yields nothing if and only if an item weighs nothing in both components |
| `PrefixClearing.AffordableIff` | common/src/lib.rs:346-348 | `k` items fit the budget in both components if and only if `k` is within the quotient |
| `PrefixClearing.AllowanceIff` | common/src/lib.rs:346-354 | one call may remove `k` items if and only if they weigh something, the budget pays for them in both components and a u32 counts them |
| `PrefixClearing.ChargeFits` | common/src/lib.rs:346-357 | no charge within the allowance saturates or passes the meter's limit |
| `PrefixClearing.ClearPrefixWithMeter` | common/src/lib.rs:341-360 | removes at least any number of entries that the budget pays for, or all, and none when an item weighs nothing; charges each once, stays within the meter, and reports true if and only if nothing is left and one item could be paid |
| `PrefixClearing.RunBlock` | common/src/lib.rs:341-360 | one block with a fresh meter |
| `PrefixClearing.RunCleanup` | common/src/lib.rs:341-360 | over any sequence of blocks the total charge is the per-item weight times the entries removed |
| `PrefixClearing.CleanupCompletes` | common/src/lib.rs:341-360 | the cleanup reports completion in the first block that may remove something and by which the allowances add up to all entries, and in no other |
| `PrefixClearing.UniformCleanup` | common/src/lib.rs:341-360 | with the same allowance `c` in every block, `n` entries take exactly max(1, ceil(n / c)) calls |
| `TimestampSource.StepTicks` | node/src/service.rs:820-826 | every step of every caller keeps the timestamps in step with the counter |
| `TimestampSource.OneStampPerSwap` | node/src/service.rs:820-826 | a run hands out one timestamp per successful swap |
| `TimestampSource.EveryInterleavingTicks` | node/src/service.rs:798-828 | every interleaving hands out start + slot, start + 2 slot, ... in the order of the swaps, held at the largest u64 |
| `TimestampSource.IncreasingUntilSaturation` | node/src/service.rs:798-828 | the timestamps increase strictly if and only if the last but one is below the largest u64 |
| `TimestampSource.StaleReadMustRetry` | node/src/service.rs:820-826 | a call may begin with any value the counter has held; with a stale one it cannot win, only read again |
| `TimestampSource.AnyCallerCanFinish` | node/src/service.rs:820-826 | after any run, a caller left alone returns the next tick with one read and one swap |
| `AlphaPrice.ScalingIsExact` | precompiles/src/alpha.rs:288-289 | over distinct u16 networks nothing saturates and the result is the floor of a billion times the exact sum |
| `AlphaPrice.SumGrows` | precompiles/src/alpha.rs:279-286 | one more network adds its price if it is not root and costs less than one, and nothing otherwise |
| `AlphaPrice.SumIgnoresOrder` | precompiles/src/alpha.rs:279-286 | the sum does not depend on the order of iteration |
| `AlphaPrice.ChargesAddUp` | precompiles/src/alpha.rs:259-277 | the three charges are one read plus the larger of the subnet limit and five reads a network |
| `AlphaPrice.SumPrices` | precompiles/src/alpha.rs:279-286 | the loop adds exactly the prices below one |
| `AlphaPrice.GetSumAlphaPrice` | precompiles/src/alpha.rs:257-295 | the price and the exact gas spent when the reads are affordable, otherwise no price and an exhausted frame |
| `RawSpec.ApplyIs` | node/src/clone_spec.rs:379-452 | each key ends as the last operation that touches it says; untouched keys keep their entries |
| `RawSpec.ApplyForgetsTouched` | node/src/clone_spec.rs:379-452 | specs that differ only on touched keys are patched to the same state |
| `RawSpec.ApplyIsIdempotent` | node/src/clone_spec.rs:379-452 | patching twice is patching once |
| `RawSpec.PutSurvivesIff` | node/src/clone_spec.rs:379-452 | an inserted value survives if and only if no later operation on its key says otherwise |
| `RawSpec.PrefixIsGone` | node/src/clone_spec.rs:490-500 | no key under a removed prefix survives unless it is inserted again |
| `ClonePatch.RawTop.Insert` | node/src/clone_spec.rs:393-396 | the raw state takes one more insert |
| `ClonePatch.RawTop.Remove` | node/src/clone_spec.rs:424-426 | the raw state takes one more removal |
| `ClonePatch.RawTop.RemoveByPrefix` | node/src/clone_spec.rs:490-500 | collecting and then removing the matching keys is the removal of the prefix |
| `ClonePatch.ChainSpec.PatchTop` | node/src/clone_spec.rs:389-448 | the operations are performed in the source's order |
| `ClonePatch.ChainSpec.SetBalances` | node/src/clone_spec.rs:456-488 | one funded account per validator |
| `ClonePatch.ChainSpec.PatchRawSpec` | node/src/clone_spec.rs:379-452 | the two errors and when they occur; an error leaves the spec as it was; success is the whole patch and the three reset fields |
| `CloneTheorems.PatchInOrder` | node/src/clone_spec.rs:379-448 | which group of operations decides a key, with no assumption on hashes |
| `CloneTheorems.PatchIsIntended` | node/src/clone_spec.rs:379-448 | when the named prefixes do not collide, every key ends with its intended value, is removed, or keeps its entry |
| `CloneTheorems.OwnerSurvives` | node/src/clone_spec.rs:429-446 | the owner key keeps its value despite three later prefix removals |
| `CloneTheorems.AccountsSurvive` | node/src/clone_spec.rs:456-488 | every validator's account is funded, under the prefix, the hash of the account and the account |
| `CloneTheorems.AccountKeysDiffer` | node/src/clone_spec.rs:466-470 | validators with different accounts have different keys |
| `CloneTheorems.AuraSurvives` | node/src/clone_spec.rs:389-446 | the block production authorities keep their value despite the later removals |
| `CloneTheorems.GrandpaSurvives` | node/src/clone_spec.rs:404-427 | the three finality entries keep their values although other items of their pallet are removed |
| `CloneTheorems.WellKnownSurvives` | node/src/clone_spec.rs:409-414 | the well-known authorities key keeps its value |
| `CloneTheorems.RemovedKeysAreGone` | node/src/clone_spec.rs:424-446 | nothing that the patch removes is there afterwards |
| `RunSelection.OlderByStart` | scripts/apply_benchmark_patch.py:37-40 | runs are placed by the start of their current attempt, whatever their creation, and then by id |
| `RunSelection.OlderByCreation` | scripts/apply_benchmark_patch.py:37-40 | without a start they are placed by creation, and without either first |
| `RunSelection.NewestFirstSorts` | scripts/apply_benchmark_patch.py:35-42 | sorting keeps the runs and puts no run behind an older one |
| `RunSelection.NewestFirstIsStable` | scripts/apply_benchmark_patch.py:35-42 | runs with equal keys stay in the order in which they are listed, with their multiplicity |
| `RunSelection.MatchingRuns` | scripts/apply_benchmark_patch.py:19-42 | exactly the matching runs, newest first |
| `RunSelection.SelectLatestRun` | scripts/apply_benchmark_patch.py:45-66 | the early-exit loop decides by the first candidate that was not skipped: a returned run matches and has finished, and every matching run with a larger key has a single skipped job, also when runs are listed more than once |
| `RunSelection.NewestDecides` | scripts/apply_benchmark_patch.py:45-66 | the newest run that was not skipped decides, whatever it decides |
| `RunSelection.SelectedIff` | scripts/apply_benchmark_patch.py:45-66 | unless different runs share a key, a run is selected if and only if it matches, its one benchmark job was not skipped, both are completed, and every newer matching run was skipped |
| `RunSelection.SelectionIs` | scripts/apply_benchmark_patch.py:19-66 | from the listing to the result: the events, repository, branch, commit, title, job name and states that select a run, written out |
| `RunSelection.NoRunIff` | scripts/apply_benchmark_patch.py:66 | no run is found if and only if every matching run was skipped |
| `RunSelection.ListingOrderIsIrrelevant` | scripts/apply_benchmark_patch.py:19-66 | unless different runs share a key, the result depends neither on the listing order nor on repetitions |

## Left out

- Regular expressions: the section and header patterns enter as functions to the positions where they match; headers are assumed to stand at line starts inside the body, in order, and to depend on the body behind its brace alone.
- Re-reading a patched file: that its braces match again is proved (`PatchTheorems.PatchedSectionIsFound`), that the header pattern finds the same items in it is not; a replaced first item may share a line with the opening brace and would not be found.
- MeasuredMerge.MergeMeasured: works on the segmentations of the three sections; one file with sections that move is `MeasuredFile.MergeMeasuredFile`.
- MeasuredFile.MergeMeasuredFile: for files whose sections lie apart, are closed by their braces and whose functions end in their section; that a section pattern matches at its own section in every text before its turn is a hypothesis on the pattern, and the sections of the generated file are given as found.
- MeasuredFile.MergeFile: the same hypotheses on the patterns and the file.
- `selective-patch` and its check that every target is known, drift reports, the command line, CSV and file reading, printing.
- Lifetimes: an apostrophe opens a char literal for the scanners, as in the source; Rust lifetimes are not told apart.
- Storage growth, the third external counter: no call in the modelled code records it.
- Metering.Handle.RecordCost: the gasometer behind the handle is not part of this model; a failed charge is taken to exhaust the frame.
- The weight arithmetic of the Polkadot SDK (actual weight, extension weight, division per component, the weight meter) is not part of this model's sources and follows its documented behaviour.
- PrefixClearing.Prefix.Clear: a removal takes min(limit, remaining) entries and reports as many turns as keys; overlay effects of real storage, where the two can differ, are not modelled.
- Dispatched calls: every outcome and every reported weight is allowed; the pallets behind them are not modelled.
- AlphaPrice.GetSumAlphaPrice: prices are arbitrary fixed-point values; the conversion error of the balance converter cannot occur for a u64 amount and is not modelled.
- Hashes and encoders of the raw spec are arbitrary functions; that the named prefixes do not collide is an assumption of the theorems that need it.
- Memory ordering of the atomic counter: each access is one step; only the single counter is shared.
- Other precompiles, pallets, chain extensions, currency wrappers, proxy and error tables, node start-up: they add only thin wrappers or finite tables.
- Artifact selection and archive reading in `scripts/apply_benchmark_patch.py`.
