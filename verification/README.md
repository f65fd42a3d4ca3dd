# A verified model of the V4A patch applier

This project models `PatchApplier` from `diff_match_patch/patch_applier.py` in Dafny. That code
parses V4A-style patches and applies them to files.

A patch is plain text. Between `*** Begin Patch` and `*** End Patch` it holds blocks:

- `*** Update File: <path>` followed by hunks. Each hunk is a `@@ <header>` line and then lines
  tagged ` ` (context), `-` (removed) or `+` (added).
- `*** Add File: <path>` followed by `+` lines.
- `*** Delete File: <path>`.

The model has two layers, as the source does.

- **Parser.** `parse_patch`, `_parse_block` and `_parse_hunk` are index loops over the lines of
  the patch. Each one is a method with a `while` loop (module `PatchParser`). Each method is
  proved to compute a recursive function of module `PatchFormat`. Module `PatchFacts` proves
  what those functions promise.
- **Applier.**
  - `_apply_hunk_to_lines` and `_find_hunk_location` are loops. Module `HunkApply` proves them
    against a specification: the anchor, the four-way partition of the hunk, the start index
    and the splice.
  - `_apply_update`, `_apply_add`, `_apply_delete` and `apply_patch` are methods of class
    `PatchApplier.Applier`. Its `files` field is the directory the patch works on, as a map
    from path to text. Each method is proved to leave `files` as a function of the old map.
  - Module `ApplyFacts` proves what applying promises.

String handling follows Python (module `Lines`):

- `str.strip()` removes the characters `str.isspace` accepts, code point by code point.
- `split('\n')` always yields at least one piece.
- `'\n'.join([])` is the empty string.

## Behaviour of the code as written

The model does what the code does. Several results differ from what a reader of a patch would
expect.

- **Only the tag character is dropped.** A hunk or Add line `+ x` yields the text ` x`, with its
  space (`PatchFormat.AddLines`, `PatchFormat.HunkAtShape`).
- **The start index is measured back from the anchor.** It is
  `max(0, anchor - |context before| + 1)`, which treats the anchor as the *last* line of the
  context before. The region the hunk replaces is `|context before| + |removed| +
  |context after|` lines long from that start (`HunkApply.ApplyHunkFrame`).
  - A header equal to the first context line, with `n` context lines before the change, starts
    the region `s` lines above the header, where `s` is the smaller of `n - 1` and the number
    of lines above the header. Those `s` lines above the header are replaced. The last `s`
    lines of the intended region are left in place below the new text, whatever the hunk says
    of them. Removed lines among them survive. Context lines among them end up twice in the
    file: once written by the hunk, once kept from the file. Three instances with `s = 1`:
    a removed line survives (`HunkExamples.HeaderTakenAsLastContextLine`); the last context
    line after the change is written twice (`HunkExamples.ContextAfterWrittenTwice`); with
    nothing removed, the last context line before the insertion is written twice
    (`HunkExamples.InsertionWritesContextTwice`).
  - The context search returns the *start* of the matching run. The same offset is then
    applied to it (`HunkExamples.FallbackAnchorStartsEarly`).
  - With no context before, the region starts just after the header line. The header line is
    kept and the additions go below it (`HunkExamples.NoLeadingContextInsertsBelowHeader`).
    The region is still `|removed| + |context after|` lines long, so it lies one line below
    the intended one: a removed line equal to the header survives, and the line just past the
    intended region is replaced although the hunk never names it
    (`HunkExamples.NoLeadingContextReplacesLineBelow`: `["o","p","q"]` with header `o` and
    lines `-o`, `+n` gives `["o","n","q"]`).
- **Removed text is not compared with the file once the header is found**
  (`HunkApply.RemovedTextIgnored`). It then only counts how many lines the region spans. When
  no line equals the header, the removed lines before the first added line are part of the
  run the context search matches (`HunkApply.ContextRunSpec`).
- **The parser can loop forever.** When a `@@` line inside an Update body is directly followed
  by another `@@` line, `_parse_hunk` reports an end index one line before its start.
  `_parse_block` then parses the same hunk again, forever. The model returns the outcome
  `Hangs` instead. `PatchFacts.UpdateHangsIff` states exactly when this happens, and no file
  is touched (`PatchApplier.Applier.ApplyPatch`).

In three places the code does not do what a reader of a patch expects. The model follows the
code.

- The context searched for when no line matches the header is *every* context and removed line
  up to the first added line. It is not "context before plus removed lines".
- The header is documented as a context line from the original file
  (`diff_match_patch/patch_applier.py:31`), and the repository's tests write the first context
  line of each hunk as its header (`diff_match_patch/tests/test_patch_applier.py:299-300`,
  `:351-352`, `:424-425`). The start formula instead treats the header as the last line of
  the context before (see the start-index bullet above).
- When a later hunk fails, the file is not written at all. No partially folded result remains.

## Model

| member | source | states |
|---|---|---|
| Lines.StripSpec | diff_match_patch/patch_applier.py:100 | `strip()` keeps an infix of the line whose outside is all whitespace and which neither starts nor ends with whitespace |
| Lines.TrimStartSpec | diff_match_patch/patch_applier.py:307 | the leading trim removes exactly the leading run of whitespace |
| Lines.TrimEndSpec | diff_match_patch/patch_applier.py:307 | the trailing trim removes exactly the trailing run of whitespace |
| Lines.Split | diff_match_patch/patch_applier.py:68 | `split('\n')` yields at least one piece and no piece holds a newline |
| Lines.JoinSplit | diff_match_patch/patch_applier.py:277-286 | joining the pieces of a split gives back the text, so reading then writing lines unchanged leaves a file as it was |
| Lines.SplitJoin | diff_match_patch/patch_applier.py:408-409 | splitting the join of a non-empty list of newline-free lines gives back the lines |
| PatchFormat.ActionScanSpec | diff_match_patch/patch_applier.py:99-117 | the action search stops at the first action header or end marker, and every line before it is neither |
| PatchFormat.EndScanSpec | diff_match_patch/patch_applier.py:124-125 | the body scan stops at the first line that strips to `*** End Patch`, or at the end of input |
| PatchFormat.HunkStopSpec | diff_match_patch/patch_applier.py:189-212 | a hunk body runs over tagged lines and stops at an end marker, a `@@` line or any other untagged line |
| PatchFormat.HunkLinesAt | diff_match_patch/patch_applier.py:200-209 | the m-th hunk line is the tag of the m-th body line and its text after the first character |
| PatchFormat.HunkAt | diff_match_patch/patch_applier.py:179-220 | a hunk is parsed exactly at a `@@` line; its end index lies between one line before its start and the end of input |
| PatchFormat.HunkAtShape | diff_match_patch/patch_applier.py:183-220 | header is the stripped text after `@@`; the lines are the tagged lines that follow, in order, with their text after the first character; the end index is one line before the start exactly when a `@@` line follows directly |
| PatchFacts.UpdateHunksStop | diff_match_patch/patch_applier.py:150-159 | a finished Update scan stops at the first end marker after its start, or at the end of input when there is none: a hunk never carries the scan past an end marker |
| PatchFormat.BlockAt | diff_match_patch/patch_applier.py:96-167 | a parsed block ends strictly after the segment start and within the input |
| PatchParser.ParseHunk | diff_match_patch/patch_applier.py:179-220 | the loop of `_parse_hunk` computes `HunkAt` |
| PatchParser.HunkBody | diff_match_patch/patch_applier.py:185-214 | the body loop collects exactly the tagged lines up to the hunk's stop |
| PatchParser.SkipToEnd | diff_match_patch/patch_applier.py:122-132 | the Delete loop stops at the first end marker |
| PatchParser.ParseAddBody | diff_match_patch/patch_applier.py:133-146 | the Add loop stops at the first end marker and keeps the `+` lines without their first character |
| PatchParser.ParseUpdateBody | diff_match_patch/patch_applier.py:147-167 | the Update loop computes `UpdateHunks`, returning `Hangs` exactly where the source would loop forever; `PatchFacts.UpdateHunksAreStarts` says which hunks a finished scan holds |
| PatchParser.FindAction | diff_match_patch/patch_applier.py:99-117 | the header loop stops where `ActionScan` does |
| PatchParser.ParseBlock | diff_match_patch/patch_applier.py:96-167 | `_parse_block` computes `BlockAt` |
| PatchParser.ParseLines | diff_match_patch/patch_applier.py:67-84 | the main loop of `parse_patch` computes `BlocksFrom` |
| PatchParser.ParsePatch | diff_match_patch/patch_applier.py:64-84 | `parse_patch` computes `PatchOf` |
| PatchFacts.AllSpaceStripsEmpty | diff_match_patch/patch_applier.py:64 | text made only of whitespace strips to the empty string |
| PatchFacts.BlankPatchHasNoBlocks | diff_match_patch/patch_applier.py:64-65 | blank or whitespace-only patch text has no blocks |
| PatchFacts.NoBeginNoBlocks | diff_match_patch/patch_applier.py:71-82 | with no begin marker from a line on, the scan finds no blocks |
| PatchFacts.PatchWithoutBeginHasNoBlocks | diff_match_patch/patch_applier.py:64-84 | a text none of whose lines strips to `*** Begin Patch` has no blocks |
| PatchFacts.MarkersExclusive | diff_match_patch/patch_applier.py:101-112 | a line starts with at most one action marker, so the order in which they are tried does not matter |
| PatchFacts.ActionOfHeader | diff_match_patch/patch_applier.py:100-112 | a line announces an action if and only if its stripped text starts with that action's marker; the path is the stripped rest |
| PatchFacts.BlockAtShape | diff_match_patch/patch_applier.py:99-117 | a segment yields no block exactly when an end marker or the end of input comes before any header; otherwise the block has the first header's action and path |
| PatchFacts.AddLinesConcat | diff_match_patch/patch_applier.py:136-139 | the Add content of a body is the content of its first part followed by that of the rest |
| PatchFacts.AddLinesMembers | diff_match_patch/patch_applier.py:136-139 | a string is in the Add content if and only if some body line is `+` followed by it |
| PatchFacts.AddLinesSource | diff_match_patch/patch_applier.py:136-139 | every string of the Add content is some `+` body line without its first character |
| PatchFacts.AddLinesKeeps | diff_match_patch/patch_applier.py:136-139 | every `+` body line contributes its text after the `+` to the Add content |
| PatchFacts.AddLinesAllAdded | diff_match_patch/patch_applier.py:137-138 | when every body line starts with `+`, the content is the body line for line without the first character |
| PatchFacts.AddLinesNoNewline | diff_match_patch/patch_applier.py:137-138 | content taken from newline-free lines is newline-free |
| PatchFacts.UpdateHunksAreStarts | diff_match_patch/patch_applier.py:147-167 | a finished Update scan yields exactly one hunk per `@@` line between its start and its stop, in order, each the hunk `_parse_hunk` parses at that line: none dropped, none repeated |
| PatchFacts.UpdateHunksInOrder | diff_match_patch/patch_applier.py:150-159 | hunks come out in document order: end indices strictly increase and lie between the scan start and its stop |
| PatchFacts.BlocksFromInOrder | diff_match_patch/patch_applier.py:71-82 | blocks come out in document order: end indices strictly increase and lie past the scan start |
| PatchFacts.UpdateHangsIff | diff_match_patch/patch_applier.py:150-159 | the Update scan never ends if and only if, before the next end marker, a `@@` line is directly followed by another `@@` line that is not an end marker |
| PatchFacts.HunkPassesNoAdjacency | diff_match_patch/patch_applier.py:189-219 | a hunk that moves the scan forward passes over no end marker and no adjacent `@@` lines |
| PatchFacts.BlockAtTerminates | diff_match_patch/patch_applier.py:96-167 | without adjacent `@@` lines a segment is parsed to an end |
| PatchFacts.BlocksTerminate | diff_match_patch/patch_applier.py:71-82 | without adjacent `@@` lines anywhere, parsing terminates |
| PatchFacts.WellFormedSegmentsParse | diff_match_patch/patch_applier.py:64-84 | a patch text whose lines are segments (lines without a begin marker, then a begin marker, an action header, a body without end markers and an end marker, with no two `@@` lines in a row), followed by lines without a begin marker, parses to exactly one block per segment, in order, each with its header's action and path |
| PatchFacts.SegmentsFrom | diff_match_patch/patch_applier.py:71-82 | from line `o` on, each well-formed segment gives the next block, with its header's action and path, and the lines after the last segment give none |
| PatchFacts.SegmentBlock | diff_match_patch/patch_applier.py:96-167 | a well-formed block gives one block, with its header's action and path, ending at its end marker, and the scan resumes on the next line |
| PatchFacts.BlocksFromSkipGap | diff_match_patch/patch_applier.py:71-82 | the scan passes over lines that are not begin markers without producing a block |
| PatchFacts.NotBlankWithBegin | diff_match_patch/patch_applier.py:64-65 | a text with a begin-marker line is not blank, so it is not rejected as empty |
| PatchFacts.AdjacentHunkStartsHang | diff_match_patch/patch_applier.py:195-198 | two `@@` lines in a row make the Update scan loop forever |
| Lines.JoinKeepsChar | diff_match_patch/patch_applier.py:408-409 | every character of every line appears in the joined text |
| Lines.StripKeepsNonSpace | diff_match_patch/patch_applier.py:64 | a string holding a non-whitespace character does not strip to the empty string |
| HunkApply.FirstStripEqualSpec | diff_match_patch/patch_applier.py:306-310 | the header search finds the first line equal to the header under strip, or reports that none is |
| HunkApply.RunEndSpec | diff_match_patch/patch_applier.py:371-378 | the context run is cut at the first `+` line and holds no `+` line |
| HunkApply.ContextRunSpec | diff_match_patch/patch_applier.py:371-378 | the context run is the texts of the hunk lines before the first `+` line, in order |
| HunkApply.FirstMatchSpec | diff_match_patch/patch_applier.py:383-389 | the context search finds the lowest index at which the run matches under strip, or reports that it matches nowhere |
| HunkApply.AnchorSpec | diff_match_patch/patch_applier.py:306-316 | the anchor is the first header line; only when no line equals the header is it the first match of the non-empty run; otherwise there is none |
| HunkApply.FirstChangeSpec | diff_match_patch/patch_applier.py:325-336 | every line before the first change is context, and the line there is not |
| HunkApply.PartitionSpec | diff_match_patch/patch_applier.py:319-336 | context before followed by context after is every context text in order; the parts are as long as the hunk; the context before is exactly the lines before the first change |
| HunkApply.StartIndex | diff_match_patch/patch_applier.py:339-341 | the start lies at or before the line after the anchor, and the context before then ends exactly at the anchor |
| HunkApply.SpliceFrame | diff_match_patch/patch_applier.py:348-352 | the splice keeps the lines above the region, puts context before, additions and context after in it, keeps the lines past it, and changes the length by additions minus removals |
| HunkApply.ApplyHunkFrame | diff_match_patch/patch_applier.py:302-354 | applying an anchored hunk keeps the file above and below the replaced region and fills the region with context before, additions and context after |
| HunkApply.RemovedTextIgnored | diff_match_patch/patch_applier.py:343-345 | two hunks that differ only in their removed text apply alike once the header is found |
| HunkApply.FoldHunksAppend | diff_match_patch/patch_applier.py:279-282 | folding `first + last` applies the hunks of `last` before those of `first` |
| HunkApply.FoldHunksStep | diff_match_patch/patch_applier.py:279-282 | the fold applies the last hunk first and fails as soon as a hunk fails |
| HunkApply.FindHeader | diff_match_patch/patch_applier.py:305-310 | the header loop computes the header location |
| HunkApply.MatchAt | diff_match_patch/patch_applier.py:384-387 | the inner loop decides whether the run matches at an index |
| HunkApply.FindHunkLocation | diff_match_patch/patch_applier.py:367-389 | `_find_hunk_location` computes the context location |
| HunkApply.SplitHunk | diff_match_patch/patch_applier.py:319-336 | the `in_changes` loop computes the partition |
| HunkApply.FindAnchor | diff_match_patch/patch_applier.py:305-316 | the header search, then the context search, computes the anchor |
| HunkApply.SpliceLines | diff_match_patch/patch_applier.py:348-352 | the `extend` calls compute the splice |
| HunkApply.ApplyHunkToLines | diff_match_patch/patch_applier.py:302-354 | `_apply_hunk_to_lines` computes `ApplyHunk` |
| HunkApply.ApplyHunks | diff_match_patch/patch_applier.py:279-282 | the reversed-hunk loop computes the fold |
| HunkExamples.NoLeadingContextInsertsBelowHeader | diff_match_patch/patch_applier.py:339-341 | a hunk that starts with its change keeps the header line and inserts below it |
| HunkExamples.NoLeadingContextReplacesLineBelow | diff_match_patch/patch_applier.py:339-352 | with no context before, the removed line equal to the header survives and the line below it, which the hunk never names, is replaced |
| HunkExamples.HeaderTakenAsLastContextLine | diff_match_patch/patch_applier.py:339-341 | a header equal to the first context line, with no context after, drops the line above it and keeps the removed line |
| HunkExamples.ContextAfterWrittenTwice | diff_match_patch/patch_applier.py:339-352 | with context after the change, a header equal to the first context line drops the line above it and writes the last context line twice |
| HunkExamples.InsertionWritesContextTwice | diff_match_patch/patch_applier.py:339-352 | for a pure insertion after two context lines, a header equal to the first context line drops the line above it and writes the last context line twice |
| HunkExamples.FallbackAnchorStartsEarly | diff_match_patch/patch_applier.py:312-341 | a context-search anchor starts the region one line too early for two context lines |
| PatchApplier.MessageOf | diff_match_patch/patch_applier.py:240-248 | the reported message is a success message exactly when the action succeeded |
| PatchApplier.Applier.ApplyUpdate | diff_match_patch/patch_applier.py:268-290 | a missing file fails; the file is rewritten with the joined folded lines only when every hunk applies, and nothing changes otherwise |
| PatchApplier.Applier.ApplyAdd | diff_match_patch/patch_applier.py:401-413 | the file is created or overwritten with the joined content and the Add succeeds |
| PatchApplier.Applier.ApplyDelete | diff_match_patch/patch_applier.py:424-430 | an existing file is removed and the Delete succeeds; a missing one fails and nothing changes |
| PatchApplier.Applier.ApplyOne | diff_match_patch/patch_applier.py:238-252 | one block is dispatched on its action and reported under its own path |
| PatchApplier.Applier.ApplyAll | diff_match_patch/patch_applier.py:235-256 | the block loop applies the blocks in order, each to the files the previous ones left |
| PatchApplier.Applier.ApplyPatch | diff_match_patch/patch_applier.py:232-256 | `apply_patch` parses and then applies every block; a parse that never ends changes no file |
| ApplyFacts.OutcomesFollowBlocks | diff_match_patch/patch_applier.py:235-256 | exactly one outcome per block, in order, under the block's own path, with the message of its action and success; an Add always succeeds |
| ApplyFacts.ApplyBlockFrame | diff_match_patch/patch_applier.py:238-250 | a block changes at most its own file: an Add writes the joined content; a Delete succeeds if and only if the file exists and leaves it absent; an Update never creates or removes a file and changes nothing when it fails |
| ApplyFacts.UnnamedFileKept | diff_match_patch/patch_applier.py:235-256 | a file no block names is neither created, removed nor changed |
| ApplyFacts.DeleteOfAbsentFails | diff_match_patch/patch_applier.py:424-430 | once a file is absent, a Delete of it fails unless an earlier block of the patch adds it back |
| ApplyFacts.DeleteTwiceFailsSecond | diff_match_patch/patch_applier.py:233-250 | of two Deletes of the same file in one patch with no Add of it between them, the later one fails, whatever the other blocks do |
| ApplyFacts.UpdateWithoutHunksKeepsFile | diff_match_patch/patch_applier.py:268-286 | an Update without hunks of an existing file succeeds and leaves every file as it was |
| ApplyFacts.PatchWithoutBlocksChangesNothing | diff_match_patch/patch_applier.py:232-256 | a blank patch, or one with no begin marker, reports nothing and changes nothing |
| ApplyFacts.ApplyHunkNewlineFree | diff_match_patch/patch_applier.py:348-352 | a hunk applied to newline-free lines with newline-free texts gives newline-free lines, and never none at all |
| ApplyFacts.FoldHunksNewlineFree | diff_match_patch/patch_applier.py:279-282 | folding such hunks keeps the lines newline-free and non-empty |
| ApplyFacts.UpdatedFileReadsBack | diff_match_patch/patch_applier.py:277-286 | the text a successful Update writes splits back into exactly the folded lines |
| ApplyFacts.AddedFileReadsBack | diff_match_patch/patch_applier.py:408-409 | the text an Add writes splits back into its content; empty content writes the empty text |
| ApplyFacts.HunkAtNewlineFree | diff_match_patch/patch_applier.py:201-209 | the hunk lines parsed from newline-free lines are newline-free |
| ApplyFacts.UpdateHunksNewlineFree | diff_match_patch/patch_applier.py:150-159 | every hunk of an Update scan over newline-free lines is newline-free |
| ApplyFacts.BlockAtNewlineFree | diff_match_patch/patch_applier.py:133-167 | a block parsed from newline-free lines has newline-free content and hunks |
| ApplyFacts.BlocksFromNewlineFree | diff_match_patch/patch_applier.py:71-82 | every block the patch scan finds is newline-free |
| ApplyFacts.ParsedPatchNewlineFree | diff_match_patch/patch_applier.py:64-84 | no Add content line and no hunk text of a parsed patch holds a newline |
| ApplyFacts.ParsedBlockReadsBack | diff_match_patch/patch_applier.py:238-250 | for every parsed block, an Add's file reads back as its content, and a successful Update's file reads back as the folded lines |

## Left out

- Real file I/O (`open`, `read`, `write`, `os.path.exists`, `os.remove`) is replaced by the map
  `PatchApplier.Applier.files`. A directory counts as no file.
- `os.path.join(base_dir, ...)` is left out. Files are keyed by the path the block names, which
  is also the path every outcome reports. So paths that name one file in different ways (`a`,
  `./a`, `dir/../a`) are different keys, and an absolute path, which makes the source ignore
  `base_dir`, is just another key. `ApplyFacts.UnnamedFileKept` and
  `ApplyFacts.DeleteTwiceFailsSecond` therefore hold per spelling of a path, not per file on
  disk.
- `os.makedirs` in `_apply_add` is left out: the map has no directories.
- UTF-8 decoding and encoding are left out. Text is a sequence of characters.
- Python's text-mode newline translation is left out. The map holds a file's text as
  `open(..., 'r')` returns it, with `\r\n` and `\r` already read as `\n`, and writing stores
  the joined text as it is, without turning `\n` into the platform's line separator. So
  `ApplyFacts.UpdateWithoutHunksKeepsFile` says the translated text is written back unchanged;
  on disk the source rewrites a `\r\n` file with `\n` endings (on a platform whose separator
  is `\n`). A `\r` the parser leaves at the end of a line (a patch with `\r\n` endings) is
  stored as it is, so `ApplyFacts.AddedFileReadsBack` and `ApplyFacts.ParsedBlockReadsBack`
  describe the text as written, not what reading it back through text mode returns.
- Exceptions are left out: the `except` branches of `apply_patch`, `_apply_update`,
  `_apply_add` and `_apply_delete`, and the `(path, False, str(e))` outcome. Only I/O can raise
  there, and the map has none.
- PatchApplier.Applier.ApplyAdd: never fails, because `_apply_add` fails only through an
  exception. `AddFailed` is never reported.
- Message strings are an enumeration (`PatchApplier.Message`), one value per message.
- The `Unknown action` branch of `apply_patch` is left out. The parser only produces the three
  actions, which `PatchFormat.Action` lists.
- The `else: i += 1` branch after `_parse_hunk` in `_parse_block` is left out. At a `@@` line
  `_parse_hunk` always returns a hunk, so that branch is dead.
- `expected_lines` and `actual_lines` in `_apply_hunk_to_lines` are left out. They are computed
  but never used (see `HunkApply.RemovedTextIgnored`).
- The `PatchBlock` class and `self.blocks` are left out. They are dead code.
- PatchParser.ParsePatch: where the source never returns, the model returns `Hangs`. It does not
  model the non-termination itself.
