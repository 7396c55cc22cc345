# Meeting transcript converters, modelled in Dafny

The repository turns accessibility-tree snapshots of meeting applications,
stored as JSON, into plain-text transcripts. Three converters make up its core:

- **Microsoft Teams** (`process_teams_transcript.py`). A directory holds many
  snapshots, each named with a `YYYY-MM-DD-HH-MM-SS` timestamp.
  - The ".json" files with a valid timestamp are collected and sorted by
    (timestamp, path).
  - The caption groups of each snapshot become `(speaker, text)` parts. The
    text is whitespace-normalised and the speaker label loses a trailing
    "(…)" annotation.
  - Every snapshot after the first contributes only what follows its longest
    overlap, of at least 3 parts, with the last 30 parts collected so far,
    or, with no such overlap, all of its parts.
  - Consecutive parts by one speaker are merged into one block. A block is
    written as `[speaker]` followed by its text and a blank line.
- **Zoom** (`process_zoom_transcript.py`). The rows of the transcript table
  drive a state machine that tracks the current speaker, the current
  timestamp and a text buffer. It emits `(speaker, timestamp, dialogue)`
  triples.
- **Webex** (`process_webex_transcript.py`). The first `AXTable` in the tree
  holds one row per message. A row becomes a triple only when its speaker,
  timestamp and dialogue are all present.

Zoom and Webex share an identical `format_transcript`. It is modelled once,
in `Triples`.

Modules, following the program's structure:

| module | file | models |
|---|---|---|
| `Tree` | `tree.dfy` | the JSON value as the converters read it: objects with `role`, `value` and `children`, arrays, scalars. Also `Option`/`Result` and pre-order traversal. |
| `Text` | `text.dfy` | Python's `str.isspace`, `strip`, `split()`, `' '.join` and `count` over `seq<char>` |
| `TeamsCaptions` | `teams_captions.dfy` | `find_transcript_parts_teams` and the speaker-label regex |
| `TeamsFiles` | `teams_files.dfy` | `get_timestamp_from_filename`, the ".json" test, `os.path.join`, the directory scan and the sort |
| `TeamsOverlap` | `teams_overlap.dfy` | `difflib`'s `find_longest_match` (by its documented result) and `find_best_overlap_index` |
| `TeamsFormat` | `teams_format.dfy` | `format_combined_transcript` |
| `TeamsStitch` | `teams_stitch.dfy` | the stitching loop and `process_teams_directory` |
| `Triples` | `triples.dfy` | `format_transcript` of the Zoom and Webex scripts |
| `Zoom` | `zoom.dfy` | `parse_zoom_json` |
| `Webex` | `webex.dfy` | `_find_webex_table` and `parse_webex_json` |

Python's mutating loops are imperative methods. Each one is proved equal to
a left-fold specification function, and the properties are proved about
that function:
- `FormatCombinedTranscript`, with `FormatPart` and `FlushBuffer`;
- `StitchFiles`/`StitchOne`;
- `CollectEntries`/`ScanDir`;
- `ParseZoomJson`/`Flush`;
- `ParseWebexJson`/`ReadCell`/`ScrollAreaDialogue`;
- `FormatTranscript`.

The recursive searches are functions: caption search, table search and
longest match.

A Zoom or Webex row, cell or item that is not a JSON object makes the
Python code call `.get` on a list or scalar, which raises `AttributeError`.
The model returns `Err(NotAnObject)` in that case. Speaker, timestamp and
dialogue variables that Python initialises to `None` are modelled as `""`,
since only their truth value matters to the code.

## Model

| member | source | states |
|---|---|---|
| `Text.StripUnique` | process_teams_transcript.py:59 | `strip()` is the one string obtained by removing a whitespace prefix and a whitespace suffix that has no whitespace at either end |
| `Text.StripOfAllSpace` | process_teams_transcript.py:180-181 | a stripped text is empty exactly when the original is all whitespace |
| `Text.StripKeepsCount` | process_webex_transcript.py:79-80 | stripping never changes how often a non-whitespace character (such as ':') occurs |
| `Text.SplitWords` | process_teams_transcript.py:56 | `split()` yields only non-empty words without whitespace |
| `Text.SplitKeepsContent` | process_teams_transcript.py:56 | the words of `split()`, concatenated, are exactly the non-whitespace characters of the text, in order |
| `Text.SplitAtSpace` | process_teams_transcript.py:56 | every whitespace character is a word break: the text on either side of it splits independently |
| `Text.SplitJoin` | process_teams_transcript.py:56 | splitting words joined by single spaces gives back those words |
| `Text.NormalizeSpec` | process_teams_transcript.py:56 | `' '.join(s.split())` is canonical (single inner spaces only), has the same words as `s`, and is the only canonical string with those words |
| `Text.CanonicalFixed` | process_teams_transcript.py:56 | normalising an already canonical text changes nothing |
| `Text.NormalizeEmpty` | process_teams_transcript.py:56-57 | the normalised caption is empty exactly when the caption is all whitespace |
| `Text.JoinAppend` | process_teams_transcript.py:199 | joining a concatenation of two non-empty lists is the two joins separated by one separator |
| `Text.Count` | process_zoom_transcript.py:54 | `count` is at most the length, and zero exactly when the character is absent |
| `Text.CountAppend` | process_zoom_transcript.py:54 | `count` of a concatenation is the sum of the counts |
| `Text.NormalizeExample` | process_teams_transcript.py:56 | "Hello   world  " normalises to "Hello world" |
| `TeamsCaptions.CleanSpeaker` | process_teams_transcript.py:59 | the cleaned speaker name has no surrounding whitespace |
| `TeamsCaptions.ParenCutIsLeftmostMatch` | process_teams_transcript.py:59 | the cut position is the leftmost position where `\s*\(.*\)\s*$` matches, with `.` excluding a line feed; there is none exactly when the pattern matches nowhere |
| `TeamsCaptions.CleanSpeakerExample` | process_teams_transcript.py:58-59 | "Jane Doe (Guest)" is cleaned to "Jane Doe" |
| `TeamsCaptions.CaptionOf` | process_teams_transcript.py:53-60 | a caption group gives at most one part, and that part is well formed: normalised non-empty text, stripped speaker |
| `TeamsCaptions.FindParts` | process_teams_transcript.py:22-72 | every part found anywhere in a snapshot is well formed |
| `TeamsCaptions.CaptionGroupYields` | process_teams_transcript.py:53-62 | a caption group yields exactly one part unless its caption is blank, and none otherwise; the part is the cleaned label with the normalised caption |
| `TeamsCaptions.FindPartsAllAppend` | process_teams_transcript.py:66-71 | the parts of a concatenated child list are the parts of each half, in order |
| `TeamsCaptions.NonCaptionLikeArray` | process_teams_transcript.py:64-67 | an object that is not a caption group yields the parts of its children, exactly as an array of them would |
| `TeamsCaptions.PartsComeFromCaptionGroups` | process_teams_transcript.py:22-72 | every part comes from a caption group that is in the tree |
| `TeamsCaptions.PartsComeFromCaptionGroupsAll` | process_teams_transcript.py:68-71 | the same for a list of trees |
| `TeamsCaptions.FindPartsIsCaptionsIn` | process_teams_transcript.py:22-72 | the search yields exactly the parts of the caption groups it visits, in visiting order, where it visits every object of the tree except those inside a caption group |
| `TeamsCaptions.FindPartsAllIsCaptionsIn` | process_teams_transcript.py:66-71 | the same for a list of trees |
| `TeamsCaptions.CaptionsInAppend` | process_teams_transcript.py:66-71 | the parts of two runs of visited objects are those of each run, in order |
| `TeamsCaptions.CaptionsInComplete` | process_teams_transcript.py:53-62 | a visited caption group with a non-blank caption contributes its cleaned label and normalised caption |
| `TeamsCaptions.CaptionGroupsGiveParts` | process_teams_transcript.py:22-72 | every caption group not nested in another one and with a non-blank caption contributes its part to the result |
| `TeamsCaptions.SearchedInPreOrder` | process_teams_transcript.py:22-72 | the search visits only objects of the tree |
| `TeamsCaptions.SearchedAllInPreOrder` | process_teams_transcript.py:66-71 | the same for a list of trees |
| `TeamsFiles.FirstStamp` | process_teams_transcript.py:87 | `re.search` finds the leftmost position where the timestamp pattern matches, or none when it matches nowhere |
| `TeamsFiles.ParseTimestamp` | process_teams_transcript.py:74-96 | a timestamp that is returned is a valid calendar date and time |
| `TeamsFiles.ParseTimestampSpec` | process_teams_transcript.py:86-96 | no match gives `None`; otherwise the digits at the leftmost match, decoded, are returned when `strptime` accepts them, and `None` when it rejects them |
| `TeamsFiles.DecodeDigits` | process_teams_transcript.py:91 | year, month, day, hour, minute and second are the decimal values of the digits at fixed offsets of the match |
| `TeamsFiles.PathJoin` | process_teams_transcript.py:222 | `os.path.join` keeps an absolute name whole and otherwise ends with the name |
| `TeamsFiles.KeyInjective` | process_teams_transcript.py:233 | two files with equal sort keys are the same file (timestamp and path) |
| `TeamsFiles.BeforeIsStrictTotal` | process_teams_transcript.py:233 | tuple comparison of (timestamp, path) is irreflexive, transitive and total |
| `TeamsFiles.BeforeIsTupleOrder` | process_teams_transcript.py:233 | files are ordered as `(timestamp, path)` tuples: by year, month, day, hour, minute, second in turn, and for equal timestamps by the path compared code point by code point, a proper prefix first |
| `TeamsFiles.LexLessAppend` | process_teams_transcript.py:233 | comparing two keys whose first parts have equal length decides on those parts first and only on a tie looks further |
| `TeamsFiles.Insert` | process_teams_transcript.py:233 | inserting into a sorted list keeps it sorted and adds exactly the new entry |
| `TeamsFiles.SortEntries` | process_teams_transcript.py:233 | `sort()` gives an ascending permutation of its input |
| `TeamsFiles.SortedUnique` | process_teams_transcript.py:233 | two ascending permutations of the same entries are equal |
| `TeamsFiles.SortEntriesUnique` | process_teams_transcript.py:233 | any ascending arrangement of the entries is the sorted list |
| `TeamsFiles.DirEntriesMembers` | process_teams_transcript.py:220-225 | an entry is recorded for a directory exactly when one of its file names is a ".json" name with a valid timestamp giving that entry |
| `TeamsFiles.WalkEntriesMembers` | process_teams_transcript.py:219-225 | `json_files` holds exactly the listed files with a ".json" name and a valid timestamp |
| `TeamsFiles.CollectEntries` | process_teams_transcript.py:219-227 | the scan loop over the walk collects exactly the specified entries, directory by directory |
| `TeamsFiles.ScanDir` | process_teams_transcript.py:220-227 | the inner loop records the entries of one directory in listing order |
| `TeamsOverlap.FindLongestMatchSpec` | process_teams_transcript.py:130-132 | the match is a longest common block, and among the longest the earliest in the previous parts, then in the current ones; it is (0, 0, 0) when nothing matches |
| `TeamsOverlap.LongestMatchUnique` | process_teams_transcript.py:130-132 | only one match meets that description |
| `TeamsOverlap.LookbackTail` | process_teams_transcript.py:123 | the compared slice is the last `min(lookback, len)` previous parts |
| `TeamsOverlap.FindBestOverlapIndex` | process_teams_transcript.py:151 | the returned index never exceeds the number of current parts |
| `TeamsOverlap.FindBestOverlapIndexSpec` | process_teams_transcript.py:115-156 | the index is 0 for empty inputs or `min_len <= 0`; it is positive exactly when the previous tail and the current parts share a block of `min_len` parts; then it is the end, in the current parts, of the longest match |
| `TeamsOverlap.OlderPartsIrrelevant` | process_teams_transcript.py:123 | parts older than the lookback window never change the index |
| `TeamsFormat.BlocksAreMaximalRuns` | process_teams_transcript.py:187-195 | the blocks are the maximal runs of one speaker: none is empty, and no two neighbours share a speaker |
| `TeamsFormat.BlocksExpand` | process_teams_transcript.py:187-195 | merging loses nothing: expanding the blocks gives back every part, speaker and text, in order |
| `TeamsFormat.BlockLinesSpec` | process_teams_transcript.py:177-185 | a block is written as two lines exactly when its speaker is non-empty and its joined text is not blank: `[speaker]`, then the stripped space-join of its texts followed by a newline; otherwise it is not written |
| `TeamsFormat.NamedBlockLines` | process_teams_transcript.py:177-185 | a named block of stripped non-empty texts is written as its tag and its texts joined by single spaces, unchanged by the strip |
| `TeamsFormat.NamedBlocksShown` | process_teams_transcript.py:177-199 | for blocks of stripped non-empty texts, the lines written are exactly those of the blocks with a non-empty speaker, in order; blocks whose speaker is empty are dropped |
| `TeamsFormat.WellFormedBlocks` | process_teams_transcript.py:187-195 | merging well-formed parts gives blocks whose texts are all stripped and non-empty |
| `TeamsFormat.RenderedWellFormed` | process_teams_transcript.py:159-199 | for well-formed parts the output is the tag and space-joined texts of every block with a named speaker, joined by newlines |
| `TeamsFormat.FormatCombinedTranscript` | process_teams_transcript.py:159-199 | the loop with its nested flush produces exactly the rendering of the parts' blocks |
| `TeamsFormat.FormatPart` | process_teams_transcript.py:187-195 | one loop pass advances the blocks by one part and keeps the output lines equal to those of the closed blocks |
| `TeamsFormat.FlushBuffer` | process_teams_transcript.py:177-185 | a flush appends the lines of the buffered block, if any, and empties the buffer |
| `TeamsFormat.StepSameSpeaker` | process_teams_transcript.py:188-190 | a part by the current speaker is added to the last block |
| `TeamsFormat.StepOtherSpeaker` | process_teams_transcript.py:191-195 | a part by another speaker opens a new block |
| `TeamsFormat.AllBlocksShown` | process_teams_transcript.py:179-184 | blocks with a named speaker and stripped non-empty texts are all written, each as its texts joined by single spaces |
| `TeamsFormat.TwoThenOne` | process_teams_transcript.py:187-195 | two parts by one speaker followed by a part by another give two blocks |
| `TeamsFormat.FormatExample` | process_teams_transcript.py:159-199 | A:"hi", A:"there", B:"yo" are rendered as "[A]\nhi there\n\n[B]\nyo\n" |
| `TeamsFormat.FormatEmpty` | process_teams_transcript.py:170-171 | no parts give the empty text |
| `TeamsStitch.FileParts` | process_teams_transcript.py:263-277 | every part a file contributes is well formed; an unreadable or undecodable file contributes none |
| `TeamsStitch.StitchStepShape` | process_teams_transcript.py:279-298 | one file keeps the transcript as a prefix and appends a suffix of its parts; the first file with parts is taken whole |
| `TeamsStitch.StitchStepAppends` | process_teams_transcript.py:282-294 | a later file contributes exactly its parts from the overlap index on |
| `TeamsStitch.StitchStepWhole` | process_teams_transcript.py:284-294 | a later file is appended whole exactly when it shares no block of 3 parts with the last 30 parts of the transcript |
| `TeamsStitch.SkippedFileChangesNothing` | process_teams_transcript.py:263-277 | a file without parts, with a decode error or with a read error leaves the transcript unchanged |
| `TeamsStitch.FirstFileVerbatim` | process_teams_transcript.py:279-280 | the first file with parts is copied verbatim |
| `TeamsStitch.StitchAllPrefix` | process_teams_transcript.py:256-298 | later files never change what earlier files contributed |
| `TeamsStitch.StitchAllEmpty` | process_teams_transcript.py:256-298 | the transcript is empty exactly when no file has parts |
| `TeamsStitch.StitchAllFromFiles` | process_teams_transcript.py:256-298 | every transcript part is a part of one of the files and is well formed |
| `TeamsStitch.StitchAllRendered` | process_teams_transcript.py:300-314 | the stitched transcript is written as every run of one named speaker, tag and space-joined texts, with only runs whose speaker cleaned to "" dropped |
| `TeamsStitch.StitchFiles` | process_teams_transcript.py:256-298 | the loop over the sorted files computes the stitched transcript of their contents |
| `TeamsStitch.StitchOne` | process_teams_transcript.py:267-298 | one pass of that loop is one stitching step |
| `TeamsStitch.ProcessTeamsDirectory` | process_teams_transcript.py:212-314 | the directory gives the specified output: the "not a directory" error, the "no timestamped files" error, or the rendered stitched transcript (empty when no file has parts) |
| `TeamsStitch.TeamsOutputFails` | process_teams_transcript.py:212-231 | the script stops exactly when the path is not a directory, or when no listed file is a ".json" file with a valid timestamp |
| `TeamsStitch.TeamsOutputOrder` | process_teams_transcript.py:233 | the output equals stitching the files in any ascending (timestamp, path) arrangement |
| `Triples.TripleLines` | process_zoom_transcript.py:88-91 | every triple gives exactly two output lines |
| `Triples.FormatTranscript` | process_zoom_transcript.py:78-92 | the loop builds the specified lines and joins them by newlines |
| `Triples.TripleLinesAt` | process_zoom_transcript.py:89-91 | line `2k` is triple `k`'s `[speaker] timestamp` header, and line `2k+1` its dialogue followed by a newline |
| `Triples.FormattedEmptyIff` | process_webex_transcript.py:112-116 | the text is empty exactly when there are no triples |
| `Triples.FormattedOne` | process_webex_transcript.py:113-116 | one triple is written as `[speaker] timestamp`, a newline, then the dialogue and a newline |
| `Triples.FormattedAppend` | process_zoom_transcript.py:92 | formatting a concatenation is the two texts joined by one newline |
| `Zoom.ParseZoomJson` | process_zoom_transcript.py:10-75 | the loop over the rows, with its three flushes, computes the specified triples or the crash |
| `Zoom.Flush` | process_zoom_transcript.py:42-45 | a flush appends the joined, stripped buffer as a triple unless it is blank |
| `Zoom.RowsErrSticks` | process_zoom_transcript.py:27-67 | once a row crashes the parser, later rows cannot undo it |
| `Zoom.RowStepAppends` | process_zoom_transcript.py:40-67 | a row appends nothing, or only the pending (speaker, timestamp, buffer) triple |
| `Zoom.NoSpeakerNoChange` | process_zoom_transcript.py:52 | before any speaker-image row, text rows are ignored |
| `Zoom.ImageRow` | process_zoom_transcript.py:40-50 | an image row flushes a complete block and resets buffer and timestamp, leaves them otherwise, and sets the speaker to the stripped first value or "Unknown Speaker" |
| `Zoom.StampRow` | process_zoom_transcript.py:54-64 | a timestamp row first flushes a buffer that has a timestamp, appending the (speaker, timestamp, stripped joined buffer) triple unless that dialogue is blank, and otherwise appends nothing; it then sets the stripped timestamp and starts the buffer with the stripped second value |
| `Zoom.ContinuationRow` | process_zoom_transcript.py:65-67 | any other text row appends all its stripped values to the buffer |
| `Zoom.EmissionEndsStamp` | process_zoom_transcript.py:40-64 | a triple is emitted only by an image row, which clears the timestamp, or by a timestamp row, which replaces it |
| `Zoom.RowStepKeepsInv` | process_zoom_transcript.py:27-67 | every row keeps the parser's invariant: a stripped speaker, a stripped "HH:MM:SS"-like timestamp and well-formed triples |
| `Zoom.RowsKeepInv` | process_zoom_transcript.py:27-67 | the invariant holds after any rows |
| `Zoom.ParseZoomWellFormed` | process_zoom_transcript.py:10-75 | every triple has a non-empty stripped speaker, a stripped timestamp with two colons and a non-empty stripped dialogue |
| `Zoom.RowsPrefix` | process_zoom_transcript.py:27-67 | triples emitted are never taken back by later rows |
| `Zoom.RowsUse` | process_zoom_transcript.py:54-64 | emitted triples plus a pending timestamp never outnumber the timestamp rows |
| `Zoom.ParseZoomBound` | process_zoom_transcript.py:54-73 | there are at most as many triples as timestamp rows |
| `Zoom.ParseZoomEmpty` | process_zoom_transcript.py:27 | an object without rows gives no triples |
| `Webex.FindTable` | process_webex_transcript.py:14-36 | a found node is an `AXTable` object |
| `Webex.FirstTable` | process_webex_transcript.py:24-35 | the first `AXTable` of a list, or none exactly when the list has none |
| `Webex.FindTableIsFirst` | process_webex_transcript.py:14-36 | the table search returns the first `AXTable` object of the tree in pre-order |
| `Webex.CellFieldsErrPrefix` | process_webex_transcript.py:73-75 | a crash on a cell child is not recovered from by later children |
| `Webex.RowPartsErrPrefix` | process_webex_transcript.py:61-65 | a crash on a row is not recovered from by later rows |
| `Webex.ScrollAreaDialogue` | process_webex_transcript.py:85-88 | the grandchild loop returns the stripped value of the first `AXTextArea` |
| `Webex.ReadCell` | process_webex_transcript.py:73-88 | the child loop computes the specified speaker, timestamp and dialogue |
| `Webex.ParseWebexJson` | process_webex_transcript.py:40-98 | the parser returns the specified triples, or the crash |
| `Webex.NoTableNoParts` | process_webex_transcript.py:54-57 | a tree without an `AXTable` gives no triples |
| `Webex.CellFieldsLast` | process_webex_transcript.py:73-88 | each field is set by the last child of its kind: static text with one or two colons gives the timestamp, any other static text gives the speaker, a scroll area with a text area gives the dialogue |
| `Webex.FirstTextAreaTrimmed` | process_webex_transcript.py:86-87 | the dialogue has no surrounding whitespace |
| `Webex.CellFieldsShape` | process_webex_transcript.py:77-88 | every field is stripped, and a timestamp has one or two colons |
| `Webex.ReadRowSpec` | process_webex_transcript.py:61-92 | a row gives a triple exactly when it is an `AXRow` whose first child is an `AXCell` naming a speaker, a timestamp and a dialogue, all non-empty; that triple is well formed |
| `Webex.RowPartsAppend` | process_webex_transcript.py:61-92 | rows are read independently: the triples of two runs of rows are those of each, in order |
| `Webex.RowPartsBound` | process_webex_transcript.py:61-92 | no more triples than qualifying rows, and every triple well formed |
| `Webex.ParseWebexBound` | process_webex_transcript.py:54-98 | the parser gives at most one triple per qualifying row of the table, each well formed |

## Left out

- The operating system is not modelled. `os.path.isdir`, the `os.walk` listing and the file contents are parameters of `ProcessTeamsDirectory`: `isDir`, `walk`, and `fs`, a map from path to decoded JSON, decode error or read error. The output path, output directory creation, file writing and the `sys.exit` calls are not modelled. The two error exits are the `TeamsError` values.
- The `process_zoom_file` and `process_webex_file` drivers, and each script's command-line entry point, are not modelled. They only read a file, decode it, call the modelled functions and write the result.
- JSON decoding is not modelled. The tree keeps `role`, `value` and `children`. A `value` that is not a string, and a `children` entry that is not a list, are outside the model, as are JSON `null` values and other keys such as `description` and `title`.
- Progress and debug printing (`DEBUG_OVERLAP`, the warnings) are left out. They do not affect the results.
- `accessibility_export.py` is not part of this model. It captures the snapshots, which is platform I/O.
- `TeamsOverlap.FindLongestMatch`: `difflib.SequenceMatcher`'s internal algorithm is not modelled. It is replaced by an exhaustive scan that is proved to return the match the library documents for `find_longest_match` with no junk: the longest block, the earliest in the first sequence and then in the second.
- `TeamsFiles.StampAt`: `\d` is modelled as the ASCII digits. Python's `re` also accepts other Unicode decimal digits, which `strptime` would then reject or read differently.
- `TeamsFiles.IsJsonName`: `str.lower()` is modelled for ASCII letters only. Lower-casing any other character never produces one of ".json", so the test is unaffected, but the model says nothing about `lower()` on other characters.
- A Dafny `char` is a Unicode scalar value, while a Python `str` may also hold lone surrogate code points (a JSON `"\ud800"` escape decodes to one). Strings containing them are not modelled.
- Regular-expression internals are not modelled. `ParenCut` states where `\s*\(.*\)\s*$` first matches, and `ParenCutIsLeftmostMatch` proves that this agrees with the pattern's meaning.
- `Zoom.TextAreaValues`, `Zoom.StripAll`: their own contracts state only lengths. Their contents are fixed by their definitions and used through `StampRow` and `ContinuationRow`.
