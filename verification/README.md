# Verified models of gowl's bar logic

These Dafny files model the algorithms behind gowl's bar widgets and prove what
they promise. They cover seven parts of `modules/bar`:

- **The rewrite diff** (`Text`, `Tokenizer`, `Lcs`, `WordDiff`, `LineDiff`,
  `LineRows`, `LineFold`, `EmptyDiff`): a text is cut into tokens, two token lists are compared
  by a longest-common-subsequence table and a greedy walk, the verdicts are grouped
  into ops, the ops are rebuilt as two sides of lines, the lines are compared the
  same way, and long unchanged runs are folded into gaps. Every stage is shown to
  lose nothing, and both comparisons to be optimal where they compare at all.
- **The rewrite actions** (`ActionFormat`, `ActionMerge`): the line format actions
  are pushed in, with a round trip that holds for exactly the lists the panel can
  hold, and the merge of two lists with its contest for hotkeys.
- **Development services** (`ServicePlan`, `ServiceWaves`, `ShellSearch`,
  `StateFile`): the closure under `needs`, depths by relaxation, cycles, start
  waves; the search for the shell below a window's process; the file that
  remembers running services.
- **JSON scanners** (`Json`, `JsonScan`, `JsonText`, `ModelList`, `JsonShallow`):
  a JSON grammar with a printer, and the bracket-counting scanners of the assistant
  and the meeting widget proved right against it (RFC 8259, sections 4, 5 and 7).
- **The AI request slot** (`AiSlot`): a class for the slot, and a transition system
  of one slot and any number of workers in which each locked region is one step.
- **The key wheel** (`KeyWheel`, `WheelSpokes`, `WheelCursor`): binds laid out on
  faces, rings and spokes, which keys find a place there, and the cursor that has to
  agree with what Enter runs.
- **The activity journal** (`Journal`): dropping lines that are too old or no longer
  fit.

Where the original changes things step by step, the model does too: loops over
arrays and buffers are methods with invariants, and the slot, the cursor and the
journal are classes. Each such method is proved against a function of its inputs or
of the old state, and the lemmas are about that function. Character classes, UTF-8
repair, the keyboard library's lower-casing and the printed parts of other widgets
are parameters, so the results hold for any choice of them; where a result needs
something of them (that white space is neither a word nor an `other` character, that
lower-casing leaves the arrows, digits or function keys it speaks of alone) it says
so.

A text is a sequence of characters and holds no NUL. Sizes that the original counts
in bytes are UTF-8 sizes. The slot's text alone is a sequence of bytes.

## Where the promise is narrower than it looks

- An empty line diff does not mean identical texts. `EmptyDiff.ShowDiff` has the
  exact condition: the line table fits, and the texts are equal or differ by one
  final newline. That newline has to be a token of its own, so it goes unseen
  behind a letter and is shown behind a space, with which it makes one token; behind
  a newline it opens a further line and is shown too. Identical texts past a million
  cells read as replaced.
- The state file comes back whole for exactly the lists of good runs with at most
  1023 entries, because the reader stops splitting after 4096 pieces.
- Reading a model list never ends when a `}` stands where an element should be
  before 256 models were read, and in no other case (`ModelList.EndlessExactly`).
- The slot's text is all of the output exactly while everything fits the cap. Past
  it, a chunk too large is left out and a smaller one behind it may still be kept.
  The sizes of the chunks are sure to leave a prefix of the output exactly when no
  chunk behind the first that does not fit would fit in its place
  (`AiSlot.SizesDecide`); `AiSlot.KeptNeedNotBePrefix` is a run with reads of at most
  4096 bytes whose text is no prefix.
- Reading a JSON string goes past its closing quote when a `\u` stands fewer than four
  characters before it; `ModelList.MemberReads` has the exact condition and
  `ModelList.ReadsTheNextKey` an input.
- The generation check is right as long as no worker outlives 2^32 generations;
  the statements about whole runs carry that as a condition, and
  `AiSlot.WrapLetsStaleIn` shows what happens without it.
- A settings push may still overwrite the text of the current request, and may move
  its state in any direction; only pushes for other or cancelled requests are
  without effect.
- Absorbing a push also reports a change when an error without a reason meets the
  stock reason that is already there. An error pushed without a reason to a fresh
  request leaves it without one.
- `docs/bar-widgets/devservices.org` says that a refused cycle is named. The code
  names every service that leads into a cycle, not only those on it; the model
  follows the code.
- The comment on keysym normalisation says shifted symbols are turned back when
  Shift is held. The code does it whatever is held; the model follows the code.
- Pressing a key that is not bound on the lit ring selects its spoke all the same.
  When that spoke stands for several digits, Enter runs the first of them that is
  bound there; `WheelCursor.EnterRunsTheKey` says exactly when Enter runs the
  pressed key's own bind, and `WheelCursor.OtherDigitRuns` shows binds where it does
  not.
- Some wheel binds cannot be run by pressing their key and Enter. The panel keeps the
  arrows, Home, End, Page Up, Page Down, the modifier keys and the plain slash for
  itself, so Super+Left has a spoke but pressing Left walks the wheel
  (`WheelCursor.ArrowKeepsItsMeaning`). And the Keys face shows forty keys: a bound
  key that is no letter, ranks after forty others and is not on the Core face has no
  spoke (`WheelCursor.LostBind`). `WheelCursor.BindIsReached` shows that there are no
  other cases.

## Model

| member | source | states |
|---|---|---|
| Tokenizer.Tokenize | modules/bar/bar-airewrite-model.c:861-908 | for any text and any character classes: the tokens concatenate to the text, and each is a maximal run of one class or a single other character |
| Tokenizer.ClassesSay | modules/bar/bar-airewrite-model.c:860-868 | which characters make a word, which are white space, and which stand alone |
| Tokenizer.RunsAreUnique | modules/bar/bar-airewrite-model.c:877-908 | a text has only one such cut, so nothing about the tokens is left open |
| Lcs.LcsIsLongest | modules/bar/bar-airewrite-model.c:1067-1082 | the table recurrence is right: a common subsequence is longest exactly when its length is the cell value; no other is longer and one of that length exists |
| Lcs.FillTable | modules/bar/bar-airewrite-model.c:1071-1082 | the backward double loop leaves in every cell (i, j) the LCS length of the two suffixes starting there |
| WordDiff.HeadOf | modules/bar/bar-airewrite-model.c:1044-1048 | the first loop finds the number of leading tokens the two sides share |
| WordDiff.TailOf | modules/bar/bar-airewrite-model.c:1049-1053 | the second loop finds the number of trailing tokens shared after the head is taken off both |
| WordDiff.WalkTable | modules/bar/bar-airewrite-model.c:1084-1106 | the walk over the table emits the greedy alignment, deletions before insertions on a tie |
| WordDiff.RawDiff | modules/bar/bar-airewrite-model.c:1044-1121 | head, middle and tail verdicts as one list, on the table path and on the replace-all path |
| WordDiff.RawSides | modules/bar/bar-airewrite-model.c:1044-1121 | on every path the kept and deleted tokens are exactly the old tokens in order, the kept and inserted ones exactly the new tokens |
| WordDiff.RawIsLongest | modules/bar/bar-airewrite-model.c:1044-1107 | the kept tokens are a common subsequence, and a longest one of the two whole texts whenever some common head and tail, whichever they are, leave nothing between them on a side or few enough tokens for a million cells |
| WordDiff.RawReplaces | modules/bar/bar-airewrite-model.c:1044-1121 | otherwise the raw diff is the longest common head, everything between deleted and then inserted, and the longest common tail of the rest |
| WordDiff.RawDeletesFirst | modules/bar/bar-airewrite-model.c:1081-1106 | no raw insertion stands right before a deletion, on the table path too: the walk inserts only before an old token that every best alignment needs |
| WordDiff.Group | modules/bar/bar-airewrite-model.c:976-1021 | the loop over three text buffers computes the grouping that the next three rows are about |
| WordDiff.GroupedMeansTheSame | modules/bar/bar-airewrite-model.c:976-1021 | reordering and white-space folding lose no text on either side, and every kept character stays at its old and new offset |
| WordDiff.GroupedIsNormal | modules/bar/bar-airewrite-model.c:976-1021 | no empty op, no two neighbours of one kind, never an insertion directly before a deletion; no all-white-space kept op between changes when the tokens are maximal runs |
| WordDiff.StepFolds | modules/bar/bar-airewrite-model.c:995-1003 | the buffer test that folds white space is met exactly by all-white-space kept tokens with a change on both sides |
| WordDiff.RunsHaveNoSpacePairs | modules/bar/bar-airewrite-model.c:877-908 | maximal runs never put two white-space tokens side by side, which is what the last part of the normal form rests on |
| WordDiff.Diff | modules/bar/bar-airewrite-model.c:1031-1125 | for any two texts: kept and deleted texts concatenate to the old one, kept and inserted to the new one; the ops are in normal form; the kept tokens are a longest common subsequence when the middle was compared |
| LineDiff.SideLines | modules/bar/bar-airewrite-model.c:1515-1577 | rebuilding one side from the ops and cutting it at newlines gives lines whose spans cover exactly the changed characters, newlines excepted |
| LineDiff.OutsideSpansIsKept | modules/bar/bar-airewrite-model.c:1515-1577 | outside the spans of its lines each side holds the same text: the kept text without the newlines that end lines, and nothing else |
| LineDiff.LinesAreTheTexts | modules/bar/bar-airewrite-model.c:1555-1576 | the lines of a side are the lines of that text; a final newline opens no further line and an empty side is one line |
| LineRows.BlockEnd | modules/bar/bar-airewrite-model.c:1652-1672 | the search of the end of a changed block stops at a pair of same lines or at both ends, loses no LCS length on the way, and on a tie passes the old line first |
| LineRows.MatchLines | modules/bar/bar-airewrite-model.c:1622-1690 | the rows before folding: both sides in order, removals before additions, one replaced block when the table does not fit; the change flag is right |
| LineRows.MatchedIsBest | modules/bar/bar-airewrite-model.c:1622-1690 | context and removed rows are the old lines, context and added rows the new lines, and the context is a longest common subsequence under the same-line test whenever the table fits |
| LineFold.FoldRows | modules/bar/bar-airewrite-model.c:1699-1745 | the folding loop computes the folding that the next three rows are about |
| LineFold.FoldUnfolds | modules/bar/bar-airewrite-model.c:1699-1745 | a folded list opens up to the full one: every change row is kept in order, and every gap stands for at least two consecutive context rows |
| LineFold.UnfoldsCounts | modules/bar/bar-airewrite-model.c:1699-1745 | same change rows; shown context rows plus the sum of skipped equals the context rows before folding; every gap skips at least two |
| LineFold.FoldHidesExactly | modules/bar/bar-airewrite-model.c:1699-1745 | a row is hidden if and only if it is a context row with no change within `context` rows on either side, and one of its neighbours is such a row too |
| LineFold.DiffLines | modules/bar/bar-airewrite-model.c:1604-1747 | the whole line diff over its ops: matched rows, then folded; no rows exactly when the line table fits and the marked lines of both sides are the same and unmarked |
| LineFold.NoChangeMeansSame | modules/bar/bar-airewrite-model.c:1597-1601 | there is nothing to show exactly when the table fits, the sides have the same lines, and no line has a span |
| EmptyDiff.NothingMeansLooksSame | modules/bar/bar-airewrite-model.c:1031-1125 | of the diff of any two texts no shown line differs if and only if the texts are equal, or differ by one final newline which comes first, or whose predecessor is no newline and not of its run |
| EmptyDiff.ShowDiff | modules/bar/bar-airewrite-model.c:1604-1747 | the two diffs one after the other, for any two texts: no rows if and only if the line table fits and the texts look the same in the sense of the row above; identical texts past a million cells do give rows |
| EmptyDiff.NewlineAfter | modules/bar/bar-airewrite-model.c:1565-1570 | a newline added behind a character goes unseen if and only if that character is no newline and would not take it into its token |
| EmptyDiff.SpaceThenNewline | modules/bar/bar-airewrite-model.c:877-908 | the newline added to an `a` and a space is shown, since it joins the token of the space; the one added to an `a` is not |
| ActionFormat.EscapeField | modules/bar/bar-airewrite-model.c:221-239 | the escaping loop computes the escape that the next two rows are about |
| ActionFormat.UnescapeField | modules/bar/bar-airewrite-model.c:248-275 | the unescaping loop, unknown escapes and a trailing backslash included |
| ActionFormat.UnescapeUndoesEscape | modules/bar/bar-airewrite-model.c:221-275 | unescaping an escaped text gives the text back, for any text |
| ActionFormat.EscapeIsClean | modules/bar/bar-airewrite-model.c:221-239 | an escaped text holds no tab, newline or carriage return |
| ActionFormat.EscapeSays | modules/bar/bar-airewrite-model.c:221-239 | escaping goes character by character, with the four escapes of the format |
| ActionFormat.UnescapeSays | modules/bar/bar-airewrite-model.c:248-276 | what each escape reads as, an unknown one and a backslash at the end included |
| ActionFormat.CappedFits | modules/bar/bar-airewrite-model.c:330-341 | a capped field is its longest beginning within the byte cap |
| ActionFormat.Serialize | modules/bar/bar-airewrite-model.c:284-325 | the writer produces the header and one line an action |
| ActionFormat.SpecLineSays | modules/bar/bar-airewrite-model.c:284-325 | a written line is its nine escaped fields, in the order of the format, with a tab between them |
| ActionFormat.ParseActions | modules/bar/bar-airewrite-model.c:351-428 | the reader, line by line: comments, blank lines, a carriage return at the end, refusals and their count, the limit of 36 |
| ActionFormat.LineReads | modules/bar/bar-airewrite-model.c:365-423 | a line that is empty or a comment is passed over; any other is kept, with each of its nine fields in its place, exactly when there is room, it has nine fields, an id that is new and a caption, and is counted as refused otherwise; a carriage return at its end does not matter |
| ActionFormat.EveryLineCounts | modules/bar/bar-airewrite-model.c:365-427 | kept actions and refusals together are as many as the lines that say something |
| ActionFormat.UsableKeys | modules/bar/bar-airewrite-model.c:46-51 | the thirty-two usable keys, one by one |
| ActionFormat.ParseIsGood | modules/bar/bar-airewrite-model.c:351-428 | whatever lines come in, what is kept is at most 36 actions with distinct non-empty ids, labels, distinct usable keys and capped fields |
| ActionFormat.RoundTrip | modules/bar/bar-airewrite-model.c:284-428 | every such list written and read back is the same list, with nothing refused |
| ActionFormat.RoundTripExactly | modules/bar/bar-airewrite-model.c:284-428 | and no other list survives: the round trip is exact if and only if the list is one of those |
| ActionMerge.LaidBaseRows | modules/bar/bar-airewrite-model.c:648-656 | each base row keeps its place; it is a copy of the first extra of its id, or of the base action without one |
| ActionMerge.LaidHoldsExtras | modules/bar/bar-airewrite-model.c:660-667 | every extra has a row of its id unless the list is full, and rows past the base are copies of extras |
| ActionMerge.LaidExtrasInOrder | modules/bar/bar-airewrite-model.c:660-668 | the rows behind the base are copies of exactly those extras that are the first of an id the base lacks, in their order, until the list is full |
| ActionMerge.Merge | modules/bar/bar-airewrite-model.c:639-699 | the settling loops end with each row holding its key exactly when no better claimant of the same key exists |
| ActionMerge.EveryKeyHasOneHolder | modules/bar/bar-airewrite-model.c:675-697 | after a merge every hotkey carried in is held by exactly one action: the first one from `extra` if there is one, else the first base one; nothing but hotkeys has changed |
| ActionMerge.MergeKeepsIdsDistinct | modules/bar/bar-airewrite-model.c:639-699 | ids are distinct after a merge if and only if the base is dropped or its ids were distinct |
| ServicePlan.CheckRefs | modules/bar/bar-devservices-model.c:750-804 | references are accepted exactly when no id is taken twice and every need is the id of a service; otherwise the error names an id that is taken twice, or a need that is no service and who has it |
| ServicePlan.MarkWanted | modules/bar/bar-devservices-model.c:1127-1160 | the marking loop marks exactly the services reachable by needs from what was asked for |
| ServicePlan.WantedIsLeast | modules/bar/bar-devservices-model.c:1127-1160 | that set is the least one that holds what was asked for and is closed under needs |
| ServicePlan.DepthFromNeeds | modules/bar/bar-devservices-model.c:1176-1206 | a service whose needs are all settled gets the length of its longest chain of needs |
| ServicePlan.SettlePass | modules/bar/bar-devservices-model.c:1171-1213 | one pass settles only true depths, and settles none only when everything left needs something left |
| ServicePlan.Relax | modules/bar/bar-devservices-model.c:1162-1221 | within n passes every service is settled, or what is left blocks itself |
| ServiceWaves.SettledMeansNoCycle | modules/bar/bar-devservices-model.c:1162-1221 | a service stays unsettled exactly when it leads into a cycle, and some service does exactly when the whole needs graph has a cycle, self-needs included |
| ServiceWaves.MakePlan | modules/bar/bar-devservices-model.c:1110-1257 | planning fails exactly when the whole graph has a cycle, asked for or not, and then names every service that leads into one, once and in file order; otherwise the waves are as below |
| ServiceWaves.EachStartsOnce | modules/bar/bar-devservices-model.c:1223-1253 | a service is in a wave exactly when it is wanted, in one wave only, once |
| ServiceWaves.NeedsStartEarlier | modules/bar/bar-devservices-model.c:1223-1253 | every need of a started service is in a strictly earlier wave |
| ServiceWaves.ContainersFirst | modules/bar/bar-devservices-model.c:1223-1253 | a wave comes before another exactly when its depth is smaller, or equal with containers against processes |
| ShellSearch.FindShell | modules/bar/bar-devservices-model.c:1480-1511 | the level-by-level search, on any snapshot: its result is the best shell in the sense of the next row |
| ShellSearch.ShellsByName | modules/bar/bar-devservices-model.c:1431-1451 | which processes are live shells: fifteen names, with a dash in front or not, and no zombie |
| ShellSearch.BestShellMeans | modules/bar/bar-devservices-model.c:1480-1511 | a shell is found exactly when a live one lies 1 to 64 steps below the pid, and no such shell is deeper, or as deep and younger |
| ShellSearch.Level | modules/bar/bar-devservices-model.c:1484-1505 | one level: the new frontier holds exactly the pids one step further down, and the best shell so far takes this level in |
| ShellSearch.NextLevel | modules/bar/bar-devservices-model.c:1484-1505 | a process is on the next level exactly when its first meeting with the pid is one step further up than this level's |
| ShellSearch.DistanceIsUnique | modules/bar/bar-devservices-model.c:1480-1511 | with distinct pids a process has at most one distance, even when parents form loops |
| ShellSearch.FocusCwd | modules/bar/bar-devservices-model.c:1467-1520 | the directory is that of the deepest, then youngest, then first live shell 1 to 64 steps below the process, if that can be read; without such a shell or directory it is the process's own, or none |
| StateFile.StateToText | modules/bar/bar-devservices-model.c:1737-1759 | the writer produces the two comment lines and four lines a run |
| StateFile.LinesSay | modules/bar/bar-devservices-model.c:1746-1757 | a run with a usable id and a process adds its four lines, any other run none |
| StateFile.StateFromText | modules/bar/bar-devservices-model.c:1776-1842 | the reader: at most 4096 pieces, comments, the last dot before the first equals sign, runs made on first sight, incomplete runs dropped |
| StateFile.AnyTextIsSafe | modules/bar/bar-devservices-model.c:1776-1842 | any text at all gives runs with valid ids, pid and pgid above 1 and a positive start time, no id twice |
| StateFile.LineReads | modules/bar/bar-devservices-model.c:1796-1812 | a line of a valid id, dots and `task:` included, reads as that id and key, however many dots the id has |
| StateFile.ScanIntSays | modules/bar/bar-devservices-model.c:1807-1810 | a value made of blanks, at most one sign and digits reads as the number it spells |
| StateFile.ScanIntSpells | modules/bar/bar-devservices-model.c:1807-1810 | a value of any other form is refused |
| StateFile.FormatIntReads | modules/bar/bar-devservices-model.c:1749-1756 | any number is written as a value that reads back as it |
| StateFile.RoundTrip | modules/bar/bar-devservices-model.c:1737-1842 | good runs written and read back are the same runs, up to 1023 of them; of more, the first 1023 |
| StateFile.RoundTripExactly | modules/bar/bar-devservices-model.c:1737-1842 | a list survives the round trip if and only if its runs are good and at most 1023 |
| JsonScan.ScanString | modules/bar/bar-assistant-model.c:403-418 | the loop finds the end of a string, or nothing when the text ends first |
| JsonScan.StringEnds | modules/bar/bar-assistant-model.c:403-418 | skipping a quoted string stops exactly past its closing quote, whatever is in it and whatever follows |
| JsonScan.ScanValue | modules/bar/bar-assistant-model.c:422-456 | the loop over a value with its depth counter |
| JsonScan.ValueEnds | modules/bar/bar-assistant-model.c:422-456 | skipping any printed JSON value, behind blanks, stops exactly past it |
| JsonScan.FindTopValue | modules/bar/bar-assistant-model.c:461-512 | the loop that looks for a key at depth one |
| JsonScan.TopValueIsFirst | modules/bar/bar-assistant-model.c:461-512 | for every well-formed object the result is the start of the value of its first member with that raw key, or none when no member has it; no nested key, string value or bracket in a string misleads it |
| Json.ValuesBalance | modules/bar/bar-assistant-model.c:422-456 | every JSON value, cut into strings, brackets and other characters, never closes more than it opened and closes all it opened |
| JsonText.Escape | modules/bar/bar-assistant-model.c:752-778 | the escaping loop computes the escape that the round trip is about |
| JsonText.EscapeSays | modules/bar/bar-assistant-model.c:760-776 | what stands for each character in an escaped text |
| JsonText.ReadJsonString | modules/bar/bar-assistant-model.c:517-575 | the reading loop, malformed escapes and the length cap included |
| JsonText.HexCharIs | modules/bar/bar-assistant-model.c:543-563 | four hexadecimal digits are one character, the replacement character for NUL and for half a surrogate pair |
| JsonText.EscapesMean | modules/bar/bar-assistant-model.c:536-571 | what each single-character escape stands for |
| JsonText.EscapeIsGood | modules/bar/bar-assistant-model.c:752-778 | an escaped text may stand between quotes (section 7 of RFC 8259) |
| JsonText.EscapeRoundTrip | modules/bar/bar-assistant-model.c:517-575 | a quoted, escaped text reads back as itself up to 4096 bytes, cut at the cap beyond, and the skipping scanner stops at the same quote |
| ModelList.ReadModels | modules/bar/bar-assistant-model.c:668-713 | the list reader: separators, objects taken, other values passed over, an unfinished element ends the list, the limit on models |
| ModelList.ReplyMeans | modules/bar/bar-assistant-model.c:668-713 | of any JSON object, the first 256 models that the objects of its first `models` array describe are listed, in order, if their strings are read within their quotes; a reply without such an array is refused, with the text of its first `error` member or, without one, a stock text |
| ModelList.ModelMeans | modules/bar/bar-assistant-model.c:632-665 | an object whose strings are read within their quotes is read as the model it describes: its name from the first `name` member, or from `model` when that is missing, empty or no string, and none without either; the expiry from `expires_at`; family, parameters and quantization each from its own member of the first `details` object |
| ModelList.MemberReads | modules/bar/bar-assistant-model.c:515-605 | a member that is no string reads as none; a string member reads as its own text whatever follows the object if and only if the reader does not run past the closing quote, which is told from the string's body alone |
| ModelList.WholeStaysInside | modules/bar/bar-assistant-model.c:543-566 | the reader stays inside the quotes when every `\u` has its four characters |
| ModelList.ReadsTheNextKey | modules/bar/bar-assistant-model.c:543-566 | an input where a short `\u` makes the reader take the start of the next member for digits |
| ModelList.StandsStill | modules/bar/bar-assistant-model.c:694-711 | the element loop makes no progress exactly when a closing brace stands where an element should; past any other complete element it moves on |
| ModelList.EndlessExactly | modules/bar/bar-assistant-model.c:668-713 | for any reply at all: reading it never ends if and only if it has a `models` array in which, behind elements of fewer than 256 models, a closing brace stands at the place of an element |
| ModelList.BraceReplyEndless | modules/bar/bar-assistant-model.c:668-713 | a reply whose `models` array of any good elements is closed by a brace is never finished if fewer than 256 models came out of them, and gives those models otherwise |
| ModelList.ShortestEndless | modules/bar/bar-assistant-model.c:668-713 | the reply `{"models":[}` is never finished |
| JsonShallow.PastContainer | modules/bar/bar-meeting-model.c:169-188 | the bracket counter of the meeting scanner |
| JsonShallow.UnclosedTakesAll | modules/bar/bar-meeting-model.c:146-166 | a string that never closes takes the rest of the text |
| JsonShallow.SameNest | modules/bar/bar-meeting-model.c:145-188 | where the brackets close, this scanner stops at the same place as the assistant's |
| JsonShallow.ShallowObject | modules/bar/bar-meeting-model.c:196-228 | the copying loop computes the copy that the next row is about |
| JsonShallow.ShallowIsFlat | modules/bar/bar-meeting-model.c:196-228 | the copy of any printed object is that object printed with `null` for each nested object or array: everything of its own level is kept character by character and no nested key survives |
| AiSlot.BarAi.constructor | modules/bar/bar-ai.c:73-84 | a new slot is idle, empty, at generation 0 |
| AiSlot.BarAi.SlotFail | modules/bar/bar-ai.c:244-253 | the new state in full: failed with the message for the current generation, unchanged for any other |
| AiSlot.BarAi.SlotAppend | modules/bar/bar-ai.c:256-265 | the new state in full: a chunk is appended whole or, past the cap, left out; streaming either way; unchanged for another generation |
| AiSlot.BarAi.SlotFinish | modules/bar/bar-ai.c:268-288 | the new state in full: trailing blanks off, made valid UTF-8, done; unchanged for another generation |
| AiSlot.BarAi.BarAiCancel | modules/bar/bar-ai.c:659-677 | the new state in full: one generation on, idle if it was waiting or streaming |
| AiSlot.BarAi.BarAiStart | modules/bar/bar-ai.c:590-600 | the new state in full: cancelled, then claimed with a new generation, request id and empty text |
| AiSlot.BarAi.BarAiAbsorb | modules/bar/bar-ai.c:680-719 | the new state in full, and that the change flag is also set when a reasonless error repeats the stock reason |
| AiSlot.PushSays | modules/bar/bar-ai.c:680-719 | which state, text and reason each push sets, by the name of its state, and that a push for another request or an idle slot sets nothing |
| AiSlot.PolishedMeans | modules/bar/bar-ai.c:268-283 | what a finish takes off is white space, all that stands at the end, and the rest is repaired when it is not valid |
| AiSlot.ClaimSays | modules/bar/bar-ai.c:590-600 | a start leaves the next generation, an id of the widget, that generation and eight hexadecimal digits, and nothing of the request before |
| AiSlot.HexSays | modules/bar/bar-ai.c:595-596 | the hexadecimal digits of an id stand in order of weight |
| AiSlot.WorkerLeaves | modules/bar/bar-ai.c:329-501 | how the worker of the current request leaves the slot: done and polished, or failed with its own reason, or with that of a time-out when it was stopped |
| AiSlot.GenerationTells | modules/bar/bar-ai.c:247 | the generation check tells two requests apart exactly unless their distance is a multiple of 2^32 |
| AiSlot.StaleStepChangesNothing | modules/bar/bar-ai.c:244-288 | a step of a worker of an older generation changes nothing in the slot |
| AiSlot.WrapLetsStaleIn | modules/bar/bar-ai.c:244-288 | a run in which a cancelled request's chunk is shown as a running answer in an idle, empty slot, after exactly 2^32 generations |
| AiSlot.CurrentStep | modules/bar/bar-ai.c:329-501 | a step of the current worker keeps the slot's text and state exactly those of what that worker has sent, before and after it reports |
| AiSlot.ForeignPushesLeaveNoTrace | modules/bar/bar-ai.c:680-719 | a run whose pushes are all for other or cancelled requests ends in the same state as the run without them |
| AiSlot.OldPushIsForeign | modules/bar/bar-ai.c:595-596 | a push carrying another request's id than the slot's is not taken, however far the slot's count has gone since |
| AiSlot.EveryRunKeepsInv | modules/bar/bar-ai.c:243-719 | in every interleaving of starts, cancels, workers and foreign pushes: a request nothing has superseded shows exactly what was kept of its chunks, polished once done, in the state its worker left; a superseded one shows what was kept of some first chunks of the last request and is not busy |
| AiSlot.AllKeptWithinCap | modules/bar/bar-ai.c:256-265 | all of the chunks are kept, in order, if and only if they fit the cap together |
| AiSlot.AnswerIsWhole | modules/bar/bar-ai.c:243-719 | so in every such interleaving a request that is not superseded shows what was kept of its output, polished when it is done; that is all of its output, in order, if and only if it fits the cap; a request of the command line ends done or failed, one for the editor waiting or failed |
| AiSlot.KeptIsSubsequence | modules/bar/bar-ai.c:256-265 | otherwise a subsequence of whole chunks is kept, in order and within the cap |
| AiSlot.KeptStopsExactly | modules/bar/bar-ai.c:256-265 | where the output first passes the cap, nothing more is kept if and only if no later chunk is small enough to fit; and then the text is a prefix of the output |
| AiSlot.PrefixExactly | modules/bar/bar-ai.c:256-265 | past the cap the text is a prefix of the output if and only if what is kept of the later chunks reads like their beginning |
| AiSlot.SizesDecide | modules/bar/bar-ai.c:256-265 | the sizes of the chunks make sure of a prefix, whatever they hold, if and only if no chunk behind the first that does not fit would fit in its place |
| AiSlot.KeptNeedNotBePrefix | modules/bar/bar-ai.c:256-445 | a run from the start, with reads of at most 4096 bytes, in which the current request shows text that is no prefix of its output |
| AiSlot.CancelMakesIdle | modules/bar/bar-ai.c:659-677 | cancelling a waiting or streaming request leaves the slot idle with no current worker |
| AiSlot.CancelledStaysCancelled | modules/bar/bar-ai.c:659-719 | after that no worker and no push changes the slot until the next start |
| AiSlot.TextSincePush | modules/bar/bar-ai.c:680-719 | after a push that is taken, also one that comes after the worker has gone, the text is the pushed one followed by what is kept of the request's later chunks, polished at the end; pushes of the state alone may come in between |
| AiSlot.NoReasonNoText | modules/bar/bar-ai.c:711-716 | over any run without a failing worker and without a pushed reason the slot keeps no error text; an error push that is taken then leaves it failed, without a text if and only if the push has none |
| KeyWheel.RingModsInvert | modules/bar/bar-keywheel-model.c:54-114 | a ring and flip give back a wheel chord's masked modifiers if and only if they are the ones the chord is classified on |
| KeyWheel.RingModsOnWheel | modules/bar/bar-keywheel-model.c:54-114 | every ring and flip is some wheel chord's |
| KeyWheel.Finish | modules/bar/bar-keywheel-model.c:574-617 | the layout: letters, the other keys once each and sorted, the overflow, the Beyond list and the Core face |
| WheelSpokes.FinishedSays | modules/bar/bar-keywheel-model.c:574-617 | a finished model has the binds as they are, a spoke for each letter, forty keys at most with the others counted, and exactly the binds off the wheel in its list, in order |
| KeyWheel.NormalizeSays | modules/bar/bar-keywheel-model.c:128-176 | which symbols are turned back to their keys on a US layout; any other keysym has its lower case |
| WheelSpokes.CoreIsFirstBound | modules/bar/bar-keywheel-model.c:477-503 | the Core face is the first twelve bound preferences, in their order, each spoke with exactly its bound keys and no key on two spokes; with twelve or fewer bound, all of them are there |
| WheelSpokes.OneSortedOrder | modules/bar/bar-keywheel-model.c:515-558 | no two keys rank alike, so any sort by that comparison gives the one order modelled |
| WheelSpokes.RankSays | modules/bar/bar-keywheel-model.c:505-548 | the order of the Keys face, key by key: digits, named keys, punctuation, function keys, the rest |
| WheelSpokes.PlaceInOrder | modules/bar/bar-keywheel-model.c:596-615 | a key's place on the Keys face is the number of bound non-letter keys that rank before it |
| WheelSpokes.SpokesExactly | modules/bar/bar-keywheel-model.c:574-617 | a key has a spoke if and only if it is a letter, or has a wheel bind and either fewer than forty other such keys rank before it or fewer than twelve bound Core preferences come before its own |
| WheelSpokes.LastKeyIsLost | modules/bar/bar-keywheel-model.c:596-615 | with the ten digits and F1 to F31 bound to Super, F31 has no spoke |
| KeyWheel.ScanSpokes | modules/bar/bar-keywheel-model.c:726-741 | the first spoke of a face that stands for a key, none exactly when no spoke does |
| KeyWheel.ScanCell | modules/bar/bar-keywheel-model.c:760-791 | the two-pass search of one cell |
| WheelCursor.FirstOfIsABind | modules/bar/bar-keywheel-model.c:774-790 | the second pass finds a bind of this ring on a key of the spoke, the first configured one of its chord, and nothing exactly when no key of the spoke is bound on the ring |
| WheelCursor.TurnsAdd | modules/bar/bar-keywheel-model.c:860-877 | turning twice lands where turning once by the sum does, so turning back undoes a turn |
| WheelCursor.FacesInOrder | modules/bar/bar-keywheel-model.c:860-877 | the order of the faces around the circle, with the Emacs list only when it has something, and what a turn clears |
| WheelCursor.NavigationSteps | modules/bar/bar-keywheel-model.c:1006-1043 | which keys turn the wheel back and on, and which step one ring out and in, as far as there is one |
| WheelCursor.ArrowSteps | modules/bar/bar-keywheel-model.c:1015-1033 | Left and Right go to the neighbouring spoke, round the end, to the first from none, and turn the face on a list |
| WheelCursor.LoneModifierLights | modules/bar/bar-keywheel-model.c:980-999 | a lone Shift or Ctrl lights the ring whose chord has it added, Alt flips, others do nothing |
| WheelCursor.LoneModifiers | modules/bar/bar-keywheel-model.c:880-912 | which keys are modifiers, and which one each is |
| WheelCursor.ClickThenEnter | modules/bar/bar-keywheel-model.c:1106-1160 | a click on another cell and Enter run the first bind of its spoke on that ring |
| WheelCursor.ClampKeepsValid | modules/bar/bar-plugins-keywheel.c:91-101 | a cursor that the new binds have everything for is left alone |
| WheelCursor.RemainderWraps | modules/bar/bar-keywheel-model.c:867-870 | the C remainder with its correction for negative values is the remainder on the circle of faces |
| WheelCursor.WheelCursor.Reset | modules/bar/bar-keywheel-model.c:838-848 | the new state in full: how the wheel opens |
| WheelCursor.WheelCursor.Turn | modules/bar/bar-keywheel-model.c:860-877 | the new state in full: another face, and the selection cleared unless the face is the same |
| WheelCursor.WheelCursor.Press | modules/bar/bar-keywheel-model.c:969-1090 | the new state in full and the result of any key press with any modifiers |
| WheelCursor.WheelCursor.Click | modules/bar/bar-keywheel-model.c:1106-1122 | the new state in full, and whether the cell already was the selection |
| WheelCursor.WheelCursor.Enter | modules/bar/bar-keywheel-model.c:1140-1167 | whether there is a bind to run, and its own modifiers, keysym and flags |
| WheelCursor.WheelCursor.Install | modules/bar/bar-plugins-keywheel.c:91-101 | the new state in full after the binds were replaced |
| WheelCursor.KeyKeepsValid | modules/bar/bar-keywheel-model.c:969-1090 | any key press keeps the cursor valid: an existing spoke and no row on a wheel face, no spoke and an existing row on a list face, an existing face |
| WheelCursor.AlwaysValid | modules/bar/bar-keywheel-model.c:838-1122 | over any run of key presses, turns, clicks, flips, closings and replaced binds the cursor stays valid |
| WheelCursor.OpensValid | modules/bar/bar-keywheel-model.c:838-848 | the opening cursor is valid on every finished model |
| WheelCursor.LeftUndoesRight | modules/bar/bar-keywheel-model.c:1015-1032 | a step left undoes a step right, round the end of the wheel too |
| WheelCursor.PressThenEnter | modules/bar/bar-keywheel-model.c:969-1167 | on any model and from any selection: pressing the key of a Super chord without Super, if it has a spoke and is no key of the panel's own, makes Enter run the first configured bind with the same masked modifiers and normalised key; with no such bind, what the spoke's first bound key has on that ring |
| WheelCursor.EnterRunsTheKey | modules/bar/bar-keywheel-model.c:969-1167 | so Enter runs a bind of the pressed key if and only if the chord is bound |
| WheelCursor.BindIsReached | modules/bar/bar-keywheel-model.c:574-1167 | from the opened wheel, pressing the key of any wheel bind and then Enter runs the first bind of its chord if and only if the key is none of the panel's own and the configured binds leave room for it, as in `WheelSpokes.SpokesExactly`; with both it does from any selection |
| WheelCursor.ArrowKeepsItsMeaning | modules/bar/bar-keywheel-model.c:1015-1032 | an input whose bind has a spoke and is not run by its key: Super+Left |
| WheelCursor.LostBind | modules/bar/bar-keywheel-model.c:574-1167 | an input whose bind cannot be run from the wheel, F31 behind forty others: its key press is claimed, moves nothing, and Enter runs nothing |
| WheelCursor.OtherDigitRuns | modules/bar/bar-keywheel-model.c:760-791 | an input where pressing 2 and Enter runs the bind of 1 |
| WheelCursor.PressFindsBeyond | modules/bar/bar-keywheel-model.c:1073-1086 | a key with no spoke selects the first Beyond row on that key and Enter runs that bind; with no such row nothing moves |
| Journal.Journal.Prune | modules/bar/bar-activity-model.c:1345-1404 | the file afterwards and whether it was rewritten; a missing file is left missing |
| Journal.KeepFresh | modules/bar/bar-activity-model.c:1366-1382 | the lines made of a time in digits, a comma and a rest, whose time cut to 64 bits is young enough; their bytes; and whether any other was there |
| Journal.EpochReads | modules/bar/bar-activity-model.c:1318-1333 | a line has a time exactly when it is digits, a comma and a rest, and the time is the number these digits spell, at most 2^63 - 1 |
| Journal.RecordsOfUnlines | modules/bar/bar-activity-model.c:1366-1373 | a text is cut into the lines between its newlines, and a last piece counts when it is not empty |
| Journal.FittingIsLongest | modules/bar/bar-activity-model.c:1386-1391 | dropping the oldest until the rest fits leaves the longest end of the list that fits |
| Journal.PruneKeepsLongest | modules/bar/bar-activity-model.c:1345-1404 | a prune leaves exactly the longest end of the fresh lines that fits the limit, in order, and leaves the text untouched when these are all its lines |
| Journal.PruneAgain | modules/bar/bar-activity-model.c:1345-1404 | pruning again at the same time drops nothing and leaves the file as it is |
| Journal.PruneEarly | modules/bar/bar-activity-model.c:1345-1404 | with times in order, a prune now does not change what a later prune leaves |
| Journal.PruneFits | modules/bar/bar-activity-model.c:1386-1403 | afterwards the file never exceeds the limit, rewritten or not |

## Left out

- Flat table indices: the two tables are two-dimensional arrays here, so the index arithmetic `i * w + j` is not modelled.
- Spans: offsets are counted in characters, not bytes.
- LineFold.FoldRows: does not model the wrap-around of `2 * context + 1` for a context near 2^32; `context` is unbounded.
- ActionFormat.ParseActions: fields that are not valid UTF-8 are not part of the text model, so their refusal is not modelled.
- ActionMerge.Merge: actions are values; that the merged list holds copies rather than the given objects is not modelled.
- ServicePlan.CheckRefs: which of several errors is reported first, and the wording of the messages.
- ServicePlan.FindService: the search loop is a recursion on indices.
- StateFile.StateFromText: runs are values in a list that is rebuilt, not objects updated in place.
- StateFile.RoundTrip: stated for runs within the widths of their fields; the clamping of larger numbers on reading is modelled.
- JsonText.ReadJsonString: what follows a `\u` that is not four hexadecimal digits is read differently. The original takes four bytes where the model takes four characters, so on characters beyond ASCII it resumes earlier, possibly inside a character or at a closing quote that the model has passed; and the blanks, signs and `0x` that the C number reader accepts count as malformed digits here.
- ModelList.ReadModels: the size fields, which go through floating-point reading, are not modelled.
- AiSlot.EveryRunKeepsInv: mutexes are modelled by making each locked region one step; the child process id and its signals are not modelled, and neither are NUL bytes inside the output.
- AiSlot.CancelledStaysCancelled: assumes, like all statements about runs, that no worker outlives 2^32 generations.
- KeyWheel.Finish: the sort is an insertion sort; `WheelSpokes.OneSortedOrder` shows that any sort gives the same list. A missing model is an empty one.
- WheelCursor.WheelCursor.Turn: does not model the overflow of a step near the limits of a C int.
- Labels, combination names, search, colours, geometry and hit testing of the key wheel.
- Journal.Journal.Prune: reading and writing errors of the file, and the overflow of `now - max_age` at the ends of the 64-bit range.
- YAML reading, path resolution, process spawning, sockets, signals, log files and directory scans.
- Answer cleaning, previews, paste timing and key specs of the rewrite widget: one-branch or cosmetic.
