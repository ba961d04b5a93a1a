# Verified models of the rosbridge client and its bundled test library

The repository is a C++ client that keeps talking to a rosbridge server over a connection that may come and go, and it
keeps the sources of googletest 1.8.0 in its tree. This project models the logic of both in Dafny and proves properties of
the models. `dafny verify dfyconfig.toml` checks everything.

What is modelled:

- **Diffs.** `EditDistance.dfy` fills the cost table, walks it back and interns strings; `HunkState.dfy` and
  `UnifiedDiff.dfy` cut the script into hunks; `PatchSemantics.dfy` says what hunks mean, `HunkContext.dfy` how much
  unchanged text they show; `DiffText.dfy`, `DiffReader.dfy` and `PrintedPatch.dfy` print them, read the text back, and say
  when it is a patch.
- **Reference-linked pointers.** `LinkedPtr.dfy`: rings through the heap, and who deletes what over whole runs.
- **Simple regular expressions.** `RegexSyntax.dfy`, `RegexMatch.dfy`, `RegexFullMatch.dfy`, `RegexMeaning.dfy`, over C strings (`CStrings.dfy`).
- **Talkers and listeners.** `Queues.dfy` has the bounded queues, as values and as objects; `TalkerProtocol.dfy` and
  `ListenerProtocol.dfy` (with `History.dfy`) interleave their locked steps with producers, consumers and reconnections; `Client.dfy` is the
  sending pass and the dispatch.
- **Encoders.** `Utf8.dfy` (with `Bits.dfy`), `CLiteral.dfy` (with `Hex.dfy`) and `Xml.dfy`, each with a decoder of its own.
- **Tests to run.** `TestFilter.dfy`, `FilterMeaning.dfy`, `Sharding.dfy`, `Shuffle.dfy`, `TestCases.dfy`, `Orders.dfy`, `RunOrder.dfy`,
  `ShardedRuns.dfy`, `Registry.dfy`: from globs and shards to what each iteration runs and in which order.
- **Floating point and paths.** `FloatUlp.dfy` (with `Arithmetic.dfy`) and `FilePaths.dfy`.

Code that changes things step by step is modelled by classes and methods with loops; each is proved against a function on
values, and what the source promises is proved about that function.

## Where the code and its documentation part

- `CalculateOptimalEdits` is announced as optimal, but a tie between adding and removing that beats replacing still goes to
  replacing. The table is optimal exactly when no such cell occurs (`EditDistance.OptimalIffNoTie`). The script returned
  is then a cheapest one. It is not when such a cell lies on the walk back (`EditDistance.TieOnTraceNotOptimal`); away from
  it, such a cell can be harmless, but need not be (`EditDistance.TieOffTheTrace`, `EditDistance.TieOffTheTraceCanHarm`).
- `CreateUnifiedDiff` compares whole lines but prints each only up to its first NUL, so that lines differing behind one
  give a diff that applies to neither text (`UnifiedDiff.BehindNulIsLost`, `UnifiedDiff.DiffThenPatch`).
- With context 0 `CreateUnifiedDiff` prints nothing at all (`UnifiedDiff.WithoutContextNothing`).
- A regular expression that ends in an escaped dollar gets no anchor at its end, so a full match accepts more than the
  language (`RegexFullMatch.FullMatchExactIff`).
- A NUL before an octal digit is printed so that a C compiler would read one octal escape (`CLiteral.ReadBackIff`).
- A talker's reset that falls between sending and removing is lost (`TalkerProtocol.ResetInWindowIsLost`), and so is one
  before the sending of a payload; the payload can be sent twice, and another can come before the head message. The exact
  conditions are `TalkerProtocol.ResetWorksIff`, `TalkerProtocol.HeadIsSentAgainIff` and
  `TalkerProtocol.ResetInWindowResendsIff`. A push in that window can make the removal drop a message that was never sent
  (`TalkerProtocol.PopLosesIffFrontEvicted`). A negative queue size is compared as a huge unsigned one.
- A comment says `CodePointToUtf8` rejects what lies outside Unicode; the code encodes everything up to 0x1FFFFF, surrogates
  included (`Utf8.DecodeIffInRange`).
- Creating directories ends only because the current directory exists (`FilePaths.CurrentDirectoryIsItsOwnParent`).

## Conventions

- The connection is an answer for each question whether it is active; what a callback returns, whether it throws, and
  where a directory may be made are parameters. "Sent" means handed to the connection, which may drop it.
- A message is its operation, name, id and payload. Deleting an object appends its name to a list.
- Edit costs are exact reals, the float constant 1.00001 taken as written. Masks, shifts and ORs of
  code points are those of `Bits.dfy`; other bit operations on unsigned words are written with powers of two, quotients and
  remainders (`Bits.MaskAndShift`).
- `NUL`-terminated strings are strings without that character, read through a function whose precondition forbids places
  past the terminator.
- The link object inside a pointer is folded into the pointer.
- Strings are shorter than the largest `size_t`, and there are fewer than 2^31 test cases and tests in a case, as the
  source's integer types demand.

## Model

| member | source | states |
|---|---|---|
| `EditDistance.ScriptRebuildsRight` | googletest-1.8.0/src/gtest.cc:1073-1082 | Replaying any valid script on the left sequence, with what it brings from the right one, uses both up and gives exactly the right sequence |
| `EditDistance.MoveFitsAndPays` | googletest-1.8.0/src/gtest.cc:1046-1071 | The move stored in every cell but the corner leads to a neighbouring cell inside the table, a match only between equal elements, and the cell costs what that neighbour costs plus the move |
| `EditDistance.MoveIsCheapest` | googletest-1.8.0/src/gtest.cc:1046-1071 | Equal elements are always matched; where they differ, adding or removing is chosen exactly when the neighbour behind it alone has the least cost, and everything else is replaced |
| `EditDistance.CheapestUnlessTie` | googletest-1.8.0/src/gtest.cc:1046-1071 | Where elements differ, a cell costs one of its neighbours plus the price of the edit, and the cheapest of the three unless neighbours tie |
| `EditDistance.TraceIsValidAndPriced` | googletest-1.8.0/src/gtest.cc:1073-1082 | Walking back from any cell never leaves the table, ends at the corner, and yields a valid script for the two prefixes whose cost is the cell's |
| `EditDistance.CostBounds` | googletest-1.8.0/src/gtest.cc:1035-1071 | Every table value lies between 0 and 1.00001 times the longer prefix, and is 0 exactly for equal prefixes |
| `EditDistance.OptimalIffNoTie` | googletest-1.8.0/src/gtest.cc:1055-1069 | The whole table holds least costs exactly when at no cell the least cost lies behind more than one edit, or hardly less behind replacing, although adding or removing would be cheaper; a condition on all cells, not only on those the returned script passes |
| `EditDistance.NoTieMakesScriptOptimal` | googletest-1.8.0/src/gtest.cc:1055-1083 | Without such a cell no valid script is cheaper than the one returned |
| `EditDistance.TieOffTheTrace` | googletest-1.8.0/src/gtest.cc:1055-1083 | Such a cell away from the walk back need not do harm: from 0,1 to 1,0,1 there is one, and the returned script is still a cheapest one |
| `EditDistance.TieOnTraceNotOptimal` | googletest-1.8.0/src/gtest.cc:1055-1083 | Such a cell on the walk back from any cell always makes the script found dearer than another valid one |
| `EditDistance.TieOffTheTraceCanHarm` | googletest-1.8.0/src/gtest.cc:1055-1083 | Away from the walk back it can do harm as well: from 0,1,0 to 1,0,0,2 the walk comes through none, and a cheaper script exists |
| `EditDistance.NeighboursClose` | googletest-1.8.0/src/gtest.cc:1046-1071 | Without such a cell, neighbouring costs differ by at most one |
| `EditDistance.TieCellNotOptimal` | googletest-1.8.0/src/gtest.cc:1058-1067 | A tie cell never holds the least cost: the cheaper script is exhibited |
| `EditDistance.NotAlwaysOptimal` | googletest-1.8.0/src/gtest.cc:1058-1067 | For a,b,a and b,a,b three replacements are chosen although two edits suffice, so the promised minimum can be missed |
| `EditDistance.CalculateOptimalEdits` | googletest-1.8.0/src/gtest.cc:1028-1083 | The loops over the tables and the walk back return the script the table stands for, and it is valid |
| `EditDistance.FillTables` | googletest-1.8.0/src/gtest.cc:1035-1071 | After the loops every entry of both tables is the cell of the recurrence |
| `EditDistance.FillRow` | googletest-1.8.0/src/gtest.cc:1046-1071 | One row is filled from the row above and itself, and no other row changes |
| `EditDistance.InternalStrings.GetId` | googletest-1.8.0/src/gtest.cc:1088-1102 | Numbers are handed out so that no two strings share one, and known strings keep theirs |
| `EditDistance.Intern` | googletest-1.8.0/src/gtest.cc:1104-1117 | The numbers of two lists of strings are equal at the same places as the strings |
| `EditDistance.TraceDependsOnEquality` | googletest-1.8.0/src/gtest.cc:1104-1118 | Sequences that are equal at the same places have the same script, so the string overload inherits everything |
| `EditDistance.CalculateOptimalEditsOfStrings` | googletest-1.8.0/src/gtest.cc:1104-1118 | The string overload returns the script of the strings themselves, valid for them |
| `HunkState.PushKeepsConsistent` | googletest-1.8.0/src/gtest.cc:1135-1169 | A pushed line reaches exactly the sides it belongs to, whatever is still waiting, and the counters keep counting the lines of the two sides |
| `HunkState.PushKeepsOrder` | googletest-1.8.0/src/gtest.cc:1135-1169 | No addition ever stands right before a removal among the flushed lines |
| `HunkState.PushKeepsShape` | googletest-1.8.0/src/gtest.cc:1135-1169 | Once edited, a hunk consists of the opening context lines, then an edit, and ends with an edit and the context lines since |
| `UnifiedDiff.Hunk.PushLine` | googletest-1.8.0/src/gtest.cc:1135-1150 | The object does what the value does: context lines flush the waiting edits, edits wait in their list |
| `UnifiedDiff.Hunk.FlushEdits` | googletest-1.8.0/src/gtest.cc:1166-1169 | All waiting removals, then all waiting additions, move to the end of the lines |
| `UnifiedDiff.Hunk.PrintHeader` | googletest-1.8.0/src/gtest.cc:1175-1187 | The header shows start and length of each side that has edits, and leaves the other side out |
| `UnifiedDiff.Hunk.PrintTo` | googletest-1.8.0/src/gtest.cc:1153-1161 | Header, then all lines with their tags, removals before additions |
| `UnifiedDiff.OpenHunk` | googletest-1.8.0/src/gtest.cc:1218-1223 | A hunk is opened with the unchanged lines just before the first edit, at most `context` of them, each shown up to its first NUL |
| `UnifiedDiff.NoEditNear` | googletest-1.8.0/src/gtest.cc:1229-1237 | Looking ahead over matches finds out whether an edit lies fewer than `context` places ahead |
| `UnifiedDiff.FillHunk` | googletest-1.8.0/src/gtest.cc:1225-1253 | The inner loop feeds edits to the hunk until enough unchanged lines follow and no edit is near |
| `UnifiedDiff.TakeNext` | googletest-1.8.0/src/gtest.cc:1240-1253 | One edit goes into the hunk, its lines shown up to their first NUL, and the places in script and texts move on |
| `UnifiedDiff.CreateUnifiedDiff` | googletest-1.8.0/src/gtest.cc:1203-1263 | The printed text is that of the hunks of the diff, lines shown up to their first NUL; all loops end, also without context |
| `UnifiedDiff.NextCutIsGood` | googletest-1.8.0/src/gtest.cc:1210-1261 | Each printed hunk covers the next changed stretch: its lines are exactly the two slices its header names, of the texts as shown, and the gap before it is common to both |
| `UnifiedDiff.HunksCoverAll` | googletest-1.8.0/src/gtest.cc:1210-1261 | With context, what lies before, between and after the hunks is common to the whole texts, NULs included, and each hunk shows its two stretches |
| `UnifiedDiff.DiffThenPatch` | googletest-1.8.0/src/gtest.cc:1203-1263 | For all texts: the hunks applied in order to the left text give exactly the right one if and only if the texts are equal, or some context was asked for and no line inside a printed hunk's two slices contains a NUL; read backwards they give the left text from the right under exactly the same condition |
| `UnifiedDiff.NulFreeDiffThenPatch` | googletest-1.8.0/src/gtest.cc:1203-1263 | For texts without NULs the condition is that some context was asked for or the texts are equal |
| `UnifiedDiff.BehindNulIsLost` | googletest-1.8.0/src/gtest.cc:1222-1247 | Two lines that differ only behind a NUL: the printed hunk removes and adds the same line, and applies to neither text |
| `UnifiedDiff.WithoutContextNothing` | googletest-1.8.0/src/gtest.cc:1228-1258 | With context 0 nothing is printed, however much the texts differ |
| `UnifiedDiff.DiffKeepsContext` | googletest-1.8.0/src/gtest.cc:1210-1261 | Hunks are framed by at most `context` unchanged lines, by exactly so many towards another hunk, with removals before additions |
| `HunkContext.DiffShowsContext` | googletest-1.8.0/src/gtest.cc:1210-1253 | Every hunk opens with exactly `context` unchanged lines, or with all there are at the start of the texts, closes likewise, and goes on over a stretch of unchanged lines exactly while this is shorter than twice `context` |
| `DiffText.HeaderLooks` | googletest-1.8.0/src/gtest.cc:1175-1187 | The text of the header for both sides, for one, and for the other |
| `DiffText.BodyLooks` | googletest-1.8.0/src/gtest.cc:1153-1161 | Each line is printed behind its tag and ended by a line break |
| `PatchSemantics.PatchBothWaysIff` | googletest-1.8.0/src/gtest.cc:1175-1187 | Hunks whose headers ascend, do not overlap and are right, and that leave only common lines between them, lead from either text to the other exactly when they show all their lines whole |
| `DiffReader.PrintedHunksReadBack` | googletest-1.8.0/src/gtest.cc:1153-1187 | Printed hunks, whatever their number and with any of the three tags, are read back from the text alone exactly when no line in them contains a line break |
| `PrintedPatch.DiffIsTagged` | googletest-1.8.0/src/gtest.cc:1153-1187 | All lines of a diff have one of the three tags, and each hunk shows a side in its header exactly when it has edits of that side |
| `PrintedPatch.PrintedDiffIsPatch` | googletest-1.8.0/src/gtest.cc:1203-1263 | For all texts: the printed text reads back as its hunks exactly when no shown line contains a line break; and as any patch from left to right, or backwards from right to left, exactly when moreover the condition of `UnifiedDiff.DiffThenPatch` holds |
| `PrintedPatch.HeaderIsRead` | googletest-1.8.0/src/gtest.cc:1153-1187 | Whatever the lines contain, if the printed text can be read then every printed header is read |
| `PrintedPatch.PlainTextsPrintAPatch` | googletest-1.8.0/src/gtest.cc:1203-1263 | For texts without line breaks and NULs inside lines, and with some context, the printed text itself reads back as a patch from left to right and from right to left |
| `LinkedPtrs.LinkedPtr.JoinNew` | googletest-1.8.0/include/gtest/internal/gtest-linked_ptr.h:92-94 | The pointer alone is a closed ring |
| `LinkedPtrs.LinkedPtr.Join` | googletest-1.8.0/include/gtest/internal/gtest-linked_ptr.h:108-121 | The walk ends, and the pointer enters the ring just before the one given; one link outside changes |
| `LinkedPtrs.LinkedPtr.Unlink` | googletest-1.8.0/include/gtest/internal/gtest-linked_ptr.h:125-139 | The walk ends, true exactly for a ring of one; otherwise the rest is a closed ring and only the predecessor's link changes |
| `LinkedPtrs.LinkedPtr.Depart` | googletest-1.8.0/include/gtest/internal/gtest-linked_ptr.h:204-206 | All rings stay closed and apart; the object is deleted exactly when no other live pointer holds it |
| `LinkedPtrs.LinkedPtr.Capture` | googletest-1.8.0/include/gtest/internal/gtest-linked_ptr.h:208-211 | A fresh object or null is held alone |
| `LinkedPtrs.LinkedPtr.Copy` | googletest-1.8.0/include/gtest/internal/gtest-linked_ptr.h:213-219 | The object is shared in the ring of the pointer copied; null is not shared |
| `LinkedPtrs.LinkedPtr.constructor` | googletest-1.8.0/include/gtest/internal/gtest-linked_ptr.h:152-152 | The new pointer holds the object given; no other pointer and no object is touched; the heap stays in order |
| `LinkedPtrs.LinkedPtr.CopyOf` | googletest-1.8.0/include/gtest/internal/gtest-linked_ptr.h:156-160 | The new pointer holds what the copied one holds; nothing else changes |
| `LinkedPtrs.LinkedPtr.Assign` | googletest-1.8.0/include/gtest/internal/gtest-linked_ptr.h:169-175 | The pointer holds what the other held, every other pointer keeps what it held, and the object let go is deleted exactly if nobody else held it; nothing happens on self-assignment |
| `LinkedPtrs.LinkedPtr.Reset` | googletest-1.8.0/include/gtest/internal/gtest-linked_ptr.h:178-181 | The pointer holds the object given, every other keeps its own, and the object let go is deleted exactly if nobody else held it |
| `LinkedPtrs.LinkedPtr.Destroy` | googletest-1.8.0/include/gtest/internal/gtest-linked_ptr.h:153-153 | The pointer is gone, every other keeps its object, and the object let go is deleted exactly if nobody else held it |
| `LinkedPtrs.AloneIffSoleHolder` | googletest-1.8.0/include/gtest/internal/gtest-linked_ptr.h:125-139 | In a heap in order, a ring has one member exactly when nobody else holds the object |
| `LinkedPtrs.ClosedAfterUnlink` | googletest-1.8.0/include/gtest/internal/gtest-linked_ptr.h:125-139 | When one pointer leaves, every ring of the heap is still closed in memory |
| `LinkedPtrs.ClosedAfterJoin` | googletest-1.8.0/include/gtest/internal/gtest-linked_ptr.h:108-121 | When one pointer enters a ring, every ring of the heap is still closed in memory |
| `LinkedPtrs.DepartureKeepsSharing` | googletest-1.8.0/include/gtest/internal/gtest-linked_ptr.h:204-206 | After a departure two live pointers are still on one ring exactly when they share an object |
| `LinkedPtrs.CopyKeepsSharing` | googletest-1.8.0/include/gtest/internal/gtest-linked_ptr.h:213-219 | After a copy likewise |
| `LinkedPtrs.StepAccounts` | googletest-1.8.0/include/gtest/internal/gtest-linked_ptr.h:150-219 | Each operation deletes exactly the objects it leaves without a holder |
| `LinkedPtrs.RunsAccount` | googletest-1.8.0/include/gtest/internal/gtest-linked_ptr.h:150-219 | Over any run the objects taken over are those held and those deleted; none is deleted twice, none while held |
| `LinkedPtrs.NothingLeaks` | googletest-1.8.0/include/gtest/internal/gtest-linked_ptr.h:150-219 | When all pointers are gone every object taken over has been deleted exactly once |
| `RegexSyntax.ShowAfterParse` | googletest-1.8.0/src/gtest-port.cc:681-735 | Parsing loses nothing: printing the parsed expression gives the string back |
| `RegexSyntax.ParseAfterShow` | googletest-1.8.0/src/gtest-port.cc:681-735 | Printing a well-formed expression and parsing it gives the expression back, so the grammar is unambiguous |
| `RegexSyntax.ValidatedIffInGrammar` | googletest-1.8.0/src/gtest-port.cc:681-735 | The validator's checks hold exactly for the strings of the grammar: optional caret, atoms each with an optional repetition, optional dollar, valid escapes only |
| `RegexSyntax.ValidateRegex` | googletest-1.8.0/src/gtest-port.cc:681-735 | The validator returns true exactly for non-null strings of the grammar, and reads nothing past the terminator |
| `RegexMatch.MatchSplits` | googletest-1.8.0/src/gtest-port.cc:744-797 | A tail matches exactly when some run of its first atom, of a length the repetition allows, is followed by a match of the rest |
| `RegexMatch.MatchRegexAtHead` | googletest-1.8.0/src/gtest-port.cc:771-797 | The matcher decides whether some prefix of the string is in the language of the parsed tail, up to the end if it is anchored; the mutual recursion ends and no place past the terminator is read |
| `RegexMatch.MatchRepetitionAndRegexAtHead` | googletest-1.8.0/src/gtest-port.cc:744-766 | Trying ever longer runs decides the match of a repeated atom followed by the rest |
| `RegexMatch.MatchRegexAnywhere` | googletest-1.8.0/src/gtest-port.cc:807-820 | True exactly when neither pointer is null and there is a match at some place, or at place 0 after a caret |
| `RegexFullMatch.FullPatternParses` | googletest-1.8.0/src/gtest-port.cc:841-872 | The wrapped pattern of a valid expression is valid and anchored at both ends, except that an escaped dollar at the end leaves the end open |
| `RegexFullMatch.FullMatchMeaning` | googletest-1.8.0/src/gtest-port.cc:830-832 | A full match means that the whole string is in the language, or only some prefix when the expression ends in an escaped dollar |
| `RegexFullMatch.FullMatchExactIff` | googletest-1.8.0/src/gtest-port.cc:841-872 | A full match means membership of the whole string for every string exactly for the expressions that do not end in an escaped dollar |
| `RegexMeaning.DotMeans` | googletest-1.8.0/src/gtest-port.cc:670-670 | A repeated dot matches exactly the strings without line breaks |
| `RegexMeaning.DigitsMean` | googletest-1.8.0/src/gtest-port.cc:655-655 | A repeated digit class matches exactly the strings of the ten digits |
| `RegexMeaning.WordCharsMean` | googletest-1.8.0/src/gtest-port.cc:664-664 | A repeated word class matches exactly the strings of letters, digits and underscores |
| `RegexMeaning.SpacesMean` | googletest-1.8.0/src/gtest-port.cc:660-660 | A repeated blank class matches exactly the strings of the six blank characters |
| `RegexMeaning.ComplementsMean` | googletest-1.8.0/src/gtest-port.cc:655-665 | A capital class matches one character, namely whatever the small one does not |
| `RegexMeaning.ControlsMean` | googletest-1.8.0/src/gtest-port.cc:657-663 | The escapes for control characters match just these |
| `RegexMeaning.EscapedPunctuationMeans` | googletest-1.8.0/src/gtest-port.cc:667-667 | Escaped punctuation matches itself only |
| `RegexMeaning.PlainMeans` | googletest-1.8.0/src/gtest-port.cc:670-670 | A character without a meaning of its own matches itself only |
| `RegexMeaning.SinglesAllowed` | googletest-1.8.0/src/gtest-port.cc:681-735 | Which single characters and which escapes are expressions |
| `RegexMeaning.RepeatsMean` | googletest-1.8.0/src/gtest-port.cc:744-766 | An optional, repeated or once repeated atom matches at most one, any number, or at least one character of those it matches alone |
| `RegexMeaning.JoinedMeans` | googletest-1.8.0/src/gtest-port.cc:771-797 | Two expressions one behind the other match exactly what can be cut into a match of each |
| `RegexMeaning.PartialMeans` | googletest-1.8.0/src/gtest-port.cc:807-820 | A partial match is a full match of some stretch, tied to the start by a caret and to the end by a dollar |
| `RegexFullMatch.WrapForFullMatch` | googletest-1.8.0/src/gtest-port.cc:850-871 | The buffer holds caret, expression and dollar, each added only where its character is not there yet, and the writes stay inside |
| `RegexFullMatch.RE.Init` | googletest-1.8.0/src/gtest-port.cc:841-872 | After initialisation the object is valid exactly for an expression of the grammar and holds its wrapped pattern |
| `RegexFullMatch.RE.FullMatch` | googletest-1.8.0/src/gtest-port.cc:830-832 | An invalid expression matches nothing, nothing matches a null string; otherwise the full match is decided |
| `RegexFullMatch.RE.PartialMatch` | googletest-1.8.0/src/gtest-port.cc:836-838 | An invalid expression matches nothing, nothing matches a null string; otherwise the match anywhere is decided |
| `Queues.TalkerQueue.Push` | src/queues.cpp:33-38 | The message is appended; the queue grows by one until it is full and then loses its oldest, and a negative bound never fills |
| `Queues.TalkerQueue.Pop` | src/queues.cpp:40-44 | The first removal after a reset only marks the head message, every other removes the front |
| `Queues.TalkerQueue.Next` | src/queues.cpp:46-50 | The head message until it is marked, then the front |
| `Queues.TalkerQueue.Empty` | src/queues.cpp:52-56 | Empty once the head message is marked and nothing is queued |
| `Queues.TalkerQueue.Reset` | src/queues.cpp:58-62 | The head message is to be sent again, the queue stays |
| `Queues.ListenerQueue.Push` | src/queues.cpp:75-80 | As for talkers, without a head message |
| `Queues.ListenerQueue.NextById` | src/queues.cpp:100-106 | The oldest message with the id, or nothing when there is none |
| `TalkerProtocol.StepKeepsInv` | src/queues.cpp:33-62 | Every locked step, pushes and resets in between included, keeps the queue equal to the messages pushed last, each earlier one having exactly one fate |
| `TalkerProtocol.EveryMessageHasOneFate` | src/queues.cpp:33-62 | In every interleaving no container is accessed empty, the bound holds, and each pushed message is queued, evicted or popped, in order |
| `TalkerProtocol.PushEvictsIffFull` | src/queues.cpp:33-38 | A push evicts one message, the oldest, exactly when the queue holds as many as its size, and otherwise none |
| `TalkerProtocol.PopLosesIffFrontEvicted` | src/rosbridgeclient.cpp:77-79 | A removal throws away a message that was never sent exactly when a push since the fetch has evicted the one that was sent |
| `TalkerProtocol.CleanRunsSendInOrder` | src/rosbridgeclient.cpp:72-81 | Without a reset between fetch and removal of a payload that is still queued, payloads are sent in the order they were pushed, none twice |
| `TalkerProtocol.ResetKeepsOrderIff` | src/rosbridgeclient.cpp:72-81 | After such a run, one more reset leaves payloads in order without repetition, whatever follows until the next reset, exactly when it does not fall between fetch and removal of a payload that is still queued |
| `TalkerProtocol.ResetInWindowResendsIff` | src/rosbridgeclient.cpp:77-79 | In every reachable state: after a reset between fetch and removal of a payload, that payload can be sent again after its removal step, before the next reset, exactly when no push has evicted it yet; so it is sent twice, also when the reset comes before the sending |
| `TalkerProtocol.NeverOutOfOrder` | src/rosbridgeclient.cpp:72-81 | In every interleaving, resets anywhere, no payload is sent after a younger one: at worst payloads repeat |
| `TalkerProtocol.ResetInWindowIsLost` | src/rosbridgeclient.cpp:77-79 | Whatever comes between such a reset and the removal that closes the window: nothing is sent but what the loop held, and the removal marks the head message as sent and leaves the queue |
| `TalkerProtocol.ResetWorksIff` | src/rosbridgeclient.cpp:25-25 | In every reachable state: after a reset and until the next, whatever the interleaving, the head message is sent first and once, then payloads in order, exactly when the reset falls outside a window, or before the sending of the head message, or on a queue with room for nothing |
| `TalkerProtocol.HeadThenPayloadsAfterReset` | src/rosbridgeclient.cpp:25-25 | After a reset in such a state every run without another one sends the head message first and once, then payloads in order |
| `TalkerProtocol.HeadIsSentAgainIff` | src/rosbridgeclient.cpp:25-25 | In every reachable state: a reset can get the head message sent before the next one exactly when it falls neither between sending and removal nor between fetch and sending of a payload |
| `ListenerProtocol.DeliveredInOrder` | src/subscriber.cpp:51-63 | In every interleaving no container is accessed empty, the bound holds, and the callback sees a subsequence of what was dispatched, none twice |
| `ListenerProtocol.DispatchEvictsIffFull` | src/queues.cpp:75-80 | A dispatch evicts one message, the oldest, exactly when the queue holds as many as its size, and otherwise none |
| `ListenerProtocol.RoundDelivers` | src/serviceserver.cpp:53-69 | One round of the thread delivers the oldest message, pushes the answer if there is one, and removes the message |
| `ListenerProtocol.RoundsDeliverAll` | src/subscriber.cpp:51-63 | As many rounds as messages queued deliver all of them in order, if nothing is dispatched meanwhile |
| `ListenerProtocol.ResponsesMatchRequests` | src/serviceserver.cpp:53-69 | Each response belongs to one delivered request and bears its id; a callback that throws gives none |
| `ListenerProtocol.PopLosesIffFrontEvicted` | src/subscriber.cpp:56-60 | A removal throws away a message the callback never saw exactly when the one it saw has been evicted meanwhile |
| `Client.TurnsSendPrefix` | src/rosbridgeclient.cpp:72-81 | After n passes without pushes a talker has sent the first n pending messages, in order, and keeps the rest |
| `Client.DrainedAfterReset` | src/rosbridgeclient.cpp:72-87 | After a reset all talkers are empty exactly from one pass more than the longest backlog on, and each has sent its head followed by its backlog |
| `Client.RosbridgeClient.Talk` | src/rosbridgeclient.cpp:72-81 | Each talker before the place where the connection is found inactive has one turn, the others none |
| `Client.RosbridgeClient.Tick` | src/rosbridgeclient.cpp:28-28 | Repeated passes are repeated turns for every talker |
| `Client.RosbridgeClient.ResetTalkers` | src/rosbridgeclient.cpp:83-87 | Every talker is reset |
| `Client.RosbridgeClient.Listen` | src/rosbridgeclient.cpp:51-70 | Publications, service calls and service responses reach exactly the queues attached under their name; other operations change nothing |
| `Client.RosbridgeClient.AttachListener` | src/rosbridgeclient.cpp:45-49 | The queue is added under its topic, behind those already there |
| `Utf8.DecodeIffInRange` | googletest-1.8.0/src/gtest.cc:1759-1785 | A decoder recovers a sequence of code points from their encodings exactly when all are at most 0x1FFFFF; the message shown for larger ones is never mistaken |
| `Utf8.MatchesRfc3629` | googletest-1.8.0/src/gtest.cc:1759-1785 | A Unicode scalar value is encoded as the one octet sequence that section 4 of RFC 3629 allows and section 3 maps to it |
| `Utf8.UnitsReadBack` | googletest-1.8.0/src/gtest.cc:1794-1805 | Combining surrogate pairs can be undone, unpaired surrogates included |
| `Utf8.Utf16RoundTrip` | googletest-1.8.0/src/gtest.cc:1823-1844 | With 16-bit units the exact units up to the limit or the first NUL are recovered from the bytes, for every string |
| `Utf8.WellFormedConverted` | googletest-1.8.0/src/gtest.cc:1794-1844 | Scalar values written in 16-bit units, by surrogate pairs above 0xFFFF, come out as their UTF-8 |
| `Utf8.Utf32RoundTripIff` | googletest-1.8.0/src/gtest.cc:1823-1844 | With 32-bit units they are recovered exactly when all are at most 0x1FFFFF |
| `Bits.MaskAndShift` | googletest-1.8.0/src/gtest.cc:1747-1751 | A mask of n ones takes the remainder by the n-th power of two, a shift by n the quotient, bit by bit, for every n |
| `Bits.OrIsPlus` | googletest-1.8.0/src/gtest.cc:1764-1783 | ORing a number of n bits onto a marker whose last n bits are zero is adding it |
| `Utf8.ChopLowBits` | googletest-1.8.0/src/gtest.cc:1747-1751 | For every width, the mask and the shift cut the number into its low bits and the rest, which put together give it back |
| `Utf8.FillBuffer` | googletest-1.8.0/src/gtest.cc:1764-1783 | The buffer of five holds the encoding and a terminator |
| `Utf8.CodePointToUtf8` | googletest-1.8.0/src/gtest.cc:1759-1785 | The encoding, nothing for NUL, or the message for a value that is too large |
| `Utf8.TooLargeIsNamed` | googletest-1.8.0/src/gtest.cc:1757-1763 | A value beyond 21 bits is named in upper-case hexadecimal without leading zeros |
| `Utf8.WideStringToUtf8` | googletest-1.8.0/src/gtest.cc:1823-1844 | The loop stops at the limit or the first NUL and returns the encodings of all code points before |
| `CLiteral.ReadBackIff` | googletest-1.8.0/src/gtest-printers.cc:262-306 | A lexer that reads hex escapes greedily and joins adjacent literals returns the array; one that reads octal escapes does so exactly when no NUL stands before an octal digit |
| `CLiteral.PrintedArrayInjective` | googletest-1.8.0/src/gtest-printers.cc:286-306 | Two arrays printed alike are alike |
| `CLiteral.PlainTextPrinted` | googletest-1.8.0/src/gtest-printers.cc:262-306 | Printable ASCII without double quotes and backslashes is printed as it is, between quotes, with or without the remark on the missing NUL |
| `CLiteral.EscapesPrinted` | googletest-1.8.0/src/gtest-printers.cc:146-203 | The ten characters with an escape of their own, each as printed |
| `CLiteral.OthersPrintedByNumber` | googletest-1.8.0/src/gtest-printers.cc:146-203 | Every other character is printed by its number in upper-case hexadecimal without leading zeros |
| `CLiteral.PrintsJoin` | googletest-1.8.0/src/gtest-printers.cc:262-278 | The print of two arrays one behind the other is their prints joined, with the literal broken between them exactly where a number is followed by a hex digit |
| `CLiteral.LexBody` | googletest-1.8.0/src/gtest-printers.cc:262-278 | What the quoted text reads back as, character by character, in both readings |
| `CLiteral.PrintAsCharLiteralTo` | googletest-1.8.0/src/gtest-printers.cc:146-188 | The escape of every unit and how it was formatted |
| `CLiteral.PrintAsStringLiteralTo` | googletest-1.8.0/src/gtest-printers.cc:192-203 | The same inside a string: single quotes plain, double quotes escaped |
| `CLiteral.PrintCharsAsStringTo` | googletest-1.8.0/src/gtest-printers.cc:262-278 | The literal is broken exactly where a hex digit follows a hex escape |
| `CLiteral.UniversalPrintCharArray` | googletest-1.8.0/src/gtest-printers.cc:286-306 | A final NUL is not printed, a missing one is mentioned |
| `Xml.CDataRoundTrip` | googletest-1.8.0/src/gtest.cc:3588-3605 | Reading a CDATA section back gives the data for every string, embedded close marks included |
| `Xml.CDataLooks` | googletest-1.8.0/src/gtest.cc:3588-3605 | Data without a close mark stands in one section as it is; otherwise the first close mark goes between two sections with its last character escaped |
| `Xml.EscapedReadsBack` | googletest-1.8.0/src/gtest.cc:3476-3531 | Reading an escaped value back, with attribute whitespace normalised first, gives the string without its invalid characters |
| `Xml.EscapedJoins` | googletest-1.8.0/src/gtest.cc:3476-3517 | Text is escaped character by character |
| `Xml.OneEscaped` | googletest-1.8.0/src/gtest.cc:3476-3531 | What becomes of each character, in text and in attributes |
| `Xml.OutputXmlCDataSection` | googletest-1.8.0/src/gtest.cc:3588-3605 | The loop writes the data with each close mark split between two sections |
| `Xml.EscapeXml` | googletest-1.8.0/src/gtest.cc:3476-3517 | The loop writes each character's escape for the given place |
| `Xml.RemoveInvalidXmlCharacters` | googletest-1.8.0/src/gtest.cc:3522-3531 | The valid characters, in order |
| `TestFilter.PatternMatchesIffGlob` | googletest-1.8.0/src/gtest.cc:462-477 | The recursive matcher decides whether the string can be cut into one fitting part for each character of the glob |
| `FilterMeaning.ExactGlob` | googletest-1.8.0/src/gtest.cc:462-477 | A glob of ordinary characters matches only itself |
| `FilterMeaning.QuestionMeans` | googletest-1.8.0/src/gtest.cc:468-469 | A question mark matches any one character |
| `FilterMeaning.StarMeans` | googletest-1.8.0/src/gtest.cc:470-472 | A star matches everything |
| `FilterMeaning.GlobsJoined` | googletest-1.8.0/src/gtest.cc:462-477 | Two globs one behind the other match exactly what can be cut into a match of each |
| `TestFilter.MatchesFilter` | googletest-1.8.0/src/gtest.cc:479-500 | True exactly when some colon-separated glob matches the whole name |
| `FilterMeaning.FiltersJoined` | googletest-1.8.0/src/gtest.cc:479-500 | A filter without a colon is one glob, and a colon separates alternatives |
| `TestFilter.FilterMatchesTest` | googletest-1.8.0/src/gtest.cc:502-528 | A match with what precedes the first dash, if anything does, and none with what follows it |
| `FilterMeaning.FlagMeans` | googletest-1.8.0/src/gtest.cc:502-528 | The flag without a dash, with a dash behind what is asked for, and with nothing before the dash |
| `Sharding.ShardsPartition` | googletest-1.8.0/src/gtest.cc:4778-4840 | Every runnable test is selected on exactly one shard, every other test on none |
| `Sharding.ShardSize` | googletest-1.8.0/src/gtest.cc:4824-4835 | The size of each shard in closed form |
| `Sharding.ShardsBalanced` | googletest-1.8.0/src/gtest.cc:4824-4835 | Shards differ in size by at most one, the earlier being the larger |
| `Sharding.ShardSizesAddUp` | googletest-1.8.0/src/gtest.cc:4824-4835 | Together the shards run each runnable test once |
| `Sharding.ShouldShard` | googletest-1.8.0/src/gtest.cc:4715-4755 | The run is split exactly for an index from 0 to total - 1, which then picks the ranks that leave this remainder; unset variables and death-test processes run everything, all else is refused |
| `Sharding.FilterTests` | googletest-1.8.0/src/gtest.cc:4789-4840 | All tests and cases are marked as the filter, the disabled names and the shard say, and the count returned is exact |
| `Sharding.DisabledMeans` | googletest-1.8.0/src/gtest.cc:4812-4818 | A test is disabled exactly if its name or that of its case begins with DISABLED_ or has it right behind a slash |
| `Shuffling.Random.Generate` | googletest-1.8.0/src/gtest.cc:311-325 | The next state of the generator, and a number below the range |
| `Shuffling.StatesInSteps` | googletest-1.8.0/src/gtest.cc:311-325 | The state after 0 is 12345, and after the next state it is larger by 1103515245, modulo 2^31 |
| `Shuffling.StepIsOneToOne` | googletest-1.8.0/src/gtest.cc:311-325 | Every state below 2^31 comes from exactly one such state |
| `Shuffling.ShuffledKeepsElements` | googletest-1.8.0/src/gtest-internal-inl.h:322-328 | A shuffle rearranges |
| `Shuffling.ExactlyOneChoice` | googletest-1.8.0/src/gtest-internal-inl.h:322-328 | Every order of distinct elements, and nothing else, comes from exactly one sequence of choices |
| `Shuffling.RangeOnly` | googletest-1.8.0/src/gtest-internal-inl.h:311-329 | Nothing outside the range moves |
| `Shuffling.FirstDrawIsLast` | googletest-1.8.0/src/gtest-internal-inl.h:311-329 | The first number drawn says which element comes to the end of the range |
| `Shuffling.Vector.ShuffleRange` | googletest-1.8.0/src/gtest-internal-inl.h:311-329 | The countdown loop in place is the shuffle with the generator's choices, and leaves the generator in the state after them |
| `TestCases.TestCase.AddTestInfo` | googletest-1.8.0/src/gtest.cc:2753-2756 | The test is appended and comes last in the current order |
| `TestCases.TestCase.Run` | googletest-1.8.0/src/gtest.cc:2759-2784 | Every test is reached once, in the current order, and runs if it and its case are marked to |
| `TestCases.TestCase.ShuffleTests` | googletest-1.8.0/src/gtest.cc:2793-2795 | The order of the tests is shuffled and stays an order |
| `TestCases.TestCase.UnshuffleTests` | googletest-1.8.0/src/gtest.cc:2798-2802 | The order of registration |
| `Orders.OrderedSplits` | googletest-1.8.0/src/gtest-internal-inl.h:584-587 | In an order that keeps a prefix together, the first places hold exactly the indices of that prefix |
| `Orders.ShuffledCasesOrdered` | googletest-1.8.0/src/gtest.cc:4939-4946 | Shuffling the death test cases and the others apart keeps every index, and the death test cases first |
| `Orders.JoinedRearranged` | googletest-1.8.0/src/gtest.cc:4647-4650 | Whatever the order of visits, the same things are met equally often |
| `Registry.RegistrationOrder` | googletest-1.8.0/src/gtest.cc:4502-4535 | After any registrations the cases are the different death test names in order of first registration, followed by the other names in theirs |
| `Registry.DeathMeans` | googletest-1.8.0/src/gtest.cc:4515-4530 | Death test cases are exactly those whose name ends in DeathTest or has it right before a slash |
| `Registry.UnitTestImpl.GetTestCase` | googletest-1.8.0/src/gtest.cc:4502-4535 | The known case, or a new one put behind the last death test case or at the end; the registry stays in order |
| `Registry.UnitTestImpl.AddTestInfo` | googletest-1.8.0/src/gtest-internal-inl.h:645-665 | The test is appended to its case, no other case changes, and the cases registered before stay registered |
| `Registry.UnitTestImpl.GetMutableTestCase` | googletest-1.8.0/src/gtest-internal-inl.h:584-587 | The i-th case in the current order, a death test case exactly for the first places |
| `Registry.UnitTestImpl.ShuffleTests` | googletest-1.8.0/src/gtest.cc:4939-4950 | The orders of cases and of tests are those the generator's state determines, and the registry stays in order |
| `Registry.UnitTestImpl.UnshuffleTests` | googletest-1.8.0/src/gtest.cc:4953-4960 | All orders are those of registration again |
| `Registry.UnitTestImpl.RunTestCases` | googletest-1.8.0/src/gtest.cc:4647-4650 | The cases are visited once each, in the current order |
| `RunOrder.IterationLogIsComplete` | googletest-1.8.0/src/gtest.cc:4647-4650 | Whatever the seed, an iteration runs each selected test of the death test cases once, and then each selected test of the others once |
| `RunOrder.NaturalLog` | googletest-1.8.0/src/gtest.cc:4647-4650 | Without shuffling the selected tests run in order of registration |
| `RunOrder.SeedDecidesOrder` | googletest-1.8.0/src/gtest.cc:4939-4950 | With shuffling the generator's numbers decide which case, and which test of each case, comes last, the death test cases being drawn first |
| `Registry.UnitTestImpl.RunIteration` | googletest-1.8.0/src/gtest.cc:4618-4676 | What an iteration runs, and in what order, depends on the registered cases and the seed alone; afterwards the order of registration is restored |
| `Registry.UnitTestImpl.RunAllTests` | googletest-1.8.0/src/gtest.cc:4589-4682 | After filtering, the N-th iteration runs on this shard what its seed alone determines, nothing when no test is selected, so it can be repeated without the iterations before it |
| `Registry.UnitTestImpl.RunIterations` | googletest-1.8.0/src/gtest.cc:4612-4682 | The loop over the iterations: each runs what the plan and its seed determine |
| `ShardedRuns.ShardLogIsPicked` | googletest-1.8.0/src/gtest.cc:4589-4650 | Whatever the seed, an iteration on a shard runs the tests selected there, each once, also when there are none |
| `ShardedRuns.ShardsRunEverythingOnce` | googletest-1.8.0/src/gtest.cc:4551-4682 | Filtering, splitting, shuffling and running together: whatever the seeds, one iteration of all shards runs the same tests, equally often, as one iteration that is not split |
| `ShardedRuns.EachTestOnce` | googletest-1.8.0/src/gtest.cc:4551-4682 | For any tests and any choice of runnable ones: one iteration of all shards runs each runnable test exactly once, and no other; `Registry.EachRunnableTestOnce` applies it to the registered cases |
| `Registry.SeedsCycle` | googletest-1.8.0/src/gtest-internal-inl.h:152-158 | The seeds of the iterations go round the valid seeds |
| `Registry.FilteredPlan` | googletest-1.8.0/src/gtest.cc:4789-4840 | After filtering, a test contributes to a run exactly if it is selected on this shard |
| `Registry.FilteredPlanIs` | googletest-1.8.0/src/gtest.cc:4789-4840 | After filtering, what the cases contribute to a run is exactly the selection on this shard |
| `Registry.EachRunnableTestOnce` | googletest-1.8.0/src/gtest.cc:4551-4682 | For the registered cases: one iteration of all shards runs each test exactly once if the filter selects its full name and neither its name nor that of its case is disabled, or disabled tests run as well; otherwise not at all |
| `FloatUlp.ValueInUnits` | googletest-1.8.0/include/gtest/internal/gtest-internal.h:240-406 | The value that section 3.4 of IEEE 754-2008 gives a finite pattern is a whole number of least positive numbers |
| `FloatUlp.NumbersEnd` | googletest-1.8.0/include/gtest/internal/gtest-internal.h:346-350 | The patterns that are not NaN are those up to infinity |
| `FloatUlp.BiasedOrdersValues` | googletest-1.8.0/include/gtest/internal/gtest-internal.h:373-397 | For numbers the biased forms are ordered as the values, infinities at the ends, and equal exactly for equal values, both zeros included |
| `FloatUlp.NextIsOneMore` | googletest-1.8.0/include/gtest/internal/gtest-internal.h:373-397 | The biased form grows by one exactly from a number to the next representable one |
| `FloatUlp.DistanceCountsSteps` | googletest-1.8.0/include/gtest/internal/gtest-internal.h:399-406 | The distance is the number of representable steps from one number up to the other |
| `FloatUlp.DistanceIsMetric` | googletest-1.8.0/include/gtest/internal/gtest-internal.h:399-406 | The distance is zero exactly between equal values, symmetric, and satisfies the triangle inequality |
| `FloatUlp.AlmostEqualsIff` | googletest-1.8.0/include/gtest/internal/gtest-internal.h:352-365 | Almost equal are exactly two numbers with at most four steps between them, and never a NaN |
| `FilePaths.FilePath.Normalize` | googletest-1.8.0/src/gtest-filepath.cc:356-384 | The copying loop drops every separator that follows a separator, and stays inside its buffer |
| `FilePaths.NormalizedIff` | googletest-1.8.0/src/gtest-filepath.cc:356-384 | Two paths normalise alike exactly when they have the same names and both or neither start with a separator; a path stays as it is exactly when no separators are adjacent |
| `FilePaths.SlashesMerge` | googletest-1.8.0/src/gtest-filepath.cc:356-384 | Two slashes in a row are as good as one, wherever they stand, and a path without two in a row stays as it is |
| `FilePaths.NormalizedTwice` | googletest-1.8.0/src/gtest-filepath.cc:356-384 | Normalising again changes nothing |
| `FilePaths.TakenApart` | googletest-1.8.0/src/gtest-filepath.cc:155-205 | A normalised path cut into directory and file name and put together again is the same path, or the same behind the current directory |
| `FilePaths.PartsMean` | googletest-1.8.0/src/gtest-filepath.cc:155-205 | The directory part ends with the last slash; a path without one is a file of the current directory |
| `FilePaths.CreateFolder` | googletest-1.8.0/src/gtest-filepath.cc:325-341 | True exactly when the directory existed or could be made in an existing parent |
| `FilePaths.CreateDirectoriesRecursively` | googletest-1.8.0/src/gtest-filepath.cc:308-319 | Exactly those missing directories on the way are made above which nothing is missing that cannot be made; true exactly when the path exists afterwards |
| `FilePaths.CurrentDirectoryIsItsOwnParent` | googletest-1.8.0/src/gtest-filepath.cc:166-175 | Only the current directory is its own parent, so without it the recursion would have no end |

## Left out

- Connection, websockets, timers, threads, pings, downloading and logging: input and output. The protocol modules interleave the locked steps instead.
- Serializer and Unserializer: they rest on a JSON library that is not part of this model.
- The removal of a message by id in `ListenerQueue`: nothing calls it, and it erases one element after `remove_if`.
- The constant lookup of a test case by its place: it ignores the index it looked up; GetMutableTestCase, which the run uses, is modelled.
- Attaching queues while a pass is under way: attachment is taken to be over before the runs considered.
- Abandoning queues, and service clients waiting for a response: flags and wall time.
- Rounding of the edit costs: float addition of 1.0 and 1.00001 is taken as exact.
- Messages printed for failures, invalid patterns and shuffle ranges: text only. A failed internal check ends the program and is a precondition here.
- Client.RosbridgeClient.Tick: does not model pushes between passes; the protocol modules do, for one queue.
- Registry.UnitTestImpl.RunAllTests: does not model an endless repetition (a negative repeat count), environments whose set-up fails, listeners, or the results of tests; a run records which tests run, in order.
- Registry.UnitTestImpl.RunIterations: does not model an endless repetition either.
- Sharding.ShouldShard: does not model how the two variables are read from the environment and parsed as numbers.
- Xml.EscapeXml: does not model bytes from 0x80 on, where plain char may be signed; characters are compared as non-negative numbers.
- LinkedPtrs.LinkedPtr.Assign: does not model conversion between pointer types, whose links share one ring in the same way.
- FilePaths.CreateDirectoriesRecursively: does not model links, `.` and `..` inside paths, or other processes changing the file system meanwhile.
- Windows branches, death-test processes, stream capture, flag parsing, console printers, macros and templates: operating system calls or plumbing.
- Finding unique file names, extensions and absolute paths: easy members only.
