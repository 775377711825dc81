# Verification of the ReDBox portal's algorithmic core

A Dafny model of the pieces of the portal whose logic is harder than it looks, and proofs of what each of
them is for. `dafny verify dfyconfig.toml` checks everything.

| modules | models |
|---|---|
| `TableGrid`, `ColumnWidths`, `Decimal` | `translation-html.ts`: seating table cells with one array of column bounds; turning editor-only `colwidth` lists into `col` widths in place, and reading them back |
| `JsonScanner`, `JsonLayout`, `JsonKeys`, `JsonDuplicates` | the duplicate-key scanner of `verify-translations.js`: a recursive-descent pass with one shared cursor |
| `Flatten` | `flatten` of the same script: nested translations as one flat object |
| `SqsCodec`, `SqsRepository`, `SqsProtocol` | the SQS job envelope, the repository's buffer, and the repository with its queue as a state machine |
| `HtmlText`, `MetadataRender`, `MetadataDom`, `MetadataLeaves` | the five-pass escape, the metadata renderer, a tag-stack reader of what it renders, and the leaves that must be read back |
| `HtmlClasses` | building class policies and filtering class attributes by them |
| `HookDeps` | the migration of hook manifests and the checker that tests its contract |
| `SidebarMigration` | the restartable migration that adds a sidebar text colour to branding rows |
| `Wrappers`, `SeqFacts`, `JsText`, `OrderedSet` | shared datatypes, sequence identities, JavaScript text and set primitives |

Code that updates state is modelled by methods and classes with the same loops (`TableElement`, `Scanner`,
`SqsJobRepository`, `Flattener`, arrays of rows), each proved equal to a specification function; the
theorems are about those functions. The theorems are for all inputs, all runs, or all reachable states; the
counterexamples (`OverwrittenBoundMovesCell`, `EmptyTextIsScanned`, `OverflowChanges`, `DottedKeyCollides`,
`NullVersionIsDropped`, `OrderCanBreak`, `VisibleJobIsHandedOut`) each exhibit one input or one run.

## Where the code does not do what one might expect

- A wide cell can overwrite the bound of a column that a taller cell still holds (line 61 of
  `translation-html.ts`); `TableGrid.OverwrittenBoundMovesCell` is such a table. Every cell still gets the
  column of the HTML standard exactly when, in the standard's own table, each column a cell skips is held by
  the last cell that covers it (`ColumnsMatchExactly`). The array as a whole stays exact exactly when no cell
  ends above a cell it overlaps (`ExactExactly` with `NeverLowersExactly`), and the cells are disjoint exactly
  when the standard's are (`DisjointLikeReference`); all of it always holds when every colspan is 1.
- The scanner accepts more than JSON: white space is any `\s`, and an atom is any run of characters that
  is not a stop character, the empty run included. `JsonLayout.ScansExactlyLayouts` says precisely what
  it accepts, `JsonKeys.JsonTextsScan` that every JSON text is among it, and `JsonKeys.EmptyTextIsScanned` that
  the empty text is, too.
- An envelope whose data holds a number that overflowed to an infinity changes when it is serialised again
  (`SqsCodec.OverflowChanges`);
  `SqsCodec.SentComesBack` and `SqsCodec.DecodeIsStable` hold exactly when all numbers are finite.
- A call that completes while an older job of its name is buffered hands out the younger job first.
  `SqsProtocol.OrderCanBreak` is a run from the start in which this happens, and `OrderExactly` says that
  receive order is kept exactly when it never does.
- Unlocking a buffered job leaves it in the buffer: `SqsProtocol.VisibleJobIsHandedOut` is a run in which a
  job is handed out although its message is visible to every other consumer. `TakenJobHoldsExactly` says
  exactly when a job taken from the buffer still holds its message.
- A dependency with a null version is invisible to the checker and still removed or replaced by the
  migration; `HookDeps.SurvivesExactly` says exactly which dependencies keep their section and version.
- Keys with dots can make flattened paths collide (`Flatten.DottedKeyCollides`); the last leaf then wins. Two
  paths get the same flat key exactly when they have the same dot-separated parts, leading empty keys aside
  (`FlatKeysMeetExactly`), and the flat object has one entry per leaf exactly when no two leaf paths do
  (`OneEntryPerLeafExactly`).

## Model

| member | source | states |
|---|---|---|
| TableGrid.SkipHeld | packages/sails-ng-common/src/translation-html.ts:56 | the scan stops at the first column from the cursor on that is not held in this row |
| TableGrid.HeldBeforeFirstFree | packages/sails-ng-common/src/translation-html.ts:56 | every column the scan passes over is held below the current row |
| TableGrid.FindSpanEnd | packages/sails-ng-common/src/translation-html.ts:58-60 | a cell's span ends at its row group's end at the latest, and there when `rowspan` is 0 |
| TableGrid.GroupEndIsEnd | packages/sails-ng-common/src/translation-html.ts:58-59 | the group end is where the run of rows with the same parent stops |
| TableGrid.SpanCoversExactly | packages/sails-ng-common/src/translation-html.ts:58-60 | a cell reaches a later row exactly when all rows up to it share the cell's group and its rowspan, if not 0, has not ended before it |
| TableGrid.HoldColumns | packages/sails-ng-common/src/translation-html.ts:61 | one write per covered column, growing the array where it ends |
| TableGrid.ClaimBound | packages/sails-ng-common/src/translation-html.ts:61 | afterwards exactly the covered columns carry the new bound, and all others their old one |
| TableGrid.SeatCell | packages/sails-ng-common/src/translation-html.ts:56-62 | the column and the new bounds of one cell |
| TableGrid.SeatRow | packages/sails-ng-common/src/translation-html.ts:53-64 | one row extends the pairs and the bounds by exactly its cells |
| TableGrid.TableCellColumns | packages/sails-ng-common/src/translation-html.ts:49-66 | the loops return the column of every cell, in row order |
| TableGrid.EachCellTakesFirstFree | packages/sails-ng-common/src/translation-html.ts:49-66 | each cell stands in the first column, from the end of the cell before it in its row on, that no earlier cell holds from above; the last cell seated over a column decides how long it is held |
| TableGrid.SeatingStaysExact | packages/sails-ng-common/src/translation-html.ts:56-62 | if the array describes the full set of taken slots before a cell is seated, it does so afterwards exactly when the cell shortens no held column |
| TableGrid.ColumnsMatchExactly | packages/sails-ng-common/src/translation-html.ts:49-66 | every cell gets the column of the slot-set algorithm of the WHATWG HTML standard, section 4.9.12.1, exactly when each column a cell skips there is held by the last cell covering it |
| TableGrid.ColumnsMatchReference | packages/sails-ng-common/src/translation-html.ts:49-66 | in particular, every cell gets that column where no cell shortens a held column |
| TableGrid.ExactExactly | packages/sails-ng-common/src/translation-html.ts:49-66 | the array agrees with the slot set after every cell exactly when no cell ever shortens a held column |
| TableGrid.NeverLowersExactly | packages/sails-ng-common/src/translation-html.ts:61 | no cell shortens a held column exactly when, in the standard's table, no cell ends above a cell it overlaps |
| TableGrid.DisjointExactly | packages/sails-ng-common/src/translation-html.ts:49-66 | the cell rectangles are pairwise disjoint exactly when no cell claims a column held from above |
| TableGrid.DisjointLikeReference | packages/sails-ng-common/src/translation-html.ts:49-66 | they are pairwise disjoint exactly when the standard's rectangles are |
| TableGrid.SingleColumnsAreFree | packages/sails-ng-common/src/translation-html.ts:49-66 | with every colspan 1, all of this holds for every table |
| TableGrid.OverwrittenBoundMovesCell | packages/sails-ng-common/src/translation-html.ts:61 | a table whose wide cell overwrites a bound: rectangles overlap, and the last cell gets column 1 where the standard says 2 |
| TableGrid.GroupStartsFree | packages/sails-ng-common/src/translation-html.ts:58-61 | no rowspan crosses a group boundary: every column is free at the first row of a group |
| TableGrid.GroupsIndependent | packages/sails-ng-common/src/translation-html.ts:49-66 | the columns of consecutive groups are exactly those of each group alone, overlapping colspans included |
| ColumnWidths.FilterKeepsCanonical | packages/sails-ng-common/src/translation-html.ts:26-30 | the filter accepts exactly the canonical positive decimals up to 2^53-1 on a `col`, returns them unchanged, and is idempotent |
| ColumnWidths.ColTagExactly | packages/sails-ng-common/src/translation-html.ts:27-29 | the tag test is a comparison with `col` in any case, and a safe number is at most 2^53-1 |
| ColumnWidths.ColsInOrder | packages/sails-ng-common/src/translation-html.ts:34-35 | the cols of a table are those of its colgroups, group by group |
| Decimal.ValueShow | packages/sails-ng-common/src/translation-html.ts:28-29 | the number of a printed number is that number, and the text of a positive one is canonical |
| Decimal.ValueAppends | packages/sails-ng-common/src/translation-html.ts:28 | one more digit makes a number ten times as large, plus the digit |
| Decimal.ShowValue | packages/sails-ng-common/src/translation-html.ts:28-29 | printing the number of a canonical text gives the text back |
| JsText.SplitJoin | packages/sails-ng-common/src/translation-html.ts:41 | splitting joined tokens that do not contain the separator gives them back |
| JsText.JoinSplit | packages/sails-ng-common/src/translation-html.ts:41 | joining what splitting gives is the text again, with no separator in a token |
| ColumnWidths.ParsesExactly | packages/sails-ng-common/src/translation-html.ts:38-46 | a list is accepted exactly when it is one decimal up to 2^53-1 per covered column, joined by commas, and then gives their values |
| ColumnWidths.ColwidthRoundTrip | packages/sails-ng-common/src/translation-html.ts:38-46 | a list of safe widths, one per covered column, is read back as written, zeros included |
| ColumnWidths.TableElement.MergeWidths | packages/sails-ng-common/src/translation-html.ts:81-83 | a cell's positive widths are recorded in exactly those of its columns that had none |
| ColumnWidths.TableElement.MeasureColumns | packages/sails-ng-common/src/translation-html.ts:79-84 | every column ends with the first positive width measured for it |
| ColumnWidths.FirstMeasuredIsFirst | packages/sails-ng-common/src/translation-html.ts:79-84 | that width comes from the first cell with a positive one; it is zero exactly when no cell measured one |
| ColumnWidths.MeasuredByExactly | packages/sails-ng-common/src/translation-html.ts:80-83 | a cell measured a positive width for a column exactly when its own parsed list has it at that column's place |
| ColumnWidths.TableElement.FilterSaved | packages/sails-ng-common/src/translation-html.ts:73 | the saved width of every col, filtered |
| ColumnWidths.TableElement.CountColumns | packages/sails-ng-common/src/translation-html.ts:75 | the number of logical columns the cells reach |
| ColumnWidths.ColumnCountIsFurthest | packages/sails-ng-common/src/translation-html.ts:75 | no cell ends beyond that number, and one ends there unless there is no cell |
| ColumnWidths.TableElement.CollectWidths | packages/sails-ng-common/src/translation-html.ts:72-87 | one entry per col and per logical column: measured first, else saved, else nothing |
| ColumnWidths.TableElement.WriteWidths | packages/sails-ng-common/src/translation-html.ts:88-102 | the cols carry those entries, with missing cols and a missing colgroup created; nothing changes when there is no width at all |
| ColumnWidths.TableElement.StripWidths | packages/sails-ng-common/src/translation-html.ts:104-111 | element by element: no `colwidth` is left, a col keeps its width exactly when it is a canonical decimal up to 2^53-1, no other element keeps one, and nothing else changes |
| ColumnWidths.NormalizeTables | packages/sails-ng-common/src/translation-html.ts:69-112 | every table of the document is normalised, first all widths, then the clean-up |
| ColumnWidths.PutColColumns | packages/sails-ng-common/src/translation-html.ts:94-102 | one write changes the width of that col alone, across colgroups, and appends it when it was the next one missing |
| ColumnWidths.NormalizedSaves | packages/sails-ng-common/src/translation-html.ts:69-112 | the width text every col carries after normalising |
| ColumnWidths.ColsExactly | packages/sails-ng-common/src/translation-html.ts:75-103 | with a width to save there are exactly as many cols as before or as the cells reach, whichever is more; without one the colgroups keep their cols, without widths |
| ColumnWidths.NewColsGoLast | packages/sails-ng-common/src/translation-html.ts:89-99 | new cols go into the last colgroup, or into a new one where there was none; every other colgroup keeps its number of cols |
| ColumnWidths.NormalizedKeepsCells | packages/sails-ng-common/src/translation-html.ts:69-112 | normalising moves no cell and changes no span |
| ColumnWidths.FindsEachCell | packages/sails-ng-common/src/translation-html.ts:118-119 | looking a cell up finds that cell, with its own column |
| ColumnWidths.ReadsSavedWidths | packages/sails-ng-common/src/translation-html.ts:115-123 | of any table, a cell reads nothing when no col under it has a safe width, and else one number per covered column: that of the col's safe width, or 0 |
| ColumnWidths.NullExactlyWhenZero | packages/sails-ng-common/src/translation-html.ts:122 | nothing is read exactly when every covered column is 0 |
| ColumnWidths.ReadAfterNormalize | packages/sails-ng-common/src/translation-html.ts:115-123 | reading any cell back gives, per covered column, the first positive width any cell measured for it, else the valid width its col had, else 0; nothing when all are 0 |
| ColumnWidths.OwnWidthInSlice | packages/sails-ng-common/src/translation-html.ts:69-123 | a cell's own positive entry comes back exactly when it was the first measured for its column |
| ColumnWidths.AgreeingWidthsComeBack | packages/sails-ng-common/src/translation-html.ts:69-123 | when cells agree on a column, a positive entry for it comes back unchanged |
| ColumnWidths.NormalizeTwice | packages/sails-ng-common/src/translation-html.ts:69-112 | normalising twice is normalising once, created cols and colgroups included |
| JsonScanner.Scanner.Whitespace | scripts/verify-translations.js:14-16 | the cursor crosses exactly the white space in front of it |
| JsText.SpacesAre | scripts/verify-translations.js:15 | white space is the 25 code points of ECMAScript's white space and line terminators |
| JsonScanner.Scanner.StringToken | scripts/verify-translations.js:18-32 | the decoded key and the end of the token at the cursor, or the error |
| JsonScanner.Scanner.Value | scripts/verify-translations.js:34-43 | what scanning one value does to the cursor and the list, or the error it throws; it terminates on every text |
| JsonScanner.Scanner.MemberKey | scripts/verify-translations.js:54-60 | a key is reported exactly when this object already had it |
| JsonScanner.Scanner.Member | scripts/verify-translations.js:54-68 | one turn of the object loop |
| JsonScanner.Scanner.Members | scripts/verify-translations.js:53-70 | the object loop, with a fresh key set |
| JsonScanner.Scanner.Object | scripts/verify-translations.js:45-71 | an object from its brace on |
| JsonScanner.Scanner.Elements | scripts/verify-translations.js:80-90 | the array loop |
| JsonScanner.Scanner.Array | scripts/verify-translations.js:73-91 | an array from its bracket on |
| JsonScanner.Input.ScanValue | scripts/verify-translations.js:34-43 | on success the cursor is within the text and has not moved back, whatever the text |
| JsonScanner.Input.ScanMembers | scripts/verify-translations.js:53-70 | every turn moves the cursor forward, within the text |
| JsonScanner.ScanJsonObjectKeys | scripts/verify-translations.js:10-97 | terminates on every text, malformed ones included, with the scanner's list or its error |
| JsonLayout.ScansLayout | scripts/verify-translations.js:10-97 | a tree printed with any white-space layout is scanned to the end of the text, and its repeated keys are returned |
| JsonLayout.ScannedIsLayout | scripts/verify-translations.js:10-97 | every text the scanner accepts is such a print, and the list is that tree's |
| JsonLayout.ScansExactlyLayouts | scripts/verify-translations.js:10-97 | the scanner succeeds on exactly the printed trees |
| JsonDuplicates.DuplicatesAreRepeats | scripts/verify-translations.js:45-71 | the keys reported per object, by recursion, are the key occurrences that repeat an earlier occurrence of the same object |
| JsonDuplicates.ScanReportsRepeats | scripts/verify-translations.js:10-97 | one entry per repeated key occurrence, in text order, at every depth, none missed and none invented |
| JsonKeys.DecodesOnlyTokens | scripts/verify-translations.js:22-28 | a decoder following RFC 8259, section 7 accepts only what the scanner cuts out as one token |
| JsonKeys.EscapedKeyDecodes | scripts/verify-translations.js:26 | every key written as escapes decodes to itself |
| JsonKeys.PlainBodyDecodes | scripts/verify-translations.js:26 | a key written without quote, backslash or control character decodes to its own code units: one per character, or two surrogates that combine to it |
| JsonKeys.BasicBodyDecodes | scripts/verify-translations.js:26 | for characters up to U+FFFF, that is the key itself, position by position |
| JsonKeys.PlainKeysStayApart | scripts/verify-translations.js:55-57 | two plainly written keys count as the same key exactly when they are the same text |
| JsonKeys.ShortEscapeDecodes | scripts/verify-translations.js:26 | a backslash and one of eight characters decode to the code point of RFC 8259, section 7; before any other character but `u` a backslash is an error |
| JsonKeys.HexDigitsAre | scripts/verify-translations.js:26 | the digits of a `\u` escape count the same in either case, and nothing else is one |
| JsonKeys.ScansJson | scripts/verify-translations.js:10-97 | the same results for the scanner with that decoder, without further assumptions |
| JsonKeys.JsonTextsScan | scripts/verify-translations.js:10-97 | every JSON text of RFC 8259, whatever its white space, is scanned to its end, with exactly its repeated keys |
| JsonKeys.EmptyTextIsScanned | scripts/verify-translations.js:34-43 | the empty text is scanned without an error, and it is no JSON text |
| Flatten.Flattener.Flatten | scripts/verify-translations.js:111-120 | the shared accumulator ends as if every leaf outside `_meta` had been written under its flat key, in order |
| Flatten.LeavesAreWalks | scripts/verify-translations.js:111-119 | those leaves are exactly what walking a path of keys, none of them `_meta`, can end in |
| Flatten.WalksAvoidMeta | scripts/verify-translations.js:114 | no path that can be walked has a `_meta` key |
| Flatten.WalkGoesOn | scripts/verify-translations.js:116-117 | every other key leads on into its entry, and a value that is no object ends the path |
| Flatten.LeavesInOrder | scripts/verify-translations.js:113 | the leaves stand in the order of the entries |
| Flatten.FlatKeyIsExact | scripts/verify-translations.js:115 | a flat key tells its path exactly when no key has a dot and no empty key stands before another |
| Flatten.FlatKeysMeetExactly | scripts/verify-translations.js:115 | two paths get the same flat key exactly when, leading empty keys aside, their keys have the same dot-separated parts in a row |
| Flatten.OneEntryPerLeafExactly | scripts/verify-translations.js:111-120 | the flat object has one entry per leaf outside `_meta` exactly when no two different leaf paths have the same parts |
| Flatten.ApartLeavesKeepValues | scripts/verify-translations.js:111-120 | and then every leaf's value is found under its own flat key |
| Flatten.LastLeafWins | scripts/verify-translations.js:111-120 | every entry holds the value of the last leaf with that flat key, and every leaf's key is there |
| Flatten.FlatLookupIsWalk | scripts/verify-translations.js:111-120 | where paths are told by their keys, looking up any key is following its dot-separated parts through the nested object |
| Flatten.DotlessKeysFlattenExactly | scripts/verify-translations.js:111-120 | dot-free keys, not empty at the top, are enough: one entry per leaf path with its value, no collisions |
| Flatten.DottedKeyCollides | scripts/verify-translations.js:115 | two leaves, one entry: a dotted key collides with a path |
| SqsCodec.StringifiedKeepsFinite | packages/agenda-sqs-backend/src/SqsJobRepository.ts:86 | serialising and parsing keeps a value exactly when all its numbers are finite |
| SqsCodec.StringifiedKeepsShape | packages/agenda-sqs-backend/src/SqsJobRepository.ts:86 | lists and objects keep their shape when serialised, and a number that is not finite becomes null |
| SqsCodec.DecodeExactly | packages/agenda-sqs-backend/src/SqsMessageCodec.ts:54-86 | a message is accepted exactly when it is an object with this backend and type, a non-empty id and name, a finite priority and valid timestamps, the schedule being optional |
| SqsCodec.DecodedFields | packages/agenda-sqs-backend/src/SqsMessageCodec.ts:81-85 | an accepted envelope keeps every field but the two timestamps, which become texts; an absent schedule becomes null |
| SqsCodec.TimestampExactly | packages/agenda-sqs-backend/src/SqsMessageCodec.ts:9-17 | a timestamp is a text that parses or a finite number in the range of dates; the number becomes the text of its whole milliseconds, anything else is an error naming the field |
| SqsCodec.SentIsAccepted | packages/agenda-sqs-backend/src/SqsMessageCodec.ts:41-86 | an encoded job is decoded exactly when it has an id, a name and a finite priority |
| SqsCodec.SentComesBack | packages/agenda-sqs-backend/src/SqsMessageCodec.ts:41-86 | its id, name, priority, queueing time and schedule come back, and its data exactly when the numbers in it are finite |
| SqsCodec.DecodeIsStable | packages/agenda-sqs-backend/src/SqsMessageCodec.ts:54-86 | serialising a decoded envelope and decoding it again returns it exactly when its numbers are finite |
| SqsCodec.OverflowChanges | packages/agenda-sqs-backend/src/SqsMessageCodec.ts:54-86 | a decodable envelope with an overflowed number that serialising and decoding again changes |
| SqsRepository.JobsAreNamed | packages/agenda-sqs-backend/src/SqsJobRepository.ts:184-192 | a job built from a received message has an id, a name, a finite priority and the message's receipt |
| SqsRepository.ReceivedIsSent | packages/agenda-sqs-backend/src/SqsJobRepository.ts:184-218 | what is received is the job that was sent: id, name, priority and finite data come back, locked and due now, with one failure per earlier receipt |
| SqsRepository.SkippedExactly | packages/agenda-sqs-backend/src/SqsJobRepository.ts:184-200 | a message gives no job exactly when its body is missing or is no envelope of this backend |
| SqsRepository.HasReceiptExactly | packages/agenda-sqs-backend/src/SqsJobRepository.ts:138 | a receipt counts only when it is there and not empty |
| SqsRepository.BufferAllByName | packages/agenda-sqs-backend/src/SqsJobRepository.ts:64-68 | buffering appends the jobs of each name to that name's queue, in order, and to no other |
| SqsRepository.BatchByName | packages/agenda-sqs-backend/src/SqsJobRepository.ts:182-202 | name by name, a batch is the job handed out followed by the jobs buffered, in receive order |
| SqsRepository.HandsOutTheFirst | packages/agenda-sqs-backend/src/SqsJobRepository.ts:193-202 | a batch hands out its first job of the name, taken out of the batch, and nothing when there is none |
| SqsRepository.RetryDelay | packages/agenda-sqs-backend/src/SqsJobRepository.ts:151-152 | a retry, of a failed job too, is delayed by the time left at the second reading of the clock, rounded up to seconds and at most twelve hours; the delay is positive exactly when the retry is still ahead then |
| SqsRepository.LockedSaveExtends | packages/agenda-sqs-backend/src/SqsJobRepository.ts:143-150 | saving a locked job that is not done, failed or unfinished, extends its message by the configured timeout |
| SqsRepository.SaveSendsNothingExactly | packages/agenda-sqs-backend/src/SqsJobRepository.ts:136-159 | a save sends nothing exactly without a receipt, or for a job that is neither done nor locked nor to run later |
| SqsRepository.SaveReleasesExactly | packages/agenda-sqs-backend/src/SqsJobRepository.ts:136-159 | a save makes a message visible at once exactly for a locked job with a timeout that is not positive, or for a retry that became due between the two readings of the clock |
| SqsRepository.SqsJobRepository.TakeBuffered | packages/agenda-sqs-backend/src/SqsJobRepository.ts:168-171 | the oldest buffered job of the name is taken, and nothing else changes |
| SqsRepository.SqsJobRepository.SortBatch | packages/agenda-sqs-backend/src/SqsJobRepository.ts:182-202 | the first job of the name is handed out and all others are buffered in receive order; empty and malformed messages are skipped |
| SqsRepository.SqsJobRepository.GetNextJobToRun | packages/agenda-sqs-backend/src/SqsJobRepository.ts:161-203 | a whole call that no other call interrupts |
| SqsRepository.SqsJobRepository.UnlockJob | packages/agenda-sqs-backend/src/SqsJobRepository.ts:229-232 | one id: along the map, one release per queue for its first such job with a receipt, and the buffer stays as it is |
| SqsRepository.SqsJobRepository.UnlockJobs | packages/agenda-sqs-backend/src/SqsJobRepository.ts:226-234 | the releases of the given ids, one after the other, in the order of the ids and then of the map |
| SqsRepository.UnlocksExactly | packages/agenda-sqs-backend/src/SqsJobRepository.ts:226-234 | a release is among them exactly when it is for the first job of a given id in some queue |
| SqsRepository.UnlocksInOrder | packages/agenda-sqs-backend/src/SqsJobRepository.ts:227-233 | the releases go out id by id |
| SqsRepository.SqsJobRepository.Disconnect | packages/agenda-sqs-backend/src/SqsJobRepository.ts:48-62 | one release per buffered job with a receipt, along the map, and the buffer ends empty |
| SqsRepository.WalkMeetsAll | packages/agenda-sqs-backend/src/SqsJobRepository.ts:50-54 | along the map every buffered job is met exactly as often as it is buffered |
| SqsRepository.AlongInOrder | packages/agenda-sqs-backend/src/SqsJobRepository.ts:50-51 | the walk meets the queues in the order of the names |
| SqsProtocol.RunKeepsInv | packages/agenda-sqs-backend/src/SqsJobRepository.ts:136-246 | over every run of interleaved calls: jobs are buffered and handed out under their own names, received jobs are conserved, receipts stay distinct, and only finished jobs lose their messages |
| SqsProtocol.EachReceiptOnce | packages/agenda-sqs-backend/src/SqsJobRepository.ts:161-203 | every received job is handed out, buffered or released at the end, exactly once in all |
| SqsProtocol.HandedRight | packages/agenda-sqs-backend/src/SqsJobRepository.ts:161-203 | every job handed out has the requested name and was received |
| SqsProtocol.DeletedExactly | packages/agenda-sqs-backend/src/SqsJobRepository.ts:136-159 | a message is deleted exactly when a job handed out under one of its receipts was saved as finished and not failed |
| SqsProtocol.UnhandedRemains | packages/agenda-sqs-backend/src/SqsJobRepository.ts:182-246 | malformed, buffered and released messages whose jobs nobody was handed stay in the queue |
| SqsProtocol.MessagesStay | packages/agenda-sqs-backend/src/SqsJobRepository.ts:136-246 | no step loses a message |
| SqsProtocol.VisibleJobIsHandedOut | packages/agenda-sqs-backend/src/SqsJobRepository.ts:226-234 | a run from the start in which an unlocked job is handed out while its message is visible in the queue |
| SqsProtocol.HeldExactly | packages/agenda-sqs-backend/src/SqsJobRepository.ts:136-246 | over every run, a message is in flight under a receipt exactly when, since the receipt was issued, none of these came: its expiry, its redelivery, an effective release, a save that deletes its finished job, or a save that gives it back at once |
| SqsProtocol.TakenJobHoldsExactly | packages/agenda-sqs-backend/src/SqsJobRepository.ts:168-171 | the same for the receipt of a job that is taken from the buffer |
| SqsProtocol.StepOrderExactly | packages/agenda-sqs-backend/src/SqsJobRepository.ts:168-202 | a step keeps receive order exactly when it does not complete a call with a job of a name while an older one is buffered; an order once broken stays broken |
| SqsProtocol.OrderExactly | packages/agenda-sqs-backend/src/SqsJobRepository.ts:168-202 | over every run, the jobs of a name handed out or released, followed by those buffered, are the received ones in order, exactly when no step overtook |
| SqsProtocol.HandedAmongLeft | packages/agenda-sqs-backend/src/SqsJobRepository.ts:48-62 | the jobs handed out for a name are among those handed out or released, in the same order, and are all of them without a disconnect |
| SqsProtocol.HandedInOrder | packages/agenda-sqs-backend/src/SqsJobRepository.ts:168-202 | so without overtaking, over every run, handed out followed by buffered keeps receive order |
| SqsProtocol.OrderCanBreak | packages/agenda-sqs-backend/src/SqsJobRepository.ts:168-202 | a run from the start in which the third message is handed out before the second |
| SqsProtocol.SequentialCallsKeepOrder | packages/agenda-sqs-backend/src/SqsJobRepository.ts:168-202 | with calls one at a time, jobs handed out for a name followed by those buffered for it are the received ones in receive order |
| HtmlText.FivePassesAreOne | packages/sails-ng-common/src/html-helpers.ts:5-12 | the five successive replacements are one simultaneous substitution per character |
| HtmlText.EscapedIsClean | packages/sails-ng-common/src/html-helpers.ts:5-12 | no raw `<`, `>`, `"` or `'` is left, and every `&` starts one of the five entities |
| HtmlText.UnescapeEscape | packages/sails-ng-common/src/html-helpers.ts:5-12 | unescaping from left to right recovers every text |
| HtmlText.EscapesAre | packages/sails-ng-common/src/html-helpers.ts:5-12 | what each of the five characters becomes, and that no other changes |
| MetadataRender.CollectColumns | packages/sails-ng-common/src/handlebars-helpers.ts:128-135 | the nested loops collect the rows' keys in order of first appearance |
| MetadataRender.RenderMetadataTable | packages/sails-ng-common/src/handlebars-helpers.ts:123-150 | the rendered table, or a dash where there is no row or no key |
| MetadataRender.ColumnsAreTheUnion | packages/sails-ng-common/src/handlebars-helpers.ts:128-135 | the columns are the union of the rows' keys, each once |
| MetadataRender.ColumnsInFirstOrder | packages/sails-ng-common/src/handlebars-helpers.ts:128-135 | they stand in the order in which the keys first appear, row by row |
| MetadataDom.RenderedParses | packages/sails-ng-common/src/handlebars-helpers.ts:82-180 | every rendering is properly nested: the reader ends with no element open, on the tree of the value |
| MetadataDom.RenderedTable | packages/sails-ng-common/src/handlebars-helpers.ts:123-150 | a list of flat objects reads back as a table whose every row has one cell per column: its own value under its own key, a dash elsewhere |
| MetadataDom.RenderedShowsAll | packages/sails-ng-common/src/handlebars-helpers.ts:82-180 | stripping tags and unescaping yields the keys and leaves in the order of the rendering |
| MetadataLeaves.NothingIsLost | packages/sails-ng-common/src/handlebars-helpers.ts:82-180 | of a tree whose objects have their keys once, every key and every non-empty leaf text, found by plain recursion over items and entries, is read back, and nothing else is but dashes |
| MetadataLeaves.ListsAndObjects | packages/sails-ng-common/src/handlebars-helpers.ts:108-180 | a list reads back as one element per item unless all its items are flat objects, an object as one row per entry, and what is empty as a dash |
| MetadataLeaves.PlainObjectsMakeTable | packages/sails-ng-common/src/handlebars-helpers.ts:92-98 | a list of objects that hold plain values only, not all empty, reads back as a table |
| MetadataLeaves.EntriesInOrder | packages/sails-ng-common/src/handlebars-helpers.ts:114-120 | the rows of an object stand in the order of its entries, each with its own key and value |
| MetadataLeaves.ItemsInOrder | packages/sails-ng-common/src/handlebars-helpers.ts:166-167 | the elements of a nested list stand in the order of its items |
| HtmlClasses.GetTranslationHtmlClasses | packages/sails-ng-common/src/translation-html.ts:144-157 | exactly the supported tags get a list: defaults first, then the hook's additions, without repetition |
| HtmlClasses.BuiltListIs | packages/sails-ng-common/src/translation-html.ts:150-154 | a class is in a built list exactly when it is a default of the tag or a well-formed string listed for it; each is there once |
| HtmlClasses.ClassNamesAre | packages/sails-ng-common/src/translation-html.ts:153 | a well-formed name has letters, digits, underscores and hyphens, and starts with no digit or hyphen |
| HtmlClasses.ValidNamesInOrder | packages/sails-ng-common/src/translation-html.ts:152-153 | additions are taken in the order in which they are listed |
| OrderedSet.OfInFirstOrder | packages/sails-ng-common/src/translation-html.ts:150-154 | a set built from a list keeps its elements in the order in which they first occur |
| HtmlClasses.WordsOfJoin | packages/sails-ng-common/src/translation-html.ts:163 | splitting a written class attribute at white space gives its tokens back |
| HtmlClasses.WordsSplitAtGaps | packages/sails-ng-common/src/translation-html.ts:163 | a text is one word up to its first run of white space, and then the words of what follows it |
| HtmlClasses.FilterKeepsAllowed | packages/sails-ng-common/src/translation-html.ts:159-164 | filtering leaves exactly the allowed tokens, first occurrences in order, and they can be read back |
| HtmlClasses.TagCaseDoesNotMatter | packages/sails-ng-common/src/translation-html.ts:162 | `TH` and `th` are filtered alike, whatever the policy |
| HtmlClasses.AllowedExactly | packages/sails-ng-common/src/translation-html.ts:162 | a lower-case tag is allowed what the policy lists for it, and nothing without a list |
| HtmlClasses.FilterTwiceIsCommon | packages/sails-ng-common/src/translation-html.ts:159-164 | filtering by one policy and then another is filtering once by their intersection, for any policies |
| HookDeps.MigrateHookDependencyContract | packages/redbox-dev-tools/src/cli.ts:50-75 | the loops leave the permitted dependencies of each section and supply the three required ones |
| HookDeps.FindForbiddenHookDeps | packages/redbox-dev-tools/src/cli.ts:77-98 | the findings in order: section by section, shared names in key order, then the listed names with a version |
| HookDeps.SharedForbiddenExactly | packages/redbox-dev-tools/src/cli.ts:28-48 | a shared package is forbidden everywhere but for core outside the plain dependencies and the tools for development |
| HookDeps.SharedInOrder | packages/redbox-dev-tools/src/cli.ts:84-88 | shared names are found in the order of the keys |
| HookDeps.FindingsExactly | packages/redbox-dev-tools/src/cli.ts:77-98 | the findings are exactly the flagged dependencies, each once |
| HookDeps.MigratedIsClean | packages/redbox-dev-tools/src/cli.ts:50-98 | after migrating, the checker finds nothing |
| HookDeps.SuppliedVersions | packages/redbox-dev-tools/src/cli.ts:70-72 | the three supplied entries keep the version they have; else the peer core and the tools take any, and the development core that of the peer |
| HookDeps.MigrateTwice | packages/redbox-dev-tools/src/cli.ts:50-75 | migrating twice is migrating once |
| HookDeps.SurvivesExactly | packages/redbox-dev-tools/src/cli.ts:50-98 | a dependency keeps its section and version exactly when it is not flagged and is not a null at a forbidden name or a supplied entry |
| HookDeps.NullVersionIsDropped | packages/redbox-dev-tools/src/cli.ts:64-68 | a forbidden name with a null version is not flagged, and removed all the same |
| SidebarMigration.FourSpellings | api/migrations/20261014T000000-admin-sidebar-text-color.js:8-10 | exactly four spellings of a colour key are normalised to it |
| SidebarMigration.NeedsNoChangeExactly | api/migrations/20261014T000000-admin-sidebar-text-color.js:13-16 | a row needs no change exactly when it has the key in one of its four spellings |
| SidebarMigration.ReadColorExactly | api/migrations/20261014T000000-admin-sidebar-text-color.js:23-27 | a colour is, between white space, `#` and three or six hex digits in either case; each digit of the result is the lower case of the digit it stands for, three digits standing for two each |
| SidebarMigration.TrimExactly | api/migrations/20261014T000000-admin-sidebar-text-color.js:23 | white space is cut off both ends, all of it and nothing else |
| SidebarMigration.OffersExactly | api/migrations/20261014T000000-admin-sidebar-text-color.js:20-25 | an entry offers a colour exactly when it is a panel background in one of four spellings whose text is a colour |
| SidebarMigration.ComputeSidebarVariables | api/migrations/20261014T000000-admin-sidebar-text-color.js:12-30 | the variables to write, or none for a row that has the key in any spelling |
| SidebarMigration.LastOfferWins | api/migrations/20261014T000000-admin-sidebar-text-color.js:18-28 | the last valid panel colour wins, the legacy default stands in for none, and the result is `#` and six lower-case hex digits |
| SidebarMigration.MigrateKeepsEntries | api/migrations/20261014T000000-admin-sidebar-text-color.js:12-30 | every key and value stays in place, and at most the one colour is added |
| SidebarMigration.MigrateTwice | api/migrations/20261014T000000-admin-sidebar-text-color.js:12-30 | a migrated row needs no further change |
| SidebarMigration.MigrateCollection | api/migrations/20261014T000000-admin-sidebar-text-color.js:41-49 | the loop updates each row that needs it, in place, and counts them |
| SidebarMigration.PendingAreChanged | api/migrations/20261014T000000-admin-sidebar-text-color.js:41-49 | the count is the number of rows whose variables differ afterwards |
| SidebarMigration.Up | api/migrations/20261014T000000-admin-sidebar-text-color.js:35-52 | both collections are migrated and counted |
| SidebarMigration.RerunCompletes | api/migrations/20261014T000000-admin-sidebar-text-color.js:35-52 | rerunning after an interruption at any rows ends in the same rows as one full run |
| SidebarMigration.FurtherRunIsIdle | api/migrations/20261014T000000-admin-sidebar-text-color.js:35-52 | a further run updates no row and changes nothing |

## Left out

- The DOM: a table is its rows, its colgroups as lists of cols, and the two attributes `width` and `colwidth`; other elements, nested markup and sanitising are not modelled.
- ColumnWidths.NormalizeTables: a table's parts are fields of one object, not separate nodes, so sharing a node between tables is not modelled.
- Column numbers and array lengths are unbounded; `Number()` on digits beyond 2^53-1 is taken as exact, which the safe-integer test rejects either way.
- HtmlClasses.FilterTwiceIsCommon: `toLowerCase` on tags is modelled for ASCII letters; a tag that names a member of `Object.prototype` is not modelled.
- Text is a sequence of Unicode scalar values; a lone UTF-16 surrogate in a source text is not modelled (decoded JSON keys are sequences of code units).
- JsonScanner.ScanJsonObjectKeys: entries are the repeated keys themselves, without the file name and wording of the message; errors carry their kind and key.
- `readJson` and the rest of `verify-translations.js`: file access and one-line checks.
- Flatten.Flattener.Flatten: assigning the key `__proto__` and the reordering of integer-like keys in the flat object are not modelled.
- SqsCodec: `Date.parse` and `toISOString` are parameters, with the one assumption that formatted dates parse; numbers are reals, so negative zero and rounding are not modelled; the symbol that holds runtime metadata is a field of the job.
- SqsRepository: the AWS client, FIFO fields, validation in `saveJob` and the unsupported-feature stubs; `unknownJobPolicy` is never read by the source; the receive count is an integer.
- SqsRepository.SqsJobRepository.UnlockJob: the releases of one id are collected without the awaits between them, and the order in which a map is walked is a parameter.
- SqsRepository.SqsJobRepository.UnlockJobs: the same; a release that takes effect later, after other calls, is a separate unlock step of `SqsProtocol`, which any job may take at any time.
- SqsProtocol: `disconnect` runs with no call in flight; a request that fails or takes no effect is a step that leaves the queue as it was; a job that is saved was handed out.
- MetadataRender: values are JSON trees; a number carries its text; inherited members of row objects are not modelled.
- HookDeps.MigrateHookDependencyContract: the other fields of a manifest, the order of its keys, and dependency sections that are not objects.
- HookDeps.FindForbiddenHookDeps: a finding is a section and a name instead of the joined text; the order of a section's keys is a parameter.
- SidebarMigration.Up: the log line, and rows that other clients change during the run.
- Network clients, generated code, web framework plumbing, Angular and Handlebars helpers other than the metadata renderer, and documentation tooling: wrappers or single-branch code.
