# Moatless-tools, modelled and verified

Moatless-tools lets language-model agents search through repositories and edit them. Around the model calls it
holds a number of self-contained algorithms and state machines. This project models the hardest of them in Dafny
and proves what they keep, what they undo, and, where a promise does not hold in general, exactly when it does.

- **Edits and patches** (`HunkReplay`, `PatchRoundTrip`, `LooseInsertion`, `HunkSplice`, `HunkRecount`,
  `FallbackPatch`, `FallbackText`, `ContextFiles`, `ContextRuns`). A context file keeps a fixed base, one patch and a
  lazily filled cache. Every edit is a diff against the base, and the content is rebuilt by replaying hunks. The patch
  text is the unified format of POSIX.1-2017, utility `diff`, section "Diff -u or -U Output Format".
- **String replacement** (`Search`, `ExactMatch`, `MatchMeaning`, `Replacement`, `Tabs`, `ExactReplacement`,
  `ReplacingAll`, `IndentMatch`, `CorrectedEdit`, `Comparison`, `PotentialMatch`, with `Text` and `Characters`). Exact
  matches, the way back from a line number to an offset, replacement in texts whose tabs are expanded, matches modulo
  indentation with automatic correction and the edit that follows it, and fuzzy windows.
- **The search tree** (`TreeDump`, `SearchTree`, `TreeRebuild`, `TreeRoundTrip`, `NodeIds`, `InnerTruncation`,
  `TreeRuns`). A mutable tree with count-based ids, truncation at any node, and a flat list from which it is
  rebuilt in two passes.
- **ReAct responses** (`ReAct`). The parser and the layout printed for it.
- **Code-block indexes** (`PathTree`, `BlockScan`). A trie of block paths, and the early-exit scan along the chain
  of blocks that the parser links.
- **Subscriptions** (`Subscriptions`, `SubscriptionRuns`). Topic and socket maps under connects, broadcasts and
  failing sends, also when these interleave.
- **Completions** (`Messages`, `MessageMerging`, `MergingLaws`, `PromptCaching`, `CompletionRuns`, `CompletionLogs`).
  Merging of user messages, the rolling window of cache marks, and two nested retry loops over an arbitrary provider.

Objects whose methods update them are classes here, with the same fields. Their methods are proved against
functions on values, and the properties are lemmas about these functions, or invariants that every method keeps.
What the environment decides (the provider, the validation, which sends fail, which lines a context shows, how
`difflib` cuts hunks) is a parameter, constrained only where the source relies on it.

`dafny verify dfyconfig.toml` checks the whole project. Paths below are relative to the repository.

## Where the code falls short of its promise

For each of these there is a theorem that says exactly when the promise holds, and a concrete input on which it
does not.

| what goes wrong | when it does not, exactly | an input |
|---|---|---|
| a patch made from a text without a final line break glues two lines together | `PatchRoundTrip.RoundTripIff` | `PatchRoundTrip.RoundTripFails` |
| after an edit a file shows another text than the edited one, or a clone of the file does | `ContextFiles.EditMeansTextIff`, `EditedEntryIff`, `ContextRuns.FileContext.Clone` | `ContextRuns.StaleCache` |
| a hunk that only inserts, without context, is replayed one line too early | `LooseInsertion.InsertionIff` | `LooseInsertion.InsertedTooEarly` |
| the fallback patch has an empty line behind every line, counts it, and cannot be replayed | `FallbackPatch.TallyIsDoubled`, `FallbackReplaysIff` | `FallbackPatch.FallbackFails` |
| or it is replayed, and changes the wrong lines | `FallbackText.SpacedChangesIff` and, for whole patches, `FallbackIff`, where changes and hunks are far enough apart; elsewhere `FallbackTextIsRight` says when it is right, and not that it is wrong in all other cases | `FallbackText.WrongLineRemoved` |
| the search for exact matches never ends: removing line numbers can leave an empty string | `ExactMatch.SearchEndsIff` | `ExactMatch.SearchForNothing` |
| the untargeted replacement edits other places, too | `Replacement.GlobalIsTargetedIff` | `Replacement.GlobalReplacementStrays` |
| it reports an edit and edits nothing, the given string having tabs | `ExactReplacement.UntargetedIff` | `ExactReplacement.TabbedLineNotEdited` |
| an edit rewrites tabs elsewhere in the file | `ExactReplacement.RestOfFileKeptIff` | `ExactReplacement.OtherLineRewritten` |
| a corrected indentation is not that of the window, which is indented by form feeds or the like | `IndentMatch.AutoCorrection` | `IndentMatch.FormFeedLost` |
| an edit with corrected indentation replaces other places than the window | `CorrectedEdit.CorrectedEditIff` | `CorrectedEdit.CorrectedElsewhere` |
| indentation matching loses a window of several lines that ends in an empty line | `IndentMatch.WindowMatchIff` | `IndentMatch.WindowLost` |
| truncation at an inner node leaves ids with a gap, and the next child gets an id in use | `InnerTruncation.InnerTruncationIff`, `NextIdIff` | `InnerTruncation.IdsCollide` |
| a ReAct action with an empty name or input, or a piece with the marker in it, is not read back | `ReAct.RoundTripIff` | `ReAct.ActionsLost`, `MarkedInputLost` |
| the last block of the chain is never found | `BlockScan.LastIsMissed` | `BlockScan.LastBlockMissed` |
| a socket that a failed send has dropped is written to a topic before the lookup fails, and is tried ever after | `Subscriptions.ConnectionManager.Subscribe`, `SubscriptionRuns.Server.Run` | `Subscriptions.StraySubscription`, `SubscriptionRuns.DroppedRun` |
| such a socket, listed under a project and one of its trajectories, is tried twice by one broadcast | `Subscriptions.ConnectionManager.BroadcastEvent` | `Subscriptions.StrayTriedTwice` |
| a second connect of a socket, which the only caller does not make, forgets its own topics only | `Subscriptions.ConnectionManager.Connect` | `Subscriptions.SecondConnect` |
| text before a picture is sent twice, and more often with every merging | `MessageMerging.IdempotentIff`, `MergeWeight` | `MessageMerging.TextDoubled` |
| the mark that the documentation of `_inject_prompt_caching` promises the system prompt is deleted again | `PromptCaching.SystemMarkIff`, `CompletionRuns.SystemPromptCachedIff` | `PromptCaching.SystemMarkDeleted`, `CompletionRuns.SystemPromptNotCached` |

Where code and documentation differ, as in the last row, the model follows the code.

## Model

| member | source | states |
|---|---|---|
| HunkReplay.ApplyBody | moatless/file_context.py:375-394 | the loop over one hunk gives the lines, the next line number, or the first mismatch that the recursive reading of the hunk gives |
| HunkReplay.CopyBefore | moatless/file_context.py:370-373 | copying up to a hunk stops at its start or at the end of the file, whichever comes first, and never goes back |
| HunkReplay.ApplyPatchedFile | moatless/file_context.py:349-405 | the three nested loops compute the replay function, with its context and removal errors |
| PatchRoundTrip.BodyMakesNewSide | moatless/file_context.py:375-394 | on lines that match its old side, a hunk body turns them into its new side; only an unterminated last line can stay open |
| PatchRoundTrip.DiffReplays | moatless/file_context.py:363-405 | replaying all hunks of a valid diff turns the old lines into the new ones, from any position on |
| PatchRoundTrip.RoundTripIff | moatless/file_context.py:349-405 | for every base, update and valid diff with context, the patch applies, and gives the update if and only if the two texts agree on the final line break |
| PatchRoundTrip.RoundTrip | moatless/file_context.py:545-600 | texts made of closed lines always come back, also for `-0,0` headers |
| PatchRoundTrip.RoundTripFails | moatless/file_context.py:349-405 | a concrete patch that glues two lines together |
| LooseInsertion.InsertionPut | moatless/file_context.py:367-405 | the text that an insertion without context gives, at any place of any text |
| LooseInsertion.InsertionIff | moatless/file_context.py:367-373 | behind any line, the insertion is a valid diff, and gives the new text if and only if it is at the top or all its lines equal the line before, and the texts agree on the final line break |
| LooseInsertion.InsertedTooEarly | moatless/file_context.py:367-373 | a line that comes out before the line it should follow |
| PatchRoundTrip.ManualRoundTripIff | moatless/file_context.py:739-758 | the whole-file patch brings back the update from every base, empty (`-1,0`) or not, exactly if the update is closed |
| HunkSplice.BodyIsEdited | moatless/file_context.py:375-394 | a body is replayed exactly if its region is there and its context fits up to blanks, and kept lines come from the content, not from the patch |
| HunkSplice.LineReplayed | moatless/file_context.py:375-394 | line by line: behind the old lines before it, a removed line or a context line needs a line in the file, the context the same one up to blanks; an added line comes out as the patch has it, a context line as the file has it |
| HunkSplice.LineRefused | moatless/file_context.py:378-394 | the first line of the hunk for which that is not so decides the error and its place |
| HunkSplice.ReplayIsBottomUp | moatless/file_context.py:363-405 | for any hunks, replay succeeds exactly if every hunk fits where it is met, and equals editing these regions one by one from the bottom |
| HunkSplice.OrderedByHeader | moatless/file_context.py:367-373 | hunks in order, `-0,0` ones at the top included, are met where their headers say |
| HunkSplice.ReplayLength | moatless/file_context.py:363-405 | for any hunks the output has the input's lines plus the added minus the removed ones |
| HunkSplice.SpliceMeaning | moatless/file_context.py:349-405 | the same for the text of a file and any hunks, and an error in every other case |
| HunkRecount.ProcessDiff | moatless/file_context.py:668-737 | the one-pass loop that patches headers back: every line that is no header stays, every header keeps its start lines and its rest, and its counts are those of the lines up to the next header |
| HunkRecount.TallyCounts | moatless/file_context.py:714-728 | these counts are the numbers of lines that do not start with a plus or a backslash, and with a minus or a backslash |
| HunkRecount.TallyRecounted | moatless/file_context.py:668-737 | recounting does not change what is counted, at any place |
| HunkRecount.RecountIdempotent | moatless/file_context.py:668-737 | recounting twice is recounting once |
| HunkRecount.TallyIsSides | moatless/file_context.py:714-728 | for a hunk printed without line breaks of its own the counts are the sizes of its old and its new side |
| FallbackPatch.JoinedLines | moatless/file_context.py:677-687 | joining diff lines that keep their breaks puts an empty line behind each of these |
| FallbackPatch.TallyIsDoubled | moatless/file_context.py:605-634 | in the fallback patch both counts of every hunk are too large by the number of its lines |
| FallbackPatch.TallyIsReread | moatless/file_context.py:668-737 | these are the sizes of the hunk as it is read back, with an empty context line behind every line |
| FallbackPatch.FallbackReplaysIff | moatless/file_context.py:375-394 | such a hunk is replayed without an error exactly if the file has a line for each of its old lines and of the empty ones, and every context line that is not blank meets an equal one that much further down |
| FallbackText.ReplayMakesChanges | moatless/file_context.py:375-394 | the text that a hunk gives, as it is or in the fallback patch: its changes one by one, in the fallback patch each as many lines too far down as the hunk has lines before it |
| FallbackText.FallbackIsRight | moatless/file_context.py:602-634 | for any hunk, its changes crowded or not, the fallback patch gives the right text if each change passes only lines equal to what it adds or removes |
| FallbackText.SpacedChangesIff | moatless/file_context.py:602-634 | for any number of changes, if and only if, provided no change is put off beyond the place of the next one |
| FallbackText.OneChangeIff | moatless/file_context.py:602-634 | for one change behind k lines of context, if and only if the line removed equals the k lines behind it, or the line added equals the k lines behind its place |
| FallbackText.WrongLineRemoved | moatless/file_context.py:602-634 | a fallback patch that applies, keeps the line it should remove and removes a blank one |
| FallbackText.FallbackTextIsRight | moatless/file_context.py:349-405 | for whole patches and texts, if in addition no hunk runs into the next one |
| FallbackText.FallbackIff | moatless/file_context.py:349-405 | for whole patches of which no hunk runs into the next one: the right lines if and only if each hunk by itself gives its own |
| FallbackPatch.FallbackFails | moatless/file_context.py:602-634 | the fallback patch of a one-line change cannot be replayed |
| ContextFiles.ValidDifferExists | moatless/file_context.py:739-758 | the contract required of the differ can be met |
| ContextFiles.EditApplies | moatless/file_context.py:216-249 | the patch of any edit applies to the base |
| ContextFiles.EditMeansTextIff | moatless/file_context.py:216-249 | for every base and text, base and patch mean the edited text exactly if the two agree on the final line break |
| ContextFiles.ClosedFits | moatless/file_context.py:216-249 | on a closed base these are exactly the closed texts |
| ContextFiles.EditedEntryIff | moatless/file_context.py:216-307 | an edit that fits is shown and stored; what is shown differs from what is stored exactly after an edit in the final line break only |
| ContextFiles.ContextFile.GetBaseContent | moatless/file_context.py:124-171 | the base is what the repository holds, an empty text for a missing file, and is cached, whatever patch the file has |
| ContextFiles.ContextFile.Content | moatless/file_context.py:194-214 | for any patch: the cache if it is filled, or else base and patch applied, which fills the cache, or the error of that, which does not; where the patch applies nothing that is shown or stored changes |
| ContextFiles.ContextFile.SetPatch | moatless/file_context.py:970-974 | any patch can be put in; the file then shows what it stores exactly if the patch applies |
| ContextFiles.ContextFile.ApplyChanges | moatless/file_context.py:216-307 | from any state, its patch applying or not, the new patch is against the base, the cache is kept for an empty patch and cleared otherwise, and the edit is shown and stored exactly if it fits |
| ContextRuns.FileContext.AddFile | moatless/file_context.py:1341-1352 | a file is added once, and nothing shown or stored changes |
| ContextRuns.FileContext.Clone | moatless/file_context.py:1577-1581 | a clone shares no file and shows what is stored, which is what the original shows exactly for files whose cache agrees with base and patch |
| ContextRuns.NodeContexts.CreateChild | moatless/node.py:323-334 | the new node shows what its parent stores, and no other node changes |
| ContextRuns.NodeContexts.OpenFile | moatless/file_context.py:1267-1293 | opening a file in a node changes nothing that any node shows or stores |
| ContextRuns.NodeContexts.Edit | moatless/file_context.py:216-307 | any edit changes what one node has for one path, as its base and text determine it, and nothing else anywhere |
| ContextRuns.NodeContexts.Read | moatless/file_context.py:194-214 | a read returns what the node shows and changes nothing |
| ContextRuns.NodeContexts.Execute | moatless/node.py:323-334 | one command on the heap refines the same command on shown and stored texts |
| ContextRuns.NodeContexts.Run | moatless/node.py:323-334 | any run of child creations, edits and reads, on any repository, returns the texts and leaves the contexts of that simple form |
| ContextRuns.FittingRunIsPlain | moatless/file_context.py:194-307 | if every edit fits the base of its file, the run returns what it does on a plain map from paths to texts |
| ContextRuns.RunFromRoot | moatless/node.py:323-334 | both, from a new root on |
| ContextRuns.StaleCache | moatless/file_context.py:216-254 | an edit that a node shows and a child of it does not |
| ExactMatch.SearchEndsIff | moatless/actions/string_replace.py:629-672 | the loop ends, within as many turns as the file has characters and two, exactly if the string is not empty or the file has no empty line |
| ExactMatch.SearchForNothing | moatless/actions/string_replace.py:634-670 | a file in which the search for an empty string never ends |
| ExactMatch.SearchTurn | moatless/actions/string_replace.py:634-670 | one turn of the loop, for any string with which it ends: it is the turn of which the ending is proved, it goes on behind a match and one character on otherwise, and keeps the reports so far |
| ExactMatch.FindExactMatches | moatless/actions/string_replace.py:629-672 | whenever the loop ends, it reports the accepted occurrences, and none of an empty string |
| MatchMeaning.SingleLineMatches | moatless/actions/string_replace.py:629-672 | for a pattern of one line, the reports are exactly the numbers of the lines equal to it, in order |
| MatchMeaning.NumbersAre | moatless/actions/string_replace.py:634-670 | these numbers are those of all lines that are the pattern |
| MatchMeaning.NumbersInOrder | moatless/actions/string_replace.py:634-670 | and they come in order |
| MatchMeaning.GreedyIsLeftmost | moatless/actions/string_replace.py:634-670 | a greedy search finds the leftmost occurrences that do not overlap |
| MatchMeaning.LeftmostIsUnique | moatless/actions/string_replace.py:634-670 | no other list of occurrences is leftmost |
| MatchMeaning.MultiLineMatches | moatless/actions/string_replace.py:629-672 | for a pattern with line breaks, the reports are exactly these occurrences, with the lines they span |
| Replacement.WalkToLine | moatless/actions/string_replace.py:426-430 | walking over as many line breaks as lie before an offset leads to the start of its line |
| Replacement.FirstOnItsLine | moatless/actions/string_replace.py:431-432 | a match is the first occurrence from the start of its line on |
| Replacement.OffsetRecovered | moatless/actions/string_replace.py:424-432 | for every reported match, of one line or more, the way back from its line number ends at the very offset it came from |
| Replacement.RecoverOffset | moatless/actions/string_replace.py:426-432 | the loop computes that way back |
| Replacement.ReplaceTargeted | moatless/actions/string_replace.py:424-435 | the targeted branch replaces the chosen match and no other part of the expanded text |
| Replacement.GlobalIsTargetedIff | moatless/actions/string_replace.py:436-437 | replacing all occurrences replaces just the reported one exactly if the string occurs once |
| Replacement.GlobalReplacementStrays | moatless/actions/string_replace.py:436-437 | a file in which one line is reported, and the text in which another one is edited, too |
| ReplacingAll.ReplacesFirst | moatless/actions/string_replace.py:436-437 | what replacing all occurrences is: the first is replaced, and then all behind it |
| ReplacingAll.ReplacesNone | moatless/actions/string_replace.py:436-437 | and without any the text stays |
| Tabs.KeptIff | moatless/actions/string_replace.py:269-271 | expanding tabs keeps a text exactly if it has none |
| Tabs.TabStop | moatless/actions/string_replace.py:269-271 | in a line, a tab becomes the blanks up to the next multiple of eight |
| Tabs.OtherKept | moatless/actions/string_replace.py:269-271 | any other character is kept |
| Tabs.LineRestarts | moatless/actions/string_replace.py:269-271 | behind a line break or a carriage return columns are counted from zero |
| Tabs.WholeLine | moatless/actions/string_replace.py:269-271 | a whole line of the expanded text is the expansion of a part of the text, at its own offset |
| Tabs.RestKeptIff | moatless/actions/string_replace.py:269-271 | replacing such a part keeps the rest exactly if there is no tab in the rest |
| ExactReplacement.ReplaceExact | moatless/actions/string_replace.py:269-437 | for a file and arguments as they are given: no edit for equal strings; untargeted exactly for one report; targeted exactly for several of which one is in the context, and then that one is replaced; several matches exactly if none or more than one of them is |
| ExactReplacement.NotOneShown | moatless/actions/string_replace.py:284-294 | it is not exactly one that is in the context if and only if none is or two are |
| ExactReplacement.TabNotReplaced | moatless/actions/string_replace.py:436-437 | a string given with a tab is replaced nowhere |
| ExactReplacement.UntargetedIff | moatless/actions/string_replace.py:436-437 | the untargeted branch replaces the reported match and nothing else exactly if the string is given without tabs and occurs once in the expanded file |
| ExactReplacement.TabbedLineNotEdited | moatless/actions/string_replace.py:436-437 | a line that is reported as edited and is not |
| Tabs.OnlyPartReplacedIff | moatless/actions/string_replace.py:269-271 | replacing any characters of an expanded text replaces a part of the text itself, and leaves the rest, exactly if there is no tab before and behind them |
| ExactReplacement.RestOfFileKeptIff | moatless/actions/string_replace.py:269-437 | for every match, of one line or more: when it is replaced, the file itself changes there and nowhere else exactly if it has no tab before and behind it |
| ExactReplacement.LineKeptIff | moatless/actions/string_replace.py:269-435 | a match of one line always is the expansion of a part of the file, and what is before and behind that part stays exactly if there is no tab in it |
| ExactReplacement.OtherLineRewritten | moatless/actions/string_replace.py:269-437 | a file in which editing the first line rewrites the tab of the second |
| ExactReplacement.FileKeptIff | moatless/actions/string_replace.py:269-269 | what is searched and written back is the file itself exactly if it has no tab |
| IndentMatch.LinesOfJoin | moatless/actions/string_replace.py:465-466 | splitting undoes joining, except that an empty last line is lost |
| Characters.StripIs | moatless/actions/string_replace.py:465-466 | trimming takes the white space at both ends and nothing else |
| Characters.SpaceIs | moatless/actions/string_replace.py:465-466 | white space, character by character |
| Characters.LowerCharIs | moatless/completion/react.py:225-225 | lower case, letter by letter, and nothing else changed |
| IndentMatch.WindowMatchIff | moatless/actions/string_replace.py:500-505 | the comparison of normalised texts holds exactly if all lines are equal after trimming and no empty line ends a longer window |
| IndentMatch.WindowLost | moatless/actions/string_replace.py:500-505 | a window equal to the pattern after trimming that is not found |
| IndentMatch.CompareIndentation | moatless/actions/string_replace.py:505-523 | the loop gives the differences line by line, and the uniform difference |
| IndentMatch.IndentIs | moatless/actions/string_replace.py:510-512 | the indentation of a line is the number of blanks at its front |
| IndentMatch.DifferencesAre | moatless/actions/string_replace.py:505-517 | the differences are those of exactly the lines that are indented otherwise, with both widths, each once and in order |
| IndentMatch.FindMatchIgnoringIndentation | moatless/actions/string_replace.py:492-535 | the loop reports the matching windows with their differences |
| IndentMatch.IndentMatchesIff | moatless/actions/string_replace.py:492-535 | a window is reported exactly if it is equal line by line after trimming, with the exception above |
| IndentMatch.ReportIs | moatless/actions/string_replace.py:495-533 | every report is the match of a window of the file |
| IndentMatch.MatchReports | moatless/actions/string_replace.py:505-531 | a match has the line numbers and the text of its window, its differences, and the difference that all its lines have if there is one |
| IndentMatch.ReportsInOrder | moatless/actions/string_replace.py:495-533 | reports come in order, each window once |
| IndentMatch.ReportedIff | moatless/actions/string_replace.py:492-535 | a line is the first of a reported window exactly if the lines from there on are those of the pattern after trimming, with the exception above |
| IndentMatch.AdjustLines | moatless/actions/string_replace.py:318-330 | the loop shifts every line by the difference |
| IndentMatch.ShiftIs | moatless/actions/string_replace.py:318-330 | a positive difference puts as many blanks before the line, a negative one takes as many blanks from its front, or all there are |
| IndentMatch.ShiftGivesWindow | moatless/actions/string_replace.py:321-329 | whenever two lines are equal after trimming, shifting one by any difference gives the other up to trailing blanks exactly if they are blank or the shifted indentation is the other's, character by character |
| IndentMatch.SpacesShift | moatless/actions/string_replace.py:321-329 | which it is wherever both are indented by spaces |
| IndentMatch.AutoCorrection | moatless/actions/string_replace.py:307-330 | whenever a match can be corrected: its difference is that of the indentations, and the shift turns a line of the pattern into the line of the window exactly if that line is blank or the shifted indentation is the same |
| IndentMatch.FormFeedLost | moatless/actions/string_replace.py:307-330 | two lines, equal after trimming, that the shift by their difference does not make equal |
| CorrectedEdit.WindowOccurs | moatless/actions/string_replace.py:495-503 | consecutive lines, joined, occur where the first of them starts |
| CorrectedEdit.OffsetIs | moatless/actions/string_replace.py:495-503 | that is at the start of a line behind as many line breaks as there are lines before it |
| CorrectedEdit.ReplaceAllIff | moatless/actions/string_replace.py:436-437 | replacing all occurrences replaces a given one alone exactly if there is one, not counting overlaps, and it is the one found, or the new text repeats what is between the two |
| CorrectedEdit.CorrectedEditIff | moatless/actions/string_replace.py:332-337 | the edit behind a correction replaces the window alone exactly in that case; never if the window is one empty line, as the new text then comes between all characters |
| CorrectedEdit.InsertAllIs | moatless/actions/string_replace.py:436-437 | replacing an empty string puts the new text between all characters and at both ends |
| CorrectedEdit.CorrectedElsewhere | moatless/actions/string_replace.py:332-337 | a file in which one window matches, and another line is edited as well |
| Comparison.NormalizedIsKey | moatless/actions/string_replace.py:469-489 | trimming lines, dropping blank ones, lowering, and removing blanks and punctuation is the same as lowering what is not ignored, so that what is compared grows line by line |
| Characters.KeyIs | moatless/actions/string_replace.py:469-489 | of a single character nothing is compared if it is white space, a quote, or one of `_=+,;`, and its lower case otherwise |
| PotentialMatch.TryWindows | moatless/actions/string_replace.py:563-606 | the inner loop finds the least window, and the lines already processed never stop it |
| PotentialMatch.FindPotentialMatches | moatless/actions/string_replace.py:538-626 | both passes end and report the windows, or else the single lines equal after trimming |
| PotentialMatch.LeastIsLeast | moatless/actions/string_replace.py:563-582 | the window found holds the pattern and no smaller one at its start does |
| PotentialMatch.PotentialMatchesSound | moatless/actions/string_replace.py:551-609 | the scan picks minimal windows, disjoint and in order, so that every line that could start a window lies in one of them, and reports each |
| PotentialMatch.WindowReported | moatless/actions/string_replace.py:563-606 | every report is the numbers and the text of a window of less than fifty lines which holds the pattern when both are normalized, starts with what the pattern starts with, and has no shorter one at its start that holds it |
| PotentialMatch.WindowsInOrder | moatless/actions/string_replace.py:551-609 | the reports come in order and do not overlap |
| PotentialMatch.NoWindowMissed | moatless/actions/string_replace.py:551-609 | any window of less than fifty lines which starts and holds the pattern like that has its first line in a report |
| PotentialMatch.TrimmedAre | moatless/actions/string_replace.py:611-624 | the single lines reported instead are exactly those equal to the pattern after trimming, each once and in order |
| TreeDump.DumpDescribes | moatless/node.py:759-771 | in the dump of a tree with distinct ids the children of every id are those of the tree, in order |
| TreeDump.KidsOfPermuted | moatless/node.py:720-752 | reordering the records only reorders the children of an id |
| TreeDump.DistinctDict | moatless/node.py:720-735 | with distinct ids the dictionary keeps the list's order and overwrites nothing |
| TreeDump.LastRecordWins | moatless/node.py:737-742 | for any list, an id stands for the last record that has it |
| TreeDump.OnlyListedIds | moatless/node.py:737-742 | exactly the ids of the list are there |
| TreeDump.FirstRecordsOrder | moatless/node.py:737-742 | and they come in the order of the first records that have them |
| SearchTree.Node.AddChild | moatless/node.py:336-339 | parent and child are linked both ways, at the end of the children |
| SearchTree.Node.AllNodesBelow | moatless/node.py:439-444 | the recursion collects the nodes in preorder |
| SearchTree.Node.GetRoot | moatless/node.py:446-450 | from every node of a tree the loop ends at its root |
| SearchTree.Node.CreateChild | moatless/node.py:323-334 | the child's id is the number of nodes plus one, and the tree has grown by it and nothing else |
| SearchTree.Node.Truncate | moatless/node.py:794-803 | in place, the tree loses every child with a larger id and all below it, and keeps the parents |
| SearchTree.Node.DumpAsList | moatless/node.py:759-771 | from any node, the list is the preorder dump of the whole tree with parent ids |
| TreeRebuild.MakeNodes | moatless/node.py:720-735 | the first pass makes a node for every id, unlinked |
| TreeRebuild.LinkNodes | moatless/node.py:737-745 | the second pass links the nodes as the records say, or reports the first missing parent |
| TreeRebuild.ReconstructFromList | moatless/node.py:720-757 | the result, for every list: the first root, or which error, with all nodes linked |
| TreeRebuild.FirstRootIs | moatless/node.py:750-757 | the root is the first one without a parent |
| TreeRebuild.FirstMissingIs | moatless/node.py:744-748 | the missing parent is that of the first one whose parent is not in the list |
| TreeRoundTrip.BuiltLinked | moatless/node.py:737-745 | nodes linked by records that describe a tree have the shape of that tree |
| TreeRoundTrip.DumpRebuilds | moatless/node.py:720-771 | a dump is rebuilt without error and from its root |
| TreeRoundTrip.RebuiltShape | moatless/node.py:720-771 | the rebuilt nodes have the parents, child order, ids and payloads of the dumped tree |
| TreeRoundTrip.DumpAndRebuild | moatless/node.py:720-771 | dump and rebuild give a copy of the same shape, for every tree with distinct ids |
| TreeRoundTrip.PermutedDump | moatless/node.py:720-757 | from any permutation of a dump come the same records, the same parents, and the same children up to order |
| TreeRoundTrip.PermutedRebuilds | moatless/node.py:720-757 | a permuted dump is rebuilt without error, from the same root |
| TreeRoundTrip.RebuildPermuted | moatless/node.py:720-757 | on the heap: from any permutation of a dump come nodes with the same ids, payloads and parents, and the same children up to order |
| NodeIds.GrowKeepsIds | moatless/node.py:323-334 | a child with the next id keeps ids distinct, dense (0 and 2 to n) and growing downwards |
| NodeIds.TruncationKeeps | moatless/node.py:794-803 | where ids grow downwards, truncation keeps exactly the nodes with small ids, in order |
| NodeIds.TruncationKeepsIds | moatless/node.py:794-803 | truncation at the root keeps the ids good, so that the next child gets a free one |
| InnerTruncation.TruncateBelow | moatless/node.py:794-803 | in place, truncation at any node of a tree cuts that node's subtree and leaves the rest of the tree as it is |
| InnerTruncation.CutIds | moatless/node.py:794-803 | the ids that go are exactly those above the bound in that subtree |
| InnerTruncation.InnerTruncationIff | moatless/node.py:794-803 | from good ids, truncation at any node leaves good ids if and only if every id that goes is larger than every id that stays |
| InnerTruncation.NextIdIff | moatless/node.py:323-334 | the next child has its id for itself exactly if the number of nodes plus one is not in use |
| InnerTruncation.IdsCollide | moatless/node.py:794-803 | a tree of four nodes and a truncation after which the next child gets an id in use |
| TreeRuns.Execute | moatless/node.py:323-339 | one operation at any node of the heap: which tree results, and exactly when its ids are still good |
| TreeRuns.Run | moatless/node.py:323-339 | over every run of creations and truncations, at any nodes, the ids stay distinct, dense and growing for exactly as long as every truncation removes the largest ids, as one at the root always does |
| TreeRuns.NewRoot | moatless/node.py:271-287 | a new search starts with good ids |
| ReAct.PositionsAscend | moatless/completion/react.py:230-239 | occurrences of the marker never overlap although the scan goes on by one character |
| ReAct.FindMarkers | moatless/completion/react.py:230-239 | the loop ends and finds every occurrence |
| ReAct.ExtractActionBlocks | moatless/completion/react.py:204-263 | the thought and a block for every marker, or the error, as the three rows below say for any text |
| ReAct.MarkersAre | moatless/completion/react.py:225-239 | the markers are all places of the word in any case; they never overlap |
| ReAct.BlockIs | moatless/completion/react.py:241-263 | without a marker the error; else there is a block for each, the trimmed text from behind it to the next one or the end |
| ReAct.ThoughtRead | moatless/completion/react.py:244-250 | the thought is the trimmed text from the colon of the first of the two words, in any case, to the first marker; nothing if none of them is there or it comes behind |
| ReAct.Parse | moatless/completion/react.py:120-133 | the loop over the blocks, cut to the limit, ends at the first block that cannot be parsed, as the two rows below say for any text |
| ReAct.ParseActionIs | moatless/completion/react.py:302-318 | of a block, the first line is the name and the rest the input, both trimmed; a single line is an error |
| ReAct.ParsedIs | moatless/completion/react.py:120-133 | if a block up to the limit is in error, so is the whole; otherwise these blocks, no more, give the actions, in order |
| ReAct.Printed | moatless/completion/react.py:360-391 | the layout |
| ReAct.PrintMarkers | moatless/completion/react.py:360-391 | in a printed response the markers are exactly those of its actions |
| ReAct.ParseBlockIff | moatless/completion/react.py:302-318 | a printed action is read back exactly if it has a name and an input |
| ReAct.ActionsLost | moatless/completion/react.py:302-318 | two printed actions that cannot be read back |
| ReAct.ThoughtPrinted | moatless/completion/react.py:244-250 | the thought is read back whatever it says, behind either word, also if it mentions the words |
| ReAct.RoundTripIff | moatless/completion/react.py:120-318 | printing a thought and any number of actions and parsing them gives the same pieces, up to the limit, if and only if no name and no input up to there is empty, and neither the thought nor these pieces hold the marker |
| ReAct.MarkedThought | moatless/completion/react.py:244-250 | a thought that holds the marker is cut short |
| ReAct.BlockReadBackIff | moatless/completion/react.py:252-318 | behind actions without the marker, an action is read back exactly if it has a name and an input and neither holds the marker, whatever comes behind it |
| ReAct.MarkedInputLost | moatless/completion/react.py:230-239 | an input that is not read back, as it holds the marker |
| ReAct.NothingToParse | moatless/completion/react.py:241-242 | a response without an action is refused |
| PathTree.AddedShows | moatless/codeblocks/codeblocks.py:159-180 | adding a path shows that path and changes no other |
| PathTree.MergedShows | moatless/codeblocks/codeblocks.py:148-155 | merging shows what either tree showed |
| PathTree.PathsShown | moatless/codeblocks/codeblocks.py:137-143 | a tree made from paths shows exactly these paths |
| PathTree.MergedTidy | moatless/codeblocks/codeblocks.py:148-155 | merging leaves no branch that shows nothing |
| PathTree.Canonical | moatless/codeblocks/codeblocks.py:132-135 | tidy trees are equal exactly if they show the same paths |
| PathTree.OrderIsIrrelevant | moatless/codeblocks/codeblocks.py:137-143 | trees made from two lists are equal exactly if the lists hold the same set of paths |
| PathTree.MergeIsUnion | moatless/codeblocks/codeblocks.py:148-155 | merging the trees of two lists is the tree of both lists |
| PathTree.PathTree.AddToTree | moatless/codeblocks/codeblocks.py:161-180 | the recursive update in place computes the addition on values and keeps the nodes a tree |
| PathTree.PathTree.Merge | moatless/codeblocks/codeblocks.py:148-155 | the recursive merge in place computes the merge on values and leaves the other tree alone; a tree merged into itself stays as it is |
| PathTree.PathTree.FromBlockPaths | moatless/codeblocks/codeblocks.py:137-143 | the loop makes the tree of all paths |
| BlockScan.CodeBlock.FindBlocksByLineNumbers | moatless/codeblocks/codeblocks.py:1112-1125 | along a sorted chain the early exit loses nothing: all wanted blocks but the last of the chain, in order |
| BlockScan.SelectIs | moatless/codeblocks/codeblocks.py:1120-1123 | the wanted blocks are exactly those that start no later than the last line and start no earlier than the first or, with parents, end no earlier, each once and in the order of the chain |
| BlockScan.LastIsMissed | moatless/codeblocks/codeblocks.py:1120-1123 | that is the full filter exactly if the last block is not wanted |
| BlockScan.LastBlockMissed | moatless/codeblocks/codeblocks.py:1112-1125 | a module whose only block is not found |
| BlockScan.PreorderSorted | moatless/codeblocks/parser/parser.py:200-221 | along the preorder of a well-nested tree start lines never decrease |
| BlockScan.SelectIsWalk | moatless/codeblocks/codeblocks.py:1225-1229 | filtering the chain equals a walk that enters only blocks in range, so every enclosing block is found, too |
| BlockScan.SearchIsWalkButLast | moatless/codeblocks/codeblocks.py:1112-1125 | a search from the module on finds that walk but for the chain's last block |
| BlockScan.CodeParser.ParseModule | moatless/codeblocks/parser/parser.py:282-297 | a module starts a chain of its own, which is the preorder of its blocks |
| BlockScan.CodeParser.ParseCode | moatless/codeblocks/parser/parser.py:200-221 | linking each new block behind the previous one extends the chain by the preorder of the new subtree |
| Subscriptions.ConnectionManager.Connect | moatless/api/websocket.py:22-32 | the maps still agree exactly if the handshake failed or the socket had no subscription |
| Subscriptions.SecondConnect | moatless/api/websocket.py:22-32 | a socket that is listed under a topic it no longer knows |
| Subscriptions.ConnectionManager.Subscribe | moatless/api/websocket.py:61-84 | the maps still agree exactly if the socket is connected; otherwise only the topic is written |
| Subscriptions.StraySubscription | moatless/api/websocket.py:61-84 | a subscription behind a failed send, which outlives its socket |
| Subscriptions.ConnectionManager.Unsubscribe | moatless/api/websocket.py:86-114 | the pair goes from both maps, an emptied topic goes, and all else stays |
| Subscriptions.ConnectionManager.Disconnect | moatless/api/websocket.py:34-59 | a socket goes from every map, and nothing else does |
| Subscriptions.ConnectionManager.SendToTopic | moatless/api/websocket.py:155-176 | the loop tries every target that is not yet notified once, whether the maps agree or not, drops those whose send fails, and takes them off the topics they list themselves |
| Subscriptions.ConnectionManager.BroadcastEvent | moatless/api/websocket.py:137-176 | in any state, every subscriber of project or trajectory is tried, and twice exactly if it is listed under both, its send fails and it does not list the trajectory itself; while the maps agree all are tried once, and exactly the failed are gone from every map |
| Subscriptions.ConnectionManager.AudienceIs | moatless/api/websocket.py:141-168 | whom an event is meant for: subscribers of a given project, if it is of a flow or an evaluation, and of a given trajectory |
| Subscriptions.StrayTriedTwice | moatless/api/websocket.py:137-176 | a socket that one broadcast tries twice |
| SubscriptionRuns.Server.SendOne | moatless/api/websocket.py:155-176 | one send between two awaits: whom it tries and whom it loses |
| SubscriptionRuns.SentIs | moatless/api/websocket.py:155-176 | who was notified is passed over; any other socket is tried, and is then notified or failed and lost |
| SubscriptionRuns.Server.AddSubscription | moatless/api/websocket.py:61-84 | the maps still agree exactly if the socket is connected; one that was dropped is listed under the topic and nowhere else |
| SubscriptionRuns.Server.Step | moatless/api/websocket.py:22-176 | every event, at any await, changes exactly what it should; the maps go on to agree, no broadcast tries a socket twice, and a failed socket stays gone, exactly if no dropped socket subscribes; one that did stays listed until it unsubscribes |
| SubscriptionRuns.Server.Turn | moatless/api/websocket.py:22-176 | one event, or nothing if it cannot happen, as a step of the trace: who is connected, what the broadcasts have done and, while the maps agree, who is listed |
| SubscriptionRuns.Server.Run | moatless/api/websocket.py:22-176 | any interleaving of connections, subscriptions and broadcasts, state by state: the maps agree, only connected sockets are listed, no broadcast tries a socket twice, and a failed one stays gone, up to the first subscription by a socket that was accepted and dropped; if there is none they agree at the end, and from one on they differ until that socket unsubscribes |
| SubscriptionRuns.StartIs | moatless/api/websocket.py:149-156 | in any run, a broadcast starts with the subscribers its project has then |
| SubscriptionRuns.NextTopicIs | moatless/api/websocket.py:165-170 | and goes on to those its trajectory has when all of these have been tried |
| SubscriptionRuns.NobodyForgotten | moatless/api/websocket.py:137-176 | in any run, whatever comes between its sends, whom a broadcast had to try at some point is tried or still to be tried at any later one; all are when nobody is left |
| SubscriptionRuns.SubscribedRun | moatless/api/websocket.py:61-84 | a connected socket that subscribes is listed, and the maps agree |
| SubscriptionRuns.DroppedRun | moatless/api/websocket.py:34-84 | a disconnected socket that subscribes is listed, and the maps differ |
| SubscriptionRuns.UnsubscribedRun | moatless/api/websocket.py:86-114 | a connected socket that subscribes and unsubscribes is not listed, and stays connected |
| MessageMerging.MergedIsGrouped | moatless/completion/base.py:646-697 | if no message has text before other blocks, each maximal run of text messages becomes one message with its texts joined in order, and all others stay |
| MergingLaws.TwoTexts | moatless/completion/base.py:683-695 | anywhere in a list, user messages with the texts a and b are as good as one with a, a line break and b |
| MergingLaws.TextBlocks | moatless/completion/base.py:663-668 | a user message of text blocks is as good as one message for each of them |
| MergingLaws.OtherDivides | moatless/completion/base.py:684-691 | a message of another role stays, between what is merged before it and what is merged behind it |
| MergingLaws.MixedDivides | moatless/completion/base.py:663-680 | so does a user message with something else than text, the texts before that going to the messages before it as well |
| MergingLaws.OneText | moatless/completion/base.py:693-695 | one text by itself stays; together with the four laws above this determines the merging of any list |
| MergingLaws.RunSplits | moatless/completion/base.py:693-695 | texts without line breaks become one message which splits into them again, in order |
| MessageMerging.MergeWeight | moatless/completion/base.py:661-679 | no text is lost, and what is added is exactly the text before other blocks, once more |
| MessageMerging.IdempotentIff | moatless/completion/base.py:646-697 | merging twice is merging once exactly if no message has text before other blocks |
| MessageMerging.TextDoubled | moatless/completion/base.py:661-679 | a text that is sent twice after one merging and three times after two |
| MessageMerging.MergeSameRoleMessages | moatless/completion/base.py:646-697 | the loops compute the merging; the messages that are not all text are the very ones given, in order, and all others are new |
| PromptCaching.InjectPromptCaching | moatless/completion/base.py:574-612 | the marks of every message after one injection, from any marks before |
| PromptCaching.MarksAre | moatless/completion/base.py:584-608 | slot by slot: that of the message is marked exactly if it is in the window, and all others are as before, but for the prompt's own |
| PromptCaching.SlotOfBlocks | moatless/completion/base.py:596-597 | among blocks the first with text takes the mark, and none if there is no text |
| PromptCaching.SlotOfPlain | moatless/completion/base.py:598-601 | without blocks the message itself does, or the last tool call of an assistant that says nothing |
| PromptCaching.InWindowIff | moatless/completion/base.py:590-608 | a message is in the window exactly if it can carry a mark and at most two behind it can |
| PromptCaching.WindowSize | moatless/completion/base.py:590-608 | of n messages that can carry a mark, min(3, n) do |
| PromptCaching.WindowIsLatest | moatless/completion/base.py:590-608 | and these are the latest |
| PromptCaching.SystemMarkIff | moatless/completion/base.py:584-608 | the system prompt keeps its mark exactly if messages are not marked, or it is made of blocks, or at most three messages can carry a mark |
| PromptCaching.SystemMarkDeleted | moatless/completion/base.py:584-608 | four messages of which the system prompt loses its mark |
| CompletionRuns.ExecuteCompletion | moatless/completion/base.py:453-569 | the inner loop: at most three calls, all on the same messages, merged if so set; all answers but the last are transient, and the last is only as the third; all calls rightly marked whatever marks there were, and with no others if there were none |
| CompletionRuns.CompleteWithValidation | moatless/completion/base.py:327-415 | an unusable response is appended together with what is wrong with it; the calls are those of the inner loop |
| CompletionRuns.CreateCompletionWithRetries | moatless/completion/base.py:311-451 | the outer loop computes the run as a function of the provider's answers: calls, messages and result, from any marks, all calls rightly marked; the result is what the last answer makes of it, and an error without a call |
| CompletionRuns.CreateCompletion | moatless/completion/base.py:221-289 | with the system prompt in front there are one to nine calls; the result is a completion exactly if the last answer is usable, and which of the two errors it is otherwise, from any messages and marks |
| CompletionRuns.CallsBounded | moatless/completion/base.py:318-326 | never more than three calls a round |
| CompletionRuns.NineCalls | moatless/completion/base.py:335-486 | nine calls do happen, with responses that have a text and are not usable |
| CompletionRuns.SeesPrefix | moatless/completion/base.py:327-415 | every call sees all that the first one saw at its front, merged or not, and the message list only grows |
| CompletionLogs.CallSees | moatless/completion/base.py:327-415 | call by call: each sees the messages that the responses before it have left, merged if so set, and the run leaves those behind its last response |
| CompletionLogs.LogGrowsBy | moatless/completion/base.py:380-409 | what a response adds to them: nothing unless it is unusable; then the response, and the retry messages or, without any, the error, as a tool result if there was a tool call and as a user message if not |
| CompletionRuns.LastAnswerDecides | moatless/completion/base.py:417-451 | all answers but the last were transient or unusable; the run completes exactly if the last one is usable, is rejected exactly if that is empty, unusable or rejected by the validation, and fails otherwise |
| CompletionRuns.ThreeInARow | moatless/completion/base.py:479-486 | a transient failure ends a run only as the third in a row |
| CompletionRuns.ThirdUnusable | moatless/completion/base.py:320-326 | an unusable response ends a run exactly if it is the third |
| CompletionRuns.ExactMarks | moatless/completion/base.py:590-608 | in every such call without marks left from other settings, a message is marked exactly if it is among the last three that can be |
| CompletionRuns.SystemPromptCachedIff | moatless/completion/base.py:574-608 | in every call the system prompt is cached exactly if messages are not, or at most three can be marked |
| CompletionRuns.SystemPromptNotCached | moatless/completion/base.py:574-608 | a call that does not cache the system prompt, whatever marks the messages had |

## Left out

- Model calls, waits, telemetry, storage, environments, shell commands and the web framework: I/O. Of the calls only the retry bounds and the answers remain.
- `difflib` and `unidiff`: a predicate on hunks (a valid diff in which every hunk has lines of the old file, or is a `-0,0` hunk). Malformed hunk headers are not part of this model.
- `_apply_patch_manually`: it indexes a flat list of lines as if it held one target per hunk, and stores a hunk under the next one's start line, so there is no contract to prove.
- Line separators other than `\n`, letters beyond ASCII in case folding and white space beyond ASCII.
- `FallbackPatch.FallbackReplaysIff`: an empty line of a patch is taken to be read as an empty context line, as the recount counts it. What such a patch gives where its hunks run into each other is said by `HunkSplice.SpliceMeaning` alone.
- `FallbackText.FallbackIsRight`: one direction for hunks with changes so close that one is put off beyond the next; two wrong places can make up for each other there. Otherwise it is `FallbackText.SpacedChangesIff`.
- `ExactReplacement.ReplaceExact`: asks that the search ends, by the condition of `ExactMatch.SearchEndsIff`. What follows a search without an exact match is `IndentMatch` and `PotentialMatch`.
- Saving outside shadow mode and the override by the repository's own diff: they depend on the repository.
- Spans, the cached module and token counts of a context file; which lines are in context is an arbitrary predicate.
- The wording of differences and messages, `diff_reason` texts, snippets and summaries.
- `ContextRuns.NodeContexts.Run`: `set_patch` is not a command of the runs, in which the patches of all files apply.
- `TreeRuns.Run`: `Node.clone`, `reset` and `set_parent` are not part of the model, and neither is what nodes carry beyond an opaque payload.
- `TreeRebuild.ReconstructFromList`: records are already parsed; building a node from its dictionary is not modelled.
- `ReAct.Parse`: the format check before it, the look-up of the action class and the schema validation behind it are not modelled; they only add errors.
- `ReAct.RoundTripIff`: pieces are trimmed and names have one line, as the layout demands.
- `PathTree.PathTree.Merge`: the two trees share no node or are the same; trees that share some nodes, which neither method makes, are not covered. A missing path (`None`) is not modelled.
- `BlockScan.CodeParser.ParseCode`: it takes a syntax tree with line numbers; the queries that find it, and the space block that closes a module outside of the chain, are not modelled.
- `SubscriptionRuns.Server.Run`: a socket's handshake is accepted once, as its one caller does. Acknowledgements, `broadcast_message` and the dispatcher `handle_message` are left out.
- `CompletionRuns.CreateCompletionWithRetries`: messages are distinct objects, and feedback consists of new ones.
- Reward scales, prompts, few-shot texts, limits and similar code: it would only add easy members.
