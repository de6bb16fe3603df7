# Clipped: the window's queues, races and drawings, and the recorder's rules

Clipped records games. Its recorder runs as a process of its own; its desktop window asks that
process for pages of the library, thumbnails, waveforms and events over a pipe. This project models
the parts of the window whose rules are hard to see from any one function, and the rules the recorder
applies to a recording before it starts one, and proves what they keep.

| Part | Source | Modules |
|---|---|---|
| Preview requests: a shared, bounded, newest-first queue | `apps/desktop/src/preview.ts` | `PreviewQueue`, `PreviewRuns`, `PreviewWanting`, `PreviewOrder`, `PreviewProgress`, `PreviewModule`, `PreviewRows` |
| Path redaction: a scanner, a sanitiser and a hash | `apps/desktop/src/redactPath.ts` | `Fnv`, `PathScanner`, `ReplacementLaws`, `ReplacedTwice`, `RedactedPath`, `SharedDigests`, `RedactedText`, `PathsInSentences`, `PathsSpelledOut` |
| Paged library reads | `apps/desktop/src/library.ts` | `SessionPages`, `SessionScreen`, `SessionsHook` |
| The recorder's state as the window has it | `apps/desktop/src/useRecorderLink.ts` | `RecorderLink`, `RecorderLinkHook` |
| Marks on a timeline, and their legend | `apps/desktop/src/recordingMarks.ts` | `Timeline`, `TimelineLaws`, `TimelineIntervals`, `TimelinePass`, `Legend` |
| A table that mounts only what is near the viewport | `apps/desktop/src/virtualWindow.ts` | `VirtualWindow`, `WindowLaws` |
| Waveforms: slices of peaks, and the path drawn from them | `apps/desktop/src/waveformOutline.ts` | `Buckets`, `Outline`, `OutlineLaws` |
| Timecodes | `apps/desktop/src/timecode.ts` | `Timecode` |
| A recording's arguments, its output and its file name | `apps/recorder/src/config.rs` | `OutputNames`, `OutputTimes`, `Paths`, `RecordingRules`, `RecordingDisk`, `RecordingLaws`, `RecordingArguments`, `RecordingRuns` |

`Decimal`, `Options` and `Cutting` are shared: decimal numerals and reading them back, values that may be
absent or refused, and cutting a string at a character.

Each part that changes state in the source is a class or a method with loops here, and is proved equal
to a function of the old state; the properties are lemmas about that function. What is asynchronous is
a state machine: a round trip is an item outstanding, and its answer is a step that may come at any
point of a run. `dafny verify dfyconfig.toml` checks everything.

## Where the code does not do what it says

Each of these names the sentence, and is proved twice: by an input or a run that breaks it, and by the exact
condition under which the code keeps it. Only for equal digests is the condition not exact.

- **A thumbnail that never comes.** `wanted` is "how many mounted rows still want it"
  (`apps/desktop/src/preview.ts:114-115`). A row that already has its answer lets go once more when it
  unmounts, and if the same recording has been asked about again by then, that takes one off a count the row
  was never part of. With all three slots taken, the second row's request is dropped and the row waits for
  good. `PreviewWanting.SoundExactlyWithoutStrays` says that the counts hold at every moment of a run
  exactly when this does not happen; `PreviewWanting.ARowCanBeStranded` gives a run.
- **A screen that says "reading" and reads nothing.** An answer is to be recognised as stale by its question
  (`apps/desktop/src/library.ts:335-338`), but a "Show more" that fails after the question changed replaces
  the answer to the new one (`apps/desktop/src/library.ts:399-405`, which does not compare `asked` as the
  success branch above it does). `SessionPages.HonestExactlyWithoutLateFailures`,
  `SessionPages.AScreenCanStick`.
- **A gap in the list.** The hook reads "the sittings a query selects, a page at a time"
  (`apps/desktop/src/library.ts:310`). A sitting ending re-reads the first page while a further page is on its
  way; the question is unchanged, so the further page is appended to a list that no longer reaches it.
  `SessionPages.PrefixedExactlyWithoutLatePages`, `SessionPages.AGapCanShow`.
- **"This window cannot follow the recorder", overwritten.** A window that cannot follow the recorder has to
  say so (`apps/desktop/src/useRecorderLink.ts:295-300`), but a snapshot that arrives after a refused
  subscription is shown in its place. `RecorderLink.RefusalIsShownUntilAnswered`,
  `RecorderLink.TheRefusalCanBeOverwritten`.
- **A path with a space in it.** `redactPathsIn` redacts "every absolute path in a piece of free text"
  (`apps/desktop/src/redactPath.ts:161`), and "no directory component survives", of free text too
  (`docs/diagnostics.md:323-331`). A match ends at white space, a quote, an angle bracket or a bar, and a path
  can have a space in it: of `C:\Users\Al Smith\AppData\clipped-recorder.exe` only `C:\Users\Al` is redacted,
  and ` Smith\AppData\clipped-recorder.exe` is left (`PathsInSentences.AnAccountWithASpace`,
  `PathsInSentences.BrokenIsCutShort`). A path is redacted whole if and only if it has no such character
  behind its prefix, is no pipe, and does not end in punctuation (`PathsInSentences.RedactedWholeExactly`);
  and a separator is left in a text if and only if one stands in it outside every match, or in a pipe
  (`PathsInSentences.NoDirectoryLeftExactly`).
- **Equal digests, different paths.** "Equal digests mean the same path", so that two files sharing a name
  stay apart (`apps/desktop/src/redactPath.ts:99-100`). There are more paths than digests: wherever a path
  starts and whatever its file is called, two different directories there render alike
  (`SharedDigests.SomeDirectoriesRenderAlike`). Two files that share a name stay apart exactly when their
  directories' digests do (`SharedDigests.SharedNameStaysApartExactly`), and so do paths whose bytes
  differ only within four in a row (`RedactedPath.FourBytesOfPathApart`).
- **An output that is not absolute.** `RecordingConfig::output` is "always absolute"
  (`apps/recorder/src/config.rs:75-76`). A directory from the settings has to be
  (`crates/session/src/config/storage.rs:356-373`), and a named output is joined to the working directory; but a
  path with a drive and no root, as `C:clips\session.mkv`, takes that directory's place and stays as it was,
  and a home directory is joined as the environment has it. An accepted output is absolute if and only if it
  was named without a drive or with a root, or else there is a directory in the settings or the home directory
  is absolute: `RecordingLaws.AbsoluteFromSettings`, `RecordingLaws.ADriveWithoutARootIsAccepted`,
  `RecordingLaws.ARelativeOutputIsAccepted`.
- **A directory that does not read in the order of its recordings.** A directory of recordings "reads in the order
  they were made" (`apps/recorder/src/config.rs:702-703`), but they are named by the local clock. One made
  forty minutes after another, once the clock has been set back an hour, sorts in front of it
  (`OutputTimes.SetBackSortsFirst`). Two names are in the order of their instants if and only if more time
  passed than the clock was set back by, and are one name if just as much did
  (`OutputTimes.NamesOfInstants`).
- **A directory that has gone, not reported.** A configured directory that has gone is to be "reported against
  this recording by the check below" (`apps/recorder/src/config.rs:514-518`), but the check is made only of a
  directory that exists. Without one a recording is accepted as if it were there
  (`RecordingLaws.AGoneDirectoryIsAccepted`); a directory is reported missing if and only if it is the
  missing directory of an output that was named (`RecordingLaws.MissingIsReportedExactly`).
- **The last index is not above the target.** `firstIndexAbove` is "the smallest index whose value exceeds
  the target" (`apps/desktop/src/virtualWindow.ts:77`). At the end of the table and past it there is none, and
  it answers the last index, on which the window at the end relies: `WindowLaws.AboveExactly`,
  `WindowLaws.PastTheEnd`.

## What is not promised, exactly

Three edges that no sentence of the source rules out, each with the condition for it.

- **Redacting twice.** A rendering has no separator in it, so two backslashes in front of a path that begins
  with two more can be left in front of a host, and a second pass takes the result for a UNC path.
  `ReplacedTwice.Revives` says of the text where: the scan copies four backslashes, and what follows the
  first two is a host once the paths in it are rendered. Redacting again changes nothing, and every UNC
  prefix left begins in a pipe's name, if and only if a text has no such place
  (`RedactedText.RedactedOnceIsRedacted`, `RedactedText.OnlyPipesBeginUncPrefixes`); text without four
  backslashes in a row has none. Drive letters and `\\?\` never survive outside a pipe's name.
- **A writable directory refused.** A probe left by an earlier process that had the same number makes the
  probe of this one fail, and the directory is reported as not writable. After any run of checks, a directory
  that can be written to is refused if and only if the probe to be made was there before the run
  (`RecordingRuns.UsableAfterAnyRun`): a process never does this to itself.
- **Marks before there is a duration.** The timeline counts the marks it is given but places none while the
  media element has no length, so the counts under the markers and off the recording do not add up to the
  total then, and always do otherwise: `Timeline.NoMarkIsLost`.

## Model

| member | source | states |
|---|---|---|
| PreviewQueue.DispatchIsNewestFirst | apps/desktop/src/preview.ts:137-150 | Of the requests waiting, exactly those with fewer newer ones waiting than there are free slots are sent, and the others still wait. |
| PreviewQueue.DispatchKeeps | apps/desktop/src/preview.ts:137-150 | Handing out slots loses no entry and starts exactly the round trips of the entries it sends. |
| PreviewQueue.SendWhatFitsKeeps | apps/desktop/src/preview.ts:137-150 | From any coherent queue with at most three in flight, it leaves a valid one: at most three in flight, and either every slot taken or nothing waiting; no request is lost. |
| PreviewQueue.AskKeeps | apps/desktop/src/preview.ts:161-186 | Asking keeps the queue valid, and the map holds afterwards exactly what it held and the promise handed back, which is the one there was when the recording was already asked about. |
| PreviewOrder.AskingAgainMovesNothing | apps/desktop/src/preview.ts:162-166 | Asking about a recording that is asked about already sends nothing, and changes neither which requests wait nor behind how many newer ones each does. |
| PreviewOrder.SentAreNewer | apps/desktop/src/preview.ts:137-150 | When every entry was made after those behind it, whatever a dispatch sends was made after everything it leaves waiting. |
| PreviewQueue.StopWantingKeeps | apps/desktop/src/preview.ts:189-201 | Letting go keeps the queue valid, and takes out exactly the request of that recording, and only when nobody is left to want it and it has not been sent. |
| PreviewQueue.SettleKeeps | apps/desktop/src/preview.ts:172-180 | The completion of a round trip keeps the queue valid and takes out exactly the entry that was sent, although it deletes by recording. |
| PreviewRuns.StepKeeps | apps/desktop/src/preview.ts:267-292 | Every mount, unmount and answer keeps the queue valid; every promise ever made is in exactly one of the map, the answered and the dropped; and a row has its answer exactly when its promise has. |
| PreviewRuns.RunsKeep | apps/desktop/src/preview.ts:137-201 | All of that in every state of every run. |
| PreviewRuns.RoundTripsOutstanding | apps/desktop/src/preview.ts:97-126 | In every reachable state `inFlight` is the number of round trips outstanding, there are at most three, no two are about one recording, and while anything is asked about there is one. |
| PreviewOrder.NewestIsSentFirst | apps/desktop/src/preview.ts:128-150 | In every run, whatever a step sends was first asked for after everything that it leaves waiting, however often rows asked again in between. |
| PreviewOrder.ThreeAreOutOrNothingWaits | apps/desktop/src/preview.ts:97-104 | In every reachable state at most three round trips are out, and while anything waits exactly three are. |
| PreviewProgress.ServedInTurn | apps/desktop/src/preview.ts:128-150 | With no new asks, a request with r newer ones waiting has left the queue after r + 1 completions, whatever unmounts in between: it is on the wire, answered, or was dropped. |
| PreviewProgress.SettledMovesUp | apps/desktop/src/preview.ts:175-180 | While a request waits, each completion moves it at least one place up. |
| PreviewProgress.AnswersDrain | apps/desktop/src/preview.ts:175-180 | With completions alone, each takes one entry: exactly as many as there were entries empty the queue. |
| PreviewProgress.SomeAnswersEmptyIt | apps/desktop/src/preview.ts:175-180 | From every valid state some run of completions empties the queue: it never stops with something waiting. |
| PreviewWanting.StepSoundExactly | apps/desktop/src/preview.ts:113-120 | When every `wanted` is the number of mounted rows waiting and each such row has its request, a step keeps it so if and only if it is not an answered row unmounting while its recording is asked about anew. |
| PreviewWanting.SoundExactlyWithoutStrays | apps/desktop/src/preview.ts:161-201 | For every run of the window: the counts are right and every waiting row has its request at every moment, if and only if no such unmount occurs in the run. |
| PreviewWanting.StrayBreaks | apps/desktop/src/preview.ts:189-201 | Such an unmount always leaves a wrong count; and when the request was unsent and wanted by one row, that row is left with no request. |
| PreviewWanting.StrandsExactly | apps/desktop/src/preview.ts:189-201 | From a right state, a step leaves some mounted row with a dropped request if and only if it is such an unmount and the request it lets go of is unsent with a count of one. |
| PreviewWanting.StrandedForGood | apps/desktop/src/preview.ts:267-292 | A row so left stays so for as long as it is mounted, whatever is asked and answered. |
| PreviewWanting.SecondRowIsStranded | apps/desktop/src/preview.ts:189-201 | Whenever three are in flight and an answered row's recording is drawn by a second row, unmounting the first leaves the second stranded. |
| PreviewWanting.ARowCanBeStranded | apps/desktop/src/preview.ts:189-201 | There is a run from the window's opening that strands a row. |
| PreviewRows.Rows.Mount | apps/desktop/src/preview.ts:267-287 | On the row and the module it shares: a row that mounts asks and keeps the promise it is given, which is the step of the runs above. |
| PreviewRows.Rows.Unmount | apps/desktop/src/preview.ts:288-291 | A row that unmounts lets go of its recording, which is theirs too. |
| PreviewRows.Rows.Settled | apps/desktop/src/preview.ts:172-180 | A completion gives their answer to the rows that share the promise, and the slot to the next. |
| PreviewRows.Rows.Run | apps/desktop/src/preview.ts:104-292 | Any run of mounts, unmounts and completions, carried out on the mutable module and rows one after another, leaves them as the run says; so everything proved of runs holds of the module. |
| PreviewModule.EntriesAreOneEach | apps/desktop/src/preview.ts:122-123 | Every valid queue has one entry for each recording, which is all the methods below require of it. |
| PreviewModule.Previews.NewestWaiting | apps/desktop/src/preview.ts:139-145 | The search from the newest end finds the newest entry not sent, or that there is none. |
| PreviewModule.Previews.Send | apps/desktop/src/preview.ts:146-148 | Sending the newest waiting entry counts one more in flight and is one turn of the whole dispatch: what dispatching gives from there is what it gave before. |
| PreviewModule.Previews.SendWhatFits | apps/desktop/src/preview.ts:137-150 | The loop that sends the newest waiting entry while there is a slot does what one dispatch over the list does. |
| PreviewModule.Previews.Lookup | apps/desktop/src/preview.ts:162-162 | Finds the one entry of a recording, or that there is none. |
| PreviewModule.Previews.Remove | apps/desktop/src/preview.ts:177-177 | Deletes the entry of a recording, when there is one, and leaves the others in their order. |
| PreviewModule.Previews.Tally | apps/desktop/src/preview.ts:164-164 | Changes the count of one entry where it stands, and of no other. |
| PreviewModule.Previews.Append | apps/desktop/src/preview.ts:183-183 | A new entry goes in as the newest, wanted once and not sent. |
| PreviewModule.Previews.AskForThumbnail | apps/desktop/src/preview.ts:161-186 | On the mutable map and entries: the new state is the specified one, the promise returned is the shared one, and an entry that is in the map and was not is a new object. |
| PreviewModule.Previews.StopWanting | apps/desktop/src/preview.ts:189-201 | Counting down first and dropping afterwards is the specified step, and leaves no entry that was not in the map. |
| PreviewModule.Previews.Settled | apps/desktop/src/preview.ts:175-180 | Counting the slot free, deleting by recording and dispatching is the specified step, and leaves no entry that was not in the map. |
| Fnv.MaskIsRemainder | apps/desktop/src/redactPath.ts:36-37 | Masking an unbounded product with k ones is its remainder modulo 2^k. |
| Fnv.Fnv1a64 | apps/desktop/src/redactPath.ts:50-57 | The loop over the bytes, which multiplies without bound and masks, computes the fold of xor and multiplication modulo 2^64 from the offset basis. |
| Fnv.KnownDigests | apps/desktop/src/redactPath.ts:32-57 | The digest of no bytes is cbf29ce484222325, and that of `a` is af63dc4c8601ec8c. |
| Fnv.MixUndone | apps/desktop/src/redactPath.ts:52-55 | Each round is a bijection of the 64-bit states: multiplying by the inverse of the prime and xoring the byte again gives the state back. |
| Fnv.CommonEndingCancels | apps/desktop/src/redactPath.ts:50-57 | Two states are equal if and only if they are after the same further bytes. |
| Fnv.FourBytesApart | apps/desktop/src/redactPath.ts:50-57 | Two byte strings that differ within four places in a row, and nowhere else, never have one digest. |
| Fnv.OneByteApart | apps/desktop/src/redactPath.ts:50-57 | So two that differ in exactly one position never do. |
| RedactedPath.Utf8SpelledOut | apps/desktop/src/redactPath.ts:41-53 | The bytes hashed for a character are its UTF-8, by section 3 of RFC 3629: as many as it needs, each with its part of the character. |
| RedactedPath.DigestReadsBack | apps/desktop/src/redactPath.ts:107-110 | Every digest is printed as sixteen lower-case hexadecimal digits, from which it can be read back. |
| RedactedPath.FileNameIsLastComponent | apps/desktop/src/redactPath.ts:67-70 | A path is its directories, empty or ending in a separator, followed by its file name, which has no separator. |
| RedactedPath.SanitisedIsClean | apps/desktop/src/redactPath.ts:78-89 | A sanitised name has no control character (below 0x20, or 0x7f) and no `#`, keeps every other character where it was, and is cut to 64 with a `~` after it exactly when it was longer. |
| RedactedPath.RenderingShape | apps/desktop/src/redactPath.ts:107-110 | A rendering is a clean name, one `#`, and sixteen hexadecimal digits. |
| RedactedPath.NoSeparatorSurvives | apps/desktop/src/redactPath.ts:91-110 | No directory component survives in a rendering. |
| RedactedPath.RenderedAlike | apps/desktop/src/redactPath.ts:91-110 | Two paths render alike if and only if their sanitised names and their digests are equal. |
| RedactedPath.FourBytesOfPathApart | apps/desktop/src/redactPath.ts:91-110 | Two paths whose UTF-8 differs only within four bytes in a row never render alike. |
| RedactedPath.OneCharacterApart | apps/desktop/src/redactPath.ts:91-110 | Nor do two paths that differ in one character, wherever it stands, when the two characters take equally many bytes. |
| SharedDigests.SharedNameStaysApartExactly | apps/desktop/src/redactPath.ts:99-100 | Two files that share a name render apart if and only if the digests of their directories differ, whatever the name and whichever separators are used. |
| SharedDigests.SomeDirectoriesRenderAlike | apps/desktop/src/redactPath.ts:99-100 | For every beginning of a path and every file name there are two different directories with that beginning in which the file renders alike. |
| PathScanner.MatchReaches | apps/desktop/src/redactPath.ts:126-126 | A match has a given length if and only if one of the three prefixes stands at the front and the first character behind it that ends a match, or the end of the text, is there. |
| PathsSpelledOut.DrivesSpelledOut | apps/desktop/src/redactPath.ts:126-126 | A character, a colon and a slash of either kind in front of a tail are rendered with it if and only if the character is one of a to z or A to Z; else the three are left in front of the tail redacted on its own. |
| PathsSpelledOut.ExtendedSpelledOut | apps/desktop/src/redactPath.ts:126-126 | Two backslashes, a question mark, a slash of either kind and a tail are rendered whole. |
| PathsSpelledOut.SharesSpelledOut | apps/desktop/src/redactPath.ts:126-139 | Two backslashes, a host of anything but slashes and white space, a slash of either kind and a tail are left as they are if the host is a full stop and the tail begins with `pipe`, in any case, and a slash of either kind, and are rendered whole otherwise. |
| PathsSpelledOut.PipesSpelledOut | apps/desktop/src/redactPath.ts:128-139 | A pipe is redacted to itself, whatever follows its prefix that does not end it. |
| PathsSpelledOut.EndingsSpelledOut | apps/desktop/src/redactPath.ts:122-126 | Inside a path on a drive, a character ends it, and what follows is redacted on its own, if and only if it is white space as ECMAScript has it, a quote of either kind, an angle bracket or a bar. |
| PathsSpelledOut.StopsSpelledOut | apps/desktop/src/redactPath.ts:141-158 | At its end, a character is kept out of the rendering, and kept, if and only if it is one of `. , ; : ! ? ) ] }`. |
| PathsSpelledOut.WhiteKeepsApart | apps/desktop/src/redactPath.ts:126-126 | What is on either side of any white space is redacted on its own. |
| PathScanner.CopiedStartsNothing | apps/desktop/src/redactPath.ts:126-126 | The scanner's invariant: a character copied because no match begins there begins no drive or extended prefix in the output either, and a UNC prefix only where the text had four backslashes. |
| PathScanner.ReplacedStartsNothing | apps/desktop/src/redactPath.ts:169-178 | No character of a replacement begins a prefix, with whatever follows it in the output. |
| ReplacementLaws.PrefixesStayInPipes | apps/desktop/src/redactPath.ts:126-178 | For every text and every replacement that hides separators: each drive-letter and extended prefix in the output lies wholly inside the name of one pipe that was copied. |
| ReplacementLaws.ThePipe | apps/desktop/src/redactPath.ts:126-178 | What lies so is in one match of the text, found by the scan where it stands, that is in the output whole. |
| ReplacedTwice.HostLeftExactly | apps/desktop/src/redactPath.ts:126-178 | The output begins with a host and its separator if and only if the text does, when paths count as host characters and separators count only where they are copied. |
| ReplacedTwice.UncPrefixesBeginInPipes | apps/desktop/src/redactPath.ts:126-178 | Every UNC prefix in the output begins inside a pipe that was copied if and only if the text revives none: nowhere does the scan copy four backslashes of which the last two begin such a host. |
| ReplacedTwice.ReplacingTwice | apps/desktop/src/redactPath.ts:126-178 | Replacing again changes nothing if and only if the text revives no prefix. |
| ReplacedTwice.NoFourReviveNothing | apps/desktop/src/redactPath.ts:126-126 | Text without four backslashes in a row revives none. |
| ReplacementLaws.ReplacesWordByWord | apps/desktop/src/redactPath.ts:126-126 | No match reaches across whitespace: what is on either side is replaced as if the other were not there. |
| ReplacementLaws.MatchGrows | apps/desktop/src/redactPath.ts:126-126 | The tail is greedy: a text that is all one match stays one match when characters its tail allows are added. |
| RedactedText.TrimmedLength | apps/desktop/src/redactPath.ts:141-158 | Everything from there on is sentence punctuation and the character before it is not. |
| RedactedText.OnlyPipesKeepPrefixes | apps/desktop/src/redactPath.ts:126-178 | For every text, each drive-letter prefix and each `\\?\` prefix in the redacted text lies wholly inside one named-pipe match copied verbatim. |
| RedactedText.ThePipeOfPrefix | apps/desktop/src/redactPath.ts:126-178 | And which: a match of the text that stands whole in the redacted text around the prefix. |
| RedactedText.OnlyPipesBeginUncPrefixes | apps/desktop/src/redactPath.ts:126-178 | Each UNC prefix in the redacted text begins inside one if and only if the text revives none. |
| RedactedText.RedactedOnceIsRedacted | apps/desktop/src/redactPath.ts:169-178 | Redacting redacted text changes nothing if and only if the text revives no UNC prefix. |
| RedactedText.AUncPrefixCanSurvive | apps/desktop/src/redactPath.ts:126-126 | There is a text with no pipe in it whose redaction begins with a UNC prefix and is changed by redacting again. |
| RedactedText.RedactsWordByWord | apps/desktop/src/redactPath.ts:169-178 | Around a white space character, a text is redacted as its two sides are. |
| RedactedText.PunctuationStaysOut | apps/desktop/src/redactPath.ts:141-158 | A path that is one match from end to end, ends in no punctuation and is no pipe, followed by sentence punctuation, is rendered as it is without, and the punctuation is kept. |
| PathsInSentences.RedactedWholeExactly | apps/desktop/src/redactPath.ts:126-178 | For every path that has a prefix and whatever sentence punctuation follows it: it is rendered whole and the punctuation kept if and only if nothing behind its prefix ends a match, it is no pipe, and it ends in no punctuation itself. |
| PathsInSentences.CutShort | apps/desktop/src/redactPath.ts:120-126 | What follows a path's first white space or quoting character is redacted as if it stood alone. |
| PathsInSentences.LeftAloneExactly | apps/desktop/src/redactPath.ts:169-178 | A text is left as it is if and only if every match in it is a pipe. |
| PathsInSentences.RestStays | apps/desktop/src/redactPath.ts:160-178 | So of a path that goes on so, with no further prefix in it, everything behind the character is left, directories and all. |
| PathsInSentences.BrokenIsCutShort | apps/desktop/src/redactPath.ts:160-178 | A path on a drive that goes on into other directories behind such a character keeps them, and its redaction has a separator. |
| PathsInSentences.AnAccountWithASpace | docs/diagnostics.md:323-331 | The path of a program of an account with a space in its name is such a path. |
| PathsInSentences.NoDirectoryLeftExactly | docs/diagnostics.md:323-331 | For every text, no separator is left by redaction if and only if none stands in the text outside every match or in a pipe. |
| SessionPages.StepKeeps | apps/desktop/src/library.ts:331-412 | Every step keeps at most one further page out, out exactly while "loading more" is shown, and a round trip is numbered once. |
| SessionScreen.EveryEventShows | apps/desktop/src/library.ts:331-412 | In every run of the screen: what each question, answer, failure, press and end of a sitting does to what is shown, to whether there is more, to "loading more", and to what is asked of the recorder. |
| SessionScreen.FailuresAreShown | apps/desktop/src/library.ts:363-405 | In every run, the failure of the current first page, or of a further page for the question on screen, is what is shown, with nothing to go on from. |
| SessionScreen.OpensReading | apps/desktop/src/library.ts:340-351 | Before anything has happened the first page of the question is out, and nothing is shown. |
| SessionPages.ShownRowsAnswerTheQuestion | apps/desktop/src/library.ts:349-380 | In every run, every row on screen came in a page that answered the question now on screen. |
| SessionPages.StepHonestExactly | apps/desktop/src/library.ts:382-409 | A step of a screen that says "reading" only while a read is out keeps it so, if and only if it is not the failure of a further page for a question no longer asked, with no read out. |
| SessionPages.HonestExactlyWithoutLateFailures | apps/desktop/src/library.ts:382-409 | For every run: the screen says "reading" only while it is, at every moment, if and only if no such failure occurs. |
| SessionPages.LateFailureSticks | apps/desktop/src/library.ts:399-408 | After such a failure the screen says "reading" with no round trip left that it would take an answer from. |
| SessionPages.StuckUntilAskedAgain | apps/desktop/src/library.ts:349-376 | A screen so stuck stays so through every answer, failure and press until a question is asked or a sitting ends. |
| SessionPages.AScreenCanStick | apps/desktop/src/library.ts:399-405 | For any two questions and answers there is a run that does it. |
| SessionPages.StepPrefixedExactly | apps/desktop/src/library.ts:388-398 | Against a fixed library: rows that are the beginning of their question's result stay so after a step if and only if the step does not append a page to rows that no longer end where it begins. |
| SessionPages.PrefixedExactlyWithoutLatePages | apps/desktop/src/library.ts:331-412 | For every run against a fixed library: the rows held are exactly a prefix of their question's result, with the cursor at its end, at every moment, if and only if no page is appended late. |
| SessionPages.AGapCanShow | apps/desktop/src/library.ts:376-398 | For any library with two further pages there is a run that shows the first and the third page and not the second. |
| SessionPages.CalmHasNoLatePage | apps/desktop/src/library.ts:331-412 | A run that never has a first-page read and a further page out together appends no page late. |
| SessionPages.CalmRunsShowPrefixes | apps/desktop/src/library.ts:331-412 | So in every such run the rows shown are a prefix of the full result of the question on screen. |
| SessionsHook.Sessions.LoadMore | apps/desktop/src/library.ts:382-387 | With a cursor and nothing loading, one request for the page after it goes out; otherwise nothing changes. |
| SessionsHook.Sessions.FurtherProblem | apps/desktop/src/library.ts:399-408 | The failure of one replaces the answer, whatever question is asked by then. |
| RecorderLink.WindowIsItsHistory | apps/desktop/src/useRecorderLink.ts:216-308 | In every order of answers and events, the link is the last one learned of, and `interrupted`, `ended` and `failed` are each the last event of their kind, never erased. |
| RecorderLink.ShowsTheLastState | apps/desktop/src/useRecorderLink.ts:233-257 | In every run whose subscription holds, once a state event has come the link is the last one's, whenever the snapshot's answer arrives. |
| RecorderLink.FailureNamesItsOwnFile | apps/desktop/src/useRecorderLink.ts:280-292 | A failure names a file if and only if the last recording learned of before it has the same identifier, and then it is that recording's file. |
| RecorderLink.RefusalIsShownUntilAnswered | apps/desktop/src/useRecorderLink.ts:294-308 | After a refused subscription at most the snapshot's answer is still to come: the link is unavailable until it does, and is the answer, or unavailable for the reason that it failed, from then on. |
| RecorderLink.TheRefusalCanBeOverwritten | apps/desktop/src/useRecorderLink.ts:233-308 | Such a run exists for every answer. |
| RecorderLinkHook.LinkHook.Answered | apps/desktop/src/useRecorderLink.ts:233-246 | The snapshot's answer or failure is a step of the machine: recorded unless a state event came first. |
| RecorderLinkHook.LinkHook.Delivered | apps/desktop/src/useRecorderLink.ts:248-293 | So is each kind of event, each of which touches only its own field. |
| Timeline.EveryMarkIsGrouped | apps/desktop/src/recordingMarks.ts:180-190 | Every mark is in exactly one column or off the recording. |
| Timeline.NoMarkIsLost | apps/desktop/src/recordingMarks.ts:164-212 | The counts under the markers and the marks off the recording add up to all the marks if and only if there is a recording to place them on or nothing to place; and there are at most as many markers as columns. |
| TimelineLaws.AccumulatedDescribes | apps/desktop/src/recordingMarks.ts:190-205 | What a column accumulates is its size, its earliest mark, the first of equals, and exactly the origins among its marks. |
| TimelineLaws.TimelineGroupsByColumn | apps/desktop/src/recordingMarks.ts:180-237 | There is one marker for each column that has marks and no other, in strictly increasing order of column and of position; each seeks to its column's earliest mark, the first of equals, and counts all of them. |
| TimelineIntervals.MarkersAreIntervals | apps/desktop/src/recordingMarks.ts:180-212 | With the recording cut into equally long columns: there is one marker for each column c with a mark at c * length <= at * columns < (c + 1) * length, the last having the end too, and no other; it counts those marks, seeks to the earliest, and has one origin if and only if they agree on it; and the marks off the recording are those before zero and past its length. |
| TimelineIntervals.NothingToPlaceThemOn | apps/desktop/src/recordingMarks.ts:169-174 | Without a finite positive length, or a column, there is no marker and none is off the recording. |
| TimelineIntervals.OriginsSpelledOut | apps/desktop/src/events.ts:195-214 | A mark is from whoever typed it if its kind begins with `user:`, else from the application if its source is `clipped` or begins with `clipped.`, else from a plugin. |
| TimelineLaws.MarkerShowsGroup | apps/desktop/src/recordingMarks.ts:227-237 | A marker's origin is one origin if and only if every mark of its column has that origin, and `several` otherwise. |
| TimelineLaws.MarkersFollowTime | apps/desktop/src/recordingMarks.ts:207-211 | Markers seek to strictly increasing positions. |
| TimelineLaws.OrderDoesNotMatter | apps/desktop/src/recordingMarks.ts:155-163 | The same marks in any other order give the same number of markers, with the same positions, fractions, counts and origins, and the same totals. |
| TimelineLaws.KeysAreDistinct | apps/desktop/src/recordingMarks.ts:229-230 | No two markers of a timeline have one key, whatever their marks' kinds. |
| TimelinePass.Occupy | apps/desktop/src/recordingMarks.ts:177-205 | The single pass leaves each column with exactly what its marks accumulate one after another, each occupied column's number once, and the number of marks off the recording. |
| TimelinePass.SortedAreOccupied | apps/desktop/src/recordingMarks.ts:207-208 | The map's keys, sorted, are the columns that have marks. |
| TimelinePass.RecordingTimeline | apps/desktop/src/recordingMarks.ts:164-212 | The pass, the sort and the markers together are the timeline grouped by column, for every list of marks, duration and number of columns. |
| Legend.OriginsPresent | apps/desktop/src/recordingMarks.ts:283-294 | One pass over the markers computes the legend: each origin's tally, in an order that does not change. |
| Legend.LegendLosesNothing | apps/desktop/src/recordingMarks.ts:274-294 | The legend's lines account for every marker and every mark under one. |
| Legend.LegendListsWhatIsDrawn | apps/desktop/src/recordingMarks.ts:279-294 | A line is in it if and only if some marker has its origin and it is that origin's tally. |
| Legend.TallySpelledOut | apps/desktop/src/recordingMarks.ts:284-288 | An origin's tally is the number of markers that have it, and of the marks under those. |
| Legend.HavingExactly | apps/desktop/src/recordingMarks.ts:284-288 | The markers tallied for an origin are the timeline's markers that have it, each as often as it is there, and no other. |
| Legend.LegendInOrder | apps/desktop/src/recordingMarks.ts:289-293 | The lines are in the order plugin, application, typed, several. |
| VirtualWindow.CumulativeHeights | apps/desktop/src/virtualWindow.ts:64-75 | The running total is where each session starts: the height of the sessions above it. |
| VirtualWindow.CumulativeIsTable | apps/desktop/src/virtualWindow.ts:51-75 | The table starts at zero and each session is at least a row tall. |
| VirtualWindow.FirstIndexAbove | apps/desktop/src/virtualWindow.ts:77-90 | Halving finds what a scan from the start finds. |
| VirtualWindow.ScanIsFirst | apps/desktop/src/virtualWindow.ts:77-90 | Which is the one index with everything before it at most the target and itself above it, or the last index when none is above. |
| VirtualWindow.SessionWindow | apps/desktop/src/virtualWindow.ts:123-150 | The window found by the two searches is the one specified with scans. |
| WindowLaws.AboveExactly | apps/desktop/src/virtualWindow.ts:77-90 | The offset found exceeds the target if and only if the target is inside the table. |
| WindowLaws.MountedExactly | apps/desktop/src/virtualWindow.ts:123-150 | Scrolled anywhere in the table, a session is mounted if and only if it is within the overscan of one that touches the viewport. |
| WindowLaws.ScrolledTo | apps/desktop/src/virtualWindow.ts:123-150 | The same, said of the heights of the sessions above each and of the scroll offset itself. |
| WindowLaws.NotScrolledTo | apps/desktop/src/virtualWindow.ts:134-134 | A table below the top of what is scrolled is windowed as one at its top. |
| WindowLaws.HeightInRows | apps/desktop/src/virtualWindow.ts:40-54 | Sessions are forty pixels tall each, and forty more for each recording where recordings are drawn. |
| WindowLaws.PastTheEnd | apps/desktop/src/virtualWindow.ts:123-150 | Scrolled past its end, those mounted are the last session and the overscan above it. |
| WindowLaws.NothingSeenIsMissing | apps/desktop/src/virtualWindow.ts:123-150 | At every scroll offset something is mounted, and every session that intersects the viewport is. |
| WindowLaws.SpacersStandForTheRest | apps/desktop/src/virtualWindow.ts:129-149 | Each spacer is as tall as the sessions it stands for, and spacers and mounted sessions make up the whole table; and without a viewport or a session every session is mounted. |
| WindowLaws.WindowIsSmall | apps/desktop/src/virtualWindow.ts:109-122 | Fewer than viewport / 40 + 2 + 2 * overscan sessions are mounted, whatever the number of sessions. |
| WindowLaws.ScrollingDownMovesOn | apps/desktop/src/virtualWindow.ts:134-141 | Scrolling down or a taller viewport never takes the start or the end back. |
| WindowLaws.AppendingMovesNothing | apps/desktop/src/virtualWindow.ts:134-149 | Sessions appended while the viewport's top is inside the table leave the start and the top spacer as they were, and never take the end back. |
| Buckets.DrawnExactly | apps/desktop/src/waveformOutline.ts:85-105 | A bucket is in the range returned if and only if it overlaps the time asked for. |
| Buckets.DrawnSpelledOut | apps/desktop/src/waveformOutline.ts:57-100 | Said of the peaks and seconds: of n buckets, half as many as peaks, bucket b is drawn if and only if b * duration < to * n and from * n < (b + 1) * duration, in nanoseconds. |
| Buckets.DrawnWhenItOverlaps | apps/desktop/src/waveformOutline.ts:85-105 | The result is not null if and only if there are peaks, a duration and a forward range that overlaps the track. |
| Buckets.CoversAndNoMore | apps/desktop/src/waveformOutline.ts:72-77 | The range covers what it overlaps and exceeds it by less than one bucket on either side. |
| Buckets.AbuttingRangesJoin | apps/desktop/src/waveformOutline.ts:85-105 | Two abutting ranges join to exactly the range of their union, and share one bucket if they meet inside it and none if they meet on its boundary. |
| Outline.HeightIsExact | apps/desktop/src/waveformOutline.ts:140-162 | A height in hundredths is within half of one of the exact height, a tie going up. |
| Outline.HeightReadsBack | apps/desktop/src/waveformOutline.ts:140-162 | Rounded to hundredths, a height still tells which of the 255 samples it was drawn for. |
| Outline.LouderIsHigher | apps/desktop/src/waveformOutline.ts:140-143 | A larger sample is drawn strictly higher. |
| Outline.EdgesAndMiddle | apps/desktop/src/waveformOutline.ts:121-124 | Exactly the samples at full scale or beyond reach the edges of the lane, and exactly silence is on its middle. |
| Outline.HeightInLane | apps/desktop/src/waveformOutline.ts:140-143 | Every sample is drawn within the lane. |
| Outline.Envelope | apps/desktop/src/waveformOutline.ts:132-157 | The loop and the reversal build the path specified point by point. |
| Outline.Points | apps/desktop/src/waveformOutline.ts:145-153 | The loop pushes the maxima and the minima of the run over the same x values, from zero, with silence for what is missing. |
| OutlineLaws.OutlineReadsBack | apps/desktop/src/waveformOutline.ts:115-157 | For every track and every run of buckets: there is a path if and only if the run has a bucket, and the path, read as text, is a move and then lines, over x from zero forward at the height of each maximum and back to zero at the height of each minimum, and closes. |
| OutlineLaws.NumbersAreShort | apps/desktop/src/waveformOutline.ts:159-162 | Heights are written with no zeros at the end of a fraction, and no fraction when there is none. |
| OutlineLaws.PeaksReadBack | apps/desktop/src/waveformOutline.ts:115-157 | So it gives back each bucket's minimum and maximum, held to full scale. |
| OutlineLaws.WholeTrackReadsBack | apps/desktop/src/waveformOutline.ts:132-157 | For peaks in scale, the path of a whole track gives the peaks back unchanged. |
| OutlineLaws.SliceIsRebased | apps/desktop/src/waveformOutline.ts:126-130 | The path of a run inside a track is, character for character, the path of a track that is only that run. |
| OutlineLaws.RangeReadsBack | apps/desktop/src/waveformOutline.ts:85-157 | The path drawn for a time range gives back, where it should be, the peaks of every bucket that overlaps the range. |
| Timecode.TimecodeReadsBack | apps/desktop/src/timecode.ts:21-31 | Every position that is not negative, with any number of hours, reads back to its millisecond. |
| Timecode.TimecodeShape | apps/desktop/src/timecode.ts:20-31 | It is two digits, a colon, two digits, a full stop and three digits, with the hours and a colon in front if and only if there are any, and no zeros in front of them. |
| Timecode.AlikeInOneMillisecond | apps/desktop/src/timecode.ts:21-31 | Two such positions are written alike if and only if they are in one millisecond. |
| Timecode.MarkersTellApart | apps/desktop/src/recordingMarks.ts:240-263 | Two markers alike in everything else they say are announced alike if and only if they seek to one millisecond. |
| OutputNames.NamesInOrder | apps/recorder/src/config.rs:700-710 | For years 0 to 9999, one generated name is before another, byte by byte, if and only if the local date and time in it are earlier. |
| OutputNames.NamesAreDistinct | apps/recorder/src/config.rs:700-710 | Two generated names are equal if and only if every part to the second is. |
| OutputNames.NameReadsBack | apps/recorder/src/config.rs:704-710 | A name is `clipped-`, eight digits, a dash, six digits and `.mkv`, from which the year, month, day, hour, minute and second read back. |
| OutputTimes.EarlierIsFewerSeconds | apps/recorder/src/config.rs:704-710 | On the calendar, with its leap years, one date and time is earlier than another if and only if the civil clock has counted fewer seconds, and is it if and only if as many. |
| OutputTimes.YearStartIs | apps/recorder/src/config.rs:704-710 | Before a year there are 365 days for each year, and one more for each that four divides, but for those that a hundred divides and four hundred does not. |
| OutputTimes.NamesOfInstants | apps/recorder/src/config.rs:700-710 | For recordings made at any two instants with any two offsets of the local clock: one name is before the other if and only if its instant plus its offset is less, and they are one name if and only if those are equal. |
| OutputTimes.InOrderWithoutSettingBack | apps/recorder/src/config.rs:700-710 | So names are in the order of their instants while the clock is not set back. |
| OutputTimes.SetBackSortsFirst | apps/recorder/src/config.rs:312-312 | A recording made forty minutes after one at half past one, the clock having been set back an hour in between, sorts first. |
| Paths.LastDotInName | apps/recorder/src/config.rs:561-564 | What separates a name from its extension is its last full stop. |
| RecordingLaws.Trimmed | apps/recorder/src/config.rs:459-467 | Trimming takes all the white space from both ends and nothing else. |
| RecordingLaws.TargetExactly | apps/recorder/src/config.rs:446-484 | There is a target if and only if exactly one selector is given and it is usable: not blank, not a path, not process 0. |
| RecordingArguments.TargetsSpelledOut | apps/recorder/src/config.rs:459-483 | Each selector gives its own kind of target, trimmed, or its own refusal. |
| RecordingArguments.OneSelectorOrNone | apps/recorder/src/config.rs:451-457 | No selector, and any two, are refused as that and only then. |
| RecordingArguments.MatroskaExactly | apps/recorder/src/config.rs:561-569 | A name is accepted if and only if its last four characters are `.mkv`, in any case, and there are more. |
| RecordingArguments.InTheWayExactly | apps/recorder/src/config.rs:643-654 | A directory is always in the way of an output, a file unless it may be replaced, and what cannot be looked at never. |
| RecordingLaws.AcceptedExactly | apps/recorder/src/config.rs:307-328 | A recording is accepted if and only if it has one usable target and a good output: a named one, as it is or joined to the working directory, `.mkv` in any case, in a directory that exists and can be written to; a generated one in a directory that can be written to or is not there; and nothing in the way that may not be replaced. Then it is that target and that output. |
| RecordingArguments.WrittenWhereItSays | apps/recorder/src/config.rs:490-550 | The output of an accepted recording, part by part: as named, on the working directory's drive or behind it, or under the name of the moment in the directory of the settings or in `Videos\Clipped` of a home that is not empty. |
| RecordingLaws.RefusalIsTrue | apps/recorder/src/config.rs:101-193 | Every refusal is true of what was asked: its error names the value, path or directory that is wrong, and it is wrong in that way. |
| RecordingLaws.NamedAccepted | apps/recorder/src/config.rs:495-504 | What is accepted of a named output, and that it is the path as it is when absolute and as it comes out of joining the working directory when not. |
| RecordingLaws.GeneratedAccepted | apps/recorder/src/config.rs:505-538 | What is accepted of a generated one: a directory from the settings before the videos folder, unchecked when it is not there. |
| RecordingLaws.AGoneDirectoryIsAccepted | apps/recorder/src/config.rs:514-537 | A recording into a configured directory that is not there, or cannot be looked at, is accepted if and only if its target is usable and nothing is in the way of its output. |
| RecordingLaws.MissingIsReportedExactly | apps/recorder/src/config.rs:490-540 | A directory is reported missing if and only if it is missing and is the directory of an output that was named, and nothing is wrong with the target or the name. |
| RecordingLaws.LeavesNothingExactly | apps/recorder/src/config.rs:294-299 | Checking leaves the files as they were, accepted or refused, if and only if it made no probe or could remove it; and every file that was there is there unchanged regardless. |
| RecordingLaws.ResolvedLeaves | apps/recorder/src/config.rs:609-640 | Checking leaves the files as they were, or with its own probe and nothing else, and counts one probe more if and only if there was a directory to probe. |
| RecordingLaws.ProbeNamesAreDistinct | apps/recorder/src/config.rs:609-618 | Two probes have one name if and only if they are one process's and one call's. |
| RecordingLaws.JoinsAbsolutely | apps/recorder/src/config.rs:542-550 | Joined to an absolute working directory, a path is absolute if and only if it has no drive or has a root. |
| RecordingLaws.AbsoluteExactly | apps/recorder/src/config.rs:75-76 | An accepted output is absolute if and only if it was named without a drive or with a root, or it was generated and its directory is absolute. |
| RecordingLaws.AbsoluteFromSettings | apps/recorder/src/config.rs:490-540 | With a directory from the settings, which is refused there unless it is absolute: an accepted output that was named is absolute if and only if it has no drive or has a root, and one that was not, if and only if there is such a directory or the home directory is absolute. |
| RecordingLaws.ADriveWithoutARootIsAccepted | apps/recorder/src/config.rs:542-550 | Named `C:clips\session.mkv`, with `C:clips` a directory that can be written to, an output is accepted as it is, and is not absolute. |
| RecordingLaws.ARelativeOutputIsAccepted | apps/recorder/src/config.rs:662-676 | A relative home directory and no directory in the settings give an accepted output that is not absolute. |
| RecordingLaws.GeneratedOutputsCollide | apps/recorder/src/config.rs:537-537 | Two generated outputs in one directory are one file if and only if the local dates and times in their names are the same to the second. |
| RecordingLaws.GeneratedOutputsCollideAt | apps/recorder/src/config.rs:537-537 | Which is if and only if as much time passed between them as the local clock was set back by. |
| RecordingLaws.ReplayAcceptedExactly | apps/recorder/src/config.rs:384-413 | A replay is accepted if and only if its recording is, there is a buffer, and the save fits in it, and is refused as its recording is; its buffer is the one asked for or else that of the settings, its save the one asked for or else the whole buffer, and it writes a recording unless it was asked not to. |
| RecordingLaws.ReplayRefusedFor | apps/recorder/src/config.rs:390-423 | When its recording is accepted, it is refused for having no buffer, or for a save longer than it, exactly in those cases, and the whole seconds of both are reported, as far as 32 bits go. |
| RecordingRuns.RunsKeepFiles | apps/recorder/src/config.rs:609-640 | Over every run of checks by one process, whatever probes could be removed, no file or directory changes, and a probe still to be made is there if and only if it was before. |
| RecordingRuns.UsableAfterAnyRun | apps/recorder/src/config.rs:609-640 | After any run, such a directory is usable if and only if that probe was not in it before the run. |
| RecordingRuns.RunsLeaveNothing | apps/recorder/src/config.rs:296-299 | Over every run whose probes are removed the files are exactly as they were. |
| RecordingRuns.RunsChangeNoVerdict | apps/recorder/src/config.rs:307-328 | After such a run every request is answered as it would have been before it. |
| RecordingRuns.WritableIsUsable | apps/recorder/src/config.rs:574-599 | With no probe of this process in the way anywhere, a directory is usable if and only if it is one that can be written to. |
| RecordingRuns.AStaleProbeRefuses | apps/recorder/src/config.rs:619-639 | A probe that another process of the same number left refuses such a directory. |
| RecordingDisk.Disk.ProbeWritable | apps/recorder/src/config.rs:609-640 | Creating a file and removing it again answers whether the directory can be written to, leaves at most that file, and counts the probe. |
| RecordingDisk.Disk.Resolve | apps/recorder/src/config.rs:307-328 | So are the recording's. |
| RecordingDisk.Disk.ResolveReplay | apps/recorder/src/config.rs:384-413 | So are the replay's, whose disk is checked before its buffer is. |

## Left out

- Rendering, JSX, effects as a framework, styles and the functions that only word things. A hook is a state machine whose steps are answers, failures, presses and events; a render is taken to have happened between any two of them, so a callback that closes over a state always sees the last one.
- The pipe, `invoke` and `listen`, and the recorder's side of every round trip. A round trip is outstanding until it is answered or fails, in any order.
- A preview's completion is one step: the moment between its promise settling and its `finally` is not seen.
- A row of the preview model is one run of the effect of `useThumbnail`: changing a row's recording is an unmount and a mount.
- PreviewModule.Previews.Settled: `Map.delete` and the reversed search are on a sequence of entry objects in insertion order, which is what a JavaScript `Map` keeps.
- Rounding of floating-point numbers. Heights and samples are integers; durations, positions and scroll offsets are exact reals.
- Characters outside the basic plane as pairs of code units, and lone surrogates; what counts as white space, in the places it matters, is a predicate.
- ReplacedTwice.UncPrefixesBeginInPipes: says where a UNC prefix begins and not that it ends inside the pipe's name, because its host part runs on past quotes.
- SharedDigests.SharedNameStaysApartExactly: comes down to the digests of the directories; which directories share one is not characterised further than that paths whose bytes differ only within four in a row never do.
- SessionsHook, RecorderLinkHook and RecordingDisk: the methods not listed above make the assignments and checks of `SessionPages`, `RecorderLink` and `RecordingRules` in turn, and are proved equal to them.
- The pinned digest that the window and the recorder share is not restated; the Rust side of redaction is not part of this model.
- The subscription of `useSittingsEnded` being torn down with the screen, and the times a link or a failure was seen at.
- Favourites, locks, games, byte formatting and the home screen's figures in `apps/desktop/src/library.ts`.
- The words of `describeMark` and of `markerName`: a mark's origin is modelled, its label and how a marker says that it stands for others are not.
- TimelinePass.Occupy: a column's record is a value that is replaced, not an object updated where it stands; the insertion order of the map is kept beside it.
- `useRecordingMarks`, `useWaveform` and `useSessionWindow`, which measure and fetch.
- VirtualWindow.SessionWindow: a cumulative table is one that starts at zero and rises by a row at least for each session, as every table `cumulativeHeights` makes is; a negative overscan is not modelled.
- Timecode.TimecodeReadsBack: says nothing of negative positions, whose parts carry signs of their own; no mark on a recording has one.
- OutputNames.NamesInOrder: negative years, whose sign puts them after positive ones, are left out, because no clock gives one.
- Paths are Windows paths, of a drive or share, a root and parts: `.` is not a part, `..` is not resolved, joining to a working directory written `\\?\` does not take either out, and two spellings of one directory are two directories.
- OutputTimes.NamesOfInstants: takes what the local clock shows at an instant as given by its offset; where the offset comes from is not part of this model, nor are leap seconds.
- File names that are not Unicode, the other settings a recording copies from its arguments, and a clock that cannot be formatted.
- The command-line grammar, the capability report, and the crates that capture, encode and mux.
