# freemkv: a verified model of its stateful core

freemkv is the front end of a disc ripper. The disc and codec work is in libraries that are not
part of this repository. What is here, and what this project models in Dafny, are the parts that
keep state, translate a format or promise a round trip:

- **ProgressBars, ProgressBarsTheorems, ProgressCounts, ProgressShown, ProgressReporters**: the two progress bars of a run,
  fed by two reporters.
- **HeldDrive, HeldDriveRuns, HeldDriveTheorems, HeldDriveRegistry, HeldDrivePresence**: the one drive that Open leaves
  open for Start, shared by Open, Start, Eject, Close, the presence watch and a reaper thread per hold.
- **DotSegments, Redirects, RedirectExamples, KeydbFetch, DnsGate**: fetching the key database: redirect
  resolution against RFC 3986, the hop loop against an arbitrary server, the lookup gate.
- **IcoRes**: the build's translation of `.ico` into `.res`, with a reader of the result.
- **Base64, Escapes, IssueBody**: the encoders of the profile issue and the size of its body.
- **TitleNames, TitleNamesDiffer, TitleTemplates**: file names from a template, one usable and different name per title.
- **Argv**: the two command line parsers that claim to be one rule.
- **Worker, RecoveryArm, CliStop**: the life of a worker thread, of a recovered image and its
  lock, and of Ctrl-C, over every interleaving of stops, panics and crashes.
- **GuiGate**: whether a captured region shows more than one colour.
- **Basics, Bytes, Text**: the few operations of the Rust standard library that these call.

Code that updates fields in place is a class whose methods are proved against functions on
values; concurrent code is a state machine whose steps are the critical sections of the source.
Then the theorems are about every run of those functions. Loops of the source are loops here.

Where the code differs from its own documentation, or from what its readers would expect, the model
follows the code:

- A Stop pressed while titles are muxed from a staged image keeps the image but deletes its lock,
  which src/engine.rs:3188 says is kept after Stop (`CancelledKeepsItsLockExactly`,
  `StopDuringTheMux`).
- Ejecting another drive drops the held one without recording the release, so its settle window
  does not open (`EjectedWithoutSettling`); and only the last released source has a window at all
  (`OtherReleased`, `SettlesExactlyWhenRecorded`).
- A presence check decides under the lock and calls the registry behind it, so the registry can be
  called for a source that is held or settling by then (`CalledWhileHeld`); `RegistryCalledExactly`
  says when.
- A title is counted once for every end that finds it under way (`EachTitleCountsItsEnds`), so not
  always once: a single title reported by both is counted once exactly when the two accounts
  overlap (`CountedOnceExactly`), and with more titles neither overlap nor its absence decides
  (`CutShort`).
- The lookup gate can turn a caller away while a slot is free (`RefusedExactly`,
  `RefusedWithASlotFree`).
- Redirects follow RFC 3986 for path references; for the other kinds it depends on dot segments,
  and the exact condition is proved for each kind, with a redirect that fails it in
  RedirectExamples.
- The two command line parsers differ on some command lines; `ParsersAgreeExactly` says which.
- A label that holds `{n}`, or completes one with the template's text, has the number written
  into it: the two substitutions are one pass exactly for the other labels
  (`TwoPassesAreOneExactly`).
- The CR LF headroom of an inlined issue body covers 707 newlines of the caller's text, not any
  number (`CrlfHeadroomIsExact`).

`dafny verify dfyconfig.toml` checks the project.

## Model

| member | source | states |
|---|---|---|
| ProgressBars.RunState.SizeOfTitle | src/engine.rs:1540-1545 | the search loop finds the first planned size under an index, and 0 when there is none |
| ProgressBars.RunState.MeasureBatch | src/engine.rs:1582-1594 | the summing loop computes the bottom bar: no value unplanned, 0 with a size unknown, else the clamped quotient |
| ProgressBars.RunState.Republish | src/engine.rs:1596-1623 | publishing changes only the published part; the bottom bar is the greater of old and new |
| ProgressBars.RunState.PlanTitles | src/engine.rs:1678-1684 | the whole new state after a plan; the first non-empty plan stands |
| ProgressBars.RunState.StartRead | src/engine.rs:1688-1693 | the whole new state when the pre-title read begins |
| ProgressBars.RunState.StartTitle | src/engine.rs:1696-1708 | the whole new state when a title starts; a repeated start only republishes |
| ProgressBars.RunState.EndTitle | src/engine.rs:1711-1720 | the whole new state when a title ends; an end of another title only republishes |
| ProgressBars.RunState.Report | src/engine.rs:1547-1572 | the whole new state after a progress sample, in a title, in the read, or neither |
| ProgressBarsTheorems.BarsNeverFall | src/engine.rs:1596-1623 | in any order of events both bars stay in [0, 100], the bottom bar never falls, never goes back to no value once planned, and is 0 for good if a planned size is unknown |
| ProgressBarsTheorems.QuotientNeverFalls | src/engine.rs:1619-1622 | over orderly runs the unclamped quotient itself never falls and never passes 1, so the running maximum is not needed |
| ProgressBarsTheorems.FullExactlyWhenAllEnded | src/engine.rs:1582-1594 | between titles the bar reads 100 exactly when every planned title has ended |
| ProgressBarsTheorems.TopBarBetweenTitles | src/engine.rs:1603-1618 | between titles, the read over, the top bar is 0 until the last planned title has ended, then 100 |
| ProgressBarsTheorems.ReadMeasuredByFirstPass | src/engine.rs:1556-1571 | for any samples at all: nothing counts until the first pass names a byte total, also when a later pass reports before; the first total named stands; the bytes done are the most that pass reached from there on, then all once a later pass reports |
| ProgressCounts.BarsFollowTheEvents | src/engine.rs:1676-1721 | in any order of events, the title under way and the plan are those the events say |
| ProgressCounts.PassedIsWhatEnded | src/engine.rs:1696-1720 | in any order of events at all the bytes passed are the planned sizes of the titles that an end found under way, each as often as one did |
| ProgressCounts.EachTitleCountsItsEnds | src/engine.rs:1696-1720 | behind one plan, for any number of titles and any events: each title's size is counted once for every end that finds it under way, so a title is counted once exactly when one end does |
| ProgressShown.TopBarInAnyOrder | src/engine.rs:1602-1618 | after any events at all: in a title the top bar is the best fraction reported since it started; in a read the last sample's fraction; between titles, and in a read before its first sample, 0 while the bytes that ended are below the planned sum and 100 from then on; with no size planned or known the last sample's fraction, 0 without one |
| ProgressShown.CurrentIsBest | src/engine.rs:1548-1554 | in any order of events the current title's fraction is the best one reported since that title started |
| ProgressShown.FractionIsTheShare | src/engine.rs:1549-1551 | a fraction is the share done of the total, and 1 once all is done |
| ProgressShown.ReadIsItsSamples | src/engine.rs:1556-1580 | in any order of events the read in the bars is the one its own samples measure, complete from the next title's start on: its total stays the one they named |
| ProgressShown.PreparationFollows | src/engine.rs:1597-1601 | the preparation shown: none before a read has begun, reading until a title starts, complete from then on |
| ProgressShown.BottomBarInAnyOrder | src/engine.rs:1582-1623 | after any events at all: no value unplanned, 0 with a size unknown, else the greater of what was shown and the bytes done over the bytes planned, at most 100, all of them read off the events |
| ProgressShown.BottomBarConserves | src/engine.rs:1582-1594 | after an orderly run the bar is exactly (read + sizes of the ended titles + the current part) over (read total + all planned sizes), every one of them read off the events alone |
| ProgressReporters.RepeatsCountOnce | src/engine.rs:1696-1720 | any run leaves the state it leaves without the events that say again what earlier ones said |
| ProgressReporters.EitherReporterAlone | src/engine.rs:1799-1846 | any interleaving of the guard's and the engine's accounts in which each title is started by both before either ends it leaves, whenever they agree again, the state either of them alone leaves |
| ProgressReporters.OneTitleEnds | src/engine.rs:1799-1846 | of one title's reports by both, in any order, one end finds it under way when the accounts overlap, and both ends do when they do not |
| ProgressReporters.CountedOnceExactly | src/engine.rs:1799-1846 | so a title planned alone is counted once exactly when the accounts overlap, otherwise twice |
| ProgressReporters.CutShort | src/engine.rs:1799-1846 | with two titles this no longer decides: sequential accounts by both under which the first title is counted twice, and the second once although its accounts do not overlap |
| ProgressReporters.ApartCountsTwice | src/engine.rs:1799-1846 | one reporter's whole account of a single title, then the other's, counts it twice |
| HeldDrive.DriveHold.ReleaseSlot | src/engine.rs:1112-1119 | releasing empties the slot and records its source and the time; an empty slot keeps its record |
| HeldDrive.DriveHold.Draw | src/engine.rs:1056-1057 | drawing a serial touches the counter only, not the slot |
| HeldDrive.DriveHold.Install | src/engine.rs:1058-1061 | installing releases the earlier hold and fills the slot |
| HeldDrive.DriveHold.Take | src/engine.rs:1064-1066 | taking empties the slot and records no release |
| HeldDrive.DriveHold.CheckPresence | src/engine.rs:1074-1095 | the slot afterwards and the answer, for every drive status, another source's hold and the settle window |
| HeldDrive.DriveHold.Expire | src/engine.rs:1099-1109 | releases exactly its own lapsed or cancelled hold and says whether there is more to watch |
| HeldDriveRuns.StepKeeps | src/engine.rs:1039-1119 | every step of every party keeps: each handle in one place, serials unique, each hold watched, the settle record true |
| HeldDriveTheorems.SlotFollowsTheSource | src/engine.rs:1054-1119 | each step of the interleaved machine does to the slot what the class's critical section does, and a check is told what that one answers |
| HeldDriveTheorems.EveryHandleOnce | src/engine.rs:1054-1071 | in every interleaving each drive ever offered is waiting, in the slot, taken once or closed once, and nothing else is anywhere |
| HeldDriveTheorems.SpentStaysSpent | src/engine.rs:1064-1071 | a handle once taken or closed is never held again nor taken or closed a second time |
| HeldDriveTheorems.ExpiredNeverReturns | src/engine.rs:1155-1161 | once a reaper is told there is nothing to watch, its serial is never in the slot again |
| HeldDriveTheorems.SerialsOutOfOrder | src/engine.rs:1056-1058 | serials do not enter the slot in order: a run in which an older draw is installed after a newer one |
| HeldDriveTheorems.LapsedHoldIsClosed | src/engine.rs:1099-1109 | the first reaper step at or after the cancellation, or a lease after the last renewal, closes the hold, once and for good |
| HeldDriveTheorems.EveryHoldIsWatched | src/engine.rs:1149-1164 | whatever is in the slot has its own reaper, running or about to start |
| HeldDrivePresence.PresenceTellsExactly | src/engine.rs:1074-1095 | after any run, with any hold in the slot: a check says the disc is there exactly when its own held drive reports one, gone exactly when that reports none or an open tray, nothing exactly when that is not ready or says nothing or the source was released less than the settle time ago, and asks the registry otherwise; the drive is closed exactly with the answer gone or as another source's, and renewed exactly with the answer there |
| HeldDrivePresence.LeaseRunsExactly | src/engine.rs:1084-1109 | a reaper's step closes its hold exactly when the open was cancelled or a lease has passed since the run's last check of that source that found the disc, or since the Open before the first; otherwise it touches nothing |
| HeldDriveRegistry.SettlesExactlyWhenRecorded | src/engine.rs:1074-1082 | after any run, with any hold in the slot: a check decides to leave the registry alone exactly when its source is held, or nothing is held and the last release of the whole run was of its source, within the settle time |
| HeldDriveRegistry.ClosesRecordedExactly | src/engine.rs:979-987 | which closes that history holds: all but those of an open cancelled before it was held and of a hold taken by an eject of another source |
| HeldDriveRegistry.RegistryCalledExactly | src/engine.rs:886-895 | the registry is called behind the lock, any steps after the decision: by then the source is held exactly when the last of those steps that changed the slot installed a drive of it, and settling exactly when the last release among them was of it, within the settle time |
| HeldDriveRegistry.CalledWhileHeld | src/engine.rs:891-894 | runs in which the registry is called for a source that is held, and for one inside its settle window |
| HeldDriveRegistry.EjectElsewhereSkipsSettling | src/engine.rs:979-987 | ejecting another source closes the held drive and the registry is asked about it at once, exactly unless an earlier release of it still counts; Close opens a window |
| HeldDriveRegistry.EjectedWithoutSettling | src/engine.rs:979-987 | a run from the start in which this happens |
| HeldDriveRegistry.OtherReleaseEndsSettling | src/engine.rs:1074-1081 | a check that releases another source's hold asks the registry about a source released this instant |
| HeldDriveRegistry.OtherReleased | src/engine.rs:1074-1081 | a run from the start that reaches this |
| DotSegments.RemoveDotSegments | src/keydb_fetch.rs:158-176 | the stack loop gives what the two-buffer algorithm of section 5.2.4 of RFC 3986 gives on every rooted path |
| DotSegments.StackIsRfc | src/keydb_fetch.rs:158-176 | the stack of segments and the input and output buffers of section 5.2.4 agree |
| DotSegments.RemoveDotsIsClean | src/keydb_fetch.rs:157-176 | the result is rooted, has no dot segment, and a second application changes nothing |
| DotSegments.UnchangedExactlyWhenDotFree | src/keydb_fetch.rs:157-176 | a rooted path is left alone exactly when it has no dot segment |
| Redirects.PathReferencesFollowTheRfc | src/keydb_fetch.rs:121-155 | absolute-path and relative-path references resolve to the recomposed transform of sections 5.2.2, 5.2.3 and 5.3, fragment dropped |
| Redirects.QueryReferencesFollowTheRfcExactly | src/keydb_fetch.rs:141-142 | query-only references agree with section 5.2.2 exactly when the base path is not empty and has no dot segment |
| Redirects.NetworkReferencesFollowTheRfcExactly | src/keydb_fetch.rs:132-134 | references that name a host but no scheme agree exactly when their path is empty or has no dot segment |
| Redirects.AbsoluteReferencesFollowTheRfcExactly | src/keydb_fetch.rs:128-130 | absolute references are followed verbatim and agree exactly when their path is empty or has no dot segment |
| RedirectExamples.QueryReferenceDiffers | src/keydb_fetch.rs:141-142 | `?q` under `http://h` leads to `http://h/?q`, which is not where section 5.2 leads |
| RedirectExamples.NetworkReferenceDiffers | src/keydb_fetch.rs:132-134 | `//g/./x` under `http://h` keeps its dot segment, which section 5.2 removes |
| RedirectExamples.AbsoluteReferenceDiffers | src/keydb_fetch.rs:128-130 | so does `http://g/./x` |
| Redirects.TargetsStayOnHttp | src/keydb_fetch.rs:121-155 | a target is always http or https; without a scheme of its own a reference keeps the base's scheme, a path or query reference its host too, whatever its query holds |
| Redirects.HttpUrlsExactly | src/keydb_fetch.rs:268-277 | a URL is http or https exactly when the text before its first `://` is one of the two names in either case, and the rest is what follows |
| KeydbFetch.Fetch | src/keydb_fetch.rs:49-75 | against any server: at most six requests, each guarded and pinned in its own turn and sent where the last answer pointed, never from https back to http; it goes on exactly while it may, and each ending gives its own result, read off the last answer |
| KeydbFetch.HopExactly | src/keydb_fetch.rs:86-110 | one GET redirects exactly for a status from 300 to 399 whose `Location` leads somewhere; otherwise a success with a whole body gives that body, too large a one is invalid, a broken one or no answer is a failed connection, and any other status is its own error |
| KeydbFetch.SaneExtends | src/keydb_fetch.rs:52-70 | one more hop keeps all of that |
| KeydbFetch.GuardedUrlIsHttp | src/keydb_fetch.rs:450-537 | what the guard lets through is http or https, names a host, and is pinned to that host's and port's own lookup, none of whose addresses is blocked |
| KeydbFetch.BlockedIsNotAllowed | src/keydb_fetch.rs:236-244 | a host with a blocked address ends the fetch as not allowed, exactly then, naming the first of them; one that cannot be reached or named ends it as a failed connection, and any other is pinned to all its addresses |
| KeydbFetch.OtherSchemesAreRefused | src/keydb_fetch.rs:452-459 | a URL of another scheme is refused by the name before its first `://` |
| KeydbFetch.NamedHostReadsBack | src/keydb_fetch.rs:476-486 | `user@host:port`, with or without the user and the port and with anything behind it, reads back its host and its port or the scheme's |
| KeydbFetch.BracketedHostReadsBack | src/keydb_fetch.rs:464-475 | so does an address in brackets, which may hold colons of its own |
| DnsGate.GateHolds | src/keydb_fetch.rs:487-526 | in every interleaving at most four lookups run, the counter is the lookups plus the callers about to undo, and no bump is lost |
| DnsGate.RefusedWithASlotFree | src/keydb_fetch.rs:503-508 | a run in which a caller is turned away from a free slot |
| IcoRes.ParseIco | build.rs:194-220 | accepts exactly the icon headers all of whose entries lie in the buffer and returns the images in order, each field read from the file's own bytes at its offset, low byte first |
| IcoRes.ResBuffer.PushEntry | build.rs:228-247 | appends one entry with its header and padding and keeps the buffer 4-aligned |
| IcoRes.BuildRes | build.rs:107-153 | the buffer is the null entry, one icon per image and the group; ids and lengths keep their values in the narrow types |
| IcoRes.EntryReadsBack | build.rs:228-247 | the reader recovers an entry wherever an aligned one was written |
| IcoRes.ResReadsBack | build.rs:107-153 | the reader recovers exactly the entries that were written, in order, and nothing else |
| IcoRes.RowsReadBack | build.rs:123-146 | row k of the directory carries image k's fields, its length and its id |
| IcoRes.EmitIconRes | build.rs:93-153 | for every file: one is written exactly when the parser accepts at least one image, and a reader finds in it, entry by entry, the bytes each directory entry points at, and in the group rows that copy the directory byte by byte but for planes 0, which becomes 1, and the id in place of the offset; ids are distinct |
| Base64.Base64Encode | src/info.rs:1146-1170 | the chunk loop gives the encoding of section 4 of RFC 4648 and its length |
| Base64.EncodeIsRfc | src/info.rs:1146-1170 | the three-byte chunks give the bit-level definition: six bits a symbol, zero bits and padding at the end |
| Base64.Base64Decode | src/info.rs:1175-1196 | on any text the accumulator delivers the whole bytes of the bits it carries and stays within 32 bits |
| Base64.Base64RoundTrip | src/info.rs:1172-1196 | decoding an encoding gives the bytes back, for every byte string |
| Base64.EncodeThenDecode | src/info.rs:1146-1196 | the two loops one after the other return the input |
| Base64.EncodingIsAscii | src/info.rs:1147 | every character of an encoding is in the alphabet or the padding |
| Escapes.TomlEscapeString | src/info.rs:1116-1130 | the escaper's output decodes to its input, by the source's decoder and by TOML's own rules |
| Escapes.TomlUnescapeString | src/info.rs:1202-1231 | the decoder's loop, failing exactly where the source panics |
| Escapes.TomlRoundTrip | src/info.rs:1198-1201 | decoding an escaped string gives it back, for every Unicode string |
| Escapes.TomlIsBasicString | src/info.rs:1113-1130 | a reader of the basic strings of TOML v1.0.0 recovers every string from its escaped text |
| Escapes.DecoderAgreesWithToml | src/info.rs:1202-1231 | where the source's decoder and TOML's rules both give a text a meaning, it is the same one |
| Escapes.TomlLineReadsBack | src/info.rs:1113-1115 | the escaped text has no raw control character, and a reader of a quoted value, by either set of rules, stops at the real closing quote and reads the string back |
| Escapes.JsonEscapeString | src/info.rs:986-1000 | the JSON escaper's output is a string body of RFC 8259 that denotes its input |
| Escapes.JsonRoundTrip | src/info.rs:983-1000 | a reader of section 7 of RFC 8259 recovers every string |
| Escapes.JsonStringReadsBack | src/info.rs:983-1000 | read from a longer text, an escaped string ends at its own quote |
| IssueBody.Body.PushZipSection | src/info.rs:654-678 | the zip is inlined exactly when the finished text is within the budget, in closed form; the whole new text either way |
| IssueBody.BlockLength | src/info.rs:660-665 | the length and the newlines of the block with its lines of 76 |
| IssueBody.CrlfFitsExactly | src/info.rs:892-896 | exactly which inlined texts fit GitHub's cap after CR LF, in terms of the caller's text and the rows of the zip |
| IssueBody.CrlfFits | src/info.rs:892-896 | an inlined text with at most 707 newlines of the caller's fits GitHub's cap after CR LF |
| IssueBody.CrlfHeadroomIsExact | src/info.rs:895-896 | 707 is the exact bound: the headroom is enough for every text up to a bound if and only if the bound is at most 707 |
| IssueBody.CrlfOverflows | src/info.rs:895-896 | a text within the budget, with 708, that does not fit |
| IssueBody.ZipReadsBack | src/info.rs:660-665 | between the fences of the block stand lines that the decoder turns back into the zip |
| IssueBody.PayloadReadsBack | src/info.rs:820-825 | the posted JSON is well formed and holds exactly the title and the body |
| TitleNames.SanitizeIsUsable | src/engine.rs:2678-2716 | any label becomes one usable path component: no separator, wildcard or control character, no trailing dot or space, no device name |
| TitleNames.SanitizeKeepsExactlyUsable | src/engine.rs:2678-2716 | a label is left alone exactly when it is usable and has no outer white space |
| TitleNames.SanitizeKeepsAStretch | src/engine.rs:2684-2704 | which stretch of any label survives, character by character, what is trimmed around it, and when another name stands in |
| TitleNames.BasenameIsUsable | src/engine.rs:2722-2741 | so is every title's name, on every branch of the template |
| TitleNames.UsableExactly | src/engine.rs:2684-2716 | usable, spelled out: no separator, colon, redirect, wildcard, quote or control character, no dot or space at the end, and neither the whole name nor what stands before a dot of it is one of the 22 device names |
| TitleNames.CleanExactly | src/engine.rs:2685-2693 | cleaning turns exactly those characters into underscores |
| TitleTemplates.TwoPassesAreOneExactly | src/engine.rs:2731-2736 | substituting the title and then the number is one pass over the template, for every template and number, if and only if the title can form no placeholder |
| TitleTemplates.BasenameReadsItsTemplate | src/engine.rs:2722-2741 | for such titles a name is the sanitised one-pass reading of the template, the number appended exactly when the template does not name it; without a template it is the label with the number behind it, for any label |
| TitleNamesDiffer.FilledFits | src/engine.rs:2732-2736 | filling the holes of a template gives a name whose fixed part does not depend on the number |
| TitleNamesDiffer.SanitizedDiffer | src/engine.rs:2684-2704 | cleaning, both trims and the device prefix keep names with different numbers different, for exact comparison and for any that ignores case |
| TitleNamesDiffer.NamesDiffer | src/engine.rs:2717-2741 | for one template and label two title numbers never give the same name, case ignored or not |
| TitleNamesDiffer.TargetsDiffer | src/engine.rs:4216-4244 | the distinct titles of a rip that no TV plan names go to pairwise different URLs and paths, file or demux, case ignored or not |
| TitleNamesDiffer.TargetsNamed | src/engine.rs:4216-4244 | where a title goes: the URL is scheme and path; a file lies in the chosen directory itself under its TV name or its own, by its number from 1; a demuxed title gets a directory `t` and that number in at least two digits exactly when the rip has several |
| Argv.StripLanguageFlag | src/cli_entry.rs:361-394 | keeps exactly the tokens that are neither language flags nor their codes, takes the same language as the app, and complains about exactly the flags without a code |
| Argv.TokenKinds | src/app_entry.rs:58-74 | a dash and a number is a value, a dash and anything else a flag, and what holds `://` no value |
| Argv.LastCodeIsTheLanguage | src/app_entry.rs:102-107 | the launch language is the code behind the last language flag that has one |
| Argv.CommandArgs | src/app_entry.rs:78-98 | the app's loop keeps exactly the surviving tokens past the program name and a leading serial |
| Argv.ParsersAgreeExactly | src/cli_entry.rs:219-220 | on every command line the two parsers give the same arguments exactly under a condition on where the first token past the language flags stands and whether it is a serial |
| Argv.ParsersDisagree | src/cli_entry.rs:349-357 | a command line on which they do not |
| Argv.WindowOpensExactly | src/app_entry.rs:16-22 | on every command line: the token the app decides the window by, and exactly when the tool's arguments call for the same choice, also where the two lists differ |
| Argv.CollectUrls | src/cli_entry.rs:465-498 | the two-flag loop keeps the positional tokens and misplaced URLs, by a rule on the tokens alone |
| Argv.KeptExactly | src/cli_entry.rs:465-498 | a token stands in for a value exactly when an odd number of value flags stand right before it, and is kept then only as a URL that is not the key service's, otherwise unless it is a flag |
| Worker.RunState.SignalDone | src/engine.rs:2344-2369 | an empty summary becomes a failure, and `finished` is set last |
| Worker.RunState.Conclude | src/engine.rs:2383-2398 | the worker behind its run: the line it logs, the text and outcome it shows and `finished` |
| Worker.VerdictOfEveryRun | src/engine.rs:2336-2415 | in every run with stops and panics, once finished: it shows the returned text, the returned error when no Stop came before the worker looked, that it was interrupted when one did, and that it did nothing for an empty text or a panic; the outcome and the whole log likewise, all read off the events |
| Worker.PanicsReadFailedExactly | src/engine.rs:2355-2361 | a panicked run always reads Failed exactly when the state started with an empty summary, or as Failed |
| Worker.FinishedIsFinal | src/engine.rs:2363-2368 | what an observer of `finished` reads never changes again |
| Worker.EveryRunFinishes | src/engine.rs:2340-2343 | eight more steps of the worker finish it from anywhere, panicked or not |
| RecoveryArm.Image.RemoveStagingIso | src/engine.rs:3485-3488 | removes what the file system lets go and touches no lock |
| RecoveryArm.Image.ReleaseIsoLock | src/engine.rs:3190-3207 | deletes the lock exactly for a success that was not halted, or a missing image, and says when progress is kept |
| RecoveryArm.Image.Recover | src/engine.rs:3726-3809 | the arm's result and the files it leaves, for every report, mux, Stop and refusal |
| RecoveryArm.RunEndsExactly | src/engine.rs:3726-3809 | every finished run, in any interleaving: which report, mux result and Stop seen gives which message as an error or a success, and exactly which of the image, its mapfile and its lock are left |
| RecoveryArm.LockGuardsTheImage | src/engine.rs:3188-3207 | every run, killed anywhere: the lock stays with an image left by a run without a usable report, halted, aborted for loss, with nothing readable or with a failed mux, the deliverable included; these are exactly the errors and the halted reads, and the lock of a finished run stays exactly then |
| RecoveryArm.ImageIsRemovedOnlyWhen | src/engine.rs:3490-3495 | a step removes the image only for a staged one with nothing readable, or whose titles landed with no Stop pressed when the arm looked behind the mux and no whole image to keep |
| RecoveryArm.KeptIsKept | src/engine.rs:1882-1907 | a deliverable is never removed, and every message that says the image is kept is true |
| RecoveryArm.CancelledKeepsItsLockExactly | src/engine.rs:3186-3198 | a cancelled run that leaves an image leaves its lock exactly when the Stop halted the read; otherwise a Stop was pressed before the arm looked behind the mux |
| RecoveryArm.StopDuringTheMux | src/engine.rs:3780-3794 | a run told that it was cancelled that leaves an image and no lock |
| CliStop.Process.HandleSigint | src/cli_stop.rs:109-115 | the first signal sets the flag, the second exits with 130 |
| CliStop.Process.Watch | src/cli_stop.rs:126-141 | the watcher's loop ends in a cancel told once, or without one when the token is dropped |
| CliStop.StopsOnlyAfterCtrlC | src/cli_stop.rs:126-141 | operations are cancelled only after a Ctrl-C and the user is told at most once |
| CliStop.SecondCtrlCExits | src/cli_stop.rs:37-45 | while nothing else ends the process it runs until the second Ctrl-C of either kind, which exits 130 |
| CliStop.CancelledByTheNextTurn | src/cli_stop.rs:126-141 | the next turn of the watcher after a Ctrl-C cancels a held token |
| GuiGate.HasInk | src/gui_gate.rs:29-48 | the nested loops find exactly a pixel that differs from the first, with every pixel up to it in the buffer |
| GuiGate.InkIsTwoColours | src/gui_gate.rs:24-29 | over a whole image: exactly two pixels that lie in it and in the region differ in one of their first three bytes |
| GuiGate.BottomUpIsFlipped | src/gui_gate.rs:34 | reading bottom up is reading the flipped image top down |

## Left out

- The GTK, Win32 and AppKit shells, menus, dialogs and settings.
- libfreemkv, freemkv_engine and freemkv_keysources (scan, mux, decrypt, title loop, TMDB): not part of this model; their results are arbitrary values.
- Sockets, TLS, the HTTP client, zip compression, git and environment reads; which addresses are blocked is an arbitrary test.
- Localised text: messages are named by what they claim; the catalogue's fallback for an empty summary is taken to be non-empty.
- IEEE rounding in the progress bars: fractions are exact reals. Byte sums and serials are unbounded.
- The speed, time left, bad sectors and start time that a progress event also stores.
- TV episode names, which rest on code that is not part of this model.
- Relaxed memory ordering: atomics and locks are single steps in one order.
- Windows console handlers racing each other: control events come one at a time.
- TitleNamesDiffer.NamesDiffer: comparisons go character by character; a file system that folds one character to several is not modelled.
- DnsGate.GateHolds: an IP literal takes no slot, so it is no step of the gate; a panic inside a resolver thread, which would leave its slot taken, is not modelled.
- IssueBody.Body.PushZipSection: the zip's text is taken as characters, which for a base64 text, being ASCII, are its bytes.
- RecoveryArm.Image.Recover: an existence check that fails on a file that is there is not modelled; neither is another process that touches the image.
- GuiGate.HasInk: the sum of a region's origin and size does not overflow here.
- Escapes.TomlUnescapeString: the source's decoder exists for its tests only; where it panics the model returns no value.
