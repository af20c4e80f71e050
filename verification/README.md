# MULTICORE, modelled and proved in Dafny

MULTICORE is a VPN client built around two proxy cores, Xray and Mihomo. This project models the parts of it
that keep state, speak protocols or work on bytes, and proves what they promise. Every module stands for one
component:

- `HostTrace`, `RuntimeHost`: the privileged core host. One optional active generation, two engine flags, a
  controller that may fail at every call and cores that may exit at any time. A run is a trace of calls and
  deaths; what the host keeps is stated about all moments of all traces.
- `PipeIo`: overlapped pipe I/O and the reaper for cancelled operations, as interleaved steps of callers,
  kernel and reaper.
- `CommandLine`, `EnvironmentBlock`, `PeImage`: starting the daemon on Windows. The command line is read back by
  a parser for the argument rules Microsoft documents for the C runtime, including `""` inside quotes and the
  special treatment of argv[0]; images follow the section table rules of the Microsoft PE format.
- `SessionLogs`, `SessionArchive`, `LogBundle`: cutting journals into sessions and packing the log archive.
  `StableSort` says what their sorting means.
- `LowLevelLog`: the rotating error log.
- `PreferenceCodec`, `PreferenceStore`: the preferences as a document and as a file that is replaced atomically.
  A file system is its directory, the directories a power loss may still bring back, and files of which only
  flushed ones keep their contents.
- `GuardChain`: resolving a generation on Unix through handles that are opened component by component.
- `EmojiPack`, `RecoveryBudget`, `CrashReport`: the emoji pack, the sliding-window recovery budget and the
  lock-free crash report writer.
- `PeFormat`: the headers of a PE image as they are written. `LittleEndian`: numbers in bytes.
- `Basics`, `Utf8`: bytes, decimal numbers, and UTF-8 as section 3 of RFC 3629 defines it.

Components that update fields, files or arrays in place are classes and methods proved against functions of the
old state; protocols between threads are transition systems with an invariant over every run. Outside calls (the
controller, the kernel, the disk) are steps that may fail at any time.

Properties that turn out false of the code, each with a run or input that shows it and the exact condition:

- "Every running process is a core with its flag set": a restart that fails over a live core, because guarded files
  changed or the process could not be inspected, clears the flag of a core that runs on
  (`HostTrace.RefusedRestartHidesACore`), and a new process that can neither be inspected nor ended is lost
  (`HostTrace.FailedStartLosesAProcess`; on Windows, where dropping a child does not end it). The property is lost
  exactly by such starts (`HostTrace.FlagsAreLostIff`). So "stopped" may be answered while the engine runs: exactly
  then (`HostTrace.UnflaggedRunsIff`, `RuntimeHost.RuntimeHost.StopEngine`).
- "A core reported stopped does not run": a live core that cannot be inspected is reported stopped, and its generation
  may be discarded over it (`HostTrace.UninspectedIsDiscarded`). It runs exactly when it was overlooked that way
  (`HostTrace.ReportedStoppedRunsIff`). `HostTrace.LeftToTheDropIff` says what only the drop of a controller ends. No
  process outlives its controller in any case (`HostTrace.OneGenerationAtEveryMoment`).
- "Mihomo flagged implies Xray flagged" (`HostTrace.MihomoMayOutliveXray`): it is lost exactly by a failed restart
  of Xray, or while a generation reported stopped is discarded (`HostTrace.MihomoOutlivesXrayIff`).
- Quoting does not protect argv[0]: the command line is read back if and only if the program path has no quote
  and no trailing backslash and nothing contains a NUL (`CommandLine.CommandLineFor`).
- A guard that exists already is not checked again. So a staged configuration is known to be a file of the
  client if and only if the package does not lie at or below its path (`GuardChain.ConfigIsClientsIff`,
  `GuardChain.DirectoryMayPassAsConfig`), and in general a request gets its own check only if the first request
  through its path asked for as much (`GuardChain.OwnCheckIff`). Reading a configuration by its file name is
  safe in every case (`GuardChain.FoundByNameIsClients`).
- Rotation and truncation do not keep every line that fits: a line is kept if and only if it starts *after* the
  cut (`LowLevelLog.CutDropsRecords`, `LogBundle.LaterLinesAreKept`); one that starts at it would fit and goes
  (`LogBundle.LineAtTheCutGoes`).
- "Equal neighbouring lines of the error log are at least a minute apart": accepting and writing are two critical
  sections, and a caller overtaken between them breaks it (`LowLevelLog.EqualLinesMayMeet`). It holds of the order of
  acceptance always (`LowLevelLog.Run`), and of neighbouring lines exactly when they were accepted one after the other
  (`LowLevelLog.InOrderIsSpaced`, `LowLevelLog.SurelySpacedIff`).

What a failed `save` leaves is part of its contract: before the replacement the old file, after it the new one,
and when no temporary file could be made possibly an empty one under a drawn name (`PreferenceStore.Save`).

`dafny verify dfyconfig.toml` checks the whole project.

## Model

| member | source | states |
|---|---|---|
| `HostTrace.OneGenerationAtEveryMoment` | apps/multicore-core-host/src/runtime_host.rs:161-275 | At every moment of every run, with any failures and crashes, all running processes, lost ones included, belong to the one controller the host holds, so to one generation; while nothing is held nothing runs. |
| `HostTrace.LiveIsHeld` | crates/multicore-core/src/unix_group.rs:299-303 | Since a dropped controller kills what it still runs, a live core always belongs to the held controller. |
| `HostTrace.StrayIsHeld` | crates/multicore-core/src/windows_job.rs:62-87 | A process its controller has lost still belongs to the held controller, whose job ends it. |
| `HostTrace.EventKeeps` | apps/multicore-core-host/src/runtime_host.rs:161-275 | Any next call or event that the rules allow, whatever its outcome, keeps the whole-trace invariant. |
| `HostTrace.KeptAtEveryMoment` | apps/multicore-core-host/src/runtime_host.rs:161-275 | Every beginning of a kept run is a kept run. |
| `HostTrace.MihomoStartsOverXray` | apps/multicore-core-host/src/runtime_host.rs:193-218 | In every run, start(Mihomo) is asked only of the held controller, whose Xray start succeeded and was not undone since by a stop or a failed restart. |
| `HostTrace.XrayStopsAfterMihomo` | apps/multicore-core-host/src/runtime_host.rs:230-270 | In every run, stop(Xray) is asked only with Mihomo's flag cleared, except right after Mihomo's stop once a diagnosis reported both stopped. |
| `HostTrace.ReportedStoppedRunsIff` | crates/multicore-core/src/sidecar.rs:1232-1265 | A core reported stopped, with nothing started since, runs exactly when that diagnosis could not inspect it while it ran and nothing ended it since. |
| `HostTrace.LeftToTheDropIff` | apps/multicore-core-host/src/runtime_host.rs:201-275 | What a drop still has to end: after a failed start or an emptying stop exactly the cores a start failed over, after a discard exactly the overlooked ones, and only after a shutdown possibly others. |
| `HostTrace.UnflaggedRunsIff` | apps/multicore-core-host/src/runtime_host.rs:201-206 | A core runs without its flag exactly when a start failed over it, for changed files or a failed inspection, while it was alive and nothing ended it since. |
| `HostTrace.FlagsAreLostIff` | crates/multicore-core/src/sidecar.rs:1170-1199 | "Every running process is a flagged core" is lost exactly by a start of a running core that fails because guarded files changed or it cannot be inspected, or by a newly launched process that can neither be inspected nor ended. |
| `HostTrace.RefusedRestartHidesACore` | apps/multicore-core-host/src/runtime_host.rs:40-47 | For every controller and generation and both causes a kept run: create, start both, a restart of Mihomo that fails over it; Mihomo runs on, unflagged, its controller held. |
| `HostTrace.FailedStartLosesAProcess` | crates/multicore-core/src/sidecar.rs:1184-1192 | A kept run in which a failed start leaves a process its controller does not know. |
| `HostTrace.UninspectedIsDiscarded` | apps/multicore-core-host/src/runtime_host.rs:219-237 | A kept run in which a live Xray cannot be inspected, is reported stopped and discarded, its stop fails, and only the drop ends it. |
| `HostTrace.DeathsAreNotSeen` | apps/multicore-core-host/src/runtime_host.rs:219-229 | Cores exiting on their own change neither the flags, nor the held controller, nor what was reported. |
| `HostTrace.MihomoMayOutliveXray` | apps/multicore-core-host/src/runtime_host.rs:196-218 | "Mihomo flagged implies Xray flagged" is not an invariant: a run the host may produce reaches the state with only Mihomo flagged and alive. |
| `HostTrace.MihomoOutlivesXrayIff` | apps/multicore-core-host/src/runtime_host.rs:201-237 | Mihomo becomes flagged without Xray exactly by a failed restart of Xray, or by the stop of Xray that ends a generation reported stopped whose Mihomo could not be stopped. |
| `RuntimeHost.World.Start` | crates/multicore-core/src/sidecar.rs:1170-1199 | Success means the core lives; failure clears its flag and, by its cause, leaves a running core as it is or may lose a new process; other flags stay; the trace stays kept. |
| `RuntimeHost.World.Stop` | crates/multicore-core/src/sidecar.rs:1212-1229 | Success clears exactly that core's flag and ends it, failure changes nothing; only allowed stops may be asked. |
| `RuntimeHost.World.Diagnose` | crates/multicore-core/src/sidecar.rs:1232-1265 | Reports a core stopped exactly when it does not run or cannot be inspected. |
| `RuntimeHost.World.Create` | apps/multicore-core-host/src/runtime_host.rs:81-111 | A new controller starts with no flags and is held; a refusal is counted and changes nothing. |
| `RuntimeHost.World.Release` | crates/multicore-core/src/windows_job.rs:62-87 | Letting go of the held controller, allowed only for its reasons, leaves nothing held and nothing alive. |
| `RuntimeHost.RuntimeHost.Execute` | apps/multicore-core-host/src/runtime_host.rs:137-160 | Every command gets its kind of answer. A start is refused only when a core of another active generation lives, when no Xray of this generation is started (and nothing of it was touched), when no controller could be created, or when the controller failed this very start. "Started" means that core of that generation lives and is flagged; "stopped" means its flag is cleared, for Xray nothing is active, for Mihomo Xray stays, and the engine runs exactly when an earlier start failed over it or lost a process. Diagnostics change nothing and show the states now, all stopped when nothing is active, with the longest newest records that fit. Only processes of the active generation run. |
| `RuntimeHost.RuntimeHost.Start` | apps/multicore-core-host/src/runtime_host.rs:161-218 | A start is refused only for another generation whose core is seen alive, for Mihomo without a started Xray, for a controller that could not be created, or because the controller failed this very start; otherwise the core of that generation lives, its flag is set and the other one is as before. |
| `RuntimeHost.RuntimeHost.Delegate` | apps/multicore-core-host/src/runtime_host.rs:193-217 | Always asks the controller; the flag follows the answer, the other stays, and an emptied generation is released. |
| `RuntimeHost.RuntimeHost.AnyCoreAlive` | apps/multicore-core-host/src/runtime_host.rs:219-229 | "Alive" is a core of the active generation running now; "not alive" is a diagnosis that reported both stopped. |
| `RuntimeHost.RuntimeHost.DiscardActive` | apps/multicore-core-host/src/runtime_host.rs:230-237 | Releases a generation that was reported stopped, asking Mihomo's stop before Xray's. |
| `RuntimeHost.RuntimeHost.StopEngine` | apps/multicore-core-host/src/runtime_host.rs:238-270 | Success clears the flag; for Xray nothing stays active, for Mihomo Xray stays as it was; the engine then runs exactly when an earlier start failed over it or lost a process of it; an engine without its flag is answered without asking anybody; failure means the controller failed a stop just now and the generation stays. |
| `RuntimeHost.RuntimeHost.ShutDownAll` | apps/multicore-core-host/src/runtime_host.rs:271-275 | Nothing stays active and no process runs, whichever stop fails. |
| `RuntimeHost.RuntimeHost.Report` | apps/multicore-core-host/src/runtime_host.rs:276-314 | An engine is shown as stopped exactly when it does not run now or could not be inspected just now, both when nothing is active, and the records are the longest newest part that fits one frame; an error only when not even no records fit. |
| `RuntimeHost.TrimToFrame` | apps/multicore-core-host/src/runtime_host.rs:297-313 | Dropping the oldest record until the frame fits returns the longest suffix that fits. |
| `RuntimeHost.Serve` | apps/multicore-core-host/src/windows_pipe.rs:68-80 | For every command sequence, with every failure and crash, each command up to the first shutdown is answered in its kind, the whole trace is kept, and in the end nothing is held and nothing runs. |
| `PipeIo.EveryInterleavingIsSafe` | apps/multicore-core-host/src/windows_pipe.rs:163-448 | In every interleaving of callers, completions, timeouts and sweeps: what the kernel references has an owner and only one, the reaper holds at most 64 operations, no accessor finds its field gone, and a returned buffer is no longer written to. |
| `PipeIo.NothingInFlightIsFreed` | apps/multicore-core-host/src/windows_pipe.rs:378-448 | Whatever a step frees, the kernel was done with before that step. |
| `PipeIo.StepKeeps` | apps/multicore-core-host/src/windows_pipe.rs:163-448 | Each of the thirteen kinds of step keeps the ownership invariant. |
| `PipeIo.RunKeeps` | apps/multicore-core-host/src/windows_pipe.rs:163-448 | Any run of steps keeps the ownership invariant. |
| `PipeIo.IssueKeeps` | apps/multicore-core-host/src/windows_pipe.rs:167-192 | Issuing an operation hands it to the kernel while its caller alone owns it. |
| `PipeIo.HandOverKeeps` | apps/multicore-core-host/src/windows_pipe.rs:378-396 | A drain that timed out moves overlapped, event and buffer out together. |
| `PipeIo.PushKeeps` | apps/multicore-core-host/src/windows_pipe.rs:411-425 | Queueing a handed-over operation keeps one owner and the limit of 64. |
| `PipeIo.SweepKeeps` | apps/multicore-core-host/src/windows_pipe.rs:427-448 | A sweep keeps every operation the kernel is not done with. |
| `PipeIo.SweepMakesRoom` | apps/multicore-core-host/src/windows_pipe.rs:411-448 | A full queue blocks a caller only while the kernel is busy: once one retained operation is done, a sweep lets the caller in. |
| `PipeIo.PendingIo.TakeBuffer` | apps/multicore-core-host/src/windows_pipe.rs:374-376 | Takes the buffer once and leaves the other fields; it is the very step of the protocol, and the buffer is no longer written to. |
| `PipeIo.PendingIo.CancelAndDrain` | apps/multicore-core-host/src/windows_pipe.rs:378-396 | While everybody else runs, the operation stays to be dropped exactly when the wait ends by its event; any other is moved out whole, as the step of the protocol does, and leaves nothing behind. |
| `PipeIo.WaitPending` | apps/multicore-core-host/src/windows_pipe.rs:311-329 | For reads and writes: the operation completes with the bytes transferred exactly when the wait ends by its event and the result is a success; else the caller owns nothing or is handing it over. |
| `PipeIo.ReadMessage` | apps/multicore-core-host/src/windows_pipe.rs:163-193 | Whatever the others do meanwhile, it returns exactly what a completed operation transferred, when that is anything; the buffer is the caller's own and no longer written to; otherwise the caller owns nothing or is handing the operation to the reaper. |
| `PipeIo.WriteFrame` | apps/multicore-core-host/src/windows_pipe.rs:280-309 | A frame counts as written exactly when its operation completes with all its bytes; otherwise the caller owns nothing or is handing the operation over. |
| `PipeIo.SweepQueue` | apps/multicore-core-host/src/windows_pipe.rs:439-442 | The loop over the queue keeps exactly the unsignalled operations and frees none in flight. |
| `CommandLine.QuoteWindowsArgument` | apps/multicore-desktop/src/bootstrap.rs:1120-1138 | Whatever blank or end follows, the C runtime's argument rules read the quoted text back as exactly the argument. |
| `CommandLine.CommandLineFor` | apps/multicore-desktop/src/bootstrap.rs:1056-1062 | The started process sees the program and the arguments exactly when the program path has no quote and no trailing backslash and nothing contains a NUL. |
| `CommandLine.AssembledIsReadBackIff` | apps/multicore-desktop/src/bootstrap.rs:1056-1062 | The same if-and-only-if about the assembled line, for any mix of quotes, blanks and backslash runs. |
| `CommandLine.EscapedIsReadBack` | apps/multicore-desktop/src/bootstrap.rs:1123-1136 | Inside quotes, pending backslashes and the rest of the value are read back. |
| `CommandLine.QuotedIsReadBack` | apps/multicore-desktop/src/bootstrap.rs:1120-1138 | A quoted argument followed by a blank or the end is one argument, the original. |
| `CommandLine.JoinedIsReadBack` | apps/multicore-desktop/src/bootstrap.rs:1058-1061 | The joined arguments come back one by one, as the same list. |
| `CommandLine.ProgramIsReadBack` | apps/multicore-desktop/src/bootstrap.rs:1057-1057 | argv[0] of a quote-free program comes back with its trailing backslashes doubled, since argv[0] knows no escapes. |
| `CommandLine.ParseOf` | apps/multicore-desktop/src/bootstrap.rs:1056-1062 | Without NULs argv[0] is right exactly for a plain program, and then so are all arguments. |
| `EnvironmentBlock.EnvironmentBlock` | apps/multicore-desktop/src/bootstrap.rs:1140-1166 | The block decodes to the sorted variables, in ascending order of their upper-cased names: each of the seven daemon keys exactly once with the daemon's value, the daemon URL never, all other inherited variables kept in stable order and as a multiset; a NUL ends it. |
| `EnvironmentBlock.DaemonBlock` | apps/multicore-desktop/src/bootstrap.rs:493-524 | The daemon finds its token, address, data directory, both cores and the controller address under their keys, once each, whatever was inherited. |
| `EnvironmentBlock.KeepForeign` | apps/multicore-desktop/src/bootstrap.rs:1141-1149 | The filter keeps exactly the variables that are none of the eight keys, compared without case. |
| `EnvironmentBlock.BlockIsReadBack` | apps/multicore-desktop/src/bootstrap.rs:1157-1165 | Encoding and reading the block returns the same variables in the same order. |
| `EnvironmentBlock.DaemonKeyOnce` | apps/multicore-desktop/src/bootstrap.rs:493-524 | A daemon key occurs once, whatever spellings of it were inherited. |
| `EnvironmentBlock.UrlNever` | apps/multicore-desktop/src/bootstrap.rs:482-491 | No spelling of the daemon URL reaches the daemon. |
| `EnvironmentBlock.OthersKept` | apps/multicore-desktop/src/bootstrap.rs:1141-1156 | The other variables are the inherited ones, stably sorted by upper-cased name. |
| `EnvironmentBlock.KeysDiffer` | apps/multicore-desktop/src/bootstrap.rs:482-491 | No two keys can be mistaken for each other without case. |
| `EnvironmentBlock.SameNameIff` | apps/multicore-desktop/src/bootstrap.rs:1144-1147 | Names are the same exactly when they agree up to the case of ASCII letters. |
| `EnvironmentBlock.ForeignIff` | apps/multicore-desktop/src/bootstrap.rs:482-491 | A variable is kept exactly when its name spells none of the eight keys, whatever the case of its letters. |
| `EnvironmentBlock.NamedIff` | apps/multicore-desktop/src/bootstrap.rs:1144-1147 | A variable has a key's name exactly when it spells that key. |
| `EnvironmentBlock.SortedAscends` | apps/multicore-desktop/src/bootstrap.rs:1151-1156 | Sorted names ascend by their upper-cased units. |
| `EnvironmentBlock.SortKeyOfSurrogate` | apps/multicore-desktop/src/bootstrap.rs:1151-1156 | A surrogate pair counts as its code point, a lone one as U+FFFD. |
| `EnvironmentBlock.EncodeInOrder` | apps/multicore-desktop/src/bootstrap.rs:1157-1163 | The block is the variables one after the other. |
| `EnvironmentBlock.EncodeOfOne` | apps/multicore-desktop/src/bootstrap.rs:1158-1162 | A variable is its name, an equals sign, its value and a NUL. |
| `EnvironmentBlock.ByNameIsPreorder` | apps/multicore-desktop/src/bootstrap.rs:1151-1156 | Comparing names as lossy upper-cased UTF-8 is a total preorder, so the sort is well defined. |
| `StableSort.SortIsTheStableSort` | apps/multicore-desktop/src/session_logs.rs:309-321 | A sequence is the sorted one exactly when it is ordered and keeps every class of equal keys in its original order: the meaning of sort_by_key. |
| `StableSort.SortKeepsElements` | apps/multicore-desktop/src/session_logs.rs:309-321 | Sorting keeps the elements as a multiset. |
| `StableSort.FilterSort` | apps/multicore-desktop/src/session_logs.rs:309-321 | Filtering and stable sorting commute. |
| `PeImage.ValidateNativePe` | apps/multicore-desktop/src/bootstrap.rs:336-439 | Accepts exactly the files described, field by field in little-endian bytes, by a header of this architecture that is in range and whose non-empty sections are pairwise disjoint and lie between the headers and the file end. |
| `PeImage.CheckSections` | apps/multicore-desktop/src/bootstrap.rs:412-437 | The loop with its list of ranges accepts exactly pairwise disjoint sections inside the file. |
| `PeImage.RawRangeIs` | apps/multicore-desktop/src/bootstrap.rs:416-426 | The range checked for a printed section header is its pointer to raw data and its size of raw data. |
| `PeImage.DescribedIff` | apps/multicore-desktop/src/bootstrap.rs:336-439 | For a file described by a header the check is a question about that header alone. |
| `PeImage.NativeImageIff` | apps/multicore-desktop/src/bootstrap.rs:336-439 | The accepted files are exactly those that an acceptable header describes. |
| `PeFormat.SectionFields` | apps/multicore-desktop/src/bootstrap.rs:416-420 | A printed section header has its four numbers at bytes 8, 12, 16 and 20. |
| `LittleEndian.LittleInBytes` | apps/multicore-desktop/src/bootstrap.rs:351-351 | Two and four byte numbers, written out byte by byte. |
| `PeImage.SectionsFitTogether` | apps/multicore-desktop/src/bootstrap.rs:412-437 | All sections of an accepted image together claim no more bytes than the file has behind its headers. |
| `PeImage.ValidateCorePe` | apps/multicore-core-host/src/runtime_paths.rs:535-564 | The core host's short validator accepts exactly the files whose described header has the right offset, machine, magic and characteristics. |
| `PeImage.CoreImageIff` | apps/multicore-core-host/src/runtime_paths.rs:535-564 | The same if-and-only-if about the predicate. |
| `PeImage.NativeImageIsCoreImage` | apps/multicore-core-host/src/runtime_paths.rs:535-564 | Every image the desktop accepts is accepted by the core host for the same architecture. |
| `SessionLogs.SessionWindows` | crates/multicore-core/src/core_sessions.rs:631-650 | The loop computes the window of each session; windows are in order and never overlap. |
| `SessionLogs.WindowInNumbers` | crates/multicore-core/src/core_sessions.rs:635-646 | A window runs from 60 s before the connect to 10 s after the disconnect, cut at the window before and at the next connect. |
| `SessionLogs.AtMostOneSession` | crates/multicore-core/src/core_sessions.rs:627-650 | Every time stamp lies in at most one session's window, however the sessions overlap or are ordered. |
| `SessionLogs.WindowsAreInOrder` | crates/multicore-core/src/core_sessions.rs:631-650 | An earlier session's window ends before a later one's begins. |
| `SessionLogs.OwnTimeIsCovered` | crates/multicore-core/src/core_sessions.rs:627-650 | With connections in order of time, every moment from the connect to 10 s after the disconnect, up to the next connect, lies in the session's window. |
| `SessionLogs.SelectedIff` | apps/multicore-desktop/src/session_logs.rs:95-117 | A session is selected exactly when it is the newest, ran within the last week, or all are asked for, depending on the range. |
| `SessionLogs.WeekInNumbers` | apps/multicore-desktop/src/session_logs.rs:99-108 | A session of the last week ended, or still ran, at most 604 800 000 ms before now. |
| `SessionLogs.SinceIsOldest` | apps/multicore-desktop/src/session_logs.rs:125-130 | The journals are read from the start of a selected window on; no selected window begins before it. |
| `SessionLogs.UserJournalLines` | apps/multicore-desktop/src/session_logs.rs:384-401 | The loop reads exactly the lines of the segments not older than the limit. |
| `SessionLogs.JournalLinesInOrder` | apps/multicore-desktop/src/session_logs.rs:389-400 | Lines keep the order of the segments. |
| `SessionLogs.JournalLinesOfOne` | apps/multicore-desktop/src/session_logs.rs:389-400 | A segment gives its lines exactly when it can be read and is not older than the limit. |
| `SessionLogs.CoreLinesAreMerged` | apps/multicore-desktop/src/session_logs.rs:288-309 | The merge ascends in time, and of equal stamps the user's lines come first, each journal's in its own order. |
| `SessionLogs.PruningIsInvisible` | apps/multicore-desktop/src/session_logs.rs:384-401 | If no line is stamped after its segment was last written, skipping old segments changes no session's lines. |
| `SessionLogs.SliceIsFilter` | apps/multicore-desktop/src/session_logs.rs:428-432 | The slice between the two partition points is exactly the lines stamped in the half-open window, in order. |
| `SessionLogs.WithinIff` | apps/multicore-desktop/src/session_logs.rs:428-432 | The window is half-open. |
| `SessionLogs.NewestWithin` | apps/multicore-desktop/src/session_logs.rs:436-452 | Returns the longest suffix of whole lines that fits the limit, their exact number, and whether older ones were left out. |
| `SessionLogs.JoinedInOrder` | apps/multicore-desktop/src/session_logs.rs:446-450 | The text of lines is the texts one after the other. |
| `SessionLogs.JoinedOfOne` | apps/multicore-desktop/src/session_logs.rs:446-450 | Each line is followed by a line feed. |
| `SessionLogs.NewestIsUnique` | apps/multicore-desktop/src/session_logs.rs:436-452 | That description leaves one answer. |
| `SessionArchive.FreshFolder` | apps/multicore-desktop/src/session_logs.rs:331-337 | The suffix loop ends for every set of used names, with a name not used yet. |
| `SessionArchive.CandidatesDiffer` | apps/multicore-desktop/src/session_logs.rs:331-337 | Different suffixes give different names. |
| `SessionArchive.BuildFolder` | apps/multicore-desktop/src/session_logs.rs:326-357 | A folder has a fresh name and the newest fitting lines of the three logs in its window. |
| `SessionArchive.BuildFolders` | apps/multicore-desktop/src/session_logs.rs:320-359 | Newest session first; every core.log is the longest fitting suffix of its window under what the newer ones left of 64 MiB; names are distinct. |
| `SessionArchive.SessionEntries` | apps/multicore-desktop/src/session_logs.rs:269-381 | All entries lie under core-sessions/ and are pairwise distinct. For every selected session, newest first, there is under its name (`latest`, else the second of its connect, numbered when taken) a core.log with the longest fitting suffix of the stable time-ordered merge in its window, and an events.log and a service.log with theirs exactly when not empty. All entries named core.log together have at most 64 MiB. With honest segments the same as if no segment had been skipped. |
| `SessionArchive.FoldersAreFiled` | apps/multicore-desktop/src/session_logs.rs:338-357 | Every session's four files are found under their literal names with their own contents, an empty log under none. |
| `SessionArchive.CoreLogBytesWithIndex` | apps/multicore-desktop/src/session_logs.rs:338-343 | The bytes of all entries whose name ends in /core.log are those of the folders' core logs. |
| `SessionArchive.AllowanceInNumbers` | apps/multicore-desktop/src/session_logs.rs:338-340 | A core.log may have 16 MiB, and no more than is left of 64 MiB. |
| `SessionArchive.EntryNamesDistinct` | apps/multicore-desktop/src/session_logs.rs:341-373 | No two entries of core-sessions/ share a name, the index included. |
| `SessionArchive.AllAreSessionNames` | apps/multicore-desktop/src/session_logs.rs:338-373 | All entries of the session part lie under core-sessions/ and have different names. |
| `SessionArchive.PruningKeepsFolders` | apps/multicore-desktop/src/session_logs.rs:124-130 | Folders built from the pruned journal are faithful to the whole one. |
| `LowLevelLog.LowLevelLog.Log` | apps/multicore-desktop/src/daemon.rs:40-69 | With nobody in between: an entry equal to the last accepted one within 60 s is dropped and changes nothing; any other is accepted and written. |
| `LowLevelLog.LowLevelLog.Accept` | apps/multicore-desktop/src/daemon.rs:47-53 | Under the first lock an entry is refused exactly when the last accepted one has the same text and is less than 60 000 ms old; accepted equal neighbours stay spaced. |
| `LowLevelLog.LowLevelLog.Write` | apps/multicore-desktop/src/daemon.rs:71-137 | Under the second lock any caller in between writes its own failure once; the file stays the newest part of the order of writing, rotated exactly. |
| `LowLevelLog.LowLevelLog.WriteEntry` | apps/multicore-desktop/src/daemon.rs:71-137 | The new line is last, the file is at most the limit plus one line, nothing is dropped below the limit, and a rotation keeps exactly the longest run of newest records shorter than half the limit. |
| `LowLevelLog.LowLevelLog.FileIsNewestPart` | apps/multicore-desktop/src/daemon.rs:71-137 | After any run the file splits into the lines of the newest records, in order: each has three fields, the stamp in decimal and the two texts byte by byte, with blanks for tabs and line breaks. |
| `LowLevelLog.LineInBytes` | apps/multicore-desktop/src/daemon.rs:117-135 | A line is those three fields between tabs and a line feed. |
| `LowLevelLog.FieldsCarry` | apps/multicore-desktop/src/daemon.rs:117-133 | The fields of a record read back as its stamp and its two texts. |
| `LowLevelLog.CutDropsRecords` | apps/multicore-desktop/src/daemon.rs:99-113 | Cutting behind the first line feed at or after a byte drops whole records: what stays is the longest run of newest records shorter than what lies behind the cut. |
| `LowLevelLog.TextDecodesBack` | apps/multicore-desktop/src/daemon.rs:117-135 | The text of any records decodes into exactly their fields. |
| `LowLevelLog.BodySplitsBack` | apps/multicore-desktop/src/daemon.rs:117-133 | A line splits at its tabs into exactly three fields, whatever the entry contained. |
| `LowLevelLog.Run` | apps/multicore-desktop/src/daemon.rs:40-137 | For every interleaving of callers from an empty file: equal neighbours in the order of acceptance are at least 60 s apart, the file is the newest part of the order of writing, and every accepted failure is written at most once. |
| `LowLevelLog.InOrderIsSpaced` | apps/multicore-desktop/src/daemon.rs:47-56 | Equal neighbouring lines whose failures were accepted one after the other are at least 60 s apart. |
| `LowLevelLog.SurelySpacedIff` | apps/multicore-desktop/src/daemon.rs:47-69 | Two accepted failures are sure to be 60 s apart when equal exactly when one was accepted right after the other. |
| `LowLevelLog.EqualLinesMayMeet` | apps/multicore-desktop/src/daemon.rs:47-56 | A run of three callers that writes two equal lines less than a minute apart, one after the other. |
| `LogBundle.KeepNewest` | apps/multicore-desktop/src/log_bundle.rs:436-451 | The result fits the budget and is valid UTF-8. |
| `LogBundle.KeptNewestFits` | apps/multicore-desktop/src/log_bundle.rs:436-451 | A cut text is empty or the marker and a suffix that starts at a line start and a character boundary. |
| `LogBundle.LaterLinesAreKept` | apps/multicore-desktop/src/log_bundle.rs:444-450 | A line is kept whole exactly when it starts after the cut; one that starts at the cut goes too. |
| `LogBundle.LineAtTheCutGoes` | apps/multicore-desktop/src/log_bundle.rs:444-450 | A line that starts at the cut would fit with all behind it, and is dropped all the same. |
| `LogBundle.MarkerIsReplaced` | apps/multicore-desktop/src/log_bundle.rs:436-451 | Cutting an already marked text again never leaves two markers. |
| `LogBundle.ReadTail` | apps/multicore-desktop/src/log_bundle.rs:419-434 | The text is valid UTF-8; a longer file is the marker and the last bytes from a whole line on. |
| `LogBundle.Push` | apps/multicore-desktop/src/log_bundle.rs:333-337 | Adding a text keeps bytes pushed plus remaining budget at 20 MiB and names distinct. |
| `LogBundle.PushServiceLogs` | apps/multicore-desktop/src/log_bundle.rs:357-362 | Service logs are added under each name once, within the shared budget. |
| `LogBundle.PushUserLogs` | apps/multicore-desktop/src/log_bundle.rs:363-379 | Preferences and user logs are added newest first while there is room, never under a taken name. |
| `LogBundle.CollectEntries` | apps/multicore-desktop/src/log_bundle.rs:329-385 | For all inputs and every redaction: every budgeted entry is its redacted source, cut to exactly what was left of 20 MiB; no fixed file, service log, preferences or (while there is room) readable log file is missing; bytes plus remaining budget are 20 MiB; no two names are equal when the session entries lie in their own directory. |
| `LogBundle.BudgetedIsExact` | apps/multicore-desktop/src/log_bundle.rs:329-379 | The same of the budgeted part alone, by literal names. |
| `LogBundle.BuildArchive` | apps/multicore-desktop/src/main.rs:5199-5222 | Session part and archive together, for all connections, journals and log files: no two entry names are equal, the budget is exact, and every selected session's redacted core.log, events.log and service.log are found under their names, of folders whose logs are faithful. |
| `Utf8.CutIsValid` | apps/multicore-desktop/src/log_bundle.rs:445-448 | A valid text cut at a character boundary stays valid (section 3 of RFC 3629). |
| `Utf8.ValidIff` | apps/multicore-desktop/src/log_bundle.rs:445-448 | Valid text is exactly text written character by character. |
| `Utf8.EncodeReadsBack` | apps/multicore-desktop/src/emoji_images.rs:58-63 | A written character is read back, whatever follows. |
| `Utf8.FirstIsWritten` | apps/multicore-desktop/src/emoji_images.rs:40-40 | A well-formed character is one that is written that way. |
| `PreferenceCodec.DocumentReadBack` | apps/multicore-desktop/src/preferences.rs:36-125 | Every preference value survives being written and read, although default-valued later fields are omitted. |
| `PreferenceCodec.GetReadsBack` | apps/multicore-desktop/src/preferences.rs:36-79 | A field reads back what was written, or its default when nothing was. |
| `PreferenceCodec.FirstFields` | apps/multicore-desktop/src/preferences.rs:36-53 | The schema version and every flag stand in their own field. |
| `PreferenceCodec.PageField` | apps/multicore-desktop/src/preferences.rs:25-41 | The page is written by its name. |
| `PreferenceCodec.OptionalFields` | apps/multicore-desktop/src/preferences.rs:14-53 | Bounds, hints and rail growth are null or written out with the names of their parts. |
| `PreferenceCodec.MapFields` | apps/multicore-desktop/src/preferences.rs:42-43 | The two maps are objects with the same keys. |
| `PreferenceCodec.LaterFields` | apps/multicore-desktop/src/preferences.rs:56-79 | Each later field is present exactly when it differs from its default, with its own value. |
| `PreferenceCodec.UnknownIsRefused` | apps/multicore-desktop/src/preferences.rs:36-37 | A document with a field nobody knows is refused. |
| `PreferenceCodec.MissingFields` | apps/multicore-desktop/src/preferences.rs:101-125 | What each missing field becomes, value by value. |
| `PreferenceCodec.OlderVersionsRead` | apps/multicore-desktop/src/preferences.rs:56-79 | A version that refuses the later fields reads back the value exactly while every later preference has its default, and refuses the file otherwise. |
| `PreferenceStore.Save` | apps/multicore-desktop/src/preferences.rs:196-241 | At every step the file, after a power loss and while running, is the old one or all of the new one; success means only the new one can be found and no temporary name is left; a failure before the replacement keeps the old file, one after it leaves the new one; it fails only when a call failed, a check refuses the value, or every drawn name is taken. |
| `PreferenceStore.Publish` | apps/multicore-desktop/src/preferences.rs:223-236 | Writing, flushing, replacing, reopening and flushing keep old-or-new at every step; success leaves only the new contents on disk. |
| `PreferenceStore.WriteTemporaryFile` | apps/multicore-desktop/src/preferences.rs:223-228 | The temporary file is complete and flushed, and the preferences are untouched meanwhile. |
| `PreferenceStore.CreateTemporaryFile` | apps/multicore-desktop/src/preferences.rs:286-302 | The name was free and was drawn; taken names are drawn again; the preferences are untouched; on failure the directory is as before or has an empty file under a drawn name more. |
| `PreferenceStore.RenamedPublishes` | apps/multicore-desktop/src/preferences.rs:651-676 | Replacing by a flushed complete file leaves each possible outcome old or complete; a write-through move leaves only the new one. |
| `PreferenceStore.SettledIsNew` | apps/multicore-desktop/src/preferences.rs:679-686 | Once the directory is flushed only the new contents can be found. |
| `PreferenceStore.MayHoldIsSeen` | apps/multicore-desktop/src/preferences.rs:196-241 | What the crash model says may be found is exactly what some power loss shows. |
| `PreferenceStore.SavedIsUsable` | apps/multicore-desktop/src/preferences.rs:146-190 | Bytes written by a save pass the size and schema checks and load as the value saved. |
| `PreferenceStore.LostPowerIsLoaded` | apps/multicore-desktop/src/preferences.rs:146-241 | After a power loss at any step of a save the next start finds a file the start could have left, or exactly the value being saved. |
| `PreferenceStore.Load` | apps/multicore-desktop/src/preferences.rs:146-190 | Missing is the default, usable its value without any change, anything else is set aside and the default returned; failure only when a call failed. |
| `PreferenceStore.JudgedIff` | apps/multicore-desktop/src/preferences.rs:165-189 | A file is unusable exactly when it is over 1 MiB, does not parse or decode, or is of another schema. |
| `PreferenceStore.UnknownIsUnusable` | apps/multicore-desktop/src/preferences.rs:182-189 | A document with an unknown field is set aside. |
| `PreferenceStore.Quarantine` | apps/multicore-desktop/src/preferences.rs:243-248 | On success the file is under the other name with its contents, the old name is gone, and the move is on disk. |
| `PreferenceStore.SaveAndRestart` | apps/multicore-desktop/src/preferences.rs:146-241 | A successful save, a power loss and a load return the saved value and set nothing aside. |
| `GuardChain.OpenGuard` | apps/multicore-core-host/src/unix_runtime_paths.rs:299-346 | Succeeds exactly when the name opens without a link and its type, owner and mode pass the checks demanded of it. |
| `GuardChain.Chain` | apps/multicore-core-host/src/unix_runtime_paths.rs:248-297 | After success every component of the path is guarded once, behind its parent and opened from its handle; an error names a component no earlier path had guarded, reached through exactly the names before it. |
| `GuardChain.GuardAll` | apps/multicore-core-host/src/unix_runtime_paths.rs:169-192 | After success the guards are exactly the non-root components of all requested paths, distinct, linked and checked by the first request through them. |
| `GuardChain.ResolvedGuards` | apps/multicore-core-host/src/unix_runtime_paths.rs:139-192 | Every successful resolution guards exactly the components of the two configurations, the host, the two cores and the dashboard, by literal names, owned by root or the client, as directories on the way to a directory and as regular files else. |
| `GuardChain.GenerationNameReadsBack` | apps/multicore-core-host/src/unix_runtime_paths.rs:144-144 | A generation's directory is `runtime-` and at least twenty digits that read back as its number. |
| `GuardChain.GenerationNamesDiffer` | apps/multicore-core-host/src/unix_runtime_paths.rs:144-144 | Different generations have different directories. |
| `GuardChain.PathsInFull` | apps/multicore-core-host/src/unix_runtime_paths.rs:141-148 | The paths of the cores and of the staged generation, part by part. |
| `GuardChain.TrailIsPath` | apps/multicore-core-host/src/unix_runtime_paths.rs:255-297 | Every guard was reached from the root through exactly the names of its path, each opened in the directory before it. |
| `GuardChain.PushKeeps` | apps/multicore-core-host/src/unix_runtime_paths.rs:278-296 | Opening the next component keeps all of that. |
| `GuardChain.ReuseKeeps` | apps/multicore-core-host/src/unix_runtime_paths.rs:271-274 | Reusing an existing guard keeps all of that, with the demand of the first request. |
| `GuardChain.OwnCheckIff` | apps/multicore-core-host/src/unix_runtime_paths.rs:271-296 | A request gets the check it asked for, whatever is found, exactly when the first request through its path ends there and asks for as much: a guard is not checked again. |
| `GuardChain.ConfigIsClientsIff` | apps/multicore-core-host/src/unix_runtime_paths.rs:182-192 | A staged configuration is known to be a file of the client exactly when the package does not lie at or below its path. |
| `GuardChain.ResolvedConfig` | apps/multicore-core-host/src/unix_runtime_paths.rs:182-192 | In every successful resolution each configuration has a guard, and it is a regular file of the client exactly under that condition. |
| `GuardChain.ResolveObligingly` | apps/multicore-core-host/src/unix_runtime_paths.rs:125-239 | Wherever a plain data directory and package lie, the resolution itself succeeds in a system that opens every name as asked. |
| `GuardChain.DirectoryMayPassAsConfig` | apps/multicore-core-host/src/unix_runtime_paths.rs:271-274 | Whenever the package lies at or below a configuration's path, a run of the resolution succeeds with a directory guarded in its place. |
| `GuardChain.FoundByNameIsClients` | apps/multicore-core-host/src/unix_runtime_paths.rs:64-74 | Whatever guard is found by a configuration's file name is that generation's configuration, a regular file of the client nobody else may write. |
| `GuardChain.Resolve` | apps/multicore-core-host/src/unix_runtime_paths.rs:125-239 | Success means the layout holds, all requested paths are guarded, real paths lie in the real package and generation directory and both binaries have an ELF header; an error is a zero generation, a wrong layout, a blamed request, or a path or header that fails. |
| `GuardChain.Locate` | apps/multicore-core-host/src/unix_runtime_paths.rs:194-239 | Succeeds exactly when all real paths exist where they should and both headers pass. |
| `GuardChain.CheckHeader` | apps/multicore-core-host/src/unix_runtime_paths.rs:223-230 | Accepts exactly when the binary's guard holds an executable. |
| `GuardChain.GuardToRead` | apps/multicore-core-host/src/unix_runtime_paths.rs:66-76 | Picks the last regular file guarded under that file name, or reports that there is none. |
| `GuardChain.VerifyUnchanged` | apps/multicore-core-host/src/unix_runtime_paths.rs:48-59 | Passes exactly when every guarded path still shows the guarded file; otherwise names the first change. |
| `EmojiPack.ParsePack` | apps/multicore-desktop/src/emoji_images.rs:30-50 | The loop computes the parse of the pack. |
| `EmojiPack.ParsedIff` | apps/multicore-desktop/src/emoji_images.rs:30-50 | A pack is accepted with an index exactly when it starts with printed entries whose keys are UTF-8 and the index is the last image of each key that is not plain ASCII. |
| `EmojiPack.PrintedIsParsed` | apps/multicore-desktop/src/emoji_images.rs:16-50 | Printing any entries and parsing them, whatever bytes follow, returns their index, or nothing when some key is not UTF-8. |
| `EmojiPack.PrintInBytes` | apps/multicore-desktop/src/emoji_images.rs:16-18 | A pack of one entry, byte by byte. |
| `EmojiPack.PrintInOrder` | apps/multicore-desktop/src/emoji_images.rs:16-18 | Entries are printed one after the other. |
| `EmojiPack.StripInOrder` | apps/multicore-desktop/src/emoji_images.rs:59-61 | Stripping keeps the order of the characters. |
| `EmojiPack.StripOfOne` | apps/multicore-desktop/src/emoji_images.rs:59-61 | Exactly U+FE0F is stripped. |
| `EmojiPack.IndexIsLastWins` | apps/multicore-desktop/src/emoji_images.rs:44-47 | A key is in the index exactly when it is not plain ASCII and occurs, with the image of its last entry. |
| `EmojiPack.ReadEntryIff` | apps/multicore-desktop/src/emoji_images.rs:38-43 | An entry is read exactly from its printed form with a UTF-8 key. |
| `EmojiPack.LeadingEmojiLen` | apps/multicore-desktop/src/emoji_images.rs:54-67 | The byte length of the longest prefix of at most 16 characters whose selector-free form is a key, or nothing when there is none. |
| `EmojiPack.LeadingHits` | apps/multicore-desktop/src/emoji_images.rs:54-86 | An emoji at the start of a text is looked up to the decoded image of the pack's last entry with its key, and it is never plain ASCII. |
| `EmojiPack.LeadingImage` | apps/multicore-desktop/src/emoji_images.rs:54-90 | The longest leading emoji, its bytes, and the decoded image of its last entry in the pack; without one the empty image. |
| `EmojiPack.SelectorIsIncluded` | apps/multicore-desktop/src/emoji_images.rs:52-67 | A variation selector right behind the emoji belongs to it. |
| `EmojiPack.ImageCache.ImageFor` | apps/multicore-desktop/src/emoji_images.rs:71-90 | Remembering decoded images changes no answer. |
| `RecoveryBudget.RecoveryBudget.Take` | apps/multicore-desktop/src/event_loop_guard.rs:53-66 | The loop over the queue computes the specified queue and answer. |
| `RecoveryBudget.QueueIsYoungGrants` | apps/multicore-desktop/src/event_loop_guard.rs:45-67 | For every non-decreasing sequence of failures the queue is exactly the granted recoveries younger than the window, and the answer counts them. |
| `RecoveryBudget.GrantsAreSpaced` | apps/multicore-desktop/src/event_loop_guard.rs:45-67 | Any four successive recoveries span at least the window. |
| `RecoveryBudget.RefusedIff` | apps/multicore-desktop/src/event_loop_guard.rs:53-66 | A refusal happens exactly when the three latest recoveries all lie within the window. |
| `RecoveryBudget.DropIsYoung` | apps/multicore-desktop/src/event_loop_guard.rs:54-60 | Dropping from the front is enough to forget everything too old. |
| `RecoveryBudget.Decide` | apps/multicore-desktop/src/event_loop_guard.rs:88-93 | A requested quit spends nothing; otherwise the budget decides. |
| `RecoveryBudget.RunUntilQuit` | apps/multicore-desktop/src/event_loop_guard.rs:97-135 | Ends with the first exit that was asked for, or gives up at the first that comes too soon after the third last; every exit before is numbered and recovered from. |
| `CrashReport.ReportBuffer.WriteStr` | apps/multicore-desktop/src/native_crash.rs:83-89 | The buffer holds the first 8 KiB of what it held and the text. |
| `CrashReport.ReportBuffer.Format` | apps/multicore-desktop/src/native_crash.rs:237-239 | A report written in pieces is the first 8 KiB of all of them, whatever the buffer held before. |
| `CrashReport.EveryReportIsIntact` | apps/multicore-desktop/src/native_crash.rs:219-261 | With any number of crashing threads and nested crashes, at most one handler is in the scratch buffers, and every report in the file is the first 8 KiB of what one single handler wrote. |
| `CrashReport.OneReportEach` | apps/multicore-desktop/src/native_crash.rs:243-260 | Every handler that finishes adds exactly one report. |
| `CrashReport.ReportIsWhatWasWritten` | apps/multicore-desktop/src/native_crash.rs:237-260 | The report a handler adds is the first 8 KiB of all it wrote, whatever the other threads did and whatever crashed inside it. |
| `CrashReport.FirstInBytes` | apps/multicore-desktop/src/native_crash.rs:62-63 | A report is at most 8192 bytes of the text, from its beginning. |
| `CrashReport.StepKeeps` | apps/multicore-desktop/src/native_crash.rs:219-261 | Every crash, look, write and release keeps the protocol's invariant. |
| `CrashReport.NestedCrashLeaves` | apps/multicore-desktop/src/native_crash.rs:226-228 | A crash inside the writing handler is sent away by its only look and changes nothing. |
| `CrashReport.WaitingIsBounded` | apps/multicore-desktop/src/native_crash.rs:223-235 | However threads interleave and nest, a waiting handler looks at most 200 times without an end. |
| `CrashReport.Acquire` | apps/multicore-desktop/src/native_crash.rs:223-235 | The loop ends after at most 201 looks, wins exactly when the last look saw no writer, and otherwise leaves because it saw itself or ran out of looks. |

## Left out

- Win32, D-Bus, X11, winit, Slint and Tokio calls, access control lists and permissions: each is a step that may
  fail, or is not part of this model.
- How cores are launched and become ready: a start succeeds, or fails for one of five causes. How a dropped controller
  ends its processes: killing the process group on Unix and closing the job on Windows are one step that always
  works.
- `RuntimeHost`: the TUN state in diagnostics, the texts of log records and the encoding of a frame; the size of a
  frame is a function of the records.
- `PipeIo`: timeouts are steps that may happen at any time; the bytes transferred and the error codes of failed
  calls are not part of the state. A caller facing a full reaper queue looks once more and may still be waiting;
  the endless loop around it is not modelled.
- EnvironmentBlock.EnvironmentBlock: variables with a NUL in them, or with an equals sign behind the first unit of the
  name, which the operating system cannot hold; the model requires their absence.
- `bootstrap.rs`: start-up selection, the readiness reader and process creation.
- `session_logs.rs`: reading time stamps from lines, the text of session.txt and of the index (functions of the
  folder here), the note for system.txt, hints and grammar of counts. Stamps are given with the lines.
- `log_bundle.rs`: redaction and lossy decoding are arbitrary functions that return valid text; the ZIP writer, the
  system report and the Windows event summary.
- LowLevelLog.LowLevelLog.Log: I/O errors and a file changed by somebody else between two entries; callers of
  one process write, from an empty file. Flattening works on bytes, which is the same for the three ASCII characters it replaces.
- `preferences.rs`: JSON text is a pair of functions, printing and parsing, with the only assumption that the
  printed document of a preferences value, with a line feed behind it, parses back; directory preparation and protection may fail but do nothing else.
- PreferenceStore.CreateTemporaryFile: the endless loop of draws is a finite list that may run out, which stands
  for the system having no more randomness.
- GuardChain.Resolve: real paths do not change during one resolution, and the ELF check is a function of the
  handle.
- `runtime_paths.rs`: the Windows chain of guarded paths; the Unix one is modelled.
- `emoji_images.rs`: decoding WebP.
- `event_loop_guard.rs`: recreating windows and waiting; the exits of the event loop are given, with times that do not
  decrease.
- `native_crash.rs`: formatting a report, symbols and the previous filter; a handler's text is any sequence of pieces.
- HTTP client, installers, update, renderer fallback, dialogs, tray, language tables, packaging scripts: they would
  only add easy members, or are calls into other systems.
