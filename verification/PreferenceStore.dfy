/** How the preferences file is replaced, read and set aside. A file system is its directory, the
    directories a power loss may still bring back, and the files with what of them is on disk. */
module PreferenceStore {
  import opened Basics
  import opened PreferenceCodec

  const MAX_BYTES := 1024 * 1024

  datatype Name = Current | Corrupt | Temporary(random: Bytes)

  type Directory = map<Name, nat>

  datatype File = File(data: Bytes, synced: bool)

  datatype FileSystem = FileSystem(directory: Directory, earlier: set<Directory>, files: seq<File>)

  function Lookup(d: Directory, name: Name): Option<nat> {
    if name in d then Some(d[name]) else None
  }

  /** The files `name` may be after a power loss: any directory since the last flush may come back. */
  ghost function Entries(fs: FileSystem, name: Name): set<Option<nat>> {
    (set d | d in fs.earlier :: Lookup(d, name)) + {Lookup(fs.directory, name)}
  }

  /** What is read back from entry `e` after a power loss: anything while the file was not flushed. */
  ghost predicate Reads(fs: FileSystem, e: Option<nat>, content: Option<Bytes>) {
    match e
    case None => content.None?
    case Some(i) => i < |fs.files| && content.Some? && (fs.files[i].synced ==> content.value == fs.files[i].data)
  }

  /** `name` may hold `content` (or be missing) after a power loss. */
  ghost predicate MayHold(fs: FileSystem, name: Name, content: Option<Bytes>) {
    exists e :: e in Entries(fs, name) && Reads(fs, e, content)
  }

  /** What `name` holds while the system runs. */
  function View(fs: FileSystem, name: Name): Option<Bytes> {
    if name in fs.directory && fs.directory[name] < |fs.files| then Some(fs.files[fs.directory[name]].data) else None
  }

  ghost predicate Valid(fs: FileSystem) {
    && (forall name :: name in fs.directory ==> fs.directory[name] < |fs.files|)
    && (forall d, name :: d in fs.earlier && name in d ==> d[name] < |fs.files|)
  }

  lemma EntriesAreFiles(fs: FileSystem, name: Name, i: nat)
    requires Valid(fs) && Some(i) in Entries(fs, name)
    ensures i < |fs.files|
  {
  }

  // ----- Steps of the file system -----

  /** An empty file under a new name. */
  function Created(fs: FileSystem, name: Name): FileSystem {
    FileSystem(fs.directory[name := |fs.files|], fs.earlier + {fs.directory}, fs.files + [File([], false)])
  }

  function Appended(fs: FileSystem, i: nat, bytes: Bytes): FileSystem
    requires i < |fs.files|
  {
    fs.(files := fs.files[i := File(fs.files[i].data + bytes, false)])
  }

  function Flushed(fs: FileSystem, i: nat): FileSystem
    requires i < |fs.files|
  {
    fs.(files := fs.files[i := fs.files[i].(synced := true)])
  }

  /** `source` replaces `target`; a write-through move is on disk when it returns. */
  function Renamed(fs: FileSystem, source: Name, target: Name, writeThrough: bool): FileSystem
    requires source in fs.directory
  {
    fs.(directory := (fs.directory - {source})[target := fs.directory[source]],
        earlier := if writeThrough then {} else fs.earlier + {fs.directory})
  }

  function Removed(fs: FileSystem, name: Name): FileSystem {
    fs.(directory := fs.directory - {name}, earlier := fs.earlier + {fs.directory})
  }

  function DirectoryFlushed(fs: FileSystem): FileSystem {
    fs.(earlier := {})
  }

  // ----- Replacing the preferences -----

  /** Whatever a power loss leaves is something the start could have left, or all of `bytes`; while
      running the file is as at the start or holds all of `bytes`. */
  ghost predicate OldOrNew(start: FileSystem, fs: FileSystem, bytes: Bytes) {
    && (forall content :: MayHold(fs, Current, content) ==> MayHold(start, Current, content) || content == Some(bytes))
    && (View(fs, Current) == View(start, Current) || View(fs, Current) == Some(bytes))
  }

  /** Files of the start are unchanged, and all names but `Current` still stand for them. */
  ghost predicate OthersKept(start: FileSystem, fs: FileSystem) {
    && start.files <= fs.files
    && (forall name :: name in start.directory && name != Current
          ==> name in fs.directory && fs.directory[name] == start.directory[name])
  }

  /** Nothing was published yet. */
  ghost predicate Before(start: FileSystem, fs: FileSystem) {
    && Valid(start) && Valid(fs) && OthersKept(start, fs)
    && Entries(fs, Current) == Entries(start, Current)
    && Lookup(fs.directory, Current) == Lookup(start.directory, Current)
  }

  /** File `i`, flushed and complete, is the preferences. */
  ghost predicate After(start: FileSystem, fs: FileSystem, i: nat, bytes: Bytes) {
    && Valid(start) && Valid(fs) && OthersKept(start, fs)
    && i < |fs.files| && fs.files[i] == File(bytes, true)
    && Entries(fs, Current) <= Entries(start, Current) + {Some(i)}
    && Lookup(fs.directory, Current) == Some(i)
  }

  lemma BeforeIsOld(start: FileSystem, fs: FileSystem, bytes: Bytes)
    requires Before(start, fs)
    ensures OldOrNew(start, fs, bytes) && Valid(fs) && OthersKept(start, fs)
    ensures View(fs, Current) == View(start, Current)
    ensures forall content :: MayHold(fs, Current, content) ==> MayHold(start, Current, content)
  {
    hide Entries;
    forall content | MayHold(fs, Current, content)
      ensures MayHold(start, Current, content)
    {
      var e :| e in Entries(fs, Current) && Reads(fs, e, content);
      if e.Some? {
        EntriesAreFiles(start, Current, e.value);
      }
      assert Reads(start, e, content);
    }
  }

  lemma AfterIsOldOrNew(start: FileSystem, fs: FileSystem, i: nat, bytes: Bytes)
    requires After(start, fs, i, bytes)
    ensures OldOrNew(start, fs, bytes) && Valid(fs) && OthersKept(start, fs)
    ensures View(fs, Current) == Some(bytes)
  {
    hide Entries;
    forall content | MayHold(fs, Current, content)
      ensures MayHold(start, Current, content) || content == Some(bytes)
    {
      var e :| e in Entries(fs, Current) && Reads(fs, e, content);
      if e != Some(i) {
        if e.Some? {
          EntriesAreFiles(start, Current, e.value);
        }
        assert Reads(start, e, content);
      }
    }
  }

  lemma CreatedKeeps(start: FileSystem, fs: FileSystem, random: Bytes)
    requires Before(start, fs) && Temporary(random) !in fs.directory
    ensures Before(start, Created(fs, Temporary(random)))
  {
    var now := Created(fs, Temporary(random));
    assert Entries(now, Current) == Entries(fs, Current);
  }

  lemma AppendedKeeps(start: FileSystem, fs: FileSystem, i: nat, bytes: Bytes)
    requires Before(start, fs) && i < |fs.files| && i >= |start.files|
    ensures Before(start, Appended(fs, i, bytes))
  {
    assert Entries(Appended(fs, i, bytes), Current) == Entries(fs, Current);
  }

  lemma FlushedKeeps(start: FileSystem, fs: FileSystem, i: nat)
    requires Before(start, fs) && i < |fs.files| && i >= |start.files|
    ensures Before(start, Flushed(fs, i))
  {
    assert Entries(Flushed(fs, i), Current) == Entries(fs, Current);
  }

  /** Publishing a flushed, complete file. */
  lemma RenamedPublishes(start: FileSystem, fs: FileSystem, random: Bytes, i: nat, bytes: Bytes, writeThrough: bool)
    requires Before(start, fs)
    requires Lookup(fs.directory, Temporary(random)) == Some(i) && Temporary(random) !in start.directory
    requires i < |fs.files| && fs.files[i] == File(bytes, true)
    ensures After(start, Renamed(fs, Temporary(random), Current, writeThrough), i, bytes)
    ensures writeThrough ==> Entries(Renamed(fs, Temporary(random), Current, writeThrough), Current) == {Some(i)}
  {
    var now := Renamed(fs, Temporary(random), Current, writeThrough);
    if writeThrough {
      assert Entries(now, Current) == {Some(i)};
    } else {
      assert Entries(now, Current) == Entries(fs, Current) + {Some(i)};
    }
  }

  lemma RemovedKeeps(start: FileSystem, fs: FileSystem, random: Bytes)
    requires Temporary(random) !in start.directory
    ensures Before(start, fs) ==> Before(start, Removed(fs, Temporary(random)))
    ensures forall i: nat, bytes :: After(start, fs, i, bytes) ==>
              After(start, Removed(fs, Temporary(random)), i, bytes)
  {
    assert Entries(Removed(fs, Temporary(random)), Current) == Entries(fs, Current);
  }

  /** With no older directory left, only the new contents can be found. */
  lemma SettledIsNew(start: FileSystem, fs: FileSystem, i: nat, bytes: Bytes, content: Option<Bytes>)
    requires After(start, fs, i, bytes) && fs.earlier == {}
    ensures MayHold(fs, Current, content) <==> content == Some(bytes)
  {
    assert Entries(fs, Current) == {Some(i)};
    assert Reads(fs, Some(i), content) <==> content == Some(bytes);
  }

  // ----- Losing power -----

  /** `after` is what the disk may hold when power returns: one of the directories, flushed files as
      they were, the others with any contents. */
  ghost predicate PowerLoss(fs: FileSystem, after: FileSystem) {
    && after.earlier == {}
    && (after.directory == fs.directory || after.directory in fs.earlier)
    && |after.files| == |fs.files|
    && forall i :: 0 <= i < |fs.files| ==>
        after.files[i].synced && (fs.files[i].synced ==> after.files[i].data == fs.files[i].data)
  }

  lemma DirectoryOf(fs: FileSystem, name: Name, e: Option<nat>) returns (d: Directory)
    requires e in Entries(fs, name)
    ensures (d == fs.directory || d in fs.earlier) && Lookup(d, name) == e
  {
    if e == Lookup(fs.directory, name) {
      d := fs.directory;
    } else {
      d :| d in fs.earlier && Lookup(d, name) == e;
    }
  }

  lemma HeldIsSeen(fs: FileSystem, name: Name, content: Option<Bytes>)
    requires Valid(fs) && MayHold(fs, name, content)
    ensures exists after :: PowerLoss(fs, after) && View(after, name) == content
  {
    hide Entries;
    var e :| e in Entries(fs, name) && Reads(fs, e, content);
    var d := DirectoryOf(fs, name, e);
    var files := seq(|fs.files|, i requires 0 <= i < |fs.files| =>
      File(if e == Some(i) && content.Some? then content.value else fs.files[i].data, true));
    var after := FileSystem(d, {}, files);
    assert PowerLoss(fs, after) && View(after, name) == content;
  }

  lemma SeenIsHeld(fs: FileSystem, after: FileSystem, name: Name)
    requires Valid(fs) && PowerLoss(fs, after)
    ensures MayHold(fs, name, View(after, name))
  {
    var e := Lookup(after.directory, name);
    assert e in Entries(fs, name);
    assert Reads(fs, e, View(after, name));
  }

  /** `MayHold` is exactly what can be seen after a power loss. */
  lemma MayHoldIsSeen(fs: FileSystem, name: Name, content: Option<Bytes>)
    requires Valid(fs)
    ensures MayHold(fs, name, content) <==> exists after :: PowerLoss(fs, after) && View(after, name) == content
  {
    hide MayHold, PowerLoss;
    if MayHold(fs, name, content) {
      HeldIsSeen(fs, name, content);
    }
    if after :| PowerLoss(fs, after) && View(after, name) == content {
      SeenIsHeld(fs, after, name);
    }
  }

  // ----- What a document is worth -----

  datatype Verdict = Missing | Unusable | Usable(value: Preferences)

  function Judge(content: Option<Bytes>, parse: Bytes -> Option<Document>): Verdict {
    if content.None? then Missing
    else if |content.value| > MAX_BYTES then Unusable
    else match parse(content.value)
      case None => Unusable
      case Some(document) =>
        match Decode(document)
        case None => Unusable
        case Some(value) => if value.schemaVersion == SCHEMA_VERSION then Usable(value) else Unusable
  }

  /** A file is unusable exactly when it is over 1 MiB, is no JSON document, has a field nobody knows or a
      value of the wrong kind, or is of another schema. */
  lemma {:induction false} JudgedIff(content: Option<Bytes>, parse: Bytes -> Option<Document>)
    ensures Judge(content, parse).Missing? <==> content.None?
    ensures Judge(content, parse).Unusable? <==>
              && content.Some?
              && (|| |content.value| > 1_048_576
                  || parse(content.value).None?
                  || Decode(parse(content.value).value).None?
                  || Decode(parse(content.value).value).value.schemaVersion != 1)
    ensures forall v :: Judge(content, parse) == Usable(v) ==>
              content.Some? && parse(content.value).Some? && Decode(parse(content.value).value) == Some(v)
  {
    hide Decode;
  }

  /** A document with an unknown field is set aside. */
  lemma {:induction false} UnknownIsUnusable(content: Bytes, parse: Bytes -> Option<Document>, name: string)
    requires parse(content).Some? && UnknownField(name) in parse(content).value
    ensures Judge(Some(content), parse) == Unusable
  {
    hide Decode;
    UnknownIsRefused(parse(content).value, name);
  }

  /** The JSON text of preferences, with a line end, reads back as the document it was printed from. */
  ghost predicate ReadsBack(render: Document -> Bytes, parse: Bytes -> Option<Document>) {
    forall p: Preferences :: parse(render(Encode(p)) + [NEWLINE]) == Some(Encode(p))
  }

  function Printed(value: Preferences, render: Document -> Bytes): Bytes {
    render(Encode(value)) + [NEWLINE]
  }

  /** `save` accepts the value. */
  predicate Savable(value: Preferences, render: Document -> Bytes) {
    value.schemaVersion == SCHEMA_VERSION && |render(Encode(value))| + 1 <= MAX_BYTES
  }

  /** Bytes written by `save` are never set aside: they load as the value saved. */
  lemma {:induction false} SavedIsUsable(value: Preferences, render: Document -> Bytes,
                                         parse: Bytes -> Option<Document>)
    requires Savable(value, render) && ReadsBack(render, parse)
    ensures Judge(Some(Printed(value, render)), parse) == Usable(value)
  {
    hide Encode, Decode;
    DocumentReadBack(value);
  }

  /** Power may be lost at any moment of a save: the next start finds preferences as good as those
      before it, or exactly the value being saved. */
  lemma {:induction false} LostPowerIsLoaded(start: FileSystem, fs: FileSystem, after: FileSystem, value: Preferences,
                          render: Document -> Bytes, parse: Bytes -> Option<Document>)
    requires Savable(value, render) && ReadsBack(render, parse)
    requires Valid(start) && Valid(fs) && OldOrNew(start, fs, Printed(value, render)) && PowerLoss(fs, after)
    ensures || Judge(View(after, Current), parse) == Usable(value)
            || exists before :: PowerLoss(start, before) && View(before, Current) == View(after, Current)
  {
    hide Judge, PowerLoss, Encode;
    MayHoldIsSeen(fs, Current, View(after, Current));
    MayHoldIsSeen(start, Current, View(after, Current));
    SavedIsUsable(value, render, parse);
  }

  // ----- The store -----

  /** The disk: every call may fail, and `steps` remembers each state it went through. */
  class Disk {
    var fs: FileSystem
    ghost var steps: seq<FileSystem>
    ghost var failures: nat
    const writeThrough: bool

    /** A call that changes nothing here: preparing the directory, checking or opening a file. */
    method Ask() returns (ok: bool)
      modifies this`failures
      ensures failures == old(failures) + if ok then 0 else 1
    {
      ok := *;
      failures := failures + if ok then 0 else 1;
    }

    /** A new file; it is left behind when it cannot be protected. */
    method Create(name: Name) returns (made: Option<nat>, taken: bool)
      requires Valid(fs)
      modifies this
      ensures steps == old(steps) + [fs]
      ensures made.Some? ==> !taken && made.value == |old(fs.files)| && fs != old(fs)
      ensures taken ==> made.None? && name in old(fs.directory) && fs == old(fs)
      ensures fs == old(fs) || (name !in old(fs.directory) && fs == Created(old(fs), name))
      ensures failures == old(failures) + if made.Some? || taken then 0 else 1
    {
      made, taken := None, false;
      var answered: bool, secured: bool := *, *;
      if name in fs.directory {
        taken := answered;
      } else if answered {
        if secured {
          made := Some(|fs.files|);
        }
        fs := Created(fs, name);
      }
      failures := failures + if made.Some? || taken then 0 else 1;
      steps := steps + [fs];
    }

    /** `write_all`: a failure may leave any part of it. */
    method Append(i: nat, bytes: Bytes) returns (ok: bool, n: nat)
      requires i < |fs.files|
      modifies this
      ensures steps == old(steps) + [fs]
      ensures n <= |bytes| && fs == Appended(old(fs), i, bytes[..n])
      ensures ok ==> n == |bytes|
      ensures failures == old(failures) + if ok then 0 else 1
    {
      var part: int := *;
      n := if 0 <= part < |bytes| then part else |bytes|;
      ok := n == |bytes|;
      fs := Appended(fs, i, bytes[..n]);
      failures := failures + if ok then 0 else 1;
      steps := steps + [fs];
    }

    method Flush(i: nat) returns (ok: bool)
      requires i < |fs.files|
      modifies this
      ensures steps == old(steps) + [fs]
      ensures fs == if ok then Flushed(old(fs), i) else old(fs)
      ensures failures == old(failures) + if ok then 0 else 1
    {
      ok := Ask();
      if ok {
        fs := Flushed(fs, i);
      }
      steps := steps + [fs];
    }

    method Rename(source: Name, target: Name) returns (ok: bool)
      requires source in fs.directory
      modifies this
      ensures steps == old(steps) + [fs]
      ensures fs == if ok then Renamed(old(fs), source, target, writeThrough) else old(fs)
      ensures failures == old(failures) + if ok then 0 else 1
    {
      ok := Ask();
      if ok {
        fs := Renamed(fs, source, target, writeThrough);
      }
      steps := steps + [fs];
    }

    /** Unix flushes the directory; on Windows the move was written through. */
    method FlushDirectory() returns (ok: bool)
      modifies this
      ensures steps == old(steps) + [fs]
      ensures writeThrough ==> ok
      ensures fs == if ok && !writeThrough then DirectoryFlushed(old(fs)) else old(fs)
      ensures failures == old(failures) + if ok then 0 else 1
    {
      if writeThrough {
        ok := true;
      } else {
        ok := Ask();
        if ok {
          fs := DirectoryFlushed(fs);
        }
      }
      steps := steps + [fs];
    }

    /** The outcome is ignored. */
    method Remove(name: Name)
      modifies this
      ensures steps == old(steps) + [fs] && failures >= old(failures)
      ensures fs == old(fs) || fs == Removed(old(fs), name)
    {
      var ok := Ask();
      if ok && name in fs.directory {
        fs := Removed(fs, name);
      }
      steps := steps + [fs];
    }
  }

  /** Where `save` failed. */
  datatype Step =
    | CheckSchema | OpenDirectory | EncodeDocument | CreateTemporary | WriteTemporary | Replace
    | Reopen | FlushCurrent | FlushDirectory

  /** Failures after the new file took its place. */
  predicate Published(step: Step) {
    step.Reopen? || step.FlushCurrent? || step.FlushDirectory?
  }

  ghost predicate AllOldOrNew(start: FileSystem, steps: seq<FileSystem>, bytes: Bytes) {
    forall k :: 0 <= k < |steps| ==> OldOrNew(start, steps[k], bytes)
  }

  lemma OneMore(start: FileSystem, steps: seq<FileSystem>, n: nat, fs: FileSystem, bytes: Bytes)
    requires n <= |steps| && AllOldOrNew(start, steps[n..], bytes) && OldOrNew(start, fs, bytes)
    ensures AllOldOrNew(start, (steps + [fs])[n..], bytes)
  {
    hide OldOrNew;
    assert (steps + [fs])[n..] == steps[n..] + [fs];
  }

  ghost predicate AllTaken(fs: FileSystem, draws: seq<Bytes>) {
    forall k :: 0 <= k < |draws| ==> Temporary(draws[k]) in fs.directory
  }

  /** An empty file under a drawn name is all that was added. */
  ghost predicate LeftBehind(start: FileSystem, fs: FileSystem, draws: seq<Bytes>) {
    exists k :: 0 <= k < |draws| && Temporary(draws[k]) !in start.directory && fs == Created(start, Temporary(draws[k]))
  }

  /** A new file under a random name; a taken name is drawn again. `draws` ends when the system has no
      more randomness. A file that could not be protected is left behind. */
  method CreateTemporaryFile(disk: Disk, draws: seq<Bytes>, ghost start: FileSystem, ghost n: nat, ghost bytes: Bytes)
    returns (temporary: Option<(Bytes, nat)>)
    requires n <= |disk.steps| && AllOldOrNew(start, disk.steps[n..], bytes)
    requires Valid(start) && Before(start, disk.fs) && disk.fs == start
    modifies disk
    ensures old(disk.steps) <= disk.steps && AllOldOrNew(start, disk.steps[n..], bytes)
    ensures Before(start, disk.fs) && disk.failures >= old(disk.failures)
    ensures temporary.None? ==> disk.failures > old(disk.failures) || AllTaken(start, draws)
    ensures temporary.None? ==> disk.fs == start || LeftBehind(start, disk.fs, draws)
    ensures temporary.Some? ==>
              && temporary.value.0 in draws && Temporary(temporary.value.0) !in start.directory
              && temporary.value.1 == |start.files| && disk.fs == Created(start, Temporary(temporary.value.0))
  {
    hide OldOrNew, Before, AllOldOrNew;
    for k := 0 to |draws|
      invariant old(disk.steps) <= disk.steps && AllOldOrNew(start, disk.steps[n..], bytes)
      invariant Before(start, disk.fs) && disk.fs == start && disk.failures == old(disk.failures)
      invariant AllTaken(start, draws[..k])
    {
      ghost var steps := disk.steps;
      var made, taken := disk.Create(Temporary(draws[k]));
      if disk.fs != start {
        CreatedKeeps(start, start, draws[k]);
      }
      BeforeIsOld(start, disk.fs, bytes);
      OneMore(start, steps, n, disk.fs, bytes);
      if made.Some? {
        return Some((draws[k], made.value));
      }
      if !taken {
        return None;
      }
    }
    assert draws[..|draws|] == draws;
    return None;
  }

  /** Flushing the published file or the directory changes nothing that matters. */
  lemma AfterIsKept(start: FileSystem, fs: FileSystem, i: nat, bytes: Bytes)
    requires After(start, fs, i, bytes)
    ensures Current in fs.directory && fs.directory[Current] == i < |fs.files| && Flushed(fs, i) == fs
    ensures OldOrNew(start, fs, bytes)
    ensures After(start, DirectoryFlushed(fs), i, bytes)
  {
    hide OldOrNew;
    AfterIsOldOrNew(start, fs, i, bytes);
    assert Entries(DirectoryFlushed(fs), Current) == {Some(i)};
  }

  lemma StartIsBefore(start: FileSystem)
    requires Valid(start)
    ensures Before(start, start)
  {
  }

  lemma NothingYet(start: FileSystem, steps: seq<FileSystem>, bytes: Bytes)
    ensures AllOldOrNew(start, steps[|steps|..], bytes)
  {
  }

  /** The named file is the one being written, and it is not part of the start. */
  ghost predicate Writing(start: FileSystem, fs: FileSystem, random: Bytes, i: nat) {
    && Before(start, fs)
    && Temporary(random) !in start.directory && i == |start.files| && i < |fs.files|
    && fs.directory == start.directory[Temporary(random) := i]
  }

  /** The part of `save` whose failure removes the temporary file. */
  method Publish(disk: Disk, encoded: Bytes, random: Bytes, i: nat, ghost start: FileSystem, ghost n: nat,
                 ghost bytes: Bytes)
    returns (failed: Option<Step>)
    requires bytes == encoded + [NEWLINE]
    requires Writing(start, disk.fs, random, i) && disk.fs.files[i].data == []
    requires n <= |disk.steps| && AllOldOrNew(start, disk.steps[n..], bytes)
    modifies disk
    ensures old(disk.steps) <= disk.steps && AllOldOrNew(start, disk.steps[n..], bytes)
    ensures failed.Some? ==> failed.value in {WriteTemporary, Replace, Reopen, FlushCurrent, Step.FlushDirectory}
    ensures failed.Some? && !Published(failed.value) ==> Before(start, disk.fs)
    ensures failed.None? || Published(failed.value) ==> After(start, disk.fs, i, bytes)
    ensures failed.Some? <==> disk.failures > old(disk.failures)
    ensures disk.failures >= old(disk.failures)
    ensures failed.None? ==> disk.fs.earlier == {} && disk.fs.directory.Keys == start.directory.Keys + {Current}
  {
    hide OldOrNew, AllOldOrNew, Before, After;
    var written := WriteTemporaryFile(disk, encoded, random, i, start, n, bytes);
    if !written {
      return Some(WriteTemporary);
    }
    ghost var steps, fs := disk.steps, disk.fs;
    var ok := disk.Rename(Temporary(random), Current);
    if !ok {
      BeforeIsOld(start, disk.fs, bytes);
      OneMore(start, steps, n, disk.fs, bytes);
      return Some(Replace);
    }
    RenamedPublishes(start, fs, random, i, bytes, disk.writeThrough);
    AfterIsOldOrNew(start, disk.fs, i, bytes);
    OneMore(start, steps, n, disk.fs, bytes);
    ok := disk.Ask();
    if !ok {
      return Some(Reopen);
    }
    steps := disk.steps;
    AfterIsKept(start, disk.fs, i, bytes);
    ok := disk.Flush(disk.fs.directory[Current]);
    OneMore(start, steps, n, disk.fs, bytes);
    if !ok {
      return Some(FlushCurrent);
    }
    steps := disk.steps;
    ok := disk.FlushDirectory();
    AfterIsOldOrNew(start, disk.fs, i, bytes);
    OneMore(start, steps, n, disk.fs, bytes);
    if !ok {
      return Some(Step.FlushDirectory);
    }
    return None;
  }

  method WriteTemporaryFile(disk: Disk, encoded: Bytes, random: Bytes, i: nat, ghost start: FileSystem, ghost n: nat,
                            ghost bytes: Bytes)
    returns (ok: bool)
    requires bytes == encoded + [NEWLINE]
    requires Writing(start, disk.fs, random, i) && disk.fs.files[i].data == []
    requires n <= |disk.steps| && AllOldOrNew(start, disk.steps[n..], bytes)
    modifies disk
    ensures old(disk.steps) <= disk.steps && AllOldOrNew(start, disk.steps[n..], bytes)
    ensures Writing(start, disk.fs, random, i)
    ensures disk.failures == old(disk.failures) + if ok then 0 else 1
    ensures ok ==> disk.fs.files[i] == File(bytes, true)
  {
    hide OldOrNew, AllOldOrNew, Before;
    ghost var steps, fs := disk.steps, disk.fs;
    var k;
    ok, k := disk.Append(i, encoded);
    AppendedKeeps(start, fs, i, encoded[..k]);
    BeforeIsOld(start, disk.fs, bytes);
    OneMore(start, steps, n, disk.fs, bytes);
    if ok {
      steps, fs := disk.steps, disk.fs;
      ok, k := disk.Append(i, [NEWLINE]);
      AppendedKeeps(start, fs, i, [NEWLINE][..k]);
      BeforeIsOld(start, disk.fs, bytes);
      OneMore(start, steps, n, disk.fs, bytes);
    }
    if ok {
      steps, fs := disk.steps, disk.fs;
      ok := disk.Flush(i);
      FlushedKeeps(start, fs, i);
      BeforeIsOld(start, disk.fs, bytes);
      OneMore(start, steps, n, disk.fs, bytes);
    }
  }

  /** `save`. Whatever fails or is lost, at every step the file is the old one or all of the new one. */
  method Save(disk: Disk, value: Preferences, render: Document -> Bytes, draws: seq<Bytes>)
    returns (failed: Option<Step>)
    requires Valid(disk.fs)
    modifies disk
    ensures old(disk.steps) <= disk.steps
    ensures AllOldOrNew(old(disk.fs), disk.steps[|old(disk.steps)|..], Printed(value, render))
    ensures Valid(disk.fs) && OthersKept(old(disk.fs), disk.fs)
    ensures failed == Some(CheckSchema) <==> value.schemaVersion != SCHEMA_VERSION
    ensures !Savable(value, render) ==> failed.Some? && disk.fs == old(disk.fs)
    ensures failed == Some(EncodeDocument) ==> !Savable(value, render)
    ensures failed.Some? && Savable(value, render) ==>
              disk.failures > old(disk.failures) || AllTaken(old(disk.fs), draws)
    ensures failed == Some(CreateTemporary) ==>
              disk.fs == old(disk.fs) || LeftBehind(old(disk.fs), disk.fs, draws)
    ensures failed.Some? && !Published(failed.value) ==>
              View(disk.fs, Current) == View(old(disk.fs), Current)
    ensures failed.Some? && !Published(failed.value) ==>
              forall content :: MayHold(disk.fs, Current, content) ==> MayHold(old(disk.fs), Current, content)
    ensures failed.Some? && Published(failed.value) ==> View(disk.fs, Current) == Some(Printed(value, render))
    ensures failed.None? ==> View(disk.fs, Current) == Some(Printed(value, render))
    ensures failed.None? ==>
              forall content :: MayHold(disk.fs, Current, content) <==> content == Some(Printed(value, render))
    ensures failed.None? ==> disk.fs.directory.Keys == old(disk.fs.directory.Keys) + {Current}
  {
    hide OldOrNew, AllOldOrNew, Before, After, MayHold, View, Encode;
    ghost var start, n, bytes := disk.fs, |disk.steps|, Printed(value, render);
    StartIsBefore(start);
    BeforeIsOld(start, start, bytes);
    NothingYet(start, disk.steps, bytes);
    if value.schemaVersion != SCHEMA_VERSION {
      return Some(CheckSchema);
    }
    var prepared := disk.Ask();
    if !prepared {
      return Some(OpenDirectory);
    }
    var encoded := render(Encode(value));
    if |encoded| + 1 > MAX_BYTES {
      return Some(EncodeDocument);
    }
    var temporary := CreateTemporaryFile(disk, draws, start, n, bytes);
    if temporary.None? {
      BeforeIsOld(start, disk.fs, bytes);
      return Some(CreateTemporary);
    }
    failed := Publish(disk, encoded, temporary.value.0, temporary.value.1, start, n, bytes);
    if failed.Some? {
      ghost var steps, fs := disk.steps, disk.fs;
      disk.Remove(Temporary(temporary.value.0));
      RemovedKeeps(start, fs, temporary.value.0);
      if Published(failed.value) {
        AfterIsOldOrNew(start, disk.fs, temporary.value.1, bytes);
      } else {
        BeforeIsOld(start, disk.fs, bytes);
      }
      OneMore(start, steps, n, disk.fs, bytes);
    } else {
      AfterIsOldOrNew(start, disk.fs, temporary.value.1, bytes);
      forall content
        ensures MayHold(disk.fs, Current, content) <==> content == Some(bytes)
      {
        SettledIsNew(start, disk.fs, temporary.value.1, bytes, content);
      }
    }
  }

  // ----- Loading -----

  /** The unreadable file moved aside, its directory flushed or not. */
  ghost predicate SetAside(start: FileSystem, fs: FileSystem) {
    && View(fs, Corrupt) == View(start, Current) && View(fs, Current) == None
    && fs.files == start.files
    && forall name :: name != Current && name != Corrupt ==> Lookup(fs.directory, name) == Lookup(start.directory, name)
  }

  method Quarantine(disk: Disk) returns (ok: bool)
    requires Valid(disk.fs) && Current in disk.fs.directory
    modifies disk
    ensures Valid(disk.fs) && old(disk.steps) <= disk.steps
    ensures disk.fs == old(disk.fs) || SetAside(old(disk.fs), disk.fs)
    ensures ok ==> SetAside(old(disk.fs), disk.fs) && disk.fs.earlier == {}
    ensures disk.failures == old(disk.failures) + if ok then 0 else 1
  {
    ok := disk.Ask();
    if !ok {
      return false;
    }
    ok := disk.Rename(Current, Corrupt);
    if ok {
      ok := disk.FlushDirectory();
    }
  }

  /** `load`: a missing file is the default, a usable one its value, and anything else is set aside.
      `None` is an I/O failure. */
  method Load(disk: Disk, parse: Bytes -> Option<Document>) returns (value: Option<Preferences>)
    requires Valid(disk.fs)
    modifies disk
    ensures Valid(disk.fs) && old(disk.steps) <= disk.steps
    ensures value.Some? ==> value.value == (match Judge(View(old(disk.fs), Current), parse)
                                            case Usable(v) => v
                                            case _ => DEFAULT)
    ensures Judge(View(old(disk.fs), Current), parse) != Unusable ==> disk.fs == old(disk.fs)
    ensures Judge(View(old(disk.fs), Current), parse) == Unusable && value.Some? ==>
              SetAside(old(disk.fs), disk.fs) && disk.fs.earlier == {}
    ensures disk.fs == old(disk.fs) || SetAside(old(disk.fs), disk.fs)
    ensures value.None? <==> disk.failures > old(disk.failures)
  {
    hide Decode;
    var ok := disk.Ask();
    if !ok {
      return None;
    }
    if Current !in disk.fs.directory {
      return Some(DEFAULT);
    }
    ok := disk.Ask();
    if !ok {
      return None;
    }
    var data := disk.fs.files[disk.fs.directory[Current]].data;
    var raw := data[..Min(|data|, MAX_BYTES + 1)];
    if |data| > MAX_BYTES || |raw| > MAX_BYTES {
      ok := Quarantine(disk);
      return if ok then Some(DEFAULT) else None;
    }
    assert raw == data;
    var document := parse(raw);
    if document.Some? {
      var decoded := Decode(document.value);
      if decoded.Some? && decoded.value.schemaVersion == SCHEMA_VERSION {
        return decoded;
      }
    }
    ok := Quarantine(disk);
    return if ok then Some(DEFAULT) else None;
  }

  /** Power is lost and comes back: files that were not flushed may hold anything. */
  method LosePower(disk: Disk)
    requires Valid(disk.fs)
    modifies disk
    ensures PowerLoss(old(disk.fs), disk.fs) && Valid(disk.fs)
  {
    var directory := disk.fs.directory;
    if d :| d in disk.fs.earlier {
      var older: bool := *;
      directory := if older then d else directory;
    }
    var files: seq<File> := [];
    while |files| < |disk.fs.files|
      invariant disk.fs == old(disk.fs) && |files| <= |disk.fs.files|
      invariant forall i :: 0 <= i < |files| ==> files[i].synced
      invariant forall i :: 0 <= i < |files| && disk.fs.files[i].synced ==> files[i].data == disk.fs.files[i].data
    {
      var file := disk.fs.files[|files|];
      var data: Bytes := *;
      files := files + [File(if file.synced then file.data else data, true)];
    }
    disk.fs := FileSystem(directory, {}, files);
    disk.steps := disk.steps + [disk.fs];
  }

  /** A saved value is what the next start loads, even when power was lost in between, and nothing is
      set aside. */
  method SaveAndRestart(disk: Disk, value: Preferences, render: Document -> Bytes, parse: Bytes -> Option<Document>,
                        draws: seq<Bytes>) returns (failed: Option<Step>, loaded: Option<Preferences>)
    requires Valid(disk.fs) && ReadsBack(render, parse)
    modifies disk
    ensures failed.None? ==> loaded.None? || loaded == Some(value)
    ensures failed.None? ==> View(disk.fs, Current) == Some(Printed(value, render))
  {
    hide Judge, MayHold, Encode, View, PowerLoss, ReadsBack, Printed;
    failed := Save(disk, value, render, draws);
    ghost var saved := disk.fs;
    LosePower(disk);
    if failed.None? {
      MayHoldIsSeen(saved, Current, View(disk.fs, Current));
      SavedIsUsable(value, render, parse);
    }
    loaded := Load(disk, parse);
  }
}
