/** Building the `core-sessions/` entries: folder names, budgets and entry names. */
module SessionArchive {
  import opened Basics
  import opened StableSort
  import opened SessionLogs

  datatype Entry = Entry(name: string, text: Bytes)

  /** One connection's folder. */
  datatype Folder = Folder(index: nat, name: string, core: Excerpt, events: Excerpt, service: Excerpt)

  // ----- Folder names -----

  /** The k-th name tried for a folder: the base itself, then `base-2`, `base-3`, … */
  function Candidate(base: string, k: nat): string {
    if k <= 1 then base else base + "-" + Decimal(k)
  }

  lemma CandidatesDiffer(base: string, j: nat, k: nat)
    requires 1 <= j < k
    ensures Candidate(base, j) != Candidate(base, k)
  {
    var b := Candidate(base, k);
    assert |b| > |base|;
    if j >= 2 && Candidate(base, j) == b {
      assert Candidate(base, j)[|base| + 1..] == Decimal(j);
      assert b[|base| + 1..] == Decimal(k);
      DecimalIsInjective(j, k);
    }
  }

  /** The first candidate that is not taken. It exists whatever was used before: every failed
      attempt names a different used folder. */
  method FreshFolder(base: string, used: set<string>) returns (folder: string, ghost k: nat)
    ensures k >= 1 && folder == Candidate(base, k)
    ensures folder !in used
    ensures forall j :: 1 <= j < k ==> Candidate(base, j) in used
  {
    folder := base;
    k := 1;
    var suffix := 2;
    ghost var tried: set<string> := {};
    while folder in used
      invariant k >= 1 && suffix == k + 1 && folder == Candidate(base, k)
      invariant tried <= used
      invariant forall j :: 1 <= j < k ==> Candidate(base, j) in used
      invariant forall name :: name in tried ==> exists j :: 1 <= j < k && name == Candidate(base, j)
      decreases used - tried
    {
      if folder in tried {
        var j :| 1 <= j < k && folder == Candidate(base, j);
        CandidatesDiffer(base, j, k);
      }
      tried := tried + {folder};
      folder := base + "-" + Decimal(suffix);
      suffix := suffix + 1;
      k := k + 1;
    }
  }

  predicate SlashFree(s: string) {
    '/' !in s
  }

  /** The name a session's folder starts from. */
  function BaseName(sessions: seq<Session>, index: nat): (r: string)
    requires index < |sessions|
    ensures SlashFree(r)
  {
    if index == |sessions| - 1 then "latest" else Decimal(sessions[index].connect / 1000)
  }

  // ----- Entry names -----

  const PREFIX := "core-sessions/"
  const INDEX_NAME := "core-sessions/index.txt"

  function EntryName(folder: string, file: string): string {
    PREFIX + folder + "/" + file
  }

  function FolderEntries(folder: Folder, about: (nat, Excerpt) -> Bytes): seq<Entry> {
    [Entry(EntryName(folder.name, "session.txt"), about(folder.index, folder.core)),
     Entry(EntryName(folder.name, "core.log"), folder.core.text)] +
    (if folder.events.text == [] then [] else [Entry(EntryName(folder.name, "events.log"), folder.events.text)]) +
    (if folder.service.text == [] then [] else [Entry(EntryName(folder.name, "service.log"), folder.service.text)])
  }

  function AllEntries(folders: seq<Folder>, about: (nat, Excerpt) -> Bytes): seq<Entry> {
    if folders == [] then [] else AllEntries(Front(folders), about) + FolderEntries(Last(folders), about)
  }

  ghost predicate DistinctNames(entries: seq<Entry>) {
    forall i, j :: 0 <= i < j < |entries| ==> entries[i].name != entries[j].name
  }

  ghost predicate DistinctFolders(folders: seq<Folder>) {
    && (forall i :: 0 <= i < |folders| ==> SlashFree(folders[i].name))
    && (forall i, j :: 0 <= i < j < |folders| ==> folders[i].name != folders[j].name)
  }

  function UpToSlash(s: string): string {
    if s == [] || s[0] == '/' then [] else [s[0]] + UpToSlash(s[1..])
  }

  /** The folder an entry lies in. */
  function FolderPart(name: string): string {
    if |name| < |PREFIX| then [] else UpToSlash(name[|PREFIX|..])
  }

  lemma {:induction false} UpToSlashStops(s: string, t: string)
    requires SlashFree(s)
    ensures UpToSlash(s + "/" + t) == s
  {
    if s != [] {
      assert (s + "/" + t)[1..] == s[1..] + "/" + t;
      UpToSlashStops(s[1..], t);
    }
  }

  lemma FolderPartOfEntry(folder: string, file: string)
    requires SlashFree(folder)
    ensures FolderPart(EntryName(folder, file)) == folder
  {
    assert EntryName(folder, file)[|PREFIX|..] == folder + "/" + file;
    UpToSlashStops(folder, file);
  }

  lemma FilesDiffer(folder: string, a: string, b: string)
    requires EntryName(folder, a) == EntryName(folder, b)
    ensures a == b
  {
    var n := |PREFIX + folder| + 1;
    assert EntryName(folder, a)[n..] == a;
    assert EntryName(folder, b)[n..] == b;
  }

  lemma {:induction false} FolderNamesDistinct(folder: Folder, about: (nat, Excerpt) -> Bytes)
    requires SlashFree(folder.name)
    ensures DistinctNames(FolderEntries(folder, about))
    ensures forall e :: e in FolderEntries(folder, about) ==> FolderPart(e.name) == folder.name && e.name != INDEX_NAME
  {
    var f := folder.name;
    var files := ["session.txt", "core.log", "events.log", "service.log"];
    FolderPartOfEntry(f, files[0]);
    FolderPartOfEntry(f, files[1]);
    FolderPartOfEntry(f, files[2]);
    FolderPartOfEntry(f, files[3]);
    assert files[0] != files[3] by {
      assert files[0][3] == 's' && files[3][3] == 'v';
    }
    forall a, b | 0 <= a < b < 4
      ensures EntryName(f, files[a]) != EntryName(f, files[b])
    {
      if EntryName(f, files[a]) == EntryName(f, files[b]) {
        FilesDiffer(f, files[a], files[b]);
      }
    }
    forall a | 0 <= a < 4
      ensures EntryName(f, files[a]) != INDEX_NAME
    {
      var name := EntryName(f, files[a]);
      assert name[|PREFIX| + |f|] == '/';
      assert forall i :: |PREFIX| <= i < |INDEX_NAME| ==> INDEX_NAME[i] != '/';
    }
  }

  lemma {:induction false} EntriesLieInFolders(folders: seq<Folder>, about: (nat, Excerpt) -> Bytes)
    requires DistinctFolders(folders)
    ensures forall e :: e in AllEntries(folders, about) ==>
              e.name != INDEX_NAME && exists i :: 0 <= i < |folders| && FolderPart(e.name) == folders[i].name
  {
    if folders != [] {
      EntriesLieInFolders(Front(folders), about);
      FolderNamesDistinct(Last(folders), about);
      forall e | e in AllEntries(folders, about)
        ensures e.name != INDEX_NAME && exists i :: 0 <= i < |folders| && FolderPart(e.name) == folders[i].name
      {
        if e in AllEntries(Front(folders), about) {
          var i :| 0 <= i < |Front(folders)| && FolderPart(e.name) == Front(folders)[i].name;
          assert folders[i] == Front(folders)[i];
        } else {
          assert FolderPart(e.name) == folders[|folders| - 1].name;
        }
      }
    }
  }

  lemma DistinctConcat(a: seq<Entry>, b: seq<Entry>)
    requires DistinctNames(a) && DistinctNames(b)
    requires forall x, y :: x in a && y in b ==> x.name != y.name
    ensures DistinctNames(a + b)
  {
    forall i, j | 0 <= i < j < |a + b|
      ensures (a + b)[i].name != (a + b)[j].name
    {
      if i < |a| <= j {
        assert a[i] in a && b[j - |a|] in b;
      }
    }
  }

  lemma {:induction false} AllNamesDistinct(folders: seq<Folder>, about: (nat, Excerpt) -> Bytes)
    requires DistinctFolders(folders)
    ensures DistinctNames(AllEntries(folders, about))
  {
    if folders != [] {
      var front, last := Front(folders), Last(folders);
      AllNamesDistinct(front, about);
      EntriesLieInFolders(front, about);
      FolderNamesDistinct(last, about);
      forall x, y | x in AllEntries(front, about) && y in FolderEntries(last, about)
        ensures x.name != y.name
      {
        var i :| 0 <= i < |front| && FolderPart(x.name) == front[i].name;
        assert front[i] == folders[i] && last == folders[|folders| - 1];
      }
      DistinctConcat(AllEntries(front, about), FolderEntries(last, about));
    }
  }

  /** No two entries of `core-sessions/` share a name, the table of contents included. */
  lemma {:induction false} EntryNamesDistinct(index: Entry, folders: seq<Folder>, about: (nat, Excerpt) -> Bytes)
    requires index.name == INDEX_NAME && DistinctFolders(folders)
    ensures DistinctNames([index] + AllEntries(folders, about))
  {
    AllNamesDistinct(folders, about);
    EntriesLieInFolders(folders, about);
    DistinctConcat([index], AllEntries(folders, about));
  }

  /** Entries under `core-sessions/` with different names. */
  ghost predicate SessionNames(entries: seq<Entry>) {
    DistinctNames(entries) && forall e :: e in entries ==> PREFIX <= e.name
  }

  lemma EntryNameHasPrefix(folder: string, file: string)
    ensures PREFIX <= EntryName(folder, file)
  {
  }

  lemma {:induction false} AllHavePrefix(folders: seq<Folder>, about: (nat, Excerpt) -> Bytes)
    ensures forall e :: e in AllEntries(folders, about) ==> PREFIX <= e.name
  {
    hide EntryName;
    if folders != [] {
      AllHavePrefix(Front(folders), about);
      var name := Last(folders).name;
      EntryNameHasPrefix(name, "session.txt");
      EntryNameHasPrefix(name, "core.log");
      EntryNameHasPrefix(name, "events.log");
      EntryNameHasPrefix(name, "service.log");
    }
  }

  /** No two entries share a name, and all lie under `core-sessions/`. */
  lemma {:induction false} AllAreSessionNames(index: Entry, folders: seq<Folder>, about: (nat, Excerpt) -> Bytes)
    requires index.name == INDEX_NAME && DistinctFolders(folders)
    ensures SessionNames([index] + AllEntries(folders, about))
  {
    hide AllEntries, DistinctNames, DistinctFolders;
    EntryNamesDistinct(index, folders, about);
    AllHavePrefix(folders, about);
    assert PREFIX <= INDEX_NAME;
  }

  // ----- What is found under which name -----

  ghost predicate HasFile(entries: seq<Entry>, folder: string, file: string, text: Bytes) {
    Entry("core-sessions/" + folder + "/" + file, text) in entries
  }

  ghost predicate LacksFile(entries: seq<Entry>, folder: string, file: string) {
    forall e :: e in entries ==> e.name != "core-sessions/" + folder + "/" + file
  }

  /** A log is there exactly when it is not empty. */
  ghost predicate OptionalFile(entries: seq<Entry>, folder: string, file: string, text: Bytes) {
    if text == [] then LacksFile(entries, folder, file) else HasFile(entries, folder, file, text)
  }

  /** The session's files, each with its own contents. */
  ghost predicate Filed(entries: seq<Entry>, folder: Folder, about: (nat, Excerpt) -> Bytes) {
    && HasFile(entries, folder.name, "session.txt", about(folder.index, folder.core))
    && HasFile(entries, folder.name, "core.log", folder.core.text)
    && OptionalFile(entries, folder.name, "events.log", folder.events.text)
    && OptionalFile(entries, folder.name, "service.log", folder.service.text)
  }

  ghost predicate AllFiled(entries: seq<Entry>, folders: seq<Folder>, about: (nat, Excerpt) -> Bytes) {
    forall k :: 0 <= k < |folders| ==> Filed(entries, folders[k], about)
  }

  /** `latest` for the newest session, else the second of its connect, numbered from 2 when taken. */
  ghost predicate WellNamed(folder: Folder, sessions: seq<Session>) {
    && folder.index < |sessions|
    && (folder.index == |sessions| - 1 ==> folder.name == "latest")
    && (folder.index != |sessions| - 1 ==>
          var second := Decimal(sessions[folder.index].connect / 1000);
          folder.name == second || exists j :: j >= 2 && folder.name == second + "-" + Decimal(j))
  }

  ghost predicate AllWellNamed(folders: seq<Folder>, sessions: seq<Session>) {
    forall k :: 0 <= k < |folders| ==> WellNamed(folders[k], sessions)
  }

  predicate IsCoreLog(name: string) {
    |name| >= 9 && name[|name| - 9..] == "/core.log"
  }

  /** The bytes of all core logs among the entries. */
  function CoreLogBytes(entries: seq<Entry>): nat {
    if entries == [] then 0
    else CoreLogBytes(Front(entries)) + if IsCoreLog(Last(entries).name) then |Last(entries).text| else 0
  }

  lemma NameInFull(folder: string, file: string)
    ensures EntryName(folder, file) == "core-sessions/" + folder + "/" + file
  {
  }

  lemma {:induction false} EntryIsSomeFolders(folders: seq<Folder>, about: (nat, Excerpt) -> Bytes, e: Entry)
    ensures e in AllEntries(folders, about) <==>
              exists k :: 0 <= k < |folders| && e in FolderEntries(folders[k], about)
  {
    hide FolderEntries;
    if folders != [] {
      var front := Front(folders);
      EntryIsSomeFolders(front, about, e);
      if k :| 0 <= k < |front| && e in FolderEntries(front[k], about) {
        assert folders[k] == front[k];
      }
      assert Last(folders) == folders[|folders| - 1];
      if k :| 0 <= k < |folders| && e in FolderEntries(folders[k], about) {
        assert k < |front| ==> front[k] == folders[k];
      }
    }
  }

  /** An entry of a folder is one of its four files. */
  lemma {:induction false} FileOfFolder(folder: Folder, about: (nat, Excerpt) -> Bytes, e: Entry, file: string)
    requires e in FolderEntries(folder, about) && e.name == EntryName(folder.name, file)
    ensures file in {"session.txt", "core.log", "events.log", "service.log"}
    ensures file == "events.log" ==> folder.events.text != []
    ensures file == "service.log" ==> folder.service.text != []
  {
    hide EntryName;
    var f := folder.name;
    if e.name == EntryName(f, "session.txt") {
      FilesDiffer(f, file, "session.txt");
    }
    if e.name == EntryName(f, "core.log") {
      FilesDiffer(f, file, "core.log");
    }
    if e.name == EntryName(f, "events.log") {
      FilesDiffer(f, file, "events.log");
    }
    if e.name == EntryName(f, "service.log") {
      FilesDiffer(f, file, "service.log");
    }
  }

  lemma {:induction false} FolderEntryName(folder: Folder, about: (nat, Excerpt) -> Bytes, e: Entry)
    requires SlashFree(folder.name) && e in FolderEntries(folder, about)
    ensures FolderPart(e.name) == folder.name
  {
    hide EntryName, FolderPart;
    FolderPartOfEntry(folder.name, "session.txt");
    FolderPartOfEntry(folder.name, "core.log");
    FolderPartOfEntry(folder.name, "events.log");
    FolderPartOfEntry(folder.name, "service.log");
  }

  /** A file of folder `k` comes from folder `k`. */
  lemma {:induction false} FileIsOwn(folders: seq<Folder>, about: (nat, Excerpt) -> Bytes, k: nat, file: string,
                                     e: Entry)
    requires DistinctFolders(folders) && k < |folders|
    requires e in AllEntries(folders, about) && e.name == EntryName(folders[k].name, file)
    ensures e in FolderEntries(folders[k], about)
  {
    hide EntryName, FolderPart, FolderEntries, AllEntries;
    EntryIsSomeFolders(folders, about, e);
    var j :| 0 <= j < |folders| && e in FolderEntries(folders[j], about);
    FolderEntryName(folders[j], about, e);
    FolderPartOfEntry(folders[k].name, file);
  }

  lemma {:induction false} MissingFile(index: Entry, folders: seq<Folder>, about: (nat, Excerpt) -> Bytes, k: nat,
                                       file: string)
    requires index.name == INDEX_NAME && DistinctFolders(folders) && k < |folders|
    requires || (file == "events.log" && folders[k].events.text == [])
             || (file == "service.log" && folders[k].service.text == [])
    ensures LacksFile([index] + AllEntries(folders, about), folders[k].name, file)
  {
    hide AllEntries, FolderEntries, EntryName, DistinctFolders;
    var name := EntryName(folders[k].name, file);
    NameInFull(folders[k].name, file);
    forall e | e in [index] + AllEntries(folders, about)
      ensures e.name != name
    {
      if e == index {
        IndexIsNoFile(folders[k].name, file);
      } else if e.name == name {
        FileIsOwn(folders, about, k, file, e);
        FileOfFolder(folders[k], about, e, file);
      }
    }
  }

  lemma IndexIsNoFile(folder: string, file: string)
    ensures EntryName(folder, file) != INDEX_NAME
  {
    var name := EntryName(folder, file);
    assert name[|PREFIX| + |folder|] == '/';
    assert forall i :: |PREFIX| <= i < |INDEX_NAME| ==> INDEX_NAME[i] != '/';
  }

  lemma {:induction false} PresentFile(index: Entry, folders: seq<Folder>, about: (nat, Excerpt) -> Bytes, k: nat,
                                       file: string, text: Bytes)
    requires k < |folders| && Entry(EntryName(folders[k].name, file), text) in FolderEntries(folders[k], about)
    ensures HasFile([index] + AllEntries(folders, about), folders[k].name, file, text)
  {
    hide AllEntries, FolderEntries, EntryName;
    NameInFull(folders[k].name, file);
    EntryIsSomeFolders(folders, about, Entry(EntryName(folders[k].name, file), text));
  }

  lemma {:induction false} FoldersAreFiled(index: Entry, folders: seq<Folder>, about: (nat, Excerpt) -> Bytes)
    requires index.name == INDEX_NAME && DistinctFolders(folders)
    ensures AllFiled([index] + AllEntries(folders, about), folders, about)
  {
    hide AllEntries, DistinctFolders, EntryName, HasFile, LacksFile;
    forall k | 0 <= k < |folders|
      ensures Filed([index] + AllEntries(folders, about), folders[k], about)
    {
      var f := folders[k];
      PresentFile(index, folders, about, k, "session.txt", about(f.index, f.core));
      PresentFile(index, folders, about, k, "core.log", f.core.text);
      if f.events.text == [] {
        MissingFile(index, folders, about, k, "events.log");
      } else {
        PresentFile(index, folders, about, k, "events.log", f.events.text);
      }
      if f.service.text == [] {
        MissingFile(index, folders, about, k, "service.log");
      } else {
        PresentFile(index, folders, about, k, "service.log", f.service.text);
      }
    }
  }

  lemma {:induction false} CoreLogBytesOfConcat(a: seq<Entry>, b: seq<Entry>)
    ensures CoreLogBytes(a + b) == CoreLogBytes(a) + CoreLogBytes(b)
  {
    if b == [] {
      assert a + b == a;
    } else {
      assert Front(a + b) == a + Front(b) && Last(a + b) == Last(b);
      CoreLogBytesOfConcat(a, Front(b));
    }
  }

  lemma CoreLogName(folder: string, file: string)
    requires file in {"session.txt", "core.log", "events.log", "service.log"}
    ensures IsCoreLog(EntryName(folder, file)) <==> file == "core.log"
  {
    var name := EntryName(folder, file);
    if file == "core.log" {
      assert name[|name| - 9..] == "/core.log";
    } else {
      assert name[|name| - 1] == file[|file| - 1] && name[|name| - 5] == file[|file| - 5];
      assert name[|name| - 6] == file[|file| - 6];
      var last := name[|name| - 9..];
      assert last[8] == name[|name| - 1] && last[4] == name[|name| - 5] && last[3] == name[|name| - 6];
    }
  }

  lemma CoreLogBytesOfOne(e: Entry)
    ensures CoreLogBytes([e]) == if IsCoreLog(e.name) then |e.text| else 0
  {
    assert Front([e]) == [] && CoreLogBytes([]) == 0;
  }

  lemma {:induction false} CoreLogBytesOfFolder(folder: Folder, about: (nat, Excerpt) -> Bytes)
    ensures CoreLogBytes(FolderEntries(folder, about)) == |folder.core.text|
  {
    hide IsCoreLog, EntryName, CoreLogBytes;
    var f := folder.name;
    CoreLogName(f, "session.txt");
    CoreLogName(f, "core.log");
    CoreLogName(f, "events.log");
    CoreLogName(f, "service.log");
    var a := Entry(EntryName(f, "session.txt"), about(folder.index, folder.core));
    var b := Entry(EntryName(f, "core.log"), folder.core.text);
    var c := Entry(EntryName(f, "events.log"), folder.events.text);
    var d := Entry(EntryName(f, "service.log"), folder.service.text);
    CoreLogBytesOfOne(a);
    CoreLogBytesOfOne(b);
    CoreLogBytesOfOne(c);
    CoreLogBytesOfOne(d);
    NoCoreLogs();
    var third := if folder.events.text == [] then [] else [c];
    var fourth := if folder.service.text == [] then [] else [d];
    assert [a, b] == [a] + [b];
    CoreLogBytesOfConcat([a], [b]);
    CoreLogBytesOfConcat([a, b], third);
    CoreLogBytesOfConcat([a, b] + third, fourth);
  }

  lemma NoCoreLogs()
    ensures CoreLogBytes([]) == 0
  {
  }

  lemma {:induction false} CoreLogBytesOfAll(folders: seq<Folder>, about: (nat, Excerpt) -> Bytes)
    ensures CoreLogBytes(AllEntries(folders, about)) == CoreBytes(folders)
  {
    hide FolderEntries, CoreLogBytes;
    if folders == [] {
      NoCoreLogs();
    } else {
      CoreLogBytesOfAll(Front(folders), about);
      CoreLogBytesOfFolder(Last(folders), about);
      CoreLogBytesOfConcat(AllEntries(Front(folders), about), FolderEntries(Last(folders), about));
    }
  }

  lemma {:induction false} CoreLogBytesWithIndex(index: Entry, folders: seq<Folder>, about: (nat, Excerpt) -> Bytes)
    requires index.name == INDEX_NAME
    ensures CoreLogBytes([index] + AllEntries(folders, about)) == CoreBytes(folders)
  {
    hide AllEntries, CoreLogBytes;
    CoreLogBytesOfOne(index);
    assert index.name[|index.name| - 9..][0] == '/' || !IsCoreLog(index.name);
    assert index.name[|index.name| - 9] == 'i';
    CoreLogBytesOfConcat([index], AllEntries(folders, about));
    CoreLogBytesOfAll(folders, about);
  }

  // ----- The entries -----

  /** Core log bytes over all folders. */
  function CoreBytes(folders: seq<Folder>): nat {
    if folders == [] then 0 else CoreBytes(Front(folders)) + |Last(folders).core.text|
  }

  /** What a folder may still use when `before` were written first. */
  function Allowance(before: seq<Folder>): int {
    Min(MAX_SESSION_LOG_BYTES, MAX_CORE_SESSIONS_BYTES - CoreBytes(before))
  }

  /** 16 MiB a session, and 64 MiB in all. */
  lemma AllowanceInNumbers(before: seq<Folder>)
    ensures Allowance(before) == Min(16_777_216, 67_108_864 - CoreBytes(before))
  {
  }

  /** `folder` holds the newest lines of its session that fit. */
  ghost predicate Faithful(folder: Folder, sessions: seq<Session>, core: seq<Line>, events: seq<Line>,
                           service: seq<Line>, allowance: int) {
    && allowance >= 0
    && folder.index < |sessions|
    && var p := Within(WindowAt(sessions, folder.index));
       && Newest(folder.core, Filter(p, core), allowance)
       && Newest(folder.events, Filter(p, events), MAX_SESSION_LOG_BYTES)
       && Newest(folder.service, Filter(p, service), MAX_SESSION_LOG_BYTES)
  }

  /** A candidate is the base name, or the base name with a number from 2 on. */
  lemma NameIsWell(sessions: seq<Session>, index: nat, k: nat)
    requires index < |sessions| && k >= 1
    ensures index == |sessions| - 1 ==> Candidate(BaseName(sessions, index), 1) == "latest"
    ensures index != |sessions| - 1 ==>
              var second := Decimal(sessions[index].connect / 1000);
              || Candidate(BaseName(sessions, index), k) == second
              || exists j :: j >= 2 && Candidate(BaseName(sessions, index), k) == second + "-" + Decimal(j)
  {
    hide Decimal;
    if k >= 2 {
      assert Candidate(BaseName(sessions, index), k) == BaseName(sessions, index) + "-" + Decimal(k);
    }
  }

  /** One folder: a fresh name and the excerpts of the three logs. */
  method BuildFolder(sessions: seq<Session>, index: nat, core: seq<Line>, events: seq<Line>, service: seq<Line>,
                     budget: nat, used: set<string>) returns (folder: Folder)
    requires index < |sessions|
    requires Sorted(ByStamp(), core) && Sorted(ByStamp(), events) && Sorted(ByStamp(), service)
    ensures folder.index == index
    ensures folder.name !in used && exists k :: folder.name == Candidate(BaseName(sessions, index), k)
    ensures index != |sessions| - 1 || used == {} ==> WellNamed(folder, sessions)
    ensures Faithful(folder, sessions, core, events, service, Min(MAX_SESSION_LOG_BYTES, budget))
  {
    hide Filter, Within, WindowAt, Sorted, ByStamp, Slice, Newest;
    var name, k := FreshFolder(BaseName(sessions, index), used);
    var window := WindowAt(sessions, index);
    SliceIsFilter(core, window);
    SliceIsFilter(events, window);
    SliceIsFilter(service, window);
    var coreText := NewestWithin(Slice(core, window), Min(MAX_SESSION_LOG_BYTES, budget));
    var eventsText := NewestWithin(Slice(events, window), MAX_SESSION_LOG_BYTES);
    var serviceText := NewestWithin(Slice(service, window), MAX_SESSION_LOG_BYTES);
    folder := Folder(index, name, coreText, eventsText, serviceText);
    NameIsWell(sessions, index, k);
  }

  ghost predicate AllFaithful(folders: seq<Folder>, sessions: seq<Session>, core: seq<Line>, events: seq<Line>,
                              service: seq<Line>) {
    forall k :: 0 <= k < |folders| ==> Faithful(folders[k], sessions, core, events, service, Allowance(folders[..k]))
  }

  lemma NewestFits(folder: Folder, sessions: seq<Session>, core: seq<Line>, events: seq<Line>, service: seq<Line>,
                   allowance: int)
    requires Faithful(folder, sessions, core, events, service, allowance)
    ensures |folder.core.text| <= allowance
  {
  }

  lemma CandidateIsSlashFree(base: string, k: nat)
    requires SlashFree(base)
    ensures SlashFree(Candidate(base, k))
  {
  }

  lemma AppendFaithful(folders: seq<Folder>, folder: Folder, sessions: seq<Session>, core: seq<Line>,
                       events: seq<Line>, service: seq<Line>)
    requires AllFaithful(folders, sessions, core, events, service)
    requires Faithful(folder, sessions, core, events, service, Allowance(folders))
    ensures AllFaithful(folders + [folder], sessions, core, events, service)
  {
    hide Faithful, Allowance;
    var more := folders + [folder];
    forall k | 0 <= k < |more|
      ensures Faithful(more[k], sessions, core, events, service, Allowance(more[..k]))
    {
      if k < |folders| {
        assert more[..k] == folders[..k];
      } else {
        assert more[..k] == folders;
      }
    }
  }

  ghost predicate Named(folders: seq<Folder>, used: set<string>) {
    forall j :: 0 <= j < |folders| ==> folders[j].name in used
  }

  lemma NoFolders()
    ensures CoreBytes([]) == 0 && DistinctFolders([]) && Named([], {})
  {
  }

  lemma AppendFolder(folders: seq<Folder>, folder: Folder, used: set<string>)
    requires DistinctFolders(folders) && Named(folders, used) && folder.name !in used && SlashFree(folder.name)
    ensures DistinctFolders(folders + [folder]) && Named(folders + [folder], used + {folder.name})
    ensures CoreBytes(folders + [folder]) == CoreBytes(folders) + |folder.core.text|
  {
    hide SlashFree;
    assert Front(folders + [folder]) == folders;
  }

  /** All folders, newest connection first: the size cap leaves out the oldest lines of the oldest
      connections. */
  method BuildFolders(sessions: seq<Session>, selected: seq<nat>, core: seq<Line>, events: seq<Line>,
                      service: seq<Line>)
    returns (folders: seq<Folder>)
    requires forall k :: 0 <= k < |selected| ==> selected[k] < |sessions|
    requires forall j, k :: 0 <= j < k < |selected| ==> selected[j] < selected[k]
    requires Sorted(ByStamp(), core) && Sorted(ByStamp(), events) && Sorted(ByStamp(), service)
    ensures AllWellNamed(folders, sessions)
    ensures |folders| == |selected|
    ensures forall k :: 0 <= k < |selected| ==> folders[k].index == selected[|selected| - 1 - k]
    ensures AllFaithful(folders, sessions, core, events, service)
    ensures CoreBytes(folders) <= MAX_CORE_SESSIONS_BYTES
    ensures DistinctFolders(folders)
  {
    hide Sorted, ByStamp, Faithful, AllFaithful, SlashFree, Candidate, BaseName, DistinctFolders, CoreBytes, Named,
      WellNamed;
    folders := [];
    NoFolders();
    AllFaithfulEmpty(sessions, core, events, service);
    var budget := MAX_CORE_SESSIONS_BYTES;
    var used: set<string> := {};
    for k := 0 to |selected|
      invariant |folders| == k
      invariant forall j :: 0 <= j < k ==> folders[j].index == selected[|selected| - 1 - j]
      invariant budget == MAX_CORE_SESSIONS_BYTES - CoreBytes(folders) >= 0
      invariant AllFaithful(folders, sessions, core, events, service)
      invariant DistinctFolders(folders)
      invariant Named(folders, used) && (k == 0 ==> used == {})
      invariant AllWellNamed(folders, sessions)
    {
      var index := selected[|selected| - 1 - k];
      assert k > 0 ==> index < selected[|selected| - 1];
      var folder := BuildFolder(sessions, index, core, events, service, budget, used);
      ghost var n :| folder.name == Candidate(BaseName(sessions, index), n);
      CandidateIsSlashFree(BaseName(sessions, index), n);
      NewestFits(folder, sessions, core, events, service, Allowance(folders));
      AppendFaithful(folders, folder, sessions, core, events, service);
      AppendFolder(folders, folder, used);
      budget := SaturatingSub(budget, |folder.core.text|);
      used := used + {folder.name};
      folders := folders + [folder];
    }
  }

  lemma AllFaithfulEmpty(sessions: seq<Session>, core: seq<Line>, events: seq<Line>, service: seq<Line>)
    ensures AllFaithful([], sessions, core, events, service)
  {
  }

  /** The whole `core-sessions/` part. `about` writes a session.txt, `table` the index. When no
      segment line is stamped after its segment was last written, every core.log is the newest part
      of *all* journal lines of its window, although old segments were never read. */
  method SessionEntries(sessions: seq<Session>, range: LogRange, now: Millis, segments: seq<Segment>,
                        service: seq<Line>, events: seq<Line>, serviceLog: seq<Line>,
                        about: (nat, Excerpt) -> Bytes, table: seq<Folder> -> Bytes)
    returns (entries: seq<Entry>, folders: seq<Folder>)
    ensures var selected := Selected(sessions, range, now, |sessions|);
            && |folders| == |selected|
            && (forall k :: 0 <= k < |selected| ==> folders[k].index == selected[|selected| - 1 - k])
            && (selected == [] ==> entries == [])
            && (selected != [] ==> entries == [Entry(INDEX_NAME, table(folders))] + AllEntries(folders, about))
    ensures SessionNames(entries)
    ensures AllFiled(entries, folders, about) && AllWellNamed(folders, sessions)
    ensures CoreBytes(folders) <= MAX_CORE_SESSIONS_BYTES
    ensures CoreLogBytes(entries) <= 67_108_864
    ensures var selected := Selected(sessions, range, now, |sessions|);
            selected != [] ==>
              AllFaithful(folders, sessions, CoreLines(JournalLines(segments, Since(sessions, selected)), service),
                          Sort(ByStamp(), events), Sort(ByStamp(), serviceLog))
    ensures Honest(segments) ==>
              AllFaithful(folders, sessions, CoreLines(JournalLines(segments, 0), service),
                          Sort(ByStamp(), events), Sort(ByStamp(), serviceLog))
  {
    hide Sorted, ByStamp, Faithful, AllFaithful, CoreLines, JournalLines, AllEntries, SessionNames, Filed, WellNamed,
      CoreLogBytes, CoreBytes;
    var selected := Selected(sessions, range, now, |sessions|);
    folders := [];
    if selected == [] {
      entries := [];
      NoEntries();
      NoCoreLogs();
      NoFolders();
      AllFaithfulEmpty(sessions, CoreLines(JournalLines(segments, 0), service), Sort(ByStamp(), events),
                       Sort(ByStamp(), serviceLog));
      return;
    }
    var since := Since(sessions, selected);
    var user := UserJournalLines(segments, since);
    var core := CoreLines(user, service);
    var sortedEvents := Sort(ByStamp(), events);
    var sortedService := Sort(ByStamp(), serviceLog);
    AllSorted(user, service, events, serviceLog);
    folders := BuildFolders(sessions, selected, core, sortedEvents, sortedService);
    var index := Entry(INDEX_NAME, table(folders));
    AllAreSessionNames(index, folders, about);
    FoldersAreFiled(index, folders, about);
    CoreLogBytesWithIndex(index, folders, about);
    entries := [index] + AllEntries(folders, about);
    if Honest(segments) {
      PruningKeepsFolders(folders, sessions, selected, segments, service, sortedEvents, sortedService, since);
    }
  }

  lemma NoEntries()
    ensures SessionNames([])
  {
  }

  lemma AllSorted(user: seq<Line>, service: seq<Line>, events: seq<Line>, serviceLog: seq<Line>)
    ensures Sorted(ByStamp(), CoreLines(user, service))
    ensures Sorted(ByStamp(), Sort(ByStamp(), events))
    ensures Sorted(ByStamp(), Sort(ByStamp(), serviceLog))
  {
    ByStampIsPreorder();
    SortIsSorted(ByStamp(), user + service);
    SortIsSorted(ByStamp(), events);
    SortIsSorted(ByStamp(), serviceLog);
  }

  lemma PruningKeepsFolders(folders: seq<Folder>, sessions: seq<Session>, selected: seq<nat>, segments: seq<Segment>,
                            service: seq<Line>, events: seq<Line>, serviceLog: seq<Line>, since: Millis)
    requires forall k :: 0 <= k < |selected| ==> selected[k] < |sessions|
    requires since == Since(sessions, selected)
    requires Honest(segments)
    requires |folders| == |selected| && forall k :: 0 <= k < |selected| ==>
              folders[k].index == selected[|selected| - 1 - k]
    requires AllFaithful(folders, sessions, CoreLines(JournalLines(segments, since), service), events, serviceLog)
    ensures AllFaithful(folders, sessions, CoreLines(JournalLines(segments, 0), service), events, serviceLog)
  {
    hide Sorted, ByStamp, CoreLines, JournalLines, Newest, Honest, WindowAt, Filter, Within, Allowance;
    forall k | 0 <= k < |folders|
      ensures Faithful(folders[k], sessions, CoreLines(JournalLines(segments, 0), service), events, serviceLog,
                       Allowance(folders[..k]))
    {
      var j := |selected| - 1 - k;
      assert folders[k].index == selected[j];
      PruningIsInvisible(segments, service, since, WindowAt(sessions, selected[j]));
      assert Faithful(folders[k], sessions, CoreLines(JournalLines(segments, since), service), events, serviceLog,
                      Allowance(folders[..k]));
    }
  }
}
