/** The saved log archive as a whole: every text is redacted, then cut to what is left of one shared
    budget, keeping its newest lines behind a marker. */
module LogBundle {
  import opened Basics
  import opened SessionArchive
  import opened SessionLogs
  import opened StableSort
  import Utf8

  const MAX_BUNDLE_BYTES: nat := 20 * 1024 * 1024

  /** The line that replaces a beginning that did not fit. */
  predicate IsMarker(marker: Bytes) {
    && marker != [] && Utf8.Valid(marker)
    && IndexOf(marker, NEWLINE) == |marker| - 1
  }

  // ----- Cutting a text -----

  /** The first character boundary at or after `at`. */
  function NextBoundary(text: Bytes, at: nat): (r: nat)
    requires at <= |text|
    ensures at <= r <= |text| && Utf8.Boundary(text, r)
    ensures forall i :: at <= i < r ==> !Utf8.Boundary(text, i)
    decreases |text| - at
  {
    if Utf8.Boundary(text, at) then at else NextBoundary(text, at + 1)
  }

  /** From where an over-long text is kept: the first line start after the cut. */
  function KeptFrom(text: Bytes, budget: nat, marker: Bytes): (r: nat)
    requires |text| > budget > |marker|
    ensures r <= |text|
  {
    LineStart(text, NextBoundary(text, |text| - (budget - |marker|)))
  }

  function KeptNewest(text: Bytes, budget: nat, marker: Bytes): Bytes {
    if |text| <= budget then text
    else if budget <= |marker| then []
    else marker + text[KeptFrom(text, budget, marker)..]
  }

  /** `text` if it fits, else its newest whole lines that do, behind the marker. */
  method KeepNewest(text: Bytes, budget: nat, marker: Bytes) returns (r: Bytes)
    requires Utf8.Valid(text) && IsMarker(marker)
    ensures r == KeptNewest(text, budget, marker)
    ensures |r| <= budget && Utf8.Valid(r)
  {
    hide Utf8.Valid, IndexOf, Utf8.Boundary, NextBoundary, IsMarker, KeptNewest;
    KeptNewestFits(text, budget, marker);
    KeptNewestIs(text, budget, marker);
    if |text| <= budget {
      return text;
    }
    if budget <= |marker| {
      return [];
    }
    var start := |text| - (budget - |marker|);
    ghost var cut := start;
    while !Utf8.Boundary(text, start)
      invariant cut <= start <= |text|
      invariant NextBoundary(text, start) == NextBoundary(text, cut)
      decreases |text| - start
    {
      BoundaryStep(text, start);
      start := start + 1;
    }
    BoundaryStep(text, start);
    var tail := text[start..];
    var newline := IndexOf(tail, NEWLINE);
    tail := if newline == |tail| then [] else tail[newline + 1..];
    r := marker + tail;
  }

  lemma BoundaryStep(text: Bytes, at: nat)
    requires at <= |text|
    ensures Utf8.Boundary(text, at) ==> NextBoundary(text, at) == at
    ensures !Utf8.Boundary(text, at) ==> at < |text| && NextBoundary(text, at) == NextBoundary(text, at + 1)
  {
  }

  lemma KeptNewestIs(text: Bytes, budget: nat, marker: Bytes)
    ensures |text| <= budget ==> KeptNewest(text, budget, marker) == text
    ensures |text| > budget && budget <= |marker| ==> KeptNewest(text, budget, marker) == []
    ensures |text| > budget > |marker| ==>
              var tail := text[NextBoundary(text, |text| - (budget - |marker|))..];
              var newline := IndexOf(tail, NEWLINE);
              KeptNewest(text, budget, marker) == marker + (if newline == |tail| then [] else tail[newline + 1..])
  {
    hide IndexOf, NextBoundary;
  }

  /** What is kept is never too long, is valid text, and apart from the marker is a suffix that
      starts at a line start. */
  lemma KeptNewestFits(text: Bytes, budget: nat, marker: Bytes)
    requires Utf8.Valid(text) && IsMarker(marker)
    ensures |KeptNewest(text, budget, marker)| <= budget
    ensures Utf8.Valid(KeptNewest(text, budget, marker))
    ensures |text| > budget > |marker| ==>
              var k := KeptFrom(text, budget, marker); k == |text| || (k > 0 && text[k - 1] == NEWLINE)
  {
    if |text| > budget > |marker| {
      var start := NextBoundary(text, |text| - (budget - |marker|));
      Utf8.CutIsValid(text, start);
      LineCutIsValid(text, start);
      Utf8.ConcatIsValid(marker, text[KeptFrom(text, budget, marker)..]);
    }
  }

  /** Exactly the lines that start after the cut are kept whole; one that starts at the cut goes too. */
  lemma LaterLinesAreKept(text: Bytes, budget: nat, marker: Bytes, j: nat)
    requires |text| > budget > |marker|
    requires 0 < j < |text| && text[j - 1] == NEWLINE
    ensures KeptFrom(text, budget, marker) <= j <==> |text| - (budget - |marker|) < j
  {
    var cut := |text| - (budget - |marker|);
    var start := NextBoundary(text, cut);
    var n := IndexOf(text[start..], NEWLINE);
    if cut < j {
      assert Utf8.Boundary(text, j - 1);
      assert start <= j - 1;
      assert text[start..][j - 1 - start] == NEWLINE;
      assert n <= j - 1 - start;
    }
  }

  /** A line that starts at the cut would fit with all behind it, and is dropped all the same. */
  lemma LineAtTheCutGoes(text: Bytes, budget: nat, marker: Bytes)
    requires |text| > budget > |marker|
    requires text[|text| - (budget - |marker|) - 1] == NEWLINE
    ensures |marker + text[|text| - (budget - |marker|)..]| == budget
    ensures KeptFrom(text, budget, marker) > |text| - (budget - |marker|)
  {
    LaterLinesAreKept(text, budget, marker, |text| - (budget - |marker|));
  }

  lemma LineCutIsValid(text: Bytes, cut: nat)
    requires Utf8.Valid(text) && cut <= |text|
    ensures Utf8.Valid(text[LineStart(text, cut)..])
  {
    hide LineStart;
    var k := LineStart(text, cut);
    if k < |text| && k > 0 {
      AfterNewlineIsBoundary(text, k);
    }
    if k == 0 {
      assert text[k..] == text;
    } else {
      Utf8.CutIsValid(text, k);
    }
  }

  /** After a line feed a new character starts. */
  lemma {:induction false} AfterNewlineIsBoundary(text: Bytes, k: nat)
    requires Utf8.Valid(text) && 0 < k < |text| && text[k - 1] == NEWLINE
    ensures Utf8.Boundary(text, k)
    decreases |text|
  {
    var n := Utf8.CharLen(text);
    if k > n {
      AfterNewlineIsBoundary(text[n..], k - n);
    } else if k == n {
      assert text[n..][0] == text[n];
      assert Utf8.CharLen(text[n..]) > 0;
    }
  }

  /** Cutting an already marked text again never leaves two markers: the old one goes with the
      beginning. */
  lemma MarkerIsReplaced(tail: Bytes, budget: nat, marker: Bytes)
    requires |marker + tail| > budget
    ensures KeptNewest(marker + tail, budget, marker) == [] ||
            exists k :: 0 <= k <= |tail| && KeptNewest(marker + tail, budget, marker) == marker + tail[k..]
  {
    var text := marker + tail;
    if budget > |marker| {
      var k := KeptFrom(text, budget, marker);
      assert k >= |marker|;
      assert text[k..] == tail[k - |marker|..];
    }
  }

  /** The end of a file, from a whole line on when its beginning is left out. `lossy` replaces what
      is not UTF-8. */
  method ReadTail(file: Bytes, limit: nat, marker: Bytes, lossy: Bytes -> Bytes) returns (text: Bytes)
    requires IsMarker(marker) && forall b :: Utf8.Valid(lossy(b))
    ensures Utf8.Valid(text)
    ensures |file| <= limit ==> text == lossy(file)
    ensures |file| > limit ==>
              var tail := lossy(file[|file| - limit..]); text == marker + tail[LineStart(tail, 0)..]
  {
    hide Utf8.Valid;
    var start := Max(|file| - limit, 0);
    var bytes := file[start..];
    assert |file| <= limit ==> bytes == file;
    text := lossy(bytes);
    if start > 0 {
      var newline := IndexOf(text, NEWLINE);
      assert text[0..] == text;
      var cut := if newline == |text| then |text| else newline + 1;
      LineCutIsValid(text, 0);
      MarkerIsValid(marker);
      Utf8.ConcatIsValid(marker, text[cut..]);
      text := marker + text[cut..];
    }
  }

  lemma MarkerIsValid(marker: Bytes)
    requires IsMarker(marker)
    ensures Utf8.Valid(marker)
  {
  }

  // ----- The archive -----

  /** A file under `logs/`; `contents` is missing when it cannot be read. */
  datatype LogFile = LogFile(name: string, contents: Option<Bytes>)

  datatype DataRoot = DataRoot(preferences: Option<Bytes>, logs: seq<LogFile>)

  datatype Inputs = Inputs(system: Bytes, diagnostics: Bytes, daemonDiagnostics: Bytes, windowsErrors: Bytes,
                           serviceLogs: seq<Entry>, dataRoot: Option<DataRoot>, coreSessions: seq<Entry>)

  /** The functions the archive is made with: redaction, lossy decoding and the marker. */
  datatype Tools = Tools(scrub: Bytes -> Bytes, lossy: Bytes -> Bytes, marker: Bytes) {
    ghost predicate Fine() {
      IsMarker(marker) && (forall b :: Utf8.Valid(scrub(b))) && (forall b :: Utf8.Valid(lossy(b)))
    }
  }

  function TotalBytes(entries: seq<Entry>): nat {
    if entries == [] then 0 else TotalBytes(entries[..|entries| - 1]) + |entries[|entries| - 1].text|
  }

  ghost predicate NamesIn(entries: seq<Entry>, names: set<string>) {
    forall i :: 0 <= i < |entries| ==> entries[i].name in names
  }

  /** The archive so far: nothing twice, and bytes plus remaining budget make up the whole. */
  ghost predicate Balanced(entries: seq<Entry>, budget: nat, names: set<string>) {
    DistinctNames(entries) && NamesIn(entries, names) && TotalBytes(entries) + budget == MAX_BUNDLE_BYTES
  }

  /** The archive under construction: entries, what is left of the budget, log names taken. */
  datatype Bundle = Bundle(entries: seq<Entry>, budget: nat, names: set<string>)

  function Added(b: Bundle, name: string, text: Bytes, tools: Tools): Bundle {
    var kept := KeptNewest(tools.scrub(text), b.budget, tools.marker);
    b.(entries := b.entries + [Entry(name, kept)], budget := Max(b.budget - |kept|, 0))
  }

  function FixedAdded(inputs: Inputs, tools: Tools): Bundle {
    var b := Bundle([], MAX_BUNDLE_BYTES, {});
    var b := Added(b, "system.txt", inputs.system, tools);
    var b := Added(b, "diagnostics.txt", inputs.diagnostics, tools);
    var b := Added(b, "daemon-diagnostics.json", inputs.daemonDiagnostics, tools);
    if inputs.windowsErrors == [] then b else Added(b, "windows-errors.txt", inputs.windowsErrors, tools)
  }

  /** Service logs come before the user's own, each name once. */
  function ServiceAdded(b: Bundle, logs: seq<Entry>, tools: Tools): Bundle {
    if logs == [] then b
    else
      var so, last := ServiceAdded(b, logs[..|logs| - 1], tools), logs[|logs| - 1];
      if last.name in so.names then so
      else Added(so, LogName(last.name), last.text, tools).(names := so.names + {last.name})
  }

  function TailOf(file: Bytes, limit: nat, tools: Tools): Bytes {
    if |file| <= limit then tools.lossy(file)
    else
      var tail := tools.lossy(file[|file| - limit..]);
      tools.marker + tail[LineStart(tail, 0)..]
  }

  /** User logs while there is room, each name once, unreadable ones left out. */
  function UserAdded(b: Bundle, logs: seq<LogFile>, tools: Tools): Bundle {
    if logs == [] then b
    else
      var so, last := UserAdded(b, logs[..|logs| - 1], tools), logs[|logs| - 1];
      if so.budget == 0 || last.name in so.names then so
      else
        var taken := so.names + {last.name};
        if last.contents.None? then so.(names := taken)
        else Added(so, LogName(last.name), TailOf(last.contents.value, so.budget, tools), tools).(names := taken)
  }

  function Budgeted(inputs: Inputs, tools: Tools): Bundle {
    var b := ServiceAdded(FixedAdded(inputs, tools), inputs.serviceLogs, tools);
    if inputs.dataRoot.None? then b
    else
      var root := inputs.dataRoot.value;
      UserAdded(if root.preferences.None? then b else Added(b, "preferences.json", root.preferences.value, tools),
                root.logs, tools)
  }

  lemma {:induction false} NoRoomNoMore(b: Bundle, logs: seq<LogFile>, i: nat, tools: Tools)
    requires i <= |logs| && UserAdded(b, logs[..i], tools).budget == 0
    ensures UserAdded(b, logs, tools) == UserAdded(b, logs[..i], tools)
    decreases |logs| - i
  {
    hide Added, TailOf;
    if i == |logs| {
      assert logs[..i] == logs;
    } else {
      assert logs[..i + 1][..i] == logs[..i];
      NoRoomNoMore(b, logs, i + 1, tools);
    }
  }

  /** Redacts a text, cuts it to the budget and adds it. */
  method Push(entries: seq<Entry>, budget: nat, ghost names: set<string>, name: string, text: Bytes, tools: Tools)
    returns (entries': seq<Entry>, budget': nat)
    requires tools.Fine() && Balanced(entries, budget, names) && name !in names
    ensures Balanced(entries', budget', names + {name})
    ensures forall taken :: Bundle(entries', budget', taken) == Added(Bundle(entries, budget, taken), name, text, tools)
  {
    hide Utf8.Valid, KeptNewest;
    var kept := KeepNewest(tools.scrub(text), budget, tools.marker);
    budget' := Max(budget - |kept|, 0);
    entries' := entries + [Entry(name, kept)];
    assert entries'[..|entries|] == entries;
  }

  const FIXED: set<string> := {"system.txt", "diagnostics.txt", "daemon-diagnostics.json", "windows-errors.txt",
                               "preferences.json"}

  function LogName(name: string): string {
    "logs/" + name
  }

  function LogNames(names: set<string>): set<string> {
    set n | n in names :: LogName(n)
  }

  lemma LogNamesDiffer(a: string, b: string)
    ensures LogName(a) == LogName(b) ==> a == b
  {
    assert LogName(a)[5..] == a && LogName(b)[5..] == b;
  }

  lemma LogNameIsNew(name: string, names: set<string>)
    requires name !in names
    ensures LogName(name) !in FIXED + LogNames(names)
    ensures LogNames(names + {name}) == LogNames(names) + {LogName(name)}
  {
    assert LogName(name)[4] == '/';
    assert forall f :: f in FIXED ==> |f| <= 4 || f[4] != '/';
    forall n | n in names
      ensures LogName(n) != LogName(name)
    {
      LogNamesDiffer(n, name);
    }
  }

  /** The first entries, whose names are fixed. */
  method PushFixed(inputs: Inputs, tools: Tools) returns (entries: seq<Entry>, budget: nat)
    requires tools.Fine()
    ensures Balanced(entries, budget, FIXED - {"preferences.json"})
    ensures Bundle(entries, budget, {}) == FixedAdded(inputs, tools)
  {
    hide Tools.Fine, Added, DistinctNames;
    entries, budget := [], MAX_BUNDLE_BYTES;
    NothingTwice();
    entries, budget := Push(entries, budget, {}, "system.txt", inputs.system, tools);
    entries, budget := Push(entries, budget, {"system.txt"}, "diagnostics.txt", inputs.diagnostics, tools);
    entries, budget := Push(entries, budget, {"system.txt", "diagnostics.txt"}, "daemon-diagnostics.json",
                            inputs.daemonDiagnostics, tools);
    ghost var so := {"system.txt", "diagnostics.txt", "daemon-diagnostics.json"};
    assert {"system.txt", "diagnostics.txt"} + {"daemon-diagnostics.json"} == so;
    if inputs.windowsErrors != [] {
      entries, budget := Push(entries, budget, so, "windows-errors.txt", inputs.windowsErrors, tools);
    }
  }

  lemma NothingTwice()
    ensures DistinctNames([])
  {
  }

  lemma Widen(entries: seq<Entry>, budget: nat, names: set<string>, more: set<string>)
    requires Balanced(entries, budget, names) && names <= more
    ensures Balanced(entries, budget, more)
  {
  }

  /** The service's own log files; a name is taken once. */
  method PushServiceLogs(entries: seq<Entry>, budget: nat, logs: seq<Entry>, tools: Tools)
    returns (entries': seq<Entry>, budget': nat, names: set<string>)
    requires tools.Fine() && Balanced(entries, budget, FIXED - {"preferences.json"})
    ensures Balanced(entries', budget', FIXED - {"preferences.json"} + LogNames(names))
    ensures Bundle(entries', budget', names) == ServiceAdded(Bundle(entries, budget, {}), logs, tools)
  {
    hide Tools.Fine, Added, Balanced, LogName;
    ghost var fixed := FIXED - {"preferences.json"};
    entries', budget', names := entries, budget, {};
    assert fixed + LogNames({}) == fixed;
    for i := 0 to |logs|
      invariant Balanced(entries', budget', fixed + LogNames(names))
      invariant Bundle(entries', budget', names) == ServiceAdded(Bundle(entries, budget, {}), logs[..i], tools)
    {
      assert logs[..i + 1][..i] == logs[..i];
      AddedKeepsNames(Bundle(entries', budget', names), LogName(logs[i].name), logs[i].text, tools);
      var name := logs[i].name;
      if name !in names {
        LogNameIsNew(name, names);
        entries', budget' := Push(entries', budget', fixed + LogNames(names), LogName(name), logs[i].text, tools);
        names := names + {name};
        assert fixed + LogNames(names - {name}) + {LogName(name)} == fixed + LogNames(names);
      }
    }
    assert logs[..|logs|] == logs;
  }

  method PushPreferences(entries: seq<Entry>, budget: nat, ghost names: set<string>, preferences: Option<Bytes>,
                         tools: Tools)
    returns (entries': seq<Entry>, budget': nat)
    requires tools.Fine() && Balanced(entries, budget, FIXED - {"preferences.json"} + LogNames(names))
    ensures Balanced(entries', budget', FIXED + LogNames(names))
    ensures Bundle(entries', budget', names) ==
            if preferences.None? then Bundle(entries, budget, names)
            else Added(Bundle(entries, budget, names), "preferences.json", preferences.value, tools)
  {
    hide Tools.Fine, Added, Balanced, LogNames;
    entries', budget' := entries, budget;
    ghost var so := FIXED - {"preferences.json"} + LogNames(names);
    if preferences.Some? {
      PreferencesIsNoLog(names);
      entries', budget' := Push(entries', budget', so, "preferences.json", preferences.value, tools);
      Widen(entries', budget', so + {"preferences.json"}, FIXED + LogNames(names));
    } else {
      Widen(entries', budget', so, FIXED + LogNames(names));
    }
  }

  /** One log file whose name is still free. */
  method PushUserLog(entries: seq<Entry>, budget: nat, ghost names: set<string>, file: LogFile, tools: Tools)
    returns (entries': seq<Entry>, budget': nat)
    requires tools.Fine() && Balanced(entries, budget, FIXED + LogNames(names)) && file.name !in names
    ensures Balanced(entries', budget', FIXED + LogNames(names + {file.name}))
    ensures Bundle(entries', budget', names) ==
            if file.contents.None? then Bundle(entries, budget, names)
            else Added(Bundle(entries, budget, names), LogName(file.name), TailOf(file.contents.value, budget, tools),
                       tools)
  {
    hide Tools.Fine, Added, Balanced, LogName, TailOf, LogNames;
    entries', budget' := entries, budget;
    ghost var so := FIXED + LogNames(names);
    LogNameIsNew(file.name, names);
    assert so + {LogName(file.name)} == FIXED + LogNames(names + {file.name});
    if file.contents.Some? {
      FineTools(tools);
      var text := ReadTail(file.contents.value, budget', tools.marker, tools.lossy);
      TailOfIs(file.contents.value, budget', tools);
      entries', budget' := Push(entries', budget', so, LogName(file.name), text, tools);
    } else {
      Widen(entries', budget', so, FIXED + LogNames(names + {file.name}));
    }
  }

  /** The user's preferences and log files, newest file first, while there is room. */
  method PushUserLogs(entries: seq<Entry>, budget: nat, names: set<string>, root: DataRoot, tools: Tools)
    returns (entries': seq<Entry>, budget': nat, names': set<string>)
    requires tools.Fine() && Balanced(entries, budget, FIXED - {"preferences.json"} + LogNames(names))
    ensures Balanced(entries', budget', FIXED + LogNames(names'))
    ensures Bundle(entries', budget', names') ==
            UserAdded(if root.preferences.None? then Bundle(entries, budget, names)
                      else Added(Bundle(entries, budget, names), "preferences.json", root.preferences.value,
                                 tools), root.logs, tools)
  {
    hide Tools.Fine, Added, Balanced, LogName, TailOf, LogNames;
    entries', budget' := PushPreferences(entries, budget, names, root.preferences, tools);
    names' := names;
    ghost var b := Bundle(entries', budget', names');
    for i := 0 to |root.logs|
      invariant Balanced(entries', budget', FIXED + LogNames(names'))
      invariant Bundle(entries', budget', names') == UserAdded(b, root.logs[..i], tools)
    {
      assert root.logs[..i + 1][..i] == root.logs[..i];
      if budget' == 0 {
        NoRoomNoMore(b, root.logs, i, tools);
        return;
      }
      var file := root.logs[i];
      if file.name in names' {
        continue;
      }
      entries', budget' := PushUserLog(entries', budget', names', file, tools);
      names' := names' + {file.name};
    }
    assert root.logs[..|root.logs|] == root.logs;
  }

  lemma {:induction false} TailOfIs(file: Bytes, limit: nat, tools: Tools)
    ensures |file| <= limit ==> TailOf(file, limit, tools) == tools.lossy(file)
    ensures |file| > limit ==>
              var tail := tools.lossy(file[|file| - limit..]);
              TailOf(file, limit, tools) == tools.marker + tail[LineStart(tail, 0)..]
  {
  }

  lemma {:induction false} AddedKeepsNames(b: Bundle, name: string, text: Bytes, tools: Tools)
    ensures Added(b, name, text, tools).names == b.names
    ensures forall taken :: Added(b.(names := taken), name, text, tools) == Added(b, name, text, tools).(names := taken)
  {
  }

  lemma {:induction false} FineTools(tools: Tools)
    requires tools.Fine()
    ensures IsMarker(tools.marker) && forall b :: Utf8.Valid(tools.lossy(b))
  {
  }

  lemma PreferencesIsNoLog(names: set<string>)
    ensures "preferences.json" !in FIXED - {"preferences.json"} + LogNames(names)
  {
    forall n | n in names
      ensures LogName(n) != "preferences.json"
    {
      assert LogName(n)[0] == 'l';
    }
  }

  // ----- What the budgeted entries are -----

  /** `text` is what goes under `name` when `left` bytes are left. */
  ghost predicate Source(inputs: Inputs, tools: Tools, left: nat, name: string, text: Bytes) {
    || (name == "system.txt" && text == inputs.system)
    || (name == "diagnostics.txt" && text == inputs.diagnostics)
    || (name == "daemon-diagnostics.json" && text == inputs.daemonDiagnostics)
    || (name == "windows-errors.txt" && text == inputs.windowsErrors && text != [])
    || ServiceSource(inputs.serviceLogs, name, text)
    || (inputs.dataRoot.Some? && UserSource(inputs.dataRoot.value, tools, left, name, text))
  }

  /** The first service log of that name. */
  ghost predicate ServiceSource(logs: seq<Entry>, name: string, text: Bytes) {
    exists j :: (&& 0 <= j < |logs| && name == "logs/" + logs[j].name && text == logs[j].text
                 && forall i :: 0 <= i < j ==> logs[i].name != logs[j].name)
  }

  /** The preferences, or the end of a log file. */
  ghost predicate UserSource(root: DataRoot, tools: Tools, left: nat, name: string, text: Bytes) {
    || (name == "preferences.json" && root.preferences == Some(text))
    || (exists j :: (&& 0 <= j < |root.logs| && name == "logs/" + root.logs[j].name && root.logs[j].contents.Some?
                     && text == TailOf(root.logs[j].contents.value, left, tools)))
  }

  /** What is left of the 20 MiB before entry `i`. */
  function LeftBefore(entries: seq<Entry>, i: nat): int
    requires i <= |entries|
  {
    20_971_520 - TotalBytes(entries[..i])
  }

  /** Entry `i` is its redacted source, cut to what was left. */
  ghost predicate IsCut(entries: seq<Entry>, i: nat, inputs: Inputs, tools: Tools)
    requires i < |entries|
  {
    && LeftBefore(entries, i) >= 0
    && exists text ::
         && Source(inputs, tools, LeftBefore(entries, i), entries[i].name, text)
         && entries[i].text == KeptNewest(tools.scrub(text), LeftBefore(entries, i), tools.marker)
  }

  ghost predicate AllCut(entries: seq<Entry>, inputs: Inputs, tools: Tools) {
    forall i :: 0 <= i < |entries| ==> IsCut(entries, i, inputs, tools)
  }

  ghost predicate Contains(entries: seq<Entry>, name: string) {
    exists i :: 0 <= i < |entries| && entries[i].name == name
  }

  ghost predicate FixedComplete(entries: seq<Entry>, inputs: Inputs) {
    && Contains(entries, "system.txt") && Contains(entries, "diagnostics.txt")
    && Contains(entries, "daemon-diagnostics.json")
    && (inputs.windowsErrors != [] ==> Contains(entries, "windows-errors.txt"))
  }

  ghost predicate ServiceComplete(entries: seq<Entry>, logs: seq<Entry>) {
    forall j :: 0 <= j < |logs| ==> Contains(entries, "logs/" + logs[j].name)
  }

  ghost predicate RootComplete(entries: seq<Entry>, left: nat, root: DataRoot) {
    && (root.preferences.Some? ==> Contains(entries, "preferences.json"))
    && (left > 0 ==> LogsComplete(entries, root.logs))
  }

  ghost predicate LogsComplete(entries: seq<Entry>, logs: seq<LogFile>) {
    forall j :: 0 <= j < |logs| && FirstReadable(logs, j) ==> Contains(entries, "logs/" + logs[j].name)
  }

  ghost predicate FirstReadable(logs: seq<LogFile>, j: nat)
    requires j < |logs|
  {
    logs[j].contents.Some? && forall i :: 0 <= i < j ==> logs[i].name != logs[j].name
  }

  /** Nothing is missing: the fixed files, every service log, the preferences, and every readable log file
      unless its name or the budget is used up. */
  ghost predicate Complete(entries: seq<Entry>, left: nat, inputs: Inputs) {
    && FixedComplete(entries, inputs) && ServiceComplete(entries, inputs.serviceLogs)
    && (inputs.dataRoot.Some? ==> RootComplete(entries, left, inputs.dataRoot.value))
  }

  /** The bundle is exact so far. */
  ghost predicate Exact(b: Bundle, inputs: Inputs, tools: Tools) {
    b.budget == 20_971_520 - TotalBytes(b.entries) && AllCut(b.entries, inputs, tools)
  }

  lemma {:induction false} AddedIs(b: Bundle, name: string, text: Bytes, tools: Tools)
    requires tools.Fine()
    ensures var kept := KeptNewest(tools.scrub(text), b.budget, tools.marker);
            && |kept| <= b.budget
            && Added(b, name, text, tools) == Bundle(b.entries + [Entry(name, kept)], b.budget - |kept|, b.names)
  {
    hide KeptNewest, Utf8.Valid;
    KeptNewestFits(tools.scrub(text), b.budget, tools.marker);
  }

  lemma {:induction false} AddedIsExact(b: Bundle, name: string, text: Bytes, inputs: Inputs, tools: Tools)
    requires tools.Fine() && Exact(b, inputs, tools) && Source(inputs, tools, b.budget, name, text)
    ensures Exact(Added(b, name, text, tools), inputs, tools)
  {
    hide Added, KeptNewest, Source, Tools.Fine;
    AddedIs(b, name, text, tools);
    var kept := KeptNewest(tools.scrub(text), b.budget, tools.marker);
    var more := b.entries + [Entry(name, kept)];
    assert more[..|b.entries|] == b.entries;
    forall i | 0 <= i < |more|
      ensures IsCut(more, i, inputs, tools)
    {
      assert more[..i] == b.entries[..i];
      if i < |b.entries| {
        assert IsCut(b.entries, i, inputs, tools) && more[i] == b.entries[i];
      } else {
        assert b.entries[..i] == b.entries;
      }
    }
  }

  lemma {:induction false} AddedContains(b: Bundle, name: string, text: Bytes, tools: Tools, other: string)
    requires Contains(b.entries, other) || other == name
    ensures Contains(Added(b, name, text, tools).entries, other)
  {
    hide KeptNewest;
    var more := Added(b, name, text, tools).entries;
    assert more[|b.entries|].name == name;
    if i :| 0 <= i < |b.entries| && b.entries[i].name == other {
      assert more[i] == b.entries[i];
    }
  }

  /** Nothing that was there is lost. */
  ghost predicate Grown(a: seq<Entry>, b: seq<Entry>) {
    forall name :: Contains(a, name) ==> Contains(b, name)
  }

  lemma {:induction false} AddedGrows(a: seq<Entry>, b: Bundle, name: string, text: Bytes, tools: Tools)
    requires Grown(a, b.entries)
    ensures Grown(a, Added(b, name, text, tools).entries) && Contains(Added(b, name, text, tools).entries, name)
  {
    hide Added, Contains;
    AddedContains(b, name, text, tools, name);
    forall other | Contains(a, other)
      ensures Contains(Added(b, name, text, tools).entries, other)
    {
      AddedContains(b, name, text, tools, other);
    }
  }

  lemma GrownSame(a: seq<Entry>)
    ensures Grown(a, a)
  {
  }

  lemma {:induction false} ExactIgnoresNames(b: Bundle, names: set<string>, inputs: Inputs, tools: Tools)
    requires Exact(b, inputs, tools)
    ensures Exact(b.(names := names), inputs, tools)
  {
  }

  lemma {:induction false} NothingIsExact(inputs: Inputs, tools: Tools)
    ensures Exact(Bundle([], MAX_BUNDLE_BYTES, {}), inputs, tools)
  {
  }

  /** One more entry: exact, nothing lost, the new name there and no log name taken. */
  lemma {:induction false} OneMore(b: Bundle, name: string, text: Bytes, inputs: Inputs, tools: Tools)
    requires tools.Fine() && Exact(b, inputs, tools) && Source(inputs, tools, b.budget, name, text)
    ensures var more := Added(b, name, text, tools);
            && Exact(more, inputs, tools) && Grown(b.entries, more.entries) && Contains(more.entries, name)
            && more.names == b.names
  {
    hide Added, Contains, Exact, Source, Grown, Tools.Fine;
    AddedIsExact(b, name, text, inputs, tools);
    GrownSame(b.entries);
    AddedGrows(b.entries, b, name, text, tools);
    AddedKeepsNames(b, name, text, tools);
  }

  lemma {:induction false} FixedIsExact(inputs: Inputs, tools: Tools)
    requires tools.Fine()
    ensures var b := FixedAdded(inputs, tools);
            Exact(b, inputs, tools) && b.names == {} && FixedComplete(b.entries, inputs)
  {
    hide Added, Tools.Fine, Contains, Exact;
    var b0 := Bundle([], MAX_BUNDLE_BYTES, {});
    NothingIsExact(inputs, tools);
    var b1 := Added(b0, "system.txt", inputs.system, tools);
    OneMore(b0, "system.txt", inputs.system, inputs, tools);
    var b2 := Added(b1, "diagnostics.txt", inputs.diagnostics, tools);
    OneMore(b1, "diagnostics.txt", inputs.diagnostics, inputs, tools);
    var b3 := Added(b2, "daemon-diagnostics.json", inputs.daemonDiagnostics, tools);
    OneMore(b2, "daemon-diagnostics.json", inputs.daemonDiagnostics, inputs, tools);
    if inputs.windowsErrors != [] {
      OneMore(b3, "windows-errors.txt", inputs.windowsErrors, inputs, tools);
    }
  }

  lemma {:induction false} ServiceIsExact(b: Bundle, n: nat, inputs: Inputs, tools: Tools)
    requires tools.Fine() && Exact(b, inputs, tools) && b.names == {} && n <= |inputs.serviceLogs|
    ensures var so := ServiceAdded(b, inputs.serviceLogs[..n], tools);
            && Exact(so, inputs, tools) && Grown(b.entries, so.entries)
            && (forall name :: name in so.names <==> exists j :: 0 <= j < n && inputs.serviceLogs[j].name == name)
            && ServiceComplete(so.entries, inputs.serviceLogs[..n])
  {
    hide Added, Tools.Fine, Contains, Exact;
    var logs := inputs.serviceLogs;
    if n == 0 {
      assert logs[..0] == [];
    } else {
      ServiceIsExact(b, n - 1, inputs, tools);
      assert logs[..n][..n - 1] == logs[..n - 1];
      var so, last := ServiceAdded(b, logs[..n - 1], tools), logs[n - 1];
      if last.name in so.names {
        var j :| 0 <= j < n - 1 && logs[j].name == last.name;
        assert logs[..n - 1][j] == logs[j];
      } else {
        assert ServiceSource(logs, "logs/" + last.name, last.text);
        OneMore(so, "logs/" + last.name, last.text, inputs, tools);
        ExactIgnoresNames(Added(so, "logs/" + last.name, last.text, tools), so.names + {last.name}, inputs, tools);
      }
      forall j | 0 <= j < n
        ensures Contains(ServiceAdded(b, logs[..n], tools).entries, "logs/" + logs[..n][j].name)
      {
        if j < n - 1 {
          assert logs[..n - 1][j] == logs[..n][j];
        }
      }
    }
  }

  /** Every taken log name has its entry. */
  ghost predicate NamesContained(b: Bundle) {
    forall name :: name in b.names ==> Contains(b.entries, "logs/" + name)
  }

  /** The names taken after the first `n` log files. */
  ghost predicate NamesFrom(names: set<string>, before: set<string>, logs: seq<LogFile>, n: nat)
    requires n <= |logs|
  {
    forall name :: name in names ==> name in before || exists j :: 0 <= j < n && logs[j].name == name
  }

  lemma {:induction false} UserIsExact(b: Bundle, n: nat, inputs: Inputs, tools: Tools)
    requires tools.Fine() && Exact(b, inputs, tools) && NamesContained(b)
    requires inputs.dataRoot.Some? && n <= |inputs.dataRoot.value.logs|
    ensures var logs := inputs.dataRoot.value.logs;
            var so := UserAdded(b, logs[..n], tools);
            && Exact(so, inputs, tools) && Grown(b.entries, so.entries) && NamesFrom(so.names, b.names, logs, n)
            && (so.budget > 0 ==> LogsComplete(so.entries, logs[..n]))
  {
    hide Added, Tools.Fine, Contains, Exact, TailOf;
    var logs := inputs.dataRoot.value.logs;
    if n == 0 {
      assert logs[..0] == [];
    } else {
      UserIsExact(b, n - 1, inputs, tools);
      assert logs[..n][..n - 1] == logs[..n - 1];
      var so, last := UserAdded(b, logs[..n - 1], tools), logs[n - 1];
      var name := "logs/" + last.name;
      if so.budget > 0 && last.name !in so.names && last.contents.Some? {
        var text := TailOf(last.contents.value, so.budget, tools);
        assert UserSource(inputs.dataRoot.value, tools, so.budget, name, text);
        OneMore(so, name, text, inputs, tools);
        ExactIgnoresNames(Added(so, name, text, tools), so.names + {last.name}, inputs, tools);
        AddedIs(so, name, text, tools);
      } else {
        ExactIgnoresNames(so, so.names + {last.name}, inputs, tools);
      }
      UserStep(b, so, UserAdded(b, logs[..n], tools), logs, n);
    }
  }

  /** Completeness after one more log file. */
  lemma UserStep(b: Bundle, so: Bundle, now: Bundle, logs: seq<LogFile>, n: nat)
    requires 0 < n <= |logs| && NamesContained(b) && Grown(b.entries, so.entries) && Grown(so.entries, now.entries)
    requires NamesFrom(so.names, b.names, logs, n - 1) && now.budget <= so.budget
    requires so.budget > 0 ==> LogsComplete(so.entries, logs[..n - 1])
    requires so.budget > 0 && logs[n - 1].name !in so.names && logs[n - 1].contents.Some? ==>
               Contains(now.entries, "logs/" + logs[n - 1].name)
    ensures now.budget > 0 ==> LogsComplete(now.entries, logs[..n])
  {
    hide Contains;
    if now.budget > 0 {
      forall j | 0 <= j < n && FirstReadable(logs[..n], j)
        ensures Contains(now.entries, "logs/" + logs[..n][j].name)
      {
        if j < n - 1 {
          assert logs[..n - 1][j] == logs[..n][j];
          assert forall i :: 0 <= i < j ==> logs[..n - 1][i] == logs[..n][i];
          assert FirstReadable(logs[..n - 1], j);
        } else if logs[j].name in so.names {
          assert forall i :: 0 <= i < j ==> logs[i] == logs[..n][i];
          assert logs[j].name in b.names;
        }
      }
    }
  }

  /** The budgeted entries are exactly the redacted sources, each cut to what was left, and complete. */
  lemma {:induction false} BudgetedIsExact(inputs: Inputs, tools: Tools)
    requires tools.Fine()
    ensures var b := Budgeted(inputs, tools);
            Exact(b, inputs, tools) && Complete(b.entries, b.budget, inputs)
  {
    hide Added, Tools.Fine, Contains, Exact, FixedAdded, ServiceAdded, UserAdded, Source;
    FixedIsExact(inputs, tools);
    var fixed := FixedAdded(inputs, tools);
    ServiceIsExact(fixed, |inputs.serviceLogs|, inputs, tools);
    assert inputs.serviceLogs[..|inputs.serviceLogs|] == inputs.serviceLogs;
    var b := ServiceAdded(fixed, inputs.serviceLogs, tools);
    assert NamesContained(b);
    if inputs.dataRoot.Some? {
      var root := inputs.dataRoot.value;
      var c := if root.preferences.None? then b else Added(b, "preferences.json", root.preferences.value, tools);
      if root.preferences.Some? {
        PreferencesAreASource(inputs, tools, b.budget);
        OneMore(b, "preferences.json", root.preferences.value, inputs, tools);
      }
      UserIsExact(c, |root.logs|, inputs, tools);
      assert root.logs[..|root.logs|] == root.logs;
    }
  }

  lemma {:induction false} PreferencesAreASource(inputs: Inputs, tools: Tools, left: nat)
    requires inputs.dataRoot.Some? && inputs.dataRoot.value.preferences.Some?
    ensures Source(inputs, tools, left, "preferences.json", inputs.dataRoot.value.preferences.value)
  {
  }

  /** The archive of given inputs: `budgeted` of its entries share 20 MiB, and no name occurs twice
      whatever the log files are called, as long as the session entries lie in their own directory. */
  method CollectEntries(inputs: Inputs, tools: Tools) returns (entries: seq<Entry>, budgeted: nat, left: nat)
    requires tools.Fine()
    ensures SessionNames(inputs.coreSessions) ==> DistinctNames(entries)
    ensures budgeted <= |entries| && entries[..budgeted] == Budgeted(inputs, tools).entries
    ensures budgeted <= |entries| && TotalBytes(entries[..budgeted]) + left == MAX_BUNDLE_BYTES
    ensures budgeted <= |entries| && AllCut(entries[..budgeted], inputs, tools)
    ensures budgeted <= |entries| && Complete(entries[..budgeted], left, inputs)
    ensures |entries| == budgeted + |inputs.coreSessions|
    ensures forall i :: 0 <= i < |inputs.coreSessions| ==>
              entries[budgeted + i] == Entry(inputs.coreSessions[i].name, tools.scrub(inputs.coreSessions[i].text))
  {
    hide Tools.Fine, LogNames, TotalBytes, FixedAdded, ServiceAdded, UserAdded, Added, AllCut, Complete;
    BudgetedIsExact(inputs, tools);
    var names;
    entries, left := PushFixed(inputs, tools);
    entries, left, names := PushServiceLogs(entries, left, inputs.serviceLogs, tools);
    if inputs.dataRoot.Some? {
      entries, left, names := PushUserLogs(entries, left, names, inputs.dataRoot.value, tools);
    } else {
      Widen(entries, left, FIXED - {"preferences.json"} + LogNames(names), FIXED + LogNames(names));
    }
    budgeted := |entries|;
    ghost var first := entries;
    ghost var sessions: seq<Entry> := [];
    for i := 0 to |inputs.coreSessions|
      invariant |sessions| == i && entries == first + sessions
      invariant forall j :: 0 <= j < i ==>
          sessions[j] == Entry(inputs.coreSessions[j].name, tools.scrub(inputs.coreSessions[j].text))
    {
      sessions := sessions + [Entry(inputs.coreSessions[i].name, tools.scrub(inputs.coreSessions[i].text))];
      entries := entries + [Entry(inputs.coreSessions[i].name, tools.scrub(inputs.coreSessions[i].text))];
    }
    assert entries[..budgeted] == first;
    if SessionNames(inputs.coreSessions) {
      SessionsApart(first, sessions, inputs.coreSessions, names);
    }
  }

  /** What the session part is made from. */
  datatype Journals = Journals(sessions: seq<Session>, range: LogRange, now: Millis, segments: seq<Segment>,
                               service: seq<Line>, events: seq<Line>, serviceLog: seq<Line>)

  /** The entries of the folders, behind the index; none when no session is in the range. */
  function SessionPart(journals: Journals, folders: seq<Folder>, about: (nat, Excerpt) -> Bytes,
                       table: seq<Folder> -> Bytes): seq<Entry> {
    if Selected(journals.sessions, journals.range, journals.now, |journals.sessions|) == [] then []
    else [Entry(INDEX_NAME, table(folders))] + AllEntries(folders, about)
  }

  /** What is budgeted does not depend on the session entries. */
  lemma {:induction false} CutIgnoresSessions(entries: seq<Entry>, left: nat, inputs: Inputs, sessions: seq<Entry>,
                                              tools: Tools)
    ensures AllCut(entries, inputs.(coreSessions := sessions), tools) ==> AllCut(entries, inputs, tools)
    ensures Complete(entries, left, inputs.(coreSessions := sessions)) ==> Complete(entries, left, inputs)
  {
    hide KeptNewest, TailOf, TotalBytes;
    if AllCut(entries, inputs.(coreSessions := sessions), tools) {
      forall i | 0 <= i < |entries|
        ensures IsCut(entries, i, inputs, tools)
      {
        assert IsCut(entries, i, inputs.(coreSessions := sessions), tools);
      }
    }
  }

  /** The redacted files of a session, each with its own contents; an empty log has none. */
  ghost predicate Archived(entries: seq<Entry>, folder: Folder, about: (nat, Excerpt) -> Bytes, tools: Tools) {
    && HasFile(entries, folder.name, "session.txt", tools.scrub(about(folder.index, folder.core)))
    && HasFile(entries, folder.name, "core.log", tools.scrub(folder.core.text))
    && (folder.events.text != [] ==> HasFile(entries, folder.name, "events.log", tools.scrub(folder.events.text)))
    && (folder.service.text != [] ==> HasFile(entries, folder.name, "service.log", tools.scrub(folder.service.text)))
  }

  lemma {:induction false} FileIsArchived(entries: seq<Entry>, budgeted: nat, sessions: seq<Entry>, tools: Tools,
                                          folder: string, file: string, text: Bytes)
    requires |entries| == budgeted + |sessions|
    requires forall i :: 0 <= i < |sessions| ==>
               entries[budgeted + i] == Entry(sessions[i].name, tools.scrub(sessions[i].text))
    requires HasFile(sessions, folder, file, text)
    ensures HasFile(entries, folder, file, tools.scrub(text))
  {
    var i :| 0 <= i < |sessions| && sessions[i] == Entry("core-sessions/" + folder + "/" + file, text);
    assert entries[budgeted + i] in entries;
  }

  lemma {:induction false} FolderIsArchived(entries: seq<Entry>, budgeted: nat, sessions: seq<Entry>, tools: Tools,
                                            folder: Folder, about: (nat, Excerpt) -> Bytes)
    requires |entries| == budgeted + |sessions|
    requires forall i :: 0 <= i < |sessions| ==>
               entries[budgeted + i] == Entry(sessions[i].name, tools.scrub(sessions[i].text))
    requires Filed(sessions, folder, about)
    ensures Archived(entries, folder, about, tools)
  {
    hide HasFile, LacksFile;
    FileIsArchived(entries, budgeted, sessions, tools, folder.name, "session.txt", about(folder.index, folder.core));
    FileIsArchived(entries, budgeted, sessions, tools, folder.name, "core.log", folder.core.text);
    if folder.events.text != [] {
      FileIsArchived(entries, budgeted, sessions, tools, folder.name, "events.log", folder.events.text);
    }
    if folder.service.text != [] {
      FileIsArchived(entries, budgeted, sessions, tools, folder.name, "service.log", folder.service.text);
    }
  }

  /** Saving the log: the session part is built, then everything is packed. In the whole archive no name
      occurs twice, whatever the connections, the journals and the log files are. */
  method BuildArchive(inputs: Inputs, journals: Journals, tools: Tools, about: (nat, Excerpt) -> Bytes,
                      table: seq<Folder> -> Bytes)
    returns (entries: seq<Entry>, budgeted: nat, left: nat, folders: seq<Folder>)
    requires tools.Fine()
    ensures DistinctNames(entries)
    ensures budgeted <= |entries| && TotalBytes(entries[..budgeted]) + left == MAX_BUNDLE_BYTES
    ensures budgeted <= |entries| && AllCut(entries[..budgeted], inputs, tools)
    ensures budgeted <= |entries| && Complete(entries[..budgeted], left, inputs)
    ensures CoreBytes(folders) <= MAX_CORE_SESSIONS_BYTES
    ensures forall k :: 0 <= k < |folders| ==> Archived(entries, folders[k], about, tools)
    ensures AllWellNamed(folders, journals.sessions)
    ensures forall i :: budgeted <= i < |entries| ==> PREFIX <= entries[i].name
    ensures var expected := SessionPart(journals, folders, about, table);
            && |entries| == budgeted + |expected|
            && forall i :: 0 <= i < |expected| ==>
                 entries[budgeted + i] == Entry(expected[i].name, tools.scrub(expected[i].text))
    ensures Honest(journals.segments) ==>
              AllFaithful(folders, journals.sessions,
                          CoreLines(JournalLines(journals.segments, 0), journals.service),
                          Sort(ByStamp(), journals.events), Sort(ByStamp(), journals.serviceLog))
  {
    hide Tools.Fine, TotalBytes, CoreBytes, AllFaithful, CoreLines, JournalLines, Sort, Honest, Budgeted, Selected,
      AllEntries, AllCut, Complete, Filed, WellNamed, Archived, CoreLogBytes;
    var sessions;
    sessions, folders :=
      SessionEntries(journals.sessions, journals.range, journals.now, journals.segments,
                     journals.service, journals.events, journals.serviceLog, about, table);
    entries, budgeted, left := CollectEntries(inputs.(coreSessions := sessions), tools);
    forall i | budgeted <= i < |entries|
      ensures PREFIX <= entries[i].name
    {
      assert sessions[i - budgeted] in sessions;
    }
    forall k | 0 <= k < |folders|
      ensures Archived(entries, folders[k], about, tools)
    {
      FolderIsArchived(entries, budgeted, sessions, tools, folders[k], about);
    }
    CutIgnoresSessions(entries[..budgeted], left, inputs, sessions, tools);
  }

  lemma SessionsApart(first: seq<Entry>, sessions: seq<Entry>, inputs: seq<Entry>, names: set<string>)
    requires DistinctNames(first) && NamesIn(first, FIXED + LogNames(names))
    requires SessionNames(inputs) && |sessions| == |inputs|
    requires forall i :: 0 <= i < |inputs| ==> sessions[i].name == inputs[i].name
    ensures DistinctNames(first + sessions)
  {
    forall x, y | x in first && y in sessions
      ensures x.name != y.name
    {
      var j :| 0 <= j < |sessions| && sessions[j] == y;
      assert inputs[j] in inputs;
      SessionNameIsApart(x.name, y.name, names);
    }
    assert DistinctNames(sessions) by {
      forall i, j | 0 <= i < j < |sessions|
        ensures sessions[i].name != sessions[j].name
      {
        assert inputs[i].name != inputs[j].name;
      }
    }
    DistinctConcat(first, sessions);
  }

  lemma SessionNameIsApart(x: string, y: string, names: set<string>)
    requires x in FIXED + LogNames(names) && PREFIX <= y
    ensures x != y
  {
    assert y[13] == PREFIX[13] == '/' && y[0] == PREFIX[0] == 'c';
    if x in FIXED {
      assert |x| <= 13 || x[13] != '/';
    } else {
      var n :| n in names && x == LogName(n);
      assert x[0] == 'l';
    }
  }
}
