/** The `core-sessions/` part of a saved log archive: one folder per connection holding the core
    output of that connection's time window, newest lines first to stay, within shared budgets. */
module SessionLogs {
  import opened Basics
  import opened StableSort

  const U64_MAX := 0xFFFF_FFFF_FFFF_FFFF
  const SESSION_LEAD_MS := 60_000
  const SESSION_TAIL_MS := 10_000
  const WEEK_MS := 7 * 24 * 60 * 60 * 1000
  const MAX_SESSION_LOG_BYTES: nat := 16 * 1024 * 1024
  const MAX_CORE_SESSIONS_BYTES: nat := 64 * 1024 * 1024

  /** Unix milliseconds in a u64. */
  type Millis = x: int | 0 <= x <= U64_MAX

  datatype Line = Line(stamp: Millis, text: Bytes)
  datatype Session = Session(connect: Millis, disconnect: Option<Millis>)
  /** Half open: `from` belongs to it, `to` does not. */
  datatype Window = Window(from: Millis, to: Millis)

  function SaturatingAdd(a: Millis, b: nat): Millis {
    Min(a + b, U64_MAX)
  }

  function SaturatingSub(a: nat, b: nat): nat {
    Max(a - b, 0)
  }

  // ----- Session windows -----

  function NaturalEnd(session: Session): Millis {
    if session.disconnect.None? then U64_MAX else SaturatingAdd(session.disconnect.value, SESSION_TAIL_MS)
  }

  function NextConnect(sessions: seq<Session>, i: nat): Option<Millis> {
    if i + 1 < |sessions| then Some(sessions[i + 1].connect) else None
  }

  function BoundedWindow(session: Session, next: Option<Millis>, previousEnd: Millis): Window {
    var from := Max(SaturatingSub(session.connect, SESSION_LEAD_MS), previousEnd);
    var end := if next.None? then NaturalEnd(session) else Min(NaturalEnd(session), next.value);
    Window(from, Max(end, from))
  }

  function WindowAt(sessions: seq<Session>, i: nat): Window
    requires i < |sessions|
  {
    BoundedWindow(sessions[i], NextConnect(sessions, i), if i == 0 then 0 else WindowAt(sessions, i - 1).to)
  }

  predicate Contains(window: Window, stamp: Millis) {
    window.from <= stamp < window.to
  }

  /** A window in numbers: a minute before the connect to ten seconds after the disconnect, cut at the
      window before and at the next connect. */
  lemma WindowInNumbers(sessions: seq<Session>, i: nat)
    requires i < |sessions|
    ensures var w, session := WindowAt(sessions, i), sessions[i];
            var previousEnd := if i == 0 then 0 else WindowAt(sessions, i - 1).to;
            var most := 18_446_744_073_709_551_615;
            var end := if session.disconnect.Some? then Min(session.disconnect.value + 10_000, most) else most;
            && w.from == Max(session.connect - 60_000, previousEnd)
            && w.to == Max(w.from, if i + 1 < |sessions| then Min(end, sessions[i + 1].connect) else end)
  {
    WindowAtUnfolds(sessions, i);
  }

  lemma WindowAtUnfolds(sessions: seq<Session>, i: nat)
    requires i < |sessions|
    ensures WindowAt(sessions, i) ==
            BoundedWindow(sessions[i], NextConnect(sessions, i), if i == 0 then 0 else WindowAt(sessions, i - 1).to)
  {
  }

  lemma WindowStep(sessions: seq<Session>, i: nat)
    requires i < |sessions|
    ensures WindowAt(sessions, i).from <= WindowAt(sessions, i).to
    ensures i > 0 ==> WindowAt(sessions, i - 1).to <= WindowAt(sessions, i).from
  {
  }

  lemma {:induction false} WindowsAreInOrder(sessions: seq<Session>, i: nat, j: nat)
    requires i < j < |sessions|
    ensures WindowAt(sessions, i).to <= WindowAt(sessions, j).from
  {
    hide WindowAt;
    WindowStep(sessions, j);
    if i < j - 1 {
      WindowsAreInOrder(sessions, i, j - 1);
      WindowStep(sessions, j - 1);
    }
  }

  /** The windows never overlap, so every line belongs to at most one session, however the
      sessions are ordered or overlap themselves. */
  lemma AtMostOneSession(sessions: seq<Session>, i: nat, j: nat, stamp: Millis)
    requires i < |sessions| && j < |sessions|
    requires Contains(WindowAt(sessions, i), stamp) && Contains(WindowAt(sessions, j), stamp)
    ensures i == j
  {
    if i < j {
      WindowsAreInOrder(sessions, i, j);
    } else if j < i {
      WindowsAreInOrder(sessions, j, i);
    }
  }

  /** The journal window of every session. */
  method SessionWindows(sessions: seq<Session>) returns (windows: seq<Window>)
    ensures |windows| == |sessions|
    ensures forall i :: 0 <= i < |sessions| ==> windows[i] == WindowAt(sessions, i)
    ensures forall i, j :: 0 <= i < j < |windows| ==> windows[i].to <= windows[j].from
  {
    hide WindowAt;
    windows := [];
    var previousEnd: Millis := 0;
    for index := 0 to |sessions|
      invariant |windows| == index
      invariant forall i :: 0 <= i < index ==> windows[i] == WindowAt(sessions, i)
      invariant previousEnd == if index == 0 then 0 else WindowAt(sessions, index - 1).to
    {
      var next := NextConnect(sessions, index);
      var from := Max(SaturatingSub(sessions[index].connect, SESSION_LEAD_MS), previousEnd);
      var naturalEnd := NaturalEnd(sessions[index]);
      var to := if next.None? then naturalEnd else Min(naturalEnd, next.value);
      to := Max(to, from);
      WindowAtUnfolds(sessions, index);
      windows := windows + [Window(from, to)];
      previousEnd := to;
    }
    forall i, j | 0 <= i < j < |windows|
      ensures windows[i].to <= windows[j].from
    {
      WindowsAreInOrder(sessions, i, j);
    }
  }

  ghost predicate Chronological(sessions: seq<Session>) {
    forall i, j :: 0 <= i < j < |sessions| ==> sessions[i].connect <= sessions[j].connect
  }

  /** With connections in order of time, a window always reaches from its own connect to its own
      end (or the next connect): the lead granted to a session never eats a neighbour's time. */
  lemma {:induction false} OwnTimeIsCovered(sessions: seq<Session>, i: nat, stamp: Millis)
    requires Chronological(sessions) && i < |sessions|
    ensures WindowAt(sessions, i).from <= sessions[i].connect
    ensures (&& sessions[i].connect <= stamp < 18_446_744_073_709_551_615
             && (sessions[i].disconnect.Some? ==> stamp < sessions[i].disconnect.value + 10_000)
             && (i + 1 < |sessions| ==> stamp < sessions[i + 1].connect))
            ==> WindowAt(sessions, i).from <= stamp < WindowAt(sessions, i).to
  {
    if i > 0 {
      OwnTimeIsCovered(sessions, i - 1, stamp);
      assert sessions[i - 1].connect <= sessions[i].connect;
    }
  }

  // ----- Which sessions a range selects -----

  datatype LogRange = Latest | Week | All

  predicate RanThisWeek(sessions: seq<Session>, i: nat, now: Millis)
    requires i < |sessions|
  {
    var session := sessions[i];
    var ended := if session.disconnect.Some? then session.disconnect.value else Min(WindowAt(sessions, i).to, now);
    Max(ended, session.connect) >= SaturatingSub(now, WEEK_MS)
  }

  /** The newest connection, those of the last week, or all. */
  predicate InRange(sessions: seq<Session>, range: LogRange, now: Millis, count: nat, i: int)
    requires 0 <= i < count <= |sessions|
  {
    match range
    case Latest => i == count - 1
    case Week => RanThisWeek(sessions, i, now)
    case All => true
  }

  /** Indices into `sessions`, oldest first. */
  function Selected(sessions: seq<Session>, range: LogRange, now: Millis, count: nat): (r: seq<nat>)
    requires count <= |sessions|
    ensures forall k :: 0 <= k < |r| ==> r[k] < count
    ensures forall j, k :: 0 <= j < k < |r| ==> r[j] < r[k]
  {
    if count == 0 then []
    else
      var index := count - 1;
      match range
      case Latest => [index]
      case Week =>
        Selected(sessions, range, now, index) + (if RanThisWeek(sessions, index, now) then [index] else [])
      case All => Selected(sessions, range, now, index) + [index]
  }

  /** From when the journals are needed: the start of the oldest selected window. */
  function Since(sessions: seq<Session>, selected: seq<nat>): (r: Millis)
    requires forall k :: 0 <= k < |selected| ==> selected[k] < |sessions|
    ensures forall k :: 0 <= k < |selected| ==> r <= WindowAt(sessions, selected[k]).from
  {
    if selected == [] then U64_MAX
    else Min(WindowAt(sessions, Last(selected)).from, Since(sessions, Front(selected)))
  }

  /** Exactly the sessions in the range are selected. */
  lemma {:induction false} SelectedIff(sessions: seq<Session>, range: LogRange, now: Millis, count: nat, i: nat)
    requires i < count <= |sessions|
    ensures i in Selected(sessions, range, now, count) <==> InRange(sessions, range, now, count, i)
  {
    hide RanThisWeek, WindowAt;
    if i < count - 1 && !range.Latest? {
      SelectedIff(sessions, range, now, count - 1, i);
    }
  }

  /** The last week in numbers: the session ended, or still ran, at most seven days before now. */
  lemma WeekInNumbers(sessions: seq<Session>, now: Millis, count: nat, i: nat)
    requires i < count <= |sessions|
    ensures var session := sessions[i];
            var ended := if session.disconnect.Some? then session.disconnect.value
                         else Min(WindowAt(sessions, i).to, now);
            InRange(sessions, Week, now, count, i) <==> Max(ended, session.connect) + 604_800_000 >= now
  {
  }

  /** The journals are needed from the start of a selected window on, the oldest. */
  lemma {:induction false} SinceIsOldest(sessions: seq<Session>, selected: seq<nat>)
    requires selected != [] && forall k :: 0 <= k < |selected| ==> selected[k] < |sessions|
    ensures exists k :: 0 <= k < |selected| && Since(sessions, selected) == WindowAt(sessions, selected[k]).from
  {
    hide WindowAt;
    var n := |selected| - 1;
    if n == 0 {
      assert Front(selected) == [] && Since(sessions, []) == U64_MAX;
    } else if Since(sessions, selected) != WindowAt(sessions, selected[n]).from {
      SinceIsOldest(sessions, Front(selected));
      var k :| 0 <= k < n && Since(sessions, Front(selected)) == WindowAt(sessions, Front(selected)[k]).from;
      assert selected[k] == Front(selected)[k];
    }
  }

  // ----- The lines of a session -----

  function ByStamp(): (Line, Line) -> bool {
    (a: Line, b: Line) => a.stamp <= b.stamp
  }

  lemma ByStampIsPreorder()
    ensures TotalPreorder(ByStamp())
  {
  }

  function Within(window: Window): Line -> bool {
    (line: Line) => Contains(window, line.stamp)
  }

  lemma WithinIff(window: Window, line: Line)
    ensures Within(window)(line) <==> window.from <= line.stamp < window.to
  {
  }

  /** A journal segment; `readable` is false when reading the file fails. */
  datatype Segment = Segment(modified: Millis, readable: bool, lines: seq<Line>)

  /** The lines of the readable segments last written at or after `since`. */
  function JournalLines(segments: seq<Segment>, since: Millis): seq<Line> {
    if segments == [] then []
    else
      var last := Last(segments);
      JournalLines(Front(segments), since) +
      (if last.modified < since || !last.readable then [] else last.lines)
  }

  method UserJournalLines(segments: seq<Segment>, since: Millis) returns (lines: seq<Line>)
    ensures lines == JournalLines(segments, since)
  {
    lines := [];
    for i := 0 to |segments|
      invariant lines == JournalLines(segments[..i], since)
    {
      assert Front(segments[..i + 1]) == segments[..i];
      if segments[i].modified < since {
        assert lines + [] == lines;
        continue;
      }
      if segments[i].readable {
        lines := lines + segments[i].lines;
      } else {
        assert lines + [] == lines;
      }
    }
    assert segments[..|segments|] == segments;
  }

  /** Both journals interleaved by time; equal times keep their order. */
  function CoreLines(user: seq<Line>, service: seq<Line>): seq<Line> {
    Sort(ByStamp(), user + service)
  }

  /** Lines keep the order of the segments and their order in each. */
  lemma {:induction false} JournalLinesInOrder(a: seq<Segment>, b: seq<Segment>, since: Millis)
    ensures JournalLines(a + b, since) == JournalLines(a, since) + JournalLines(b, since)
  {
    if b == [] {
      assert a + b == a;
    } else {
      assert Front(a + b) == a + Front(b) && Last(a + b) == Last(b);
      JournalLinesInOrder(a, Front(b), since);
    }
  }

  lemma JournalLinesOfOne(segment: Segment, since: Millis)
    ensures JournalLines([segment], since) ==
            if segment.readable && segment.modified >= since then segment.lines else []
  {
    assert Front([segment]) == [] && JournalLines([], since) == [];
  }

  lemma LikeIsSameStamp(x: Line, y: Line)
    ensures Like(ByStamp(), x)(y) <==> x.stamp == y.stamp
  {
  }

  /** The merge is in order of time, and of lines with the same stamp the user's come first, each journal's
      in its own order. */
  lemma CoreLinesAreMerged(user: seq<Line>, service: seq<Line>, x: Line)
    ensures forall i, j :: 0 <= i < j < |CoreLines(user, service)| ==>
              CoreLines(user, service)[i].stamp <= CoreLines(user, service)[j].stamp
    ensures Filter(Like(ByStamp(), x), CoreLines(user, service)) ==
            Filter(Like(ByStamp(), x), user) + Filter(Like(ByStamp(), x), service)
  {
    hide Filter, Sort, Sorted;
    ByStampIsPreorder();
    SortIsStable(ByStamp(), user + service, x);
    FilterConcat(Like(ByStamp(), x), user, service);
    SortIsSorted(ByStamp(), user + service);
    var merged := CoreLines(user, service);
    forall i, j | 0 <= i < j < |merged|
      ensures merged[i].stamp <= merged[j].stamp
    {
      StampsGrow(merged, i, j);
    }
  }

  /** No line of a segment is stamped after the segment was last written. */
  ghost predicate Honest(segments: seq<Segment>) {
    forall i, line :: 0 <= i < |segments| && line in segments[i].lines ==> line.stamp <= segments[i].modified
  }

  lemma {:induction false} SkippedLinesAreOutside(segments: seq<Segment>, since: Millis, window: Window)
    requires Honest(segments) && since <= window.from
    ensures Filter(Within(window), JournalLines(segments, since)) == Filter(Within(window), JournalLines(segments, 0))
  {
    if segments != [] {
      var front, last := Front(segments), Last(segments);
      assert Honest(front) by {
        forall i, line | 0 <= i < |front| && line in front[i].lines
          ensures line.stamp <= front[i].modified
        {
          assert front[i] == segments[i];
        }
      }
      SkippedLinesAreOutside(front, since, window);
      var kept := if last.modified < since || !last.readable then [] else last.lines;
      var all := if !last.readable then [] else last.lines;
      FilterConcat(Within(window), JournalLines(front, since), kept);
      FilterConcat(Within(window), JournalLines(front, 0), all);
      if last.modified < since {
        assert last == segments[|segments| - 1];
        FilterNone(Within(window), all);
      }
    }
  }

  /** Skipping old segments changes no session's lines. */
  lemma PruningIsInvisible(segments: seq<Segment>, service: seq<Line>, since: Millis, window: Window)
    requires Honest(segments) && since <= window.from
    ensures Filter(Within(window), CoreLines(JournalLines(segments, since), service)) ==
            Filter(Within(window), CoreLines(JournalLines(segments, 0), service))
  {
    var p := Within(window);
    SkippedLinesAreOutside(segments, since, window);
    ByStampIsPreorder();
    FilterConcat(p, JournalLines(segments, since), service);
    FilterConcat(p, JournalLines(segments, 0), service);
    FilterSort(ByStamp(), p, JournalLines(segments, since) + service);
    FilterSort(ByStamp(), p, JournalLines(segments, 0) + service);
  }

  // ----- Finding a window in sorted lines -----

  /** `partition_point(|stamp| stamp < bound)` of lines sorted by stamp. */
  function PartitionPoint(sorted: seq<Line>, bound: Millis): (n: nat)
    ensures n <= |sorted|
    ensures forall i :: 0 <= i < n ==> sorted[i].stamp < bound
    ensures n < |sorted| ==> sorted[n].stamp >= bound
  {
    if sorted == [] || sorted[0].stamp >= bound then 0 else 1 + PartitionPoint(sorted[1..], bound)
  }

  function Slice(sorted: seq<Line>, window: Window): seq<Line> {
    var start := PartitionPoint(sorted, window.from);
    var end := PartitionPoint(sorted, window.to);
    sorted[start..Max(end, start)]
  }

  lemma BelowIsOutside(sorted: seq<Line>, window: Window, n: nat)
    requires n == PartitionPoint(sorted, window.from)
    ensures Filter(Within(window), sorted[..n]) == []
  {
    FilterNone(Within(window), sorted[..n]);
  }

  lemma BetweenIsInside(sorted: seq<Line>, window: Window, n: nat, m: nat)
    requires Sorted(ByStamp(), sorted)
    requires n == PartitionPoint(sorted, window.from) && n <= m <= Max(PartitionPoint(sorted, window.to), n)
    ensures Filter(Within(window), sorted[n..m]) == sorted[n..m]
  {
    hide Sorted, ByStamp, Filter;
    var part := sorted[n..m];
    forall line | line in part
      ensures Within(window)(line)
    {
      var i :| 0 <= i < |part| && part[i] == line;
      assert line == sorted[n + i];
      StampsGrow(sorted, n, n + i);
    }
    FilterAll(Within(window), part);
  }

  lemma AboveIsOutside(sorted: seq<Line>, window: Window, m: nat)
    requires Sorted(ByStamp(), sorted)
    requires PartitionPoint(sorted, window.to) <= m <= |sorted|
    ensures Filter(Within(window), sorted[m..]) == []
  {
    hide Sorted, ByStamp, Filter;
    var part := sorted[m..];
    var end := PartitionPoint(sorted, window.to);
    forall line | line in part
      ensures !Within(window)(line)
    {
      var i :| 0 <= i < |part| && part[i] == line;
      assert line == sorted[m + i];
      StampsGrow(sorted, end, m + i);
    }
    FilterNone(Within(window), part);
  }

  lemma StampsGrow(sorted: seq<Line>, i: nat, j: nat)
    requires Sorted(ByStamp(), sorted) && i <= j < |sorted|
    ensures sorted[i].stamp <= sorted[j].stamp
  {
    if i < j {
      assert ByStamp()(sorted[i], sorted[j]);
    }
  }

  /** The slice between the two partition points is exactly the lines stamped in the window. */
  lemma SliceIsFilter(sorted: seq<Line>, window: Window)
    requires Sorted(ByStamp(), sorted)
    ensures Slice(sorted, window) == Filter(Within(window), sorted)
  {
    hide Filter, Within, PartitionPoint, Sorted, ByStamp;
    var p := Within(window);
    var n := PartitionPoint(sorted, window.from);
    var m := Max(PartitionPoint(sorted, window.to), n);
    BelowIsOutside(sorted, window, n);
    BetweenIsInside(sorted, window, n, m);
    AboveIsOutside(sorted, window, m);
    FilterConcat(p, sorted[..n], sorted[n..m] + sorted[m..]);
    FilterConcat(p, sorted[n..m], sorted[m..]);
    assert sorted[..n] + (sorted[n..m] + sorted[m..]) == sorted;
  }

  // ----- The newest lines that fit -----

  function Joined(lines: seq<Line>): Bytes {
    if lines == [] then [] else lines[0].text + [NEWLINE] + Joined(lines[1..])
  }

  /** Every line, with a line feed behind it. */
  lemma {:induction false} JoinedInOrder(a: seq<Line>, b: seq<Line>)
    ensures Joined(a + b) == Joined(a) + Joined(b)
  {
    if a == [] {
      assert a + b == b;
    } else {
      assert (a + b)[1..] == a[1..] + b;
      JoinedInOrder(a[1..], b);
    }
  }

  lemma JoinedOfOne(line: Line)
    ensures Joined([line]) == line.text + [10]
  {
    assert [line][1..] == [] && Joined([]) == [];
  }

  /** A text, how many lines it holds, and whether older lines were left out. */
  datatype Excerpt = Excerpt(text: Bytes, count: nat, cut: bool)

  /** The bytes of the lines from `i` on. */
  function SizeFrom(lines: seq<Line>, i: nat): nat
    requires i <= |lines|
  {
    |Joined(lines[i..])|
  }

  /** The longest run of newest whole lines that fits in `limit` bytes. */
  ghost predicate Newest(r: Excerpt, lines: seq<Line>, limit: nat) {
    && r.count <= |lines|
    && r.text == Joined(lines[|lines| - r.count..])
    && (r.cut <==> r.count < |lines|)
    && |r.text| <= limit
    && forall i :: 0 <= i < |lines| - r.count ==> SizeFrom(lines, i) > limit
  }

  lemma NewestIsUnique(a: Excerpt, b: Excerpt, lines: seq<Line>, limit: nat)
    requires Newest(a, lines, limit) && Newest(b, lines, limit)
    ensures a == b
  {
    assert SizeFrom(lines, |lines| - a.count) <= limit;
    assert SizeFrom(lines, |lines| - b.count) <= limit;
  }

  lemma SizeStep(lines: seq<Line>, i: nat)
    requires i < |lines|
    ensures SizeFrom(lines, i) == |lines[i].text| + 1 + SizeFrom(lines, i + 1)
    ensures Joined(lines[i..]) == lines[i].text + [NEWLINE] + Joined(lines[i + 1..])
  {
    assert lines[i..][1..] == lines[i + 1..];
  }

  lemma {:induction false} SizeGrows(lines: seq<Line>, i: nat, j: nat)
    requires i <= j <= |lines|
    ensures SizeFrom(lines, i) >= SizeFrom(lines, j)
    decreases j - i
  {
    if i < j {
      SizeGrows(lines, i + 1, j);
      SizeStep(lines, i);
    }
  }

  /** Walks back from the newest line while the lines fit, then writes them out. */
  method NewestWithin(lines: seq<Line>, limit: nat) returns (r: Excerpt)
    ensures Newest(r, lines, limit)
  {
    hide SizeFrom, Joined;
    var size := 0;
    var first := |lines|;
    var index := |lines|;
    assert SizeFrom(lines, |lines|) == 0 by { EmptySize(lines); }
    while index > 0
      invariant 0 <= index <= |lines| && first == index
      invariant size == SizeFrom(lines, first) <= limit
    {
      index := index - 1;
      SizeStep(lines, index);
      if size + |lines[index].text| + 1 > limit {
        break;
      }
      size := size + |lines[index].text| + 1;
      first := index;
    }
    forall i | 0 <= i < first
      ensures SizeFrom(lines, i) > limit
    {
      SizeGrows(lines, i, first - 1);
    }
    var text := [];
    for i := first to |lines|
      invariant text + Joined(lines[i..]) == Joined(lines[first..])
    {
      SizeStep(lines, i);
      text := text + lines[i].text;
      text := text + [NEWLINE];
    }
    EmptySize(lines);
    assert text + [] == text;
    r := Excerpt(text, |lines| - first, first > 0);
    SizeIsLength(lines, first);
  }

  lemma EmptySize(lines: seq<Line>)
    ensures SizeFrom(lines, |lines|) == 0 && Joined(lines[|lines|..]) == []
  {
  }

  lemma SizeIsLength(lines: seq<Line>, i: nat)
    requires i <= |lines|
    ensures SizeFrom(lines, i) == |Joined(lines[i..])|
  {
  }
}
