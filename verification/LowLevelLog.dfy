/** `client-errors.log`: failures the daemon cannot record itself. One line per failure, repeated
    failures left out for a minute, and the file rotated in place to its newest half. */
module LowLevelLog {
  import opened Basics

  const MAX_LOG_BYTES: nat := 262_144
  const REPEAT_WINDOW_MS: nat := 60_000

  /** A recorded failure: wall clock, the two texts, and the monotonic time of the call. */
  datatype Record = Record(stamp: nat, context: Bytes, detail: Bytes, at: nat)

  // ----- Lines -----

  function FlatByte(b: Byte): Byte {
    if b == RETURN || b == NEWLINE || b == TAB then BLANK else b
  }

  /** Line breaks and tabs become spaces (on UTF-8 text, byte for byte). */
  function Flatten(text: Bytes): (r: Bytes)
    ensures |r| == |text|
    ensures TAB !in r && NEWLINE !in r
  {
    seq(|text|, i requires 0 <= i < |text| => FlatByte(text[i]))
  }

  function StampText(stamp: nat): (r: Bytes)
    ensures TAB !in r && NEWLINE !in r
  {
    Ascii(Decimal(stamp))
  }

  function Body(r: Record): (b: Bytes)
    ensures NEWLINE !in b
  {
    StampText(r.stamp) + [TAB] + Flatten(r.context) + [TAB] + Flatten(r.detail)
  }

  function LineOf(r: Record): Bytes {
    Body(r) + [NEWLINE]
  }

  /** Everything ever written for these records. */
  function Text(records: seq<Record>): Bytes {
    if records == [] then [] else LineOf(records[0]) + Text(records[1..])
  }

  lemma {:induction false} TextAppend(records: seq<Record>, r: Record)
    ensures Text(records + [r]) == Text(records) + LineOf(r)
  {
    hide LineOf;
    if records == [] {
      assert [r][1..] == [];
      assert LineOf(r) + [] == LineOf(r) && [] + LineOf(r) == LineOf(r);
    } else {
      TextAppend(records[1..], r);
      assert (records + [r])[1..] == records[1..] + [r];
      var first, rest, last := LineOf(records[0]), Text(records[1..]), LineOf(r);
      assert first + (rest + last) == first + rest + last;
    }
  }

  // ----- Rotation -----

  lemma LineStartInHead(line: Bytes, rest: Bytes, cut: nat)
    requires NEWLINE !in line && cut <= |line|
    ensures LineStart(line + [NEWLINE] + rest, cut) == |line| + 1
  {
    var all := line + [NEWLINE] + rest;
    assert all[cut..] == line[cut..] + [NEWLINE] + rest;
    IndexOfIs(line[cut..], rest, NEWLINE);
  }

  lemma LineStartBeyondHead(head: Bytes, rest: Bytes, cut: nat)
    requires |head| <= cut <= |head| + |rest|
    ensures LineStart(head + rest, cut) == |head| + LineStart(rest, cut - |head|)
  {
    assert (head + rest)[cut..] == rest[cut - |head|..];
  }

  /** Cutting at the next line start drops whole records, oldest first: what stays is the longest run of
      newest records shorter than what lies behind the cut. */
  lemma {:induction false} CutDropsRecords(records: seq<Record>, cut: nat) returns (k: nat)
    requires cut <= |Text(records)|
    ensures k <= |records|
    ensures Text(records)[LineStart(Text(records), cut)..] == Text(records[k..])
    ensures cut < |Text(records)| ==>
              k > 0 && |Text(records[k..])| < |Text(records)| - cut <= |Text(records[k - 1..])|
    decreases |records|
  {
    hide LineStart, Body;
    if records == [] {
      k := 0;
      assert Text(records) == [] && LineStart([], cut) == 0;
    } else {
      var head, rest := Body(records[0]), Text(records[1..]);
      var text := Text(records);
      assert text == head + [NEWLINE] + rest;
      if cut <= |head| {
        LineStartInHead(head, rest, cut);
        k := 1;
        assert text[|head| + 1..] == rest;
        assert records[0..] == records;
      } else {
        var line := head + [NEWLINE];
        assert text == line + rest;
        LineStartBeyondHead(line, rest, cut);
        var j := CutDropsRecords(records[1..], cut - |line|);
        k := j + 1;
        assert records[1..][j..] == records[k..];
        assert j > 0 ==> records[1..][j - 1..] == records[k - 1..];
        DropBoth(line, rest, LineStart(rest, cut - |line|));
      }
    }
  }

  lemma DropBoth(a: Bytes, b: Bytes, n: nat)
    requires n <= |b|
    ensures (a + b)[|a| + n..] == b[n..]
  {
  }

  // ----- Reading the file back -----

  /** The parts between separators. */
  function SplitOn(s: Bytes, separator: Byte): seq<Bytes>
    decreases |s|
  {
    var n := IndexOf(s, separator);
    if n == |s| then [s] else [s[..n]] + SplitOn(s[n + 1..], separator)
  }

  /** The fields of every complete line. */
  function Decode(text: Bytes): seq<seq<Bytes>>
    decreases |text|
  {
    var n := IndexOf(text, NEWLINE);
    if n == |text| then [] else [SplitOn(text[..n], TAB)] + Decode(text[n + 1..])
  }

  function Fields(r: Record): seq<Bytes> {
    [StampText(r.stamp), Flatten(r.context), Flatten(r.detail)]
  }

  lemma SplitFirst(a: Bytes, b: Bytes, separator: Byte)
    requires separator !in a
    ensures SplitOn(a + [separator] + b, separator) == [a] + SplitOn(b, separator)
  {
    IndexOfIs(a, b, separator);
    assert (a + [separator] + b)[..|a|] == a;
    assert (a + [separator] + b)[|a| + 1..] == b;
  }

  lemma SplitLastField(a: Bytes, separator: Byte)
    requires separator !in a
    ensures SplitOn(a, separator) == [a]
  {
    assert IndexOf(a, separator) == |a|;
  }

  lemma BodySplitsBack(r: Record)
    ensures SplitOn(Body(r), TAB) == Fields(r)
  {
    hide SplitOn, Flatten, StampText;
    var a, b, c := StampText(r.stamp), Flatten(r.context), Flatten(r.detail);
    assert Body(r) == a + [TAB] + (b + [TAB] + c);
    SplitFirst(a, b + [TAB] + c, TAB);
    SplitFirst(b, c, TAB);
    SplitLastField(c, TAB);
    assert [a] + ([b] + [c]) == [a, b, c];
  }

  lemma DecodeFirst(head: Bytes, rest: Bytes)
    requires NEWLINE !in head
    ensures Decode(head + [NEWLINE] + rest) == [SplitOn(head, TAB)] + Decode(rest)
  {
    hide SplitOn;
    IndexOfIs(head, rest, NEWLINE);
    assert (head + [NEWLINE] + rest)[..|head|] == head;
    assert (head + [NEWLINE] + rest)[|head| + 1..] == rest;
  }

  /** The text of any records decodes into exactly their flattened fields, in order. */
  lemma {:induction false} TextDecodesBack(records: seq<Record>)
    ensures |Decode(Text(records))| == |records|
    ensures forall i :: 0 <= i < |records| ==> Decode(Text(records))[i] == Fields(records[i])
  {
    hide SplitOn, Body, Fields, Decode;
    if records == [] {
      DecodeNothing();
    } else {
      var head, rest := Body(records[0]), Text(records[1..]);
      assert Text(records) == head + [NEWLINE] + rest;
      DecodeFirst(head, rest);
      BodySplitsBack(records[0]);
      TextDecodesBack(records[1..]);
    }
  }

  lemma DecodeNothing()
    ensures Decode([]) == []
  {
  }

  // ----- What a line says -----

  /** Every byte is kept, except that tabs and line breaks are blanks. */
  ghost predicate FlatOf(original: Bytes, flat: Bytes) {
    && |flat| == |original|
    && forall i :: 0 <= i < |flat| ==> flat[i] == if original[i] in {9, 10, 13} then 32 else original[i]
  }

  /** The number written in ASCII digits. */
  function FromDigits(digits: Bytes): int {
    if digits == [] then 0 else FromDigits(digits[..|digits| - 1]) * 10 + digits[|digits| - 1] as int - 48
  }

  ghost predicate IsNumber(digits: Bytes, n: nat) {
    digits != [] && FromDigits(digits) == n && forall i :: 0 <= i < |digits| ==> 48 <= digits[i] <= 57
  }

  /** The three fields of a record: its stamp in decimal, and its two texts on one line. */
  ghost predicate Carries(fields: seq<Bytes>, r: Record) {
    |fields| == 3 && IsNumber(fields[0], r.stamp) && FlatOf(r.context, fields[1]) && FlatOf(r.detail, fields[2])
  }

  lemma {:induction false} DigitsReadBack(s: string)
    requires forall i :: 0 <= i < |s| ==> '0' <= s[i] <= '9'
    ensures FromDigits(Ascii(s)) == FromDecimal(s)
  {
    if s != [] {
      var front := s[..|s| - 1];
      assert Ascii(s)[..|s| - 1] == Ascii(front);
      DigitsReadBack(front);
    }
  }

  lemma StampReadsBack(stamp: nat)
    ensures IsNumber(StampText(stamp), stamp)
  {
    DigitsReadBack(Decimal(stamp));
    DecimalIsReadBack(stamp);
  }

  lemma FieldsCarry(r: Record)
    ensures Carries(Fields(r), r)
  {
    hide IsNumber, StampText;
    StampReadsBack(r.stamp);
  }

  /** A line in bytes: three fields between tabs, and a line feed. */
  lemma LineInBytes(r: Record) returns (fields: seq<Bytes>)
    ensures Carries(fields, r)
    ensures LineOf(r) == fields[0] + [9] + fields[1] + [9] + fields[2] + [10]
  {
    hide Carries;
    fields := Fields(r);
    FieldsCarry(r);
  }

  // ----- The log -----

  function Entry(context: Bytes, detail: Bytes): Bytes {
    context + [TAB] + detail
  }

  /** A failure that was accepted: its two texts and the monotonic time of the call. */
  datatype Failure = Failure(context: Bytes, detail: Bytes, at: nat)

  function EntryOf(f: Failure): Bytes {
    Entry(f.context, f.detail)
  }

  function FailureOf(r: Record): Failure {
    Failure(r.context, r.detail, r.at)
  }

  function Failures(history: seq<Record>): (r: seq<Failure>)
    ensures |r| == |history| && forall i :: 0 <= i < |r| ==> r[i] == FailureOf(history[i])
  {
    seq(|history|, i requires 0 <= i < |history| => FailureOf(history[i]))
  }

  /** The same failure less than a minute ago; a clock going back counts as no time at all. */
  predicate Repeated(last: Option<(Bytes, nat)>, entry: Bytes, now: nat) {
    last.Some? && last.value.0 == entry && Max(now - last.value.1, 0) < REPEAT_WINDOW_MS
  }

  /** Consecutive equal failures are at least a minute apart. */
  ghost predicate Spaced(accepted: seq<Failure>) {
    forall i :: 0 <= i && i + 1 < |accepted| && EntryOf(accepted[i]) == EntryOf(accepted[i + 1])
      ==> accepted[i + 1].at - accepted[i].at >= 60_000
  }

  lemma SpacedWithOneMore(accepted: seq<Failure>, f: Failure)
    requires Spaced(accepted)
    requires accepted != [] && EntryOf(accepted[|accepted| - 1]) == EntryOf(f) ==>
               f.at - accepted[|accepted| - 1].at >= REPEAT_WINDOW_MS
    ensures Spaced(accepted + [f])
  {
    hide EntryOf;
    var all := accepted + [f];
    forall i | 0 <= i && i + 1 < |all| && EntryOf(all[i]) == EntryOf(all[i + 1])
      ensures all[i + 1].at - all[i].at >= REPEAT_WINDOW_MS
    {
      if i + 1 < |accepted| {
        assert all[i] == accepted[i] && all[i + 1] == accepted[i + 1];
      }
    }
  }

  /** From `first` on the records are the longest run of newest ones shorter than half the limit. */
  ghost predicate KeepsHalf(history: seq<Record>, first: nat) {
    && 0 < first <= |history|
    && |Text(history[first..])| < 131_072 <= |Text(history[first - 1..])|
  }

  /** The file is the records from `first` on, the newest of them last, at most one line over the limit. */
  ghost predicate FileFine(file: Bytes, history: seq<Record>, first: nat) {
    && first <= |history|
    && file == Text(history[first..])
    && (history != [] ==> first < |history| && |file| <= 262_144 + |LineOf(history[|history| - 1])|)
  }

  /** The last entry is the newest accepted one, and equal ones are spaced. */
  ghost predicate Accepted(last: Option<(Bytes, nat)>, accepted: seq<Failure>) {
    && (accepted == [] ==> last.None?)
    && (accepted != [] ==>
          var newest := accepted[|accepted| - 1];
          last == Some((EntryOf(newest), newest.at)))
    && Spaced(accepted)
  }

  /** Each accepted failure is written once, or waits to be. */
  ghost predicate Written(accepted: seq<Failure>, pending: seq<Failure>, history: seq<Record>) {
    multiset(accepted) == multiset(pending) + multiset(Failures(history))
  }

  lemma RepeatedIff(last: Option<(Bytes, nat)>, accepted: seq<Failure>, context: Bytes, detail: Bytes, now: nat)
    requires Accepted(last, accepted)
    ensures Repeated(last, Entry(context, detail), now) <==>
              && accepted != []
              && var newest := accepted[|accepted| - 1];
                 newest.context + [9] + newest.detail == context + [9] + detail && now - newest.at < 60_000
  {
    hide Spaced;
  }

  lemma AcceptedOneMore(last: Option<(Bytes, nat)>, accepted: seq<Failure>, f: Failure)
    requires Accepted(last, accepted) && !Repeated(last, EntryOf(f), f.at)
    ensures Accepted(Some((EntryOf(f), f.at)), accepted + [f])
  {
    hide EntryOf, Spaced;
    SpacedWithOneMore(accepted, f);
  }

  lemma PendingOneMore(accepted: seq<Failure>, pending: seq<Failure>, history: seq<Record>, f: Failure)
    requires Written(accepted, pending, history)
    ensures Written(accepted + [f], pending + [f], history)
  {
  }

  lemma WrittenOneMore(accepted: seq<Failure>, pending: seq<Failure>, history: seq<Record>, i: nat, r: Record)
    requires Written(accepted, pending, history) && i < |pending| && FailureOf(r) == pending[i]
    ensures Written(accepted, pending[..i] + pending[i + 1..], history + [r])
  {
    assert pending == pending[..i] + [pending[i]] + pending[i + 1..];
    assert Failures(history + [r]) == Failures(history) + [pending[i]];
  }

  /** The log and its two locks: a failure is accepted under one and written under the other, and several
      callers may be between the two. */
  class LowLevelLog {
    var file: Bytes
    var last: Option<(Bytes, nat)>
    /** Accepted and not written yet. */
    var pending: seq<Failure>
    /** Every failure in the order of acceptance. */
    ghost var accepted: seq<Failure>
    /** Every record in the order of writing, and the first one still in the file. */
    ghost var history: seq<Record>
    ghost var first: nat

    ghost predicate Valid()
      reads this
    {
      FileFine(file, history, first) && Accepted(last, accepted) && Written(accepted, pending, history)
    }

    constructor ()
      ensures Valid() && accepted == [] && pending == [] && history == [] && file == []
    {
      file, last, pending, accepted, history, first := [], None, [], [], [], 0;
    }

    /** Accepts a failure, unless it repeats the one accepted before too soon. */
    method Accept(context: Bytes, detail: Bytes, now: nat) returns (ok: bool)
      requires Valid()
      modifies this`last, this`pending, this`accepted
      ensures Valid()
      ensures ok <==> !old(Repeated(last, Entry(context, detail), now))
      ensures !ok <==>
                && old(accepted) != []
                && var newest := old(accepted)[|old(accepted)| - 1];
                   newest.context + [9] + newest.detail == context + [9] + detail && now - newest.at < 60_000
      ensures ok ==> accepted == old(accepted) + [Failure(context, detail, now)]
      ensures ok ==> pending == old(pending) + [Failure(context, detail, now)]
      ensures !ok ==> accepted == old(accepted) && pending == old(pending) && last == old(last)
    {
      hide FileFine, Entry, Accepted, Written, Repeated;
      RepeatedIff(last, accepted, context, detail, now);
      var entry := Entry(context, detail);
      if Repeated(last, entry, now) {
        return false;
      }
      var f := Failure(context, detail, now);
      AcceptedOneMore(last, accepted, f);
      PendingOneMore(accepted, pending, history, f);
      last := Some((entry, now));
      pending := pending + [f];
      accepted := accepted + [f];
      return true;
    }

    /** One of the callers in between writes its line. */
    method Write(i: nat, stamp: nat)
      requires Valid() && i < |pending|
      modifies this`file, this`pending, this`history, this`first
      ensures Valid() && pending == old(pending[..i] + pending[i + 1..])
      ensures var f := old(pending[i]); history == old(history) + [Record(stamp, f.context, f.detail, f.at)]
      ensures |old(file)| <= MAX_LOG_BYTES ==> first == old(first)
      ensures |old(file)| > MAX_LOG_BYTES ==> first > old(first) && KeepsHalf(old(history), first)
    {
      hide Text, LineOf, Accepted, Written, KeepsHalf;
      var f := pending[i];
      WrittenOneMore(accepted, pending, history, i, Record(stamp, f.context, f.detail, f.at));
      WriteEntry(f.context, f.detail, stamp, f.at);
      pending := pending[..i] + pending[i + 1..];
    }

    /** Records one failure with nobody in between. */
    method Log(context: Bytes, detail: Bytes, now: nat, stamp: nat)
      requires Valid()
      modifies this
      ensures Valid() && pending == old(pending)
      ensures old(Repeated(last, Entry(context, detail), now)) ==>
                history == old(history) && file == old(file) && accepted == old(accepted)
      ensures !old(Repeated(last, Entry(context, detail), now)) ==>
                && history == old(history) + [Record(stamp, context, detail, now)]
                && accepted == old(accepted) + [Failure(context, detail, now)]
      ensures |old(file)| <= MAX_LOG_BYTES ==> first == old(first)
      ensures first == old(first) || KeepsHalf(old(history), first)
    {
      hide FileFine, Entry, Accepted, Written, Repeated, KeepsHalf;
      var ok := Accept(context, detail, now);
      if ok {
        Write(|pending| - 1, stamp);
      }
    }

    /** Rotates a file grown past the limit, then appends the line. */
    method WriteEntry(context: Bytes, detail: Bytes, stamp: nat, ghost now: nat)
      requires first <= |history| && file == Text(history[first..])
      modifies this`file, this`history, this`first
      ensures history == old(history) + [Record(stamp, context, detail, now)]
      ensures first < |history| && file == Text(history[first..])
      ensures |file| <= MAX_LOG_BYTES + |LineOf(history[|history| - 1])|
      ensures |old(file)| <= MAX_LOG_BYTES ==> first == old(first)
      ensures |old(file)| > MAX_LOG_BYTES ==> first > old(first) && KeepsHalf(old(history), first)
    {
      hide Text, LineStart, Body;
      var offset := |file|;
      if offset > MAX_LOG_BYTES {
        var contents := file;
        var cut := |contents| - MAX_LOG_BYTES / 2;
        ghost var k := CutDropsRecords(history[first..], cut);
        var kept := contents[LineStart(contents, cut)..];
        file := kept;
        assert history[first..][k..] == history[first + k..];
        assert history[first..][k - 1..] == history[first + k - 1..];
        first := first + k;
        offset := |kept|;
      }
      ghost var r := Record(stamp, context, detail, now);
      var line := StampText(stamp) + [TAB] + Flatten(context) + [TAB] + Flatten(detail);
      LineIs(r, line);
      file := file[..offset] + line + [NEWLINE];
      TextAppend(history[first..], r);
      assert history[first..] + [r] == (history + [r])[first..];
      history := history + [r];
    }

    /** After any run of failures the file is the newest part of everything recorded: whole lines,
        the newest record last, and every line splits back into its three flattened fields. */
    lemma FileIsNewestPart()
      requires Valid() && history != []
      ensures first < |history| && file == Text(history[first..])
      ensures |Decode(file)| == |history| - first
      ensures forall i :: 0 <= i < |history| - first ==> Carries(Decode(file)[i], history[first + i])
      ensures |file| <= MAX_LOG_BYTES + |LineOf(history[|history| - 1])|
    {
      hide Text, Decode, Fields, LineOf, Carries, Accepted, Written;
      var kept := history[first..];
      TextDecodesBack(kept);
      forall i | 0 <= i < |kept|
        ensures Carries(Decode(file)[i], history[first + i])
      {
        assert kept[i] == history[first + i];
        FieldsCarry(kept[i]);
      }
    }
  }

  /** What one of any number of callers does next. */
  datatype Action = Accepting(context: Bytes, detail: Bytes, now: nat) | Writing(i: nat, stamp: nat)

  /** Any interleaving of callers, from an empty file: the order of acceptance is spaced, and the file is
      the newest part of the order of writing, each accepted failure being written at most once. */
  method Run(actions: seq<Action>) returns (log: LowLevelLog)
    ensures log.Valid()
    ensures Spaced(log.accepted)
    ensures log.first <= |log.history| && log.file == Text(log.history[log.first..])
    ensures multiset(Failures(log.history)) <= multiset(log.accepted)
    ensures |log.history| + |log.pending| == |log.accepted|
  {
    log := new LowLevelLog();
    for k := 0 to |actions|
      invariant log.Valid() && fresh(log)
    {
      match actions[k] {
        case Accepting(context, detail, now) =>
          var _ := log.Accept(context, detail, now);
        case Writing(i, stamp) =>
          if i < |log.pending| {
            log.Write(i, stamp);
          }
      }
    }
    assert |multiset(log.accepted)| == |multiset(log.pending)| + |multiset(Failures(log.history))|;
  }

  /** Two lines written one after the other for failures accepted one after the other are spaced when they
      are equal: only writing in another order brings equal lines closer. */
  lemma InOrderIsSpaced(log: LowLevelLog, i: nat, j: nat)
    requires log.Valid() && i + 1 < |log.history| && j + 1 < |log.accepted|
    requires log.accepted[j] == FailureOf(log.history[i]) && log.accepted[j + 1] == FailureOf(log.history[i + 1])
    requires EntryOf(FailureOf(log.history[i])) == EntryOf(FailureOf(log.history[i + 1]))
    ensures log.history[i + 1].at - log.history[i].at >= REPEAT_WINDOW_MS
  {
    hide EntryOf;
  }

  /** Failures at places `j` and `m` in the order of acceptance, both of the same entry, are a minute apart. */
  ghost predicate PairSpaced(accepted: seq<Failure>, j: nat, m: nat)
    requires j < m < |accepted|
  {
    EntryOf(accepted[j]) == EntryOf(accepted[m]) ==> accepted[m].at - accepted[j].at >= REPEAT_WINDOW_MS
  }

  /** Failures nobody can tell apart by time, `m` repeating `j` and all others different. */
  function Overtaken(n: nat, j: nat, m: nat): seq<Failure> {
    seq(n, i requires 0 <= i < n => Failure(seq(if i == m then j else i, _ => 0), [], 0))
  }

  /** Two failures are sure to be spaced exactly when one was accepted right after the other: so of lines
      that follow each other in the file it can only be relied upon when they were written in order. */
  lemma SurelySpacedIff(n: nat, j: nat, m: nat)
    requires j < m < n
    ensures (forall accepted: seq<Failure> :: |accepted| == n && Spaced(accepted) ==> PairSpaced(accepted, j, m))
            <==> m == j + 1
  {
    if m != j + 1 {
      var accepted := Overtaken(n, j, m);
      assert forall i :: 0 <= i < n ==> |EntryOf(accepted[i])| == (if i == m then j else i) + 1;
      assert Spaced(accepted);
      assert EntryOf(accepted[j]) == EntryOf(accepted[m]);
      assert !PairSpaced(accepted, j, m);
    }
  }

  /** Which does happen: a caller that accepted X is overtaken by Y and then by X again, and two equal lines
      less than a minute apart follow each other in the file. */
  method EqualLinesMayMeet(stamp: nat) returns (log: LowLevelLog)
    ensures log.Valid() && |log.history| == 3
    ensures EntryOf(FailureOf(log.history[1])) == EntryOf(FailureOf(log.history[2]))
    ensures log.history[1].at == 2 && log.history[2].at == 0
  {
    hide FileFine, Written, Spaced, KeepsHalf;
    log := new LowLevelLog();
    var x: Bytes, y: Bytes := [88], [89];
    assert Entry(x, [])[0] == 88 && Entry(y, [])[0] == 89;
    var ok := log.Accept(x, [], 0);
    ok := log.Accept(y, [], 1);
    log.Write(1, stamp);
    ok := log.Accept(x, [], 2);
    log.Write(1, stamp);
    log.Write(0, stamp);
  }

  lemma LineIs(r: Record, line: Bytes)
    requires line == StampText(r.stamp) + [TAB] + Flatten(r.context) + [TAB] + Flatten(r.detail)
    ensures LineOf(r) == line + [NEWLINE]
  {
  }
}
