/** Native crash reports: one static buffer, any number of crashing threads, and crashes inside the crash
    handler itself. */
module CrashReport {
  import opened Basics

  const REPORT_BYTES := 8 * 1024
  const MAX_WAITS := 200

  /** What fits into one report. */
  function First(text: Bytes): Bytes {
    text[..Min(|text|, REPORT_BYTES)]
  }

  /** 8 KiB in bytes. */
  lemma FirstInBytes(text: Bytes)
    ensures First(text) <= text && |First(text)| == if |text| < 8192 then |text| else 8192
  {
  }

  lemma FirstOfConcat(all: Bytes, text: Bytes)
    ensures First(First(all) + text) == First(all + text)
  {
    if |all| > REPORT_BYTES {
      assert First(all) + text == all[..REPORT_BYTES] + text;
    }
  }

  // ----- The buffer -----

  function Concat(pieces: seq<Bytes>): Bytes {
    if pieces == [] then [] else Concat(pieces[..|pieces| - 1]) + pieces[|pieces| - 1]
  }

  class ReportBuffer {
    const bytes: array<Byte>
    var len: nat

    ghost predicate Valid()
      reads this, bytes
    {
      bytes.Length == REPORT_BYTES && len <= REPORT_BYTES
    }

    function Contents(): Bytes
      reads this, bytes
      requires Valid()
    {
      bytes[..len]
    }

    constructor ()
      ensures Valid() && Contents() == [] && fresh(bytes)
    {
      bytes := new Byte[REPORT_BYTES](_ => 0);
      len := 0;
    }

    /** `write_str`: what does not fit is dropped. */
    method WriteStr(text: Bytes)
      requires Valid()
      modifies this, bytes
      ensures Valid() && Contents() == First(old(Contents()) + text)
    {
      var room := REPORT_BYTES - len;
      var take := if |text| < room then |text| else room;
      ghost var before := Contents();
      var k := 0;
      while k < take
        invariant 0 <= k <= take && len == old(len)
        invariant bytes[..len + k] == before + text[..k]
      {
        bytes[len + k] := text[k];
        k := k + 1;
      }
      len := len + take;
      assert text[..take] == text || |before + text[..take]| == REPORT_BYTES;
    }

    /** A report written piece by piece is the first 8 KiB of all of it, whatever the buffer held before. */
    method Format(pieces: seq<Bytes>)
      requires Valid()
      modifies this, bytes
      ensures Valid() && Contents() == First(Concat(pieces))
    {
      len := 0;
      for k := 0 to |pieces|
        invariant Valid() && Contents() == First(Concat(pieces[..k]))
      {
        FirstOfConcat(Concat(pieces[..k]), pieces[k]);
        WriteStr(pieces[k]);
        assert pieces[..k + 1][..k] == pieces[..k];
      }
      assert pieces[..|pieces|] == pieces;
    }
  }

  // ----- Taking turns -----

  /** A handler on some thread's stack: waiting for its turn, or writing, with all it has written. */
  datatype Frame = Waiting(waited: nat) | Writing(written: Bytes)

  type Thread = t: nat | t > 0 witness 1

  /** `writer` is 0 while nobody writes. Each thread has its handlers, the innermost last: only that one
      runs. `reports` remembers what each finished handler wrote, `log` what reached the file. */
  datatype State = State(
    writer: nat, stacks: map<Thread, seq<Frame>>, scratch: Bytes, log: seq<Bytes>, reports: seq<Bytes>)

  datatype Step =
    | Crash(thread: Thread)
    | Attempt(thread: Thread)
    | Write(thread: Thread, text: Bytes)
    | Finish(thread: Thread)

  function Stack(s: State, t: Thread): seq<Frame> {
    if t in s.stacks then s.stacks[t] else []
  }

  function Depth(s: State, t: Thread): nat {
    |Stack(s, t)|
  }

  function Innermost(s: State, t: Thread): Option<Frame> {
    if Stack(s, t) == [] then None else Some(Stack(s, t)[Depth(s, t) - 1])
  }

  predicate Enabled(s: State, step: Step) {
    match step
    case Crash(_) => true
    case Attempt(t) => Innermost(s, t).Some? && Innermost(s, t).value.Waiting?
    case Write(t, _) => Innermost(s, t).Some? && Innermost(s, t).value.Writing?
    case Finish(t) => Innermost(s, t).Some? && Innermost(s, t).value.Writing?
  }

  /** What one look at the writer tells a waiting handler. */
  datatype Look = Won | Again | Leave

  function LookAt(writer: nat, me: Thread, waited: nat): Look {
    if writer == 0 then Won
    else if writer == me then Leave
    else if waited < MAX_WAITS then Again
    else Leave
  }

  function Replace(s: State, t: Thread, frame: Frame): State
    requires Stack(s, t) != []
  {
    s.(stacks := s.stacks[t := Stack(s, t)[Depth(s, t) - 1 := frame]])
  }

  function Pop(s: State, t: Thread): State
    requires Stack(s, t) != []
  {
    s.(stacks := s.stacks[t := Stack(s, t)[..Depth(s, t) - 1]])
  }

  function Apply(s: State, step: Step): State
    requires Enabled(s, step)
  {
    match step
    case Crash(t) => s.(stacks := s.stacks[t := Stack(s, t) + [Waiting(0)]])
    case Attempt(t) =>
      var waited := Innermost(s, t).value.waited;
      (match LookAt(s.writer, t, waited)
       case Won => Replace(s, t, Writing([])).(writer := t, scratch := [])
       case Again => Replace(s, t, Waiting(waited + 1))
       case Leave => Pop(s, t))
    case Write(t, text) =>
      Replace(s, t, Writing(Innermost(s, t).value.written + text)).(scratch := First(s.scratch + text))
    case Finish(t) =>
      Pop(s, t).(writer := 0, log := s.log + [s.scratch], reports := s.reports + [Innermost(s, t).value.written])
  }

  const START := State(0, map[], [], [], [])

  ghost predicate Possible(s: State, steps: seq<Step>)
    decreases |steps|
  {
    steps == [] || (Enabled(s, steps[0]) && Possible(Apply(s, steps[0]), steps[1..]))
  }

  ghost function After(s: State, steps: seq<Step>): State
    requires Possible(s, steps)
    decreases |steps|
  {
    if steps == [] then s else After(Apply(s, steps[0]), steps[1..])
  }

  // ----- What always holds -----

  /** Frame `i` of thread `t` is in the scratch buffers. */
  predicate InScratch(s: State, t: Thread, i: int) {
    0 <= i < Depth(s, t) && Stack(s, t)[i].Writing?
  }

  /** One frame at most, and only on the thread that holds `writer`; a held `writer` has its frame. */
  ghost predicate OneWriter(s: State) {
    && (s.writer != 0 ==> exists i :: InScratch(s, s.writer, i))
    && (forall t: Thread, i :: InScratch(s, t, i) ==> s.writer == t)
    && (forall t: Thread, i, j :: InScratch(s, t, i) && InScratch(s, t, j) ==> i == j)
  }

  /** The buffer is the first 8 KiB of what its owner wrote, and so is every report in the file. */
  ghost predicate Intact(s: State) {
    && (forall t: Thread, i :: InScratch(s, t, i) ==> s.scratch == First(Stack(s, t)[i].written))
    && |s.log| == |s.reports|
    && forall k :: 0 <= k < |s.log| ==> s.log[k] == First(s.reports[k])
  }

  ghost predicate Patient(s: State) {
    forall t: Thread, i :: 0 <= i < Depth(s, t) && Stack(s, t)[i].Waiting? ==> Stack(s, t)[i].waited <= MAX_WAITS
  }

  ghost predicate Inv(s: State) {
    OneWriter(s) && Intact(s) && Patient(s)
  }

  lemma CrashKeeps(s: State, t: Thread)
    requires Inv(s)
    ensures Inv(Apply(s, Crash(t)))
  {
    var n := Apply(s, Crash(t));
    StacksOf(s, n, t);
    assert forall u: Thread, i :: InScratch(n, u, i) <==> InScratch(s, u, i);
  }

  lemma StacksOf(s: State, n: State, t: Thread)
    requires t in n.stacks && n.stacks == s.stacks[t := n.stacks[t]]
    ensures forall u: Thread :: u != t ==> Stack(n, u) == Stack(s, u)
  {
  }

  lemma AttemptKeeps(s: State, t: Thread)
    requires Inv(s) && Enabled(s, Attempt(t))
    ensures Inv(Apply(s, Attempt(t)))
  {
    var n := Apply(s, Attempt(t));
    var d := Depth(s, t) - 1;
    StacksOf(s, n, t);
    match LookAt(s.writer, t, Innermost(s, t).value.waited) {
      case Won =>
        assert forall u: Thread, i :: !InScratch(s, u, i);
        forall u: Thread, i
          ensures InScratch(n, u, i) <==> u == t && i == d
        {
          assert !InScratch(s, u, i);
          assert u != t ==> Stack(n, u) == Stack(s, u);
          assert Stack(n, t) == Stack(s, t)[d := Writing([])];
        }
        assert InScratch(n, t, d);
        assert First([]) == [];
      case _ =>
        assert forall u: Thread, i :: InScratch(n, u, i) <==> InScratch(s, u, i);
    }
  }

  lemma WriteKeeps(s: State, t: Thread, text: Bytes)
    requires Inv(s) && Enabled(s, Write(t, text))
    ensures Inv(Apply(s, Write(t, text)))
  {
    hide First;
    var n := Apply(s, Write(t, text));
    var d := Depth(s, t) - 1;
    StacksOf(s, n, t);
    assert InScratch(s, t, d);
    FirstOfConcat(Stack(s, t)[d].written, text);
    assert forall u: Thread, i :: InScratch(n, u, i) <==> InScratch(s, u, i);
  }

  lemma FinishKeeps(s: State, t: Thread)
    requires Inv(s) && Enabled(s, Finish(t))
    ensures Inv(Apply(s, Finish(t)))
  {
    hide First;
    var n := Apply(s, Finish(t));
    var d := Depth(s, t) - 1;
    StacksOf(s, n, t);
    assert InScratch(s, t, d);
    forall u: Thread, i
      ensures !InScratch(n, u, i)
    {
      assert InScratch(n, u, i) ==> InScratch(s, u, i);
    }
  }

  lemma StepKeeps(s: State, step: Step)
    requires Inv(s) && Enabled(s, step)
    ensures Inv(Apply(s, step))
  {
    match step
    case Crash(t) => CrashKeeps(s, t);
    case Attempt(t) => AttemptKeeps(s, t);
    case Write(t, text) => WriteKeeps(s, t, text);
    case Finish(t) => FinishKeeps(s, t);
  }

  lemma {:induction false} RunKeeps(s: State, steps: seq<Step>)
    requires Inv(s) && Possible(s, steps)
    ensures Inv(After(s, steps))
    decreases |steps|
  {
    if steps != [] {
      StepKeeps(s, steps[0]);
      RunKeeps(Apply(s, steps[0]), steps[1..]);
    }
  }

  /** In every interleaving of crashes, nested or not, at most one frame is in the scratch buffers, it
      belongs to the thread that holds the turn, and every report in the file is the first 8 KiB of what
      one single handler wrote. */
  lemma EveryReportIsIntact(steps: seq<Step>)
    requires Possible(START, steps)
    ensures var s := After(START, steps);
            && (forall t: Thread, i, u: Thread, j :: InScratch(s, t, i) && InScratch(s, u, j) ==> t == u && i == j)
            && |s.log| == |s.reports|
            && forall k :: 0 <= k < |s.log| ==> s.log[k] == First(s.reports[k])
  {
    hide After, Possible;
    RunKeeps(START, steps);
  }

  /** How many handlers finish in a run. */
  function Finishes(steps: seq<Step>): nat {
    if steps == [] then 0 else (if steps[0].Finish? then 1 else 0) + Finishes(steps[1..])
  }

  /** Every handler that finishes adds exactly one report. */
  lemma {:induction false} OneReportEach(s: State, steps: seq<Step>)
    requires Possible(s, steps)
    ensures |After(s, steps).log| == |s.log| + Finishes(steps)
    decreases |steps|
  {
    if steps != [] {
      OneReportEach(Apply(s, steps[0]), steps[1..]);
    }
  }

  /** All that thread `t` writes in a run. */
  function Texts(steps: seq<Step>, t: Thread): Bytes {
    if steps == [] then []
    else (if steps[0].Write? && steps[0].thread == t then steps[0].text else []) + Texts(steps[1..], t)
  }

  /** Handler number `depth` of thread `t` is writing, and has written this. */
  ghost predicate HasWritten(s: State, t: Thread, depth: nat, written: Bytes) {
    0 < depth <= Depth(s, t) && Stack(s, t)[depth - 1] == Writing(written)
  }

  lemma OneWrite(s: State, step: Step, t: Thread, depth: nat, written: Bytes)
    requires Inv(s) && Enabled(s, step) && HasWritten(s, t, depth, written) && step != Finish(t)
    ensures HasWritten(Apply(s, step), t, depth, written + Texts([step], t)) && Apply(s, step).log == s.log
  {
    hide First;
    assert InScratch(s, t, depth - 1);
    assert [step][1..] == [] && Texts([], t) == [];
    assert written + [] == written;
    if step.Write? || step.Finish? {
      OnlyWriter(s, t, depth - 1, step.thread);
    }
    if step.Write? {
      assert InScratch(s, t, Depth(s, t) - 1);
      assert step.text + [] == step.text;
    }
  }

  lemma OnlyWriter(s: State, t: Thread, i: int, u: Thread)
    requires Inv(s) && InScratch(s, t, i) && Innermost(s, u).Some? && Innermost(s, u).value.Writing?
    ensures u == t
  {
    assert InScratch(s, u, Depth(s, u) - 1);
  }

  lemma {:induction false} WritesAreCollected(s: State, steps: seq<Step>, t: Thread, depth: nat, written: Bytes)
    requires Inv(s) && Possible(s, steps) && HasWritten(s, t, depth, written) && Finish(t) !in steps
    ensures HasWritten(After(s, steps), t, depth, written + Texts(steps, t)) && After(s, steps).log == s.log
    decreases |steps|
  {
    hide HasWritten, Inv, Apply, Enabled;
    if steps == [] {
      assert written + [] == written;
    } else {
      OneWrite(s, steps[0], t, depth, written);
      StepKeeps(s, steps[0]);
      var more := written + Texts([steps[0]], t);
      assert [steps[0]][1..] == [] && Texts([], t) == [];
      WritesAreCollected(Apply(s, steps[0]), steps[1..], t, depth, more);
      assert more + Texts(steps[1..], t) == written + Texts(steps, t);
    }
  }

  /** A handler that begins to write and finishes leaves in the file one report: the first 8 KiB of all it
      wrote in between, whatever the other threads did and whatever crashed inside it. */
  lemma ReportIsWhatWasWritten(s: State, steps: seq<Step>, t: Thread)
    requires Inv(s) && Depth(s, t) > 0 && HasWritten(s, t, Depth(s, t), [])
    requires Possible(s, steps) && Finish(t) !in steps && Enabled(After(s, steps), Finish(t))
    ensures Apply(After(s, steps), Finish(t)).log == s.log + [First(Texts(steps, t))]
  {
    hide After, Possible, First;
    WritesAreCollected(s, steps, t, Depth(s, t), []);
    RunKeeps(s, steps);
    var u := After(s, steps);
    assert InScratch(u, t, Depth(s, t) - 1) && InScratch(u, t, Depth(u, t) - 1);
    assert [] + Texts(steps, t) == Texts(steps, t);
  }

  /** A crash inside the handler that is writing gets no turn: its only look sends it away and leaves
      everything as it was. */
  lemma NestedCrashLeaves(s: State, t: Thread)
    requires Inv(s) && s.writer == t
    ensures Enabled(Apply(s, Crash(t)), Attempt(t))
    ensures var n := Apply(Apply(s, Crash(t)), Attempt(t));
            Stack(n, t) == Stack(s, t) && n == s.(stacks := n.stacks)
  {
  }

  // ----- Waiting ends -----

  /** The looks thread `t` takes with exactly `depth` handlers on its stack. */
  ghost function Looks(s: State, steps: seq<Step>, t: Thread, depth: nat): nat
    requires Possible(s, steps)
    decreases |steps|
  {
    if steps == [] then 0
    else (if steps[0] == Attempt(t) && Depth(s, t) == depth then 1 else 0) + Looks(Apply(s, steps[0]), steps[1..], t,
                                                                                   depth)
  }

  /** Handler number `depth` of thread `t` waits all the time. */
  ghost predicate Waits(s: State, steps: seq<Step>, t: Thread, depth: nat)
    requires Possible(s, steps)
    decreases |steps|
  {
    && 0 < depth <= Depth(s, t) && Stack(s, t)[depth - 1].Waiting?
    && (steps != [] ==> Waits(Apply(s, steps[0]), steps[1..], t, depth))
  }

  lemma OneLook(s: State, step: Step, t: Thread, depth: nat)
    requires Enabled(s, step)
    requires 0 < depth <= Depth(s, t) && Stack(s, t)[depth - 1].Waiting?
    requires depth <= Depth(Apply(s, step), t) && Stack(Apply(s, step), t)[depth - 1].Waiting?
    ensures Stack(Apply(s, step), t)[depth - 1].waited
         == Stack(s, t)[depth - 1].waited + if step == Attempt(t) && Depth(s, t) == depth then 1 else 0
  {
  }

  lemma {:induction false} LooksAreCounted(s: State, steps: seq<Step>, t: Thread, depth: nat)
    requires Possible(s, steps) && Waits(s, steps, t, depth)
    ensures depth <= Depth(After(s, steps), t) && Stack(After(s, steps), t)[depth - 1].Waiting?
    ensures Stack(After(s, steps), t)[depth - 1].waited == Stack(s, t)[depth - 1].waited + Looks(s, steps, t, depth)
    decreases |steps|
  {
    if steps != [] {
      OneLook(s, steps[0], t, depth);
      LooksAreCounted(Apply(s, steps[0]), steps[1..], t, depth);
    }
  }

  /** However threads interleave and nest, a handler that started waiting looks at most 200 times without
      an end, so the 201st look always decides. */
  lemma WaitingIsBounded(s: State, steps: seq<Step>, t: Thread, depth: nat)
    requires Inv(s) && Possible(s, steps) && Waits(s, steps, t, depth)
    ensures Looks(s, steps, t, depth) <= MAX_WAITS - Stack(s, t)[depth - 1].waited
  {
    hide After, Possible, Looks, OneWriter, Intact;
    LooksAreCounted(s, steps, t, depth);
    RunKeeps(s, steps);
  }

  // ----- The loop itself -----

  /** The waiting loop of one handler: `seen(k)` is the writer at look `k`, whoever else runs. */
  method Acquire(me: Thread, seen: nat -> nat) returns (won: bool, looks: nat)
    ensures 1 <= looks <= MAX_WAITS + 1
    ensures forall k :: 0 <= k < looks - 1 ==> seen(k) != 0 && seen(k) != me
    ensures won <==> seen(looks - 1) == 0
    ensures !won ==> seen(looks - 1) == me || looks == MAX_WAITS + 1
  {
    var waited := 0;
    looks := 0;
    while true
      invariant looks == waited <= MAX_WAITS
      invariant forall k :: 0 <= k < looks ==> seen(k) != 0 && seen(k) != me
      decreases MAX_WAITS - waited
    {
      var look := LookAt(seen(looks), me, waited);
      looks := looks + 1;
      if look == Won {
        return true, looks;
      }
      if look == Leave {
        return false, looks;
      }
      waited := waited + 1;
    }
  }
}
