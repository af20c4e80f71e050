/** Overlapped pipe I/O: while the kernel still writes into a buffer and an OVERLAPPED, somebody must
    own them. Callers issue operations, time out, cancel and hand unfinished ones to a reaper; the
    kernel completes them whenever it likes; the reaper frees what is done. Events are manual-reset:
    once signalled they stay signalled, and it means the kernel is done. */
module PipeIo {
  import opened Basics

  const MAX_RETAINED: nat := 64

  /** An operation: its OVERLAPPED, event and buffer are allocated together under one number. */
  type OpId = nat

  /** The three fields of a pending operation; each is taken at most once. */
  datatype PendingFields = PendingFields(overlapped: Option<OpId>, event: Option<OpId>, buffer: Option<OpId>)

  datatype Retained = Retained(overlapped: OpId, event: OpId, buffer: OpId)

  datatype Purpose = Read | Write

  /** Where a caller stands. */
  datatype Pc =
    /** The operation is allocated and about to be issued. */
    | Created
    /** Issued and pending: waiting for the event, a timeout or the peer's exit. */
    | Waiting
    /** The event was signalled: about to fetch the result. */
    | Completing
    | Cancelling
    | Draining
    | Drained
    /** Transferred; the buffer is about to be taken (or the operation dropped). */
    | Ready(transferred: nat)
    /** Inside the reaper's `retain`, holding the operation until the queue has room. */
    | Handing(operation: Retained)
    /** Returned, with the buffer of a successful read and the bytes of a completed operation. */
    | Finished(taken: Option<OpId>, moved: Option<nat>)

  datatype Caller = Caller(pc: Pc, purpose: Purpose, fields: PendingFields)

  datatype KernelOp = KernelOp(inFlight: bool, signalled: bool)

  datatype State = State(kernel: map<OpId, KernelOp>, callers: map<nat, Caller>, queue: seq<Retained>)

  datatype IssueResult = Done(transferred: nat) | Refused | StillPending

  datatype Step =
    | Begin(caller: nat, purpose: Purpose, op: OpId)
    | Issue(caller: nat, result: IssueResult)
    | KernelCompletes(op: OpId)
    | SeeSignal(caller: nat)
    /** The wait timed out, failed, or the peer's handle was signalled. */
    | GiveUp(caller: nat)
    | FetchResult(caller: nat, transferred: Option<nat>)
    | TakeBuffer(caller: nat)
    | RequestCancel(caller: nat)
    | SeeDrained(caller: nat)
    | DrainTimesOut(caller: nat)
    | DropDrained(caller: nat)
    | Push(caller: nat)
    | Sweep

  const EMPTY := PendingFields(None, None, None)

  function Full(op: OpId): PendingFields {
    PendingFields(Some(op), Some(op), Some(op))
  }

  function With(s: State, c: nat, caller: Caller): State {
    s.(callers := s.callers[c := caller])
  }

  /** The fields an accessor with `expect` touches next. */
  predicate WouldPanic(caller: Caller) {
    match caller.pc
    case Created => caller.fields.overlapped.None? || caller.fields.buffer.None?
    case Waiting => caller.fields.event.None?
    case Completing => caller.fields.overlapped.None?
    case Cancelling => caller.fields.overlapped.None?
    case Draining => caller.fields.overlapped.None? || caller.fields.event.None? || caller.fields.buffer.None?
    case Drained => caller.fields.overlapped.None?
    case Ready(n) => caller.purpose == Read && n > 0 && caller.fields.buffer.None?
    case _ => false
  }

  predicate Signalled(s: State, op: OpId) {
    op in s.kernel && s.kernel[op].signalled
  }

  /** What `queue.retain` keeps: the operations whose event is not signalled. */
  function Unsignalled(s: State, queue: seq<Retained>): seq<Retained> {
    if queue == [] then []
    else if Signalled(s, queue[0].event) then Unsignalled(s, queue[1..])
    else [queue[0]] + Unsignalled(s, queue[1..])
  }

  predicate At(s: State, c: nat, pc: Pc) {
    c in s.callers && s.callers[c].pc == pc && !WouldPanic(s.callers[c])
  }

  predicate Enabled(s: State, step: Step) {
    match step
    case Begin(c, _, op) => (c in s.callers ==> s.callers[c].pc.Finished?) && op !in s.kernel
    case Issue(c, _) => At(s, c, Created) && s.callers[c].fields.overlapped.value in s.kernel
    case KernelCompletes(op) => op in s.kernel && s.kernel[op].inFlight
    case SeeSignal(c) => At(s, c, Waiting) && Signalled(s, s.callers[c].fields.event.value)
    case GiveUp(c) => At(s, c, Waiting)
    case FetchResult(c, _) => At(s, c, Completing)
    case TakeBuffer(c) => c in s.callers && s.callers[c].pc.Ready? && !WouldPanic(s.callers[c])
    case RequestCancel(c) => At(s, c, Cancelling)
    case SeeDrained(c) => At(s, c, Draining) && Signalled(s, s.callers[c].fields.event.value)
    case DrainTimesOut(c) => At(s, c, Draining)
    case DropDrained(c) => At(s, c, Drained)
    case Push(c) => c in s.callers && s.callers[c].pc.Handing? && |s.queue| < MAX_RETAINED
    case Sweep => true
  }

  /** The caller returns; what it still owns is freed. */
  function Returning(s: State, c: nat, taken: Option<OpId>, moved: Option<nat>): State
    requires c in s.callers
  {
    With(s, c, s.callers[c].(pc := Finished(taken, moved), fields := EMPTY))
  }

  function Goto(s: State, c: nat, pc: Pc): State
    requires c in s.callers
  {
    With(s, c, s.callers[c].(pc := pc))
  }

  function Apply(s: State, step: Step): State
    requires Enabled(s, step)
  {
    match step
    case Begin(c, purpose, op) =>
      With(s.(kernel := s.kernel[op := KernelOp(false, false)]), c, Caller(Created, purpose, Full(op)))
    case Issue(c, result) =>
      var op := s.callers[c].fields.overlapped.value;
      (match result
       case Done(n) => Goto(s, c, Ready(n))
       case Refused => Returning(s, c, None, None)
       case StillPending => Goto(s.(kernel := s.kernel[op := KernelOp(true, false)]), c, Waiting))
    case KernelCompletes(op) => s.(kernel := s.kernel[op := KernelOp(false, true)])
    case SeeSignal(c) => Goto(s, c, Completing)
    case GiveUp(c) => Goto(s, c, Cancelling)
    case FetchResult(c, result) => if result.Some? then Goto(s, c, Ready(result.value)) else Returning(s, c, None, None)
    case TakeBuffer(c) =>
      var caller := s.callers[c];
      var moved := Some(caller.pc.transferred);
      if caller.purpose == Read && caller.pc.transferred > 0 then Returning(s, c, caller.fields.buffer, moved)
      else Returning(s, c, None, moved)
    case RequestCancel(c) => Goto(s, c, Draining)
    case SeeDrained(c) => Goto(s, c, Drained)
    case DrainTimesOut(c) =>
      var f := s.callers[c].fields;
      With(s, c, s.callers[c].(pc := Handing(Retained(f.overlapped.value, f.event.value, f.buffer.value)),
                               fields := EMPTY))
    case DropDrained(c) => Returning(s, c, None, None)
    case Push(c) =>
      Returning(s, c, None, None).(queue := s.queue + [s.callers[c].pc.operation])
    case Sweep => s.(queue := Unsignalled(s, s.queue))
  }

  // ----- Ownership -----

  /** The operation a caller owns. */
  function Owns(caller: Caller): Option<OpId> {
    match caller.pc
    case Handing(r) => Some(r.overlapped)
    case Finished(_, _) => None
    case _ => caller.fields.overlapped
  }

  /** The operation a caller owns, or whose buffer it returned. */
  function Claims(caller: Caller): Option<OpId> {
    if caller.pc.Finished? then caller.pc.taken else Owns(caller)
  }

  predicate Uniform(r: Retained) {
    r.event == r.overlapped && r.buffer == r.overlapped
  }

  ghost predicate HeldByCaller(s: State, op: OpId) {
    exists c :: c in s.callers && Owns(s.callers[c]) == Some(op)
  }

  ghost predicate HeldByReaper(s: State, op: OpId) {
    exists i :: 0 <= i < |s.queue| && s.queue[i].overlapped == op
  }

  /** The memory of `op` is allocated: one caller or the reaper owns it. */
  ghost predicate Held(s: State, op: OpId) {
    HeldByCaller(s, op) || HeldByReaper(s, op)
  }

  predicate CallerFine(caller: Caller, kernel: map<OpId, KernelOp>) {
    match caller.pc
    case Finished(taken, _) =>
      && caller.fields == EMPTY
      && (taken.Some? ==> taken.value in kernel && !kernel[taken.value].inFlight)
    case Handing(r) => caller.fields == EMPTY && Uniform(r) && r.overlapped in kernel
    case pc =>
      && caller.fields.overlapped.Some?
      && var op := caller.fields.overlapped.value;
         && caller.fields == Full(op) && op in kernel
         && (pc.Created? || pc.Ready? ==> !kernel[op].inFlight)
         && (pc.Completing? || pc.Drained? ==> kernel[op].signalled)
  }

  ghost predicate CallersFine(s: State) {
    forall c :: c in s.callers ==> CallerFine(s.callers[c], s.kernel)
  }

  ghost predicate KernelFine(s: State) {
    forall op :: op in s.kernel ==> !(s.kernel[op].signalled && s.kernel[op].inFlight)
  }

  /** No operation has two owners, and nobody owns one whose buffer was returned. */
  ghost predicate Exclusive(s: State) {
    && (forall c, d :: c in s.callers && d in s.callers && c != d && Claims(s.callers[c]).Some? ==>
        Claims(s.callers[c]) != Claims(s.callers[d]))
    && (forall i, j :: 0 <= i < j < |s.queue| ==> s.queue[i].overlapped != s.queue[j].overlapped)
    && (forall c, i :: c in s.callers && 0 <= i < |s.queue| ==> Claims(s.callers[c]) != Some(s.queue[i].overlapped))
  }

  ghost predicate QueueFine(s: State) {
    && |s.queue| <= MAX_RETAINED
    && forall i :: 0 <= i < |s.queue| ==> Uniform(s.queue[i]) && s.queue[i].overlapped in s.kernel
  }

  /** Whatever the kernel still references is allocated. */
  ghost predicate InFlightHeld(s: State) {
    forall op :: op in s.kernel && s.kernel[op].inFlight ==> Held(s, op)
  }

  ghost predicate Inv(s: State) {
    CallersFine(s) && KernelFine(s) && Exclusive(s) && QueueFine(s) && InFlightHeld(s)
  }

  // ----- Every step keeps the invariant -----

  /** Only known operations are claimed. */
  lemma ClaimsAreKnown(s: State, c: nat)
    requires CallersFine(s) && c in s.callers && Claims(s.callers[c]).Some?
    ensures Claims(s.callers[c]).value in s.kernel
  {
    assert CallerFine(s.callers[c], s.kernel);
  }

  /** Who holds an operation still holds it when everyone still owns what they owned. */
  lemma HoldingCarriesOver(s: State, t: State)
    requires InFlightHeld(s)
    requires forall op :: op in t.kernel && t.kernel[op].inFlight ==> op in s.kernel && s.kernel[op].inFlight
    requires forall c :: c in s.callers && Owns(s.callers[c]).Some? ==>
              c in t.callers && Owns(t.callers[c]) == Owns(s.callers[c])
    requires s.queue <= t.queue
    ensures InFlightHeld(t)
  {
    forall op | op in t.kernel && t.kernel[op].inFlight
      ensures Held(t, op)
    {
      assert Held(s, op);
      if HeldByCaller(s, op) {
        var d :| d in s.callers && Owns(s.callers[d]) == Some(op);
        assert Owns(t.callers[d]) == Some(op);
      } else {
        var i :| 0 <= i < |s.queue| && s.queue[i].overlapped == op;
        assert t.queue[i] == s.queue[i];
      }
    }
  }

  /** One caller changes, and what it claims now nobody else claims. */
  lemma ExclusiveAfterChange(s: State, t: State, c: nat)
    requires Exclusive(s) && c in t.callers
    requires t.queue == s.queue
    requires forall d :: d in t.callers && d != c ==> d in s.callers && t.callers[d] == s.callers[d]
    requires Claims(t.callers[c]).Some? ==>
               && (forall d :: d in s.callers && d != c ==> Claims(s.callers[d]) != Claims(t.callers[c]))
               && (forall i :: 0 <= i < |s.queue| ==> Some(s.queue[i].overlapped) != Claims(t.callers[c]))
    ensures Exclusive(t)
  {
    forall d, e | d in t.callers && e in t.callers && d != e && Claims(t.callers[d]).Some?
      ensures Claims(t.callers[d]) != Claims(t.callers[e])
    {
    }
  }

  lemma BeginKeeps(s: State, c: nat, purpose: Purpose, op: OpId)
    requires Inv(s) && Enabled(s, Begin(c, purpose, op))
    ensures Inv(Apply(s, Begin(c, purpose, op)))
  {
    hide InFlightHeld, Exclusive;
    var t := Apply(s, Begin(c, purpose, op));
    forall d | d in s.callers
      ensures Claims(s.callers[d]) != Some(op)
    {
      if Claims(s.callers[d]).Some? {
        ClaimsAreKnown(s, d);
      }
    }
    ExclusiveAfterChange(s, t, c);
    HoldingCarriesOver(s, t);
    BeginIsFine(s, c, purpose, op);
  }

  lemma BeginIsFine(s: State, c: nat, purpose: Purpose, op: OpId)
    requires CallersFine(s) && Enabled(s, Begin(c, purpose, op))
    ensures CallersFine(Apply(s, Begin(c, purpose, op)))
  {
    var t := Apply(s, Begin(c, purpose, op));
    forall d | d in t.callers
      ensures CallerFine(t.callers[d], t.kernel)
    {
      if d != c {
        assert CallerFine(s.callers[d], s.kernel);
      }
    }
  }

  /** A caller moves on without giving up or gaining anything. */
  lemma GotoKeeps(s: State, c: nat, pc: Pc)
    requires Inv(s) && c in s.callers
    requires !s.callers[c].pc.Finished? && !s.callers[c].pc.Handing? && !pc.Finished? && !pc.Handing?
    requires CallerFine(s.callers[c].(pc := pc), s.kernel)
    ensures Inv(Goto(s, c, pc))
  {
    hide InFlightHeld, Exclusive;
    var t := Goto(s, c, pc);
    assert forall d :: d in s.callers ==>
        Owns(t.callers[d]) == Owns(s.callers[d]) && Claims(t.callers[d]) == Claims(s.callers[d]);
    SameClaims(s, t);
    HoldingCarriesOver(s, t);
  }

  lemma SameClaims(s: State, t: State)
    requires Exclusive(s) && t.queue == s.queue && t.callers.Keys == s.callers.Keys
    requires forall d :: d in s.callers ==> Claims(t.callers[d]) == Claims(s.callers[d])
    ensures Exclusive(t)
  {
  }

  /** A caller whose operation the kernel is done with returns. */
  lemma ReturningKeeps(s: State, c: nat, taken: Option<OpId>, moved: Option<nat>)
    requires Inv(s) && c in s.callers
    requires Owns(s.callers[c]).Some? ==>
              Owns(s.callers[c]).value in s.kernel && !s.kernel[Owns(s.callers[c]).value].inFlight
    requires taken.Some? ==> taken == Owns(s.callers[c])
    ensures Inv(Returning(s, c, taken, moved))
  {
    var t := Returning(s, c, taken, moved);
    forall x | x in t.kernel && t.kernel[x].inFlight
      ensures Held(t, x)
    {
      assert Held(s, x);
      if HeldByCaller(s, x) {
        var d :| d in s.callers && Owns(s.callers[d]) == Some(x);
        assert d != c;
        assert t.callers[d] == s.callers[d];
      }
    }
  }

  /** The kernel takes an operation on, or finishes with it. */
  lemma KernelKeeps(s: State, op: OpId, state: KernelOp)
    requires Inv(s) && op in s.kernel
    requires state == KernelOp(true, false) || state == KernelOp(false, true)
    requires state.inFlight ==> Held(s, op) && forall c :: c in s.callers ==>
               && !(s.callers[c].pc.Finished? && s.callers[c].pc.taken == Some(op))
               && (Owns(s.callers[c]) == Some(op) ==> s.callers[c].pc.Waiting?)
    ensures Inv(s.(kernel := s.kernel[op := state]))
  {
    var t := s.(kernel := s.kernel[op := state]);
    forall c | c in t.callers
      ensures CallerFine(t.callers[c], t.kernel)
    {
      assert CallerFine(s.callers[c], s.kernel);
    }
    forall x | x in t.kernel && t.kernel[x].inFlight
      ensures Held(t, x)
    {
      assert Held(s, x);
      if HeldByCaller(s, x) {
        var d :| d in s.callers && Owns(s.callers[d]) == Some(x);
        assert t.callers[d] == s.callers[d];
      }
    }
  }

  lemma HandOverKeeps(s: State, c: nat)
    requires Inv(s) && Enabled(s, DrainTimesOut(c))
    ensures Inv(Apply(s, DrainTimesOut(c)))
  {
    hide InFlightHeld, Exclusive;
    var t := Apply(s, DrainTimesOut(c));
    assert CallerFine(s.callers[c], s.kernel);
    assert forall d :: d in s.callers ==>
        Owns(t.callers[d]) == Owns(s.callers[d]) && Claims(t.callers[d]) == Claims(s.callers[d]);
    SameClaims(s, t);
    HoldingCarriesOver(s, t);
  }

  lemma PushIsExclusive(s: State, c: nat)
    requires Exclusive(s) && Enabled(s, Push(c))
    ensures Exclusive(Apply(s, Push(c)))
  {
    var t := Apply(s, Push(c));
    var r := s.callers[c].pc.operation;
    assert Claims(s.callers[c]) == Some(r.overlapped);
    assert t.queue == s.queue + [r];
    assert forall d :: d in t.callers && d != c ==> t.callers[d] == s.callers[d];
    assert Claims(t.callers[c]) == None;
    forall d, i | d in t.callers && 0 <= i < |t.queue|
      ensures Claims(t.callers[d]) != Some(t.queue[i].overlapped)
    {
      if d != c && i == |s.queue| {
        assert Claims(s.callers[c]) != Claims(s.callers[d]);
      }
    }
  }

  lemma PushKeepsHolding(s: State, c: nat)
    requires InFlightHeld(s) && Enabled(s, Push(c))
    ensures InFlightHeld(Apply(s, Push(c)))
  {
    var t := Apply(s, Push(c));
    assert t.queue[|s.queue|] == s.callers[c].pc.operation;
    forall x | x in t.kernel && t.kernel[x].inFlight
      ensures Held(t, x)
    {
      assert Held(s, x);
      if HeldByCaller(s, x) {
        var d :| d in s.callers && Owns(s.callers[d]) == Some(x);
        if d == c {
          assert t.queue[|s.queue|].overlapped == x;
        } else {
          assert t.callers[d] == s.callers[d];
        }
      } else {
        var i :| 0 <= i < |s.queue| && s.queue[i].overlapped == x;
        assert t.queue[i] == s.queue[i];
      }
    }
  }

  lemma PushKeeps(s: State, c: nat)
    requires Inv(s) && Enabled(s, Push(c))
    ensures Inv(Apply(s, Push(c)))
  {
    hide Exclusive, InFlightHeld;
    PushIsExclusive(s, c);
    PushKeepsHolding(s, c);
    assert CallerFine(s.callers[c], s.kernel);
  }

  /** Sweeping keeps some of the queue, and everything the kernel is not done with. */
  lemma {:induction false} UnsignalledIsPart(s: State, queue: seq<Retained>)
    ensures |Unsignalled(s, queue)| <= |queue|
    ensures forall r :: r in Unsignalled(s, queue) ==> r in queue
    ensures forall r :: r in queue && !Signalled(s, r.event) ==> r in Unsignalled(s, queue)
  {
    if queue != [] {
      UnsignalledIsPart(s, queue[1..]);
      assert queue == [queue[0]] + queue[1..];
    }
  }

  lemma {:induction false} UnsignalledIsDistinct(s: State, queue: seq<Retained>)
    requires forall i, j :: 0 <= i < j < |queue| ==> queue[i].overlapped != queue[j].overlapped
    ensures var kept := Unsignalled(s, queue);
            forall i, j :: 0 <= i < j < |kept| ==> kept[i].overlapped != kept[j].overlapped
  {
    if queue != [] {
      var rest := queue[1..];
      UnsignalledIsDistinct(s, rest);
      UnsignalledIsPart(s, rest);
      var tail := Unsignalled(s, rest);
      forall j | 0 <= j < |tail|
        ensures tail[j].overlapped != queue[0].overlapped
      {
        assert tail[j] in tail;
        var i :| 0 <= i < |rest| && rest[i] == tail[j];
        assert queue[i + 1] == rest[i];
      }
    }
  }

  lemma SweepKeeps(s: State)
    requires Inv(s)
    ensures Inv(Apply(s, Sweep))
  {
    hide Unsignalled;
    var t := Apply(s, Sweep);
    UnsignalledIsPart(s, s.queue);
    UnsignalledIsDistinct(s, s.queue);
    forall i | 0 <= i < |t.queue|
      ensures exists j :: 0 <= j < |s.queue| && s.queue[j] == t.queue[i]
    {
      assert t.queue[i] in t.queue;
    }
    forall x | x in t.kernel && t.kernel[x].inFlight
      ensures Held(t, x)
    {
      assert Held(s, x);
      if HeldByCaller(s, x) {
        var d :| d in s.callers && Owns(s.callers[d]) == Some(x);
        assert t.callers[d] == s.callers[d];
      } else {
        var i :| 0 <= i < |s.queue| && s.queue[i].overlapped == x;
        assert s.queue[i] in t.queue;
        var j :| 0 <= j < |t.queue| && t.queue[j] == s.queue[i];
        assert t.queue[j].overlapped == x;
      }
    }
  }

  lemma FineCaller(s: State, c: nat)
    requires Inv(s) && c in s.callers
    ensures CallerFine(s.callers[c], s.kernel)
    ensures KernelFine(s)
  {
  }

  /** An operation about to be issued is claimed by its caller alone. */
  lemma OnlyOwner(s: State, t: State, c: nat, op: OpId)
    requires Inv(s) && c in s.callers && s.callers[c].pc.Created? && Owns(s.callers[c]) == Some(op)
    requires t == Goto(s, c, Waiting)
    ensures Held(t, op)
    ensures forall d :: d in t.callers ==>
              && !(t.callers[d].pc.Finished? && t.callers[d].pc.taken == Some(op))
              && (Owns(t.callers[d]) == Some(op) ==> t.callers[d].pc.Waiting?)
  {
    assert Owns(t.callers[c]) == Some(op);
    forall d | d in t.callers && d != c
      ensures !(t.callers[d].pc.Finished? && t.callers[d].pc.taken == Some(op)) && Owns(t.callers[d]) != Some(op)
    {
      assert Claims(s.callers[c]) != Claims(s.callers[d]);
    }
  }

  lemma IssueKeeps(s: State, c: nat, result: IssueResult)
    requires Inv(s) && Enabled(s, Issue(c, result))
    ensures Inv(Apply(s, Issue(c, result)))
  {
    hide Inv, Held;
    FineCaller(s, c);
    var op := s.callers[c].fields.overlapped.value;
    match result
    case Done(n) => GotoKeeps(s, c, Ready(n));
    case Refused => ReturningKeeps(s, c, None, None);
    case StillPending =>
      GotoKeeps(s, c, Waiting);
      var t := Goto(s, c, Waiting);
      OnlyOwner(s, t, c, op);
      KernelKeeps(t, op, KernelOp(true, false));
  }

  lemma StepKeeps(s: State, step: Step)
    requires Inv(s) && Enabled(s, step)
    ensures Inv(Apply(s, step))
  {
    hide Inv;
    if !step.KernelCompletes? && !step.Sweep? && step.caller in s.callers {
      FineCaller(s, step.caller);
    }
    match step
    case Begin(c, purpose, op) => BeginKeeps(s, c, purpose, op);
    case Issue(c, result) => IssueKeeps(s, c, result);
    case KernelCompletes(op) => KernelKeeps(s, op, KernelOp(false, true));
    case SeeSignal(c) => GotoKeeps(s, c, Completing);
    case GiveUp(c) => GotoKeeps(s, c, Cancelling);
    case FetchResult(c, transferred) =>
      if transferred.Some? {
        GotoKeeps(s, c, Ready(transferred.value));
      } else {
        ReturningKeeps(s, c, None, None);
      }
    case TakeBuffer(c) =>
      var caller := s.callers[c];
      ReturningKeeps(s, c, if caller.purpose == Read && caller.pc.transferred > 0 then caller.fields.buffer else None,
                     Some(caller.pc.transferred));
    case RequestCancel(c) => GotoKeeps(s, c, Draining);
    case SeeDrained(c) => GotoKeeps(s, c, Drained);
    case DrainTimesOut(c) => HandOverKeeps(s, c);
    case DropDrained(c) => ReturningKeeps(s, c, None, None);
    case Push(c) => PushKeeps(s, c);
    case Sweep => SweepKeeps(s);
  }

  // ----- Every interleaving -----

  const INITIAL := State(map[], map[], [])

  /** The steps can be taken one after another from `s`. */
  predicate Possible(s: State, steps: seq<Step>)
    decreases |steps|
  {
    steps == [] || (Enabled(s, steps[0]) && Possible(Apply(s, steps[0]), steps[1..]))
  }

  function After(s: State, steps: seq<Step>): State
    requires Possible(s, steps)
    decreases |steps|
  {
    if steps == [] then s else After(Apply(s, steps[0]), steps[1..])
  }

  lemma {:induction false} RunKeeps(s: State, steps: seq<Step>)
    requires Inv(s) && Possible(s, steps)
    ensures Inv(After(s, steps))
    decreases |steps|
  {
    hide Inv;
    if steps != [] {
      StepKeeps(s, steps[0]);
      RunKeeps(Apply(s, steps[0]), steps[1..]);
    }
  }

  /** In every interleaving of callers, kernel completions, timeouts and sweeps: what the kernel
      still references has exactly one owner, the reaper never holds more than 64 operations, no
      accessor would find its field gone, and a buffer handed back to a reader is no longer
      written to. */
  lemma EveryInterleavingIsSafe(steps: seq<Step>)
    requires Possible(INITIAL, steps)
    ensures var s := After(INITIAL, steps);
            && (forall op :: op in s.kernel && s.kernel[op].inFlight ==> Held(s, op))
            && Exclusive(s)
            && |s.queue| <= MAX_RETAINED
            && (forall c :: c in s.callers ==> !WouldPanic(s.callers[c]))
            && (forall c :: c in s.callers && s.callers[c].pc.Finished? && s.callers[c].pc.taken.Some? ==>
                  s.callers[c].pc.taken.value in s.kernel && !s.kernel[s.callers[c].pc.taken.value].inFlight)
  {
    RunKeeps(INITIAL, steps);
    var s := After(INITIAL, steps);
    forall c | c in s.callers
      ensures !WouldPanic(s.callers[c])
      ensures s.callers[c].pc.Finished? && s.callers[c].pc.taken.Some? ==>
                s.callers[c].pc.taken.value in s.kernel && !s.kernel[s.callers[c].pc.taken.value].inFlight
    {
      FineCaller(s, c);
    }
  }

  /** No step frees memory the kernel still references: what is let go the kernel was done with before,
      and the step that frees it is not the one that finished it. */
  lemma NothingInFlightIsFreed(s: State, step: Step, op: OpId)
    requires Inv(s) && Enabled(s, step)
    requires Held(s, op) && !Held(Apply(s, step), op)
    ensures op in s.kernel && !s.kernel[op].inFlight
    ensures Apply(s, step).kernel == s.kernel
  {
    HeldIsKnown(s, op);
    var t := Apply(s, step);
    if t.kernel != s.kernel {
      KernelStepsFreeNothing(s, step, op);
    } else {
      StepKeeps(s, step);
    }
  }

  lemma HeldIsKnown(s: State, op: OpId)
    requires Inv(s) && Held(s, op)
    ensures op in s.kernel
  {
    if c :| c in s.callers && Owns(s.callers[c]) == Some(op) {
      FineCaller(s, c);
    }
  }

  /** A step that starts, issues or finishes an operation leaves every owner its operation. */
  lemma KernelStepsFreeNothing(s: State, step: Step, op: OpId)
    requires Inv(s) && Enabled(s, step) && Held(s, op) && Apply(s, step).kernel != s.kernel
    ensures Held(Apply(s, step), op)
  {
    hide Inv, CallerFine;
    var t := Apply(s, step);
    assert t.queue == s.queue;
    if c :| c in s.callers && Owns(s.callers[c]) == Some(op) {
      assert c in t.callers && Owns(t.callers[c]) == Some(op);
    }
  }

  lemma {:induction false} UnsignalledIsShorter(s: State, queue: seq<Retained>, i: nat)
    requires i < |queue| && Signalled(s, queue[i].event)
    ensures |Unsignalled(s, queue)| < |queue|
  {
    UnsignalledIsPart(s, queue[1..]);
    if i > 0 {
      UnsignalledIsShorter(s, queue[1..], i - 1);
    }
  }

  /** A full queue blocks a caller only while the kernel is busy: once one retained operation is
      done, the next sweep lets the caller hand over. */
  lemma SweepMakesRoom(s: State, c: nat, i: nat)
    requires Inv(s) && c in s.callers && s.callers[c].pc.Handing?
    requires i < |s.queue| && Signalled(s, s.queue[i].event)
    ensures Enabled(Apply(s, Sweep), Push(c))
  {
    UnsignalledIsShorter(s, s.queue, i);
  }

  // ----- One caller among all the others -----

  function Actor(step: Step): Option<nat> {
    match step
    case Begin(c, _, _) => Some(c)
    case Issue(c, _) => Some(c)
    case KernelCompletes(_) => None
    case SeeSignal(c) => Some(c)
    case GiveUp(c) => Some(c)
    case FetchResult(c, _) => Some(c)
    case TakeBuffer(c) => Some(c)
    case RequestCancel(c) => Some(c)
    case SeeDrained(c) => Some(c)
    case DrainTimesOut(c) => Some(c)
    case DropDrained(c) => Some(c)
    case Push(c) => Some(c)
    case Sweep => None
  }

  lemma OthersLeaveMe(s: State, step: Step, c: nat)
    requires Enabled(s, step) && Actor(step) != Some(c) && c in s.callers
    ensures c in Apply(s, step).callers && Apply(s, step).callers[c] == s.callers[c]
  {
  }

  /** The pipe's operations, shared by all callers, the kernel and the reaper. */
  class Pipe {
    var s: State

    ghost predicate Valid()
      reads this
    {
      Inv(s)
    }

    method Do(step: Step)
      requires Valid() && Enabled(s, step)
      modifies this
      ensures Valid() && s == Apply(old(s), step)
    {
      hide Inv, Apply, Enabled;
      StepKeeps(s, step);
      s := Apply(s, step);
    }

    /** Anything the others do while caller `c` waits. */
    method Others(c: nat)
      requires Valid() && c in s.callers
      modifies this
      ensures Valid() && c in s.callers && s.callers[c] == old(s.callers[c])
    {
      hide Inv, Apply, Enabled, Actor;
      var rounds: int := *;
      while rounds > 0
        invariant Valid() && c in s.callers && s.callers[c] == old(s.callers[c])
      {
        var step: Step := *;
        if Enabled(s, step) && Actor(step) != Some(c) {
          OthersLeaveMe(s, step, c);
          Do(step);
        }
        rounds := rounds - 1;
      }
    }
  }

  /** `PendingIo`: the fields a caller takes from, once each. */
  class PendingIo {
    var overlapped: Option<OpId>
    var event: Option<OpId>
    var buffer: Option<OpId>

    ghost function Fields(): PendingFields
      reads this
    {
      PendingFields(overlapped, event, buffer)
    }

    /** These are the fields of caller `c`. */
    ghost predicate Of(pipe: Pipe, c: nat)
      reads this, pipe
    {
      pipe.Valid() && c in pipe.s.callers && pipe.s.callers[c].fields == Fields()
    }

    constructor (op: OpId)
      ensures Fields() == Full(op)
    {
      overlapped, event, buffer := Some(op), Some(op), Some(op);
    }

    /** The buffer of a finished read goes to the caller; it is the one the step hands out, and nobody
        writes to it any more. */
    method TakeBuffer(pipe: Pipe, c: nat) returns (taken: OpId)
      requires Of(pipe, c)
      requires pipe.s.callers[c].pc.Ready? && pipe.s.callers[c].pc.transferred > 0 && pipe.s.callers[c].purpose == Read
      modifies this, pipe
      ensures old(buffer) == Some(taken) && Fields() == old(Fields()).(buffer := None)
      ensures pipe.Valid() && pipe.s == Apply(old(pipe.s), Step.TakeBuffer(c))
      ensures pipe.s.callers[c].pc == Finished(Some(taken), Some(old(pipe.s.callers[c].pc.transferred)))
      ensures taken in pipe.s.kernel && !pipe.s.kernel[taken].inFlight
    {
      hide Inv;
      FineCaller(pipe.s, c);
      taken := buffer.value;
      pipe.Do(Step.TakeBuffer(c));
      buffer := None;
      FineCaller(pipe.s, c);
    }

    /** Cancels, waits at most a second, and leaves the operation here, to be dropped, exactly when the wait
        ends by its event; else it is moved out whole. Meanwhile anything may happen. */
    method CancelAndDrain(pipe: Pipe, c: nat, inTime: bool) returns (operation: Option<Retained>, ghost signalled: bool)
      requires Of(pipe, c) && pipe.s.callers[c].pc.Cancelling?
      modifies this, pipe
      ensures Of(pipe, c)
      ensures operation.None? <==> inTime && signalled
      ensures operation.None? ==> Fields() == old(Fields()) && pipe.s.callers[c].pc.Drained?
      ensures operation.None? ==> Signalled(pipe.s, old(overlapped).value)
      ensures operation.Some? ==> Fields() == EMPTY && pipe.s.callers[c].pc == Handing(operation.value)
      ensures operation.Some? ==>
                operation.value == Retained(old(overlapped).value, old(event).value, old(buffer).value)
    {
      hide Inv;
      FineCaller(pipe.s, c);
      pipe.Do(RequestCancel(c));
      pipe.Others(c);
      FineCaller(pipe.s, c);
      signalled := Signalled(pipe.s, event.value);
      if inTime && Signalled(pipe.s, event.value) {
        pipe.Do(SeeDrained(c));
        FineCaller(pipe.s, c);
        operation := None;
      } else {
        pipe.Do(DrainTimesOut(c));
        operation := Some(Retained(overlapped.value, event.value, buffer.value));
        overlapped, event, buffer := None, None, None;
      }
    }
  }

  /** What the system answers to one operation: to issuing it, whether the wait ends by the event when it
      is signalled (and not by the time), the result fetched then, and the same for the wait after a
      cancellation. */
  datatype System = System(issue: IssueResult, inTime: bool, result: Option<nat>, drains: bool)

  /** The bytes transferred when the operation completes; `signalled` says whether the kernel was done when
      the wait ended. */
  function Completed(system: System, signalled: bool): Option<nat> {
    match system.issue
    case Done(n) => Some(n)
    case Refused => None
    case StillPending => if system.inTime && signalled then system.result else None
  }

  /** `read_message`, with everybody else running at any time: it returns exactly what a completed operation
      transferred, when that is anything; the buffer is the caller's own and no longer written to. Otherwise
      the caller owns nothing, or is still handing the operation to the reaper because the queue is full. */
  method ReadMessage(pipe: Pipe, c: nat, op: OpId, system: System)
    returns (read: Option<(OpId, nat)>, ghost signalled: bool)
    requires pipe.Valid() && Enabled(pipe.s, Begin(c, Read, op))
    modifies pipe
    ensures pipe.Valid() && c in pipe.s.callers
    ensures read == (match Completed(system, signalled)
                     case None => None
                     case Some(n) => if n == 0 then None else Some((op, n)))
    ensures read.Some? ==> pipe.s.callers[c].pc == Finished(Some(op), Some(read.value.1))
    ensures read.Some? ==> op in pipe.s.kernel && !pipe.s.kernel[op].inFlight
    ensures read.None? ==>
              || (pipe.s.callers[c].pc.Finished? && pipe.s.callers[c].pc.taken.None?)
              || pipe.s.callers[c].pc == Handing(Retained(op, op, op))
  {
    hide Inv;
    signalled := false;
    pipe.Do(Begin(c, Read, op));
    var pending := new PendingIo(op);
    pipe.Others(c);
    FineCaller(pipe.s, c);
    pipe.Do(Issue(c, system.issue));
    match system.issue {
      case Done(n) =>
        assert pipe.s.callers[c].pc == Ready(n);
      case Refused =>
        return None, signalled;
      case StillPending =>
        var transferred;
        transferred, signalled := WaitPending(pipe, c, op, pending, system);
        if transferred.None? {
          return None, signalled;
        }
    }
    var n := pipe.s.callers[c].pc.transferred;
    if n == 0 {
      FineCaller(pipe.s, c);
      pipe.Do(TakeBuffer(c));
      return None, signalled;
    }
    var taken := pending.TakeBuffer(pipe, c);
    return Some((taken, n)), signalled;
  }

  /** `write_frame`: a frame counts as written exactly when the operation completes with all of it; in any
      case the caller owns nothing afterwards, or is still handing the operation over. */
  method WriteFrame(pipe: Pipe, c: nat, op: OpId, length: nat, system: System) returns (ok: bool, ghost signalled: bool)
    requires pipe.Valid() && Enabled(pipe.s, Begin(c, Write, op))
    modifies pipe
    ensures pipe.Valid() && c in pipe.s.callers
    ensures ok <==> Completed(system, signalled) == Some(length)
    ensures ok <==> pipe.s.callers[c].pc == Finished(None, Some(length))
    ensures ok ==> op in pipe.s.kernel && !pipe.s.kernel[op].inFlight
    ensures !ok ==>
              || (pipe.s.callers[c].pc.Finished? && pipe.s.callers[c].pc.taken.None?)
              || pipe.s.callers[c].pc == Handing(Retained(op, op, op))
  {
    hide Inv;
    signalled := false;
    pipe.Do(Begin(c, Write, op));
    var pending := new PendingIo(op);
    pipe.Others(c);
    FineCaller(pipe.s, c);
    pipe.Do(Issue(c, system.issue));
    match system.issue {
      case Done(n) =>
        assert pipe.s.callers[c].pc == Ready(n);
      case Refused =>
        return false, signalled;
      case StillPending =>
        var transferred;
        transferred, signalled := WaitPending(pipe, c, op, pending, system);
        if transferred.None? {
          return false, signalled;
        }
    }
    FineCaller(pipe.s, c);
    ok := pipe.s.callers[c].pc.transferred == length;
    pipe.Do(TakeBuffer(c));
  }

  /** `wait_pending`: the operation completes with a number of bytes exactly when the wait ends by its event
      and the result is a success; else it is over, or cancelled and handed over. */
  method WaitPending(pipe: Pipe, c: nat, op: OpId, pending: PendingIo, system: System)
    returns (transferred: Option<nat>, ghost signalled: bool)
    requires pending.Of(pipe, c) && pending.Fields() == Full(op) && pipe.s.callers[c].pc.Waiting?
    modifies pipe, pending
    ensures pipe.Valid() && c in pipe.s.callers
    ensures transferred == if system.inTime && signalled then system.result else None
    ensures transferred.Some? ==> pending.Of(pipe, c) && pending.Fields() == Full(op)
    ensures transferred.Some? ==>
              pipe.s.callers[c] == Caller(Ready(transferred.value), old(pipe.s.callers[c].purpose), Full(op))
    ensures transferred.None? ==>
              || pipe.s.callers[c].pc == Finished(None, None)
              || pipe.s.callers[c].pc == Handing(Retained(op, op, op))
  {
    hide Inv;
    pipe.Others(c);
    FineCaller(pipe.s, c);
    signalled := Signalled(pipe.s, op);
    if system.inTime && Signalled(pipe.s, op) {
      pipe.Do(SeeSignal(c));
      FineCaller(pipe.s, c);
      pipe.Do(FetchResult(c, system.result));
      return system.result, signalled;
    }
    pipe.Do(GiveUp(c));
    var operation, _ := pending.CancelAndDrain(pipe, c, system.drains);
    if operation.None? {
      FineCaller(pipe.s, c);
      pipe.Do(DropDrained(c));
    } else {
      pipe.Others(c);
      if |pipe.s.queue| < MAX_RETAINED {
        pipe.Do(Push(c));
      }
    }
    return None, signalled;
  }

  /** One sweep of the reaper over its queue, operation by operation. */
  method SweepQueue(s: State) returns (kept: seq<Retained>)
    ensures kept == Unsignalled(s, s.queue)
    ensures Inv(s) ==> forall r :: r in s.queue && r !in kept ==> !s.kernel[r.overlapped].inFlight
  {
    kept := [];
    for i := 0 to |s.queue|
      invariant kept + Unsignalled(s, s.queue[i..]) == Unsignalled(s, s.queue)
    {
      assert s.queue[i..][1..] == s.queue[i + 1..];
      if !Signalled(s, s.queue[i].event) {
        kept := kept + [s.queue[i]];
      }
    }
    assert kept + [] == kept;
    UnsignalledIsPart(s, s.queue);
  }
}
