/** What the privileged core host and its surroundings do, as a trace of events, and what such a
    trace says: which cores live, which controller is held, which cores were started and not
    stopped since. Everything here is about traces alone; `RuntimeHost` produces them. */
module HostTrace {
  import opened Basics

  datatype Engine = Xray | Mihomo

  /** One controller (for one generation) knows at most one process per engine. */
  datatype Core = Core(controller: nat, engine: Engine)

  /** Why the host let go of a controller. */
  datatype Reason = StartFailure | Emptied | Discarded | ShutDown

  /** Why a start failed. */
  datatype Cause =
    /** The guarded files no longer verify: the controller was never asked. */
    | FilesChanged
    /** The process started before could not be inspected: it is left as it is. */
    | NotInspected
    /** There was no process, or it had exited, and no new one could be launched. */
    | NotLaunched
    /** A new process was launched, did not become ready and was ended. */
    | Unready
    /** A new process was launched and could not be inspected or ended: the controller has lost it. */
    | NotCleanedUp

  datatype Event =
    | Created(controller: nat, generation: nat)
    | Started(core: Core)
    | StartFailed(core: Core, cause: Cause)
    | Stopped(core: Core)
    | StopFailed(core: Core)
    /** `unseen`: the engines whose process could not be inspected. */
    | Diagnosed(controller: nat, xrayStopped: bool, mihomoStopped: bool, unseen: set<Engine>)
    /** A core exits on its own, at any time; and so does a process the controller has lost. */
    | Died(core: Core)
    | StrayDied(core: Core)
    /** The controller is dropped, which ends the processes it still owns. */
    | Released(controller: nat, reason: Reason)

  type Trace = seq<Event>

  datatype Held = Held(controller: nat, generation: nat)

  function Past(t: Trace): Trace
    requires t != []
  {
    t[..|t| - 1]
  }

  function Newest(t: Trace): Event
    requires t != []
  {
    t[|t| - 1]
  }

  function ControllerOf(e: Event): nat {
    match e
    case Created(k, _) => k
    case Diagnosed(k, _, _, _) => k
    case StrayDied(c) => c.controller
    case Released(k, _) => k
    case Started(c) => c.controller
    case StartFailed(c, _) => c.controller
    case Stopped(c) => c.controller
    case StopFailed(c) => c.controller
    case Died(c) => c.controller
  }

  // ----- Reading a trace -----

  function LiveAfter(live: set<Core>, e: Event): set<Core> {
    match e
    case Started(c) => live + {c}
    case Stopped(c) => live - {c}
    case Died(c) => live - {c}
    case Released(k, _) => live - {Core(k, Xray), Core(k, Mihomo)}
    case _ => live
  }

  /** The cores the controllers know to have started that run after the trace. */
  function Live(t: Trace): set<Core> {
    if t == [] then {} else LiveAfter(Live(Past(t)), Newest(t))
  }

  function StraysAfter(strays: multiset<Core>, e: Event): multiset<Core> {
    match e
    case StartFailed(c, NotCleanedUp) => strays + multiset{c}
    case StrayDied(c) => strays - multiset{c}
    case Released(k, _) => strays[Core(k, Xray) := 0][Core(k, Mihomo) := 0]
    case _ => strays
  }

  /** The processes that run although their controller has lost them. */
  function Strays(t: Trace): multiset<Core> {
    if t == [] then multiset{} else StraysAfter(Strays(Past(t)), Newest(t))
  }

  function FlagAfter(flag: bool, e: Event, core: Core): bool {
    match e
    case Started(c) => c == core || flag
    case StartFailed(c, _) => c != core && flag
    case Stopped(c) => c != core && flag
    case _ => flag
  }

  /** The core was started successfully and neither stopped nor unsuccessfully restarted since. */
  predicate Flag(t: Trace, core: Core) {
    t != [] && FlagAfter(Flag(Past(t), core), Newest(t), core)
  }

  /** The controller created and not released since. */
  function Open(t: Trace): Option<Held> {
    if t == [] then None
    else match Newest(t)
      case Created(k, g) => Some(Held(k, g))
      case Released(_, _) => None
      case _ => Open(Past(t))
  }

  /** The latest diagnosis of the controller found both cores stopped, and nothing was started. */
  predicate ReportedStopped(t: Trace, k: nat) {
    t != [] &&
    match Newest(t)
    case Diagnosed(c, x, m, _) => if c == k then x && m else ReportedStopped(Past(t), k)
    case Started(c) => c.controller != k && ReportedStopped(Past(t), k)
    case StartFailed(c, _) => c.controller != k && ReportedStopped(Past(t), k)
    case _ => ReportedStopped(Past(t), k)
  }

  /** Apart from processes exiting, the last thing that happened was a stop of Mihomo. */
  predicate StoppedMihomoLast(t: Trace, k: nat) {
    t != [] &&
    match Newest(t)
    case Died(_) => StoppedMihomoLast(Past(t), k)
    case StrayDied(_) => StoppedMihomoLast(Past(t), k)
    case Stopped(c) => c == Core(k, Mihomo)
    case StopFailed(c) => c == Core(k, Mihomo)
    case _ => false
  }

  // ----- What the controller promises -----

  /** A core is diagnosed as stopped when it does not run or cannot be inspected. */
  predicate Seen(t: Trace, core: Core, stopped: bool, unseen: set<Engine>) {
    stopped == (core !in Live(t) || core.engine in unseen)
  }

  /** What can come next: a new process is launched only when none is known to run, and only what runs
      can exit. */
  predicate LegalNext(t: Trace, e: Event) {
    match e
    case Diagnosed(k, x, m, unseen) => Seen(t, Core(k, Xray), x, unseen) && Seen(t, Core(k, Mihomo), m, unseen)
    case StartFailed(c, cause) => cause.FilesChanged? || cause.NotInspected? || c !in Live(t)
    case Died(c) => c in Live(t)
    case StrayDied(c) => c in Strays(t)
    case _ => true
  }

  predicate Legal(t: Trace) {
    t != [] ==> Legal(Past(t)) && LegalNext(Past(t), Newest(t))
  }

  predicate Below(t: Trace, bound: nat) {
    forall i :: 0 <= i < |t| ==> ControllerOf(t[i]) < bound
  }

  // ----- What the host may do -----

  /** The controller is the held one. */
  predicate Holds(t: Trace, k: nat) {
    Open(t).Some? && Open(t).value.controller == k
  }

  /** Mihomo is started only over a started Xray. */
  predicate StartAllowed(t: Trace, core: Core) {
    Holds(t, core.controller) && (core.engine == Mihomo ==> Flag(t, Core(core.controller, Xray)))
  }

  /** Xray is stopped only after Mihomo's flag was cleared, except for the Mihomo-then-Xray release
      once both were reported stopped. */
  predicate StopAllowed(t: Trace, core: Core) {
    && Holds(t, core.controller)
    && (core.engine == Xray ==>
          || !Flag(t, Core(core.controller, Mihomo))
          || (ReportedStopped(t, core.controller) && StoppedMihomoLast(t, core.controller)))
  }

  predicate Unflagged(t: Trace, k: nat) {
    !Flag(t, Core(k, Xray)) && !Flag(t, Core(k, Mihomo))
  }

  /** The held controller is let go right after a failed start or a stop that cleared its last flag,
      after the stops of a generation that was reported stopped, or in a shutdown after a stop failed. */
  predicate ReleaseAllowed(t: Trace, k: nat, reason: Reason) {
    && Holds(t, k) && t != [] && ControllerOf(Newest(t)) == k
    && match reason
       case StartFailure => Newest(t).StartFailed? && Unflagged(t, k)
       case Emptied => Newest(t).Stopped? && Unflagged(t, k)
       case Discarded =>
         && (Newest(t) == Stopped(Core(k, Xray)) || Newest(t) == StopFailed(Core(k, Xray)))
         && ReportedStopped(t, k)
       case ShutDown => Newest(t).StopFailed?
  }

  /** What the host may do next; processes exit whenever they like. */
  predicate Allowed(t: Trace, e: Event) {
    match e
    case Created(_, _) => Open(t).None?
    case Started(c) => StartAllowed(t, c)
    case StartFailed(c, _) => StartAllowed(t, c)
    case Stopped(c) => StopAllowed(t, c)
    case StopFailed(c) => StopAllowed(t, c)
    case Diagnosed(k, _, _, _) => Holds(t, k)
    case Died(_) => true
    case StrayDied(_) => true
    case Released(k, reason) => ReleaseAllowed(t, k, reason)
  }

  predicate Hosted(t: Trace) {
    t != [] ==> Hosted(Past(t)) && Allowed(Past(t), Newest(t))
  }

  /** Everything kept, at every step. */
  predicate Kept(t: Trace, bound: nat) {
    Legal(t) && Hosted(t) && Below(t, bound)
  }

  // ----- Steps keep it -----

  lemma Unfold(t: Trace, e: Event)
    ensures Past(t + [e]) == t && Newest(t + [e]) == e
  {
  }

  /** What one more event changes. */
  lemma Next(t: Trace, e: Event)
    ensures Past(t + [e]) == t && Newest(t + [e]) == e
    ensures Live(t + [e]) == LiveAfter(Live(t), e) && Strays(t + [e]) == StraysAfter(Strays(t), e)
    ensures forall c :: Flag(t + [e], c) == FlagAfter(Flag(t, c), e, c)
  {
    Unfold(t, e);
  }

  lemma {:induction false} NothingAbove(t: Trace, bound: nat, core: Core)
    requires Below(t, bound) && core.controller >= bound
    ensures core !in Live(t) && core !in Strays(t) && !Flag(t, core)
  {
    if t != [] {
      assert Newest(t) == t[|t| - 1];
      assert Below(Past(t), bound) by {
        forall i | 0 <= i < |Past(t)| ensures ControllerOf(Past(t)[i]) < bound {
          assert Past(t)[i] == t[i];
        }
      }
      NothingAbove(Past(t), bound, core);
    }
  }

  lemma BelowExtends(t: Trace, e: Event, bound: nat, more: nat)
    requires Below(t, bound) && ControllerOf(e) < more && bound <= more
    ensures Below(t + [e], more)
  {
  }

  /** One more allowed event keeps it. */
  lemma EventKeeps(t: Trace, e: Event, bound: nat, more: nat)
    requires Kept(t, bound) && Allowed(t, e) && LegalNext(t, e) && ControllerOf(e) < more && bound <= more
    ensures Kept(t + [e], more)
  {
    hide Live, Strays, Allowed, LegalNext;
    Unfold(t, e);
    BelowExtends(t, e, bound, more);
  }

  // ----- Cores exiting by themselves change nothing else -----

  ghost predicate OnlyDeaths(t: Trace, u: Trace) {
    t <= u && forall i :: |t| <= i < |u| ==> u[i].Died? || u[i].StrayDied?
  }

  /** What the host and its rules look at is the same in both traces. */
  ghost predicate SameView(t: Trace, u: Trace) {
    && Open(t) == Open(u)
    && (forall c :: Flag(t, c) == Flag(u, c))
    && (forall k :: ReportedStopped(t, k) == ReportedStopped(u, k))
    && (forall k :: StoppedMihomoLast(t, k) == StoppedMihomoLast(u, k))
  }

  lemma {:induction false} DeathsAreNotSeen(t: Trace, u: Trace)
    requires OnlyDeaths(t, u)
    ensures SameView(t, u)
    decreases |u|
  {
    if t != u {
      assert Newest(u) == u[|u| - 1] && (Newest(u).Died? || Newest(u).StrayDied?);
      assert t <= Past(u);
      assert forall i :: |t| <= i < |Past(u)| ==> Past(u)[i] == u[i];
      DeathsAreNotSeen(t, Past(u));
    }
  }

  // ----- What that means for whole runs -----

  lemma {:induction false} KeptAtEveryMoment(t: Trace, bound: nat, n: nat)
    requires Kept(t, bound) && n <= |t|
    ensures Kept(t[..n], bound)
    decreases |t| - n
  {
    if n == |t| {
      assert t[..n] == t;
    } else {
      KeptAtEveryMoment(t, bound, n + 1);
      assert Past(t[..n + 1]) == t[..n];
    }
  }

  lemma CoreIs(c: Core)
    ensures c in {Core(c.controller, Xray), Core(c.controller, Mihomo)}
  {
    match c.engine
    case Xray => assert c == Core(c.controller, Xray);
    case Mihomo => assert c == Core(c.controller, Mihomo);
  }

  /** Every live core belongs to the held controller. */
  lemma {:induction false} LiveIsHeld(t: Trace, c: Core)
    requires Hosted(t) && c in Live(t)
    ensures Holds(t, c.controller)
  {
    if c in Live(Past(t)) {
      LiveIsHeld(Past(t), c);
    }
    CoreIs(c);
  }

  lemma {:induction false} StrayIsHeld(t: Trace, c: Core)
    requires Hosted(t) && c in Strays(t)
    ensures Holds(t, c.controller)
  {
    if c in Strays(Past(t)) {
      StrayIsHeld(Past(t), c);
    }
    CoreIs(c);
  }

  /** At any moment of any run all running processes belong to one controller, so to one generation, and
      it is the one the host holds: whatever was let go runs nothing. */
  lemma OneGenerationAtEveryMoment(t: Trace, bound: nat, n: nat)
    requires Kept(t, bound) && n <= |t|
    ensures forall c :: c in Live(t[..n]) || c in Strays(t[..n]) ==> Holds(t[..n], c.controller)
    ensures Open(t[..n]).None? ==> Live(t[..n]) == {} && Strays(t[..n]) == multiset{}
  {
    hide Live, Strays, Open, Hosted, Legal;
    KeptAtEveryMoment(t, bound, n);
    forall c | c in Live(t[..n]) || c in Strays(t[..n])
      ensures Holds(t[..n], c.controller)
    {
      if c in Live(t[..n]) {
        LiveIsHeld(t[..n], c);
      } else {
        StrayIsHeld(t[..n], c);
      }
    }
  }

  /** In every run, start(Mihomo) is only ever asked of the held controller, whose Xray start succeeded
      and was not undone since. */
  lemma MihomoStartsOverXray(t: Trace, bound: nat, n: nat)
    requires Kept(t, bound) && n < |t|
    requires t[n].Started? || t[n].StartFailed?
    requires t[n].core.engine == Mihomo
    ensures Holds(t[..n], t[n].core.controller) && Flag(t[..n], Core(t[n].core.controller, Xray))
  {
    KeptAtEveryMoment(t, bound, n + 1);
    assert Past(t[..n + 1]) == t[..n];
  }

  /** In every run, stop(Xray) is only ever asked when Mihomo's flag is cleared, or right after Mihomo's
      stop once both were reported stopped. */
  lemma XrayStopsAfterMihomo(t: Trace, bound: nat, n: nat)
    requires Kept(t, bound) && n < |t|
    requires t[n].Stopped? || t[n].StopFailed?
    requires t[n].core.engine == Xray
    ensures var k := t[n].core.controller;
            && Holds(t[..n], k)
            && (|| !Flag(t[..n], Core(k, Mihomo))
                || (ReportedStopped(t[..n], k) && StoppedMihomoLast(t[..n], k)))
  {
    KeptAtEveryMoment(t, bound, n + 1);
    assert Past(t[..n + 1]) == t[..n];
  }

  // ----- Reports and processes -----

  /** The latest diagnosis could not inspect the core while it ran, and nothing ended it since. */
  predicate Overlooked(t: Trace, core: Core) {
    t != [] &&
    match Newest(t)
    case Diagnosed(k, _, _, unseen) =>
      if k == core.controller then core.engine in unseen && core in Live(Past(t)) else Overlooked(Past(t), core)
    case Started(c) => c != core && Overlooked(Past(t), core)
    case Stopped(c) => c != core && Overlooked(Past(t), core)
    case Died(c) => c != core && Overlooked(Past(t), core)
    case Released(k, _) => k != core.controller && Overlooked(Past(t), core)
    case _ => Overlooked(Past(t), core)
  }

  /** A core reported stopped, with nothing started since, runs exactly when it was overlooked. */
  lemma {:induction false} ReportedStoppedRunsIff(t: Trace, core: Core)
    requires Legal(t) && ReportedStopped(t, core.controller)
    ensures core in Live(t) <==> Overlooked(t, core)
  {
    CoreIs(core);
    match Newest(t)
    case Diagnosed(k, x, m, unseen) =>
      if k != core.controller {
        ReportedStoppedRunsIff(Past(t), core);
      }
    case _ => ReportedStoppedRunsIff(Past(t), core);
  }

  // ----- Flags and processes -----

  /** A start that fails for this cause leaves the process known before as it is. */
  predicate Leaves(cause: Cause) {
    cause.FilesChanged? || cause.NotInspected?
  }

  /** The last the host heard of the core was a start that failed over it while it ran, and nothing ended
      it since. */
  predicate Lingers(t: Trace, core: Core) {
    t != [] &&
    match Newest(t)
    case StartFailed(c, cause) =>
      if c == core then Leaves(cause) && core in Live(Past(t)) else Lingers(Past(t), core)
    case Started(c) => c != core && Lingers(Past(t), core)
    case Stopped(c) => c != core && Lingers(Past(t), core)
    case Died(c) => c != core && Lingers(Past(t), core)
    case Released(k, _) => k != core.controller && Lingers(Past(t), core)
    case _ => Lingers(Past(t), core)
  }

  /** A core runs without its flag exactly when a start failed over it and nothing ended it since. */
  lemma {:induction false} UnflaggedRunsIff(t: Trace, core: Core)
    requires Legal(t)
    ensures core in Live(t) && !Flag(t, core) <==> Lingers(t, core)
  {
    if t != [] {
      UnflaggedRunsIff(Past(t), core);
      CoreIs(core);
    }
  }

  /** Every running process is a core with its flag set. */
  ghost predicate AllFlagged(t: Trace) {
    Strays(t) == multiset{} && forall c :: c in Live(t) ==> Flag(t, c)
  }

  /** A start of a running core fails because guarded files changed or it cannot be inspected, or a newly
      launched process can neither be inspected nor ended. */
  predicate LosesTrack(t: Trace, e: Event) {
    e.StartFailed? && (e.cause.NotCleanedUp? || (Leaves(e.cause) && e.core in Live(t)))
  }

  /** "Every running process is flagged" survives any event but one: it is lost exactly by such a start. */
  lemma FlagsAreLostIff(t: Trace, e: Event)
    requires Legal(t + [e]) && AllFlagged(t)
    ensures AllFlagged(t + [e]) <==> !LosesTrack(t, e)
  {
    var u := t + [e];
    Unfold(t, e);
    if e.StartFailed? && e.cause.NotCleanedUp? {
      assert e.core in Strays(u);
    } else if LosesTrack(t, e) {
      assert e.core in Live(u) && !Flag(u, e.core);
    } else {
      assert Strays(u) == multiset{};
      forall c | c in Live(u)
        ensures Flag(u, c)
      {
        assert c in Live(t) || e == Started(c);
      }
    }
  }

  /** What the drop of a controller still has to end: after a failed start or a stop the cores a start
      failed over, after a discard the overlooked ones, and only after a shutdown possibly others. */
  lemma LeftToTheDropIff(t: Trace, bound: nat, n: nat, c: Core)
    requires Kept(t, bound) && n < |t| && t[n].Released? && c.controller == t[n].controller
    ensures t[n].reason.StartFailure? || t[n].reason.Emptied? ==> (c in Live(t[..n]) <==> Lingers(t[..n], c))
    ensures t[n].reason.Discarded? ==> (c in Live(t[..n]) <==> Overlooked(t[..n], c))
  {
    hide Live, Lingers, Overlooked, Flag;
    KeptAtEveryMoment(t, bound, n + 1);
    KeptAtEveryMoment(t, bound, n);
    assert Past(t[..n + 1]) == t[..n];
    assert ReleaseAllowed(t[..n], c.controller, t[n].reason);
    UnflaggedRunsIff(t[..n], c);
    CoreIs(c);
    if t[n].reason.Discarded? {
      ReportedStoppedRunsIff(t[..n], c);
    }
  }

  /** Mihomo is left flagged without Xray exactly by a failed restart of Xray, or by the stop of Xray that
      ends a generation reported stopped whose Mihomo could not be stopped. */
  lemma MihomoOutlivesXrayIff(t: Trace, e: Event, k: nat)
    requires Hosted(t + [e]) && (Flag(t, Core(k, Mihomo)) ==> Flag(t, Core(k, Xray)))
    ensures Flag(t + [e], Core(k, Mihomo)) && !Flag(t + [e], Core(k, Xray)) <==>
            && Flag(t, Core(k, Mihomo))
            && (|| (e.StartFailed? && e.core == Core(k, Xray))
                || (e == Stopped(Core(k, Xray)) && ReportedStopped(t, k) && StoppedMihomoLast(t, k)))
  {
    Unfold(t, e);
  }

  // ----- The exceptions are real -----

  lemma JustCreated(k: nat, generation: nat)
    ensures var t := [Created(k, generation)];
            && Kept(t, k + 1) && Open(t) == Some(Held(k, generation)) && Live(t) == {}
            && forall c :: !Flag(t, c)
  {
    var t: Trace := [Created(k, generation)];
    assert Past(t) == [] && Newest(t) == Created(k, generation);
    assert Live([]) == {} && Open([]) == None;
  }

  lemma XrayStarted(k: nat, generation: nat) returns (t: Trace)
    ensures t == [Created(k, generation), Started(Core(k, Xray))]
    ensures Kept(t, k + 1) && Open(t) == Some(Held(k, generation)) && Live(t) == {Core(k, Xray)}
    ensures forall c :: Flag(t, c) <==> c == Core(k, Xray)
  {
    var t1 := [Created(k, generation)];
    t := t1 + [Started(Core(k, Xray))];
    JustCreated(k, generation);
    Unfold(t1, Started(Core(k, Xray)));
    EventKeeps(t1, Started(Core(k, Xray)), k + 1, k + 1);
  }

  lemma BothStarted(k: nat, generation: nat) returns (t: Trace)
    ensures t == [Created(k, generation), Started(Core(k, Xray)), Started(Core(k, Mihomo))]
    ensures Kept(t, k + 1) && Open(t) == Some(Held(k, generation))
    ensures Live(t) == {Core(k, Xray), Core(k, Mihomo)}
    ensures forall c :: Flag(t, c) <==> c in {Core(k, Xray), Core(k, Mihomo)}
  {
    var t2 := XrayStarted(k, generation);
    t := t2 + [Started(Core(k, Mihomo))];
    Unfold(t2, Started(Core(k, Mihomo)));
    EventKeeps(t2, Started(Core(k, Mihomo)), k + 1, k + 1);
  }

  /** Xray exits and its restart fails: Mihomo is flagged and runs without it. */
  lemma MihomoMayOutliveXray(k: nat, generation: nat) returns (t: Trace)
    ensures Kept(t, k + 1) && Open(t) == Some(Held(k, generation))
    ensures Flag(t, Core(k, Mihomo)) && !Flag(t, Core(k, Xray))
    ensures Core(k, Mihomo) in Live(t) && Core(k, Xray) !in Live(t)
  {
    var x := Core(k, Xray);
    var t3 := BothStarted(k, generation);
    var t4 := t3 + [Died(x)];
    t := t4 + [StartFailed(x, NotLaunched)];
    Unfold(t3, Died(x));
    Unfold(t4, StartFailed(x, NotLaunched));
    EventKeeps(t3, Died(x), k + 1, k + 1);
    EventKeeps(t4, StartFailed(x, NotLaunched), k + 1, k + 1);
  }

  /** A restart that fails over a live core, for either cause, leaves it running without its flag while
      its controller is held: a later stop of that engine is answered without asking anybody. */
  lemma RefusedRestartHidesACore(k: nat, generation: nat, cause: Cause) returns (t: Trace)
    requires Leaves(cause)
    ensures Kept(t, k + 1) && Open(t) == Some(Held(k, generation))
    ensures Flag(t, Core(k, Xray)) && !Flag(t, Core(k, Mihomo)) && Core(k, Mihomo) in Live(t)
  {
    var e := StartFailed(Core(k, Mihomo), cause);
    var t3 := BothStarted(k, generation);
    t := t3 + [e];
    Unfold(t3, e);
    EventKeeps(t3, e, k + 1, k + 1);
  }

  /** A start whose new process can neither be inspected nor ended leaves a process nobody knows. */
  lemma FailedStartLosesAProcess(k: nat, generation: nat) returns (t: Trace)
    ensures Kept(t, k + 1) && Open(t) == Some(Held(k, generation))
    ensures Flag(t, Core(k, Xray)) && !Flag(t, Core(k, Mihomo))
    ensures Core(k, Mihomo) !in Live(t) && Core(k, Mihomo) in Strays(t)
  {
    var e := StartFailed(Core(k, Mihomo), NotCleanedUp);
    var t2 := XrayStarted(k, generation);
    t := t2 + [e];
    Unfold(t2, e);
    EventKeeps(t2, e, k + 1, k + 1);
  }

  /** A live Xray that cannot be inspected is reported stopped, its generation is discarded, its stop
      fails, and only the drop ends it. */
  lemma UninspectedIsDiscarded(k: nat, generation: nat) returns (t: Trace)
    ensures Kept(t, k + 1) && |t| == 6 && t[5] == Released(k, Discarded)
    ensures Core(k, Xray) in Live(t[..5]) && Live(t) == {}
  {
    var x, m := Core(k, Xray), Core(k, Mihomo);
    var t2 := XrayStarted(k, generation);
    var seen := Diagnosed(k, true, true, {Xray});
    var t3 := t2 + [seen];
    var t4 := t3 + [Stopped(m)];
    var t5 := t4 + [StopFailed(x)];
    t := t5 + [Released(k, Discarded)];
    Unfold(t2, seen);
    Unfold(t3, Stopped(m));
    Unfold(t4, StopFailed(x));
    Unfold(t5, Released(k, Discarded));
    EventKeeps(t2, seen, k + 1, k + 1);
    assert Live(t3) == {x} && Open(t3) == Open(t2) && ReportedStopped(t3, k);
    EventKeeps(t3, Stopped(m), k + 1, k + 1);
    assert Live(t4) == {x} && Open(t4) == Open(t2) && ReportedStopped(t4, k) && !Flag(t4, m);
    EventKeeps(t4, StopFailed(x), k + 1, k + 1);
    assert Live(t5) == {x} && Open(t5) == Open(t2) && ReportedStopped(t5, k);
    EventKeeps(t5, Released(k, Discarded), k + 1, k + 1);
    assert t[..5] == t5;
  }
}
