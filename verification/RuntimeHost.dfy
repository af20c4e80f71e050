/** The privileged core host: a command-driven state machine over one optional active generation
    and two engine flags, facing a controller that can fail and cores that can exit at any time. */
module RuntimeHost {
  import opened Basics
  import opened HostTrace

  datatype ErrorCode = GenerationMismatch | NotReady | TimedOut
  datatype Command =
    | StartXray(generation: nat)
    | StartMihomo(generation: nat)
    | Stop(engine: Engine)
    | Diagnostics
    | Shutdown
  datatype Response = StartedEngine(engine: Engine) | StoppedEngine(engine: Engine) | Error(code: ErrorCode)
                    | ProcessDiagnostics(xrayStopped: bool, mihomoStopped: bool, logs: seq<Bytes>) | ShuttingDown

  function StartOf(engine: Engine, generation: nat): Command {
    match engine
    case Xray => StartXray(generation)
    case Mihomo => StartMihomo(generation)
  }

  datatype Active = Active(generation: nat, controller: nat, xray: bool, mihomo: bool)

  /** Controllers and processes. Every call may fail, and cores may exit before any call. */
  class World {
    var live: set<Core>
    /** Processes their controller has lost. */
    var strays: multiset<Core>
    var next: nat
    ghost var trace: Trace
    /** Controllers that could not be created. */
    ghost var refused: nat

    ghost predicate Valid()
      reads this
    {
      live == Live(trace) && strays == Strays(trace) && Kept(trace, next)
    }

    constructor ()
      ensures Valid() && trace == [] && Open(trace).None?
    {
      live, strays, next, trace, refused := {}, multiset{}, 0, [], 0;
      new;
      assert Live([]) == {} && Strays([]) == multiset{};
    }

    method Interfere()
      requires Valid()
      modifies this
      ensures Valid() && next == old(next) && refused == old(refused)
      ensures OnlyDeaths(old(trace), trace)
    {
      hide Kept, Live, Strays;
      var more: bool := *;
      while more && (live != {} || strays != multiset{})
        invariant Valid() && next == old(next) && refused == old(refused)
        invariant OnlyDeaths(old(trace), trace)
        decreases live, |strays|
      {
        more := *;
        if live != {} && more {
          var core :| core in live;
          DeathStep(trace, core, next);
          live := live - {core};
          trace := trace + [Died(core)];
        } else if strays != multiset{} {
          var core :| core in strays;
          StrayDeathStep(trace, core, next);
          strays := strays - multiset{core};
          trace := trace + [StrayDied(core)];
        } else {
          break;
        }
        more := *;
      }
    }

    method Create(generation: nat) returns (controller: Option<nat>)
      requires Valid() && Open(trace).None?
      modifies this
      ensures Valid() && old(trace) <= trace
      ensures controller.None? ==> Open(trace).None? && refused == old(refused) + 1
      ensures controller.Some? ==> refused == old(refused)
      ensures controller.Some? ==>
                && Open(trace) == Some(Held(controller.value, generation))
                && controller.value < next
                && forall e :: !Flag(trace, Core(controller.value, e))
    {
      Interfere();
      DeathsAreNotSeen(old(trace), trace);
      var ok: bool := *;
      if !ok {
        refused := refused + 1;
        return None;
      }
      controller := Some(next);
      EventKeeps(trace, Created(next, generation), next, next + 1);
      forall e
        ensures !Flag(trace, Core(next, e))
      {
        NothingAbove(trace, next, Core(next, e));
      }
      Unfold(trace, Created(next, generation));
      trace := trace + [Created(next, generation)];
      next := next + 1;
    }

    method Start(core: Core) returns (error: Option<ErrorCode>)
      requires Valid() && StartAllowed(trace, core) && core.controller < next
      modifies this
      ensures Valid() && next == old(next) && refused == old(refused) && old(trace) < trace
      ensures Open(trace) == old(Open(trace))
      ensures error.None? ==> Newest(trace) == Started(core) && core in live
      ensures error.Some? ==> Newest(trace).StartFailed? && Newest(trace).core == core
      ensures error.Some? ==> error.value != GenerationMismatch
      ensures Flag(trace, core) == error.None?
      ensures forall c :: c != core ==> Flag(trace, c) == old(Flag(trace, c))
    {
      hide Kept, Live, Strays, Flag;
      Interfere();
      DeathsAreNotSeen(old(trace), trace);
      var ok, timedOut: bool := *, *;
      ghost var e: Event;
      if ok {
        error := None;
        e := Started(core);
        live := live + {core};
      } else {
        error := Some(if timedOut then TimedOut else NotReady);
        var cause: Cause := *;
        if core in live && !Leaves(cause) {
          cause := FilesChanged;
        }
        if cause == NotCleanedUp {
          strays := strays + multiset{core};
        }
        e := StartFailed(core, cause);
      }
      EventKeeps(trace, e, next, next);
      Next(trace, e);
      trace := trace + [e];
    }

    method Stop(core: Core) returns (ok: bool)
      requires Valid() && core.controller < next && StopAllowed(trace, core)
      modifies this
      ensures Valid() && next == old(next) && refused == old(refused) && old(trace) < trace
      ensures Open(trace) == old(Open(trace))
      ensures Newest(trace) == if ok then Stopped(core) else StopFailed(core)
      ensures forall c :: Flag(trace, c) == (old(Flag(trace, c)) && !(ok && c == core))
      ensures forall k :: ReportedStopped(trace, k) == old(ReportedStopped(trace, k))
    {
      hide Kept, Live, Strays, Flag;
      Interfere();
      DeathsAreNotSeen(old(trace), trace);
      ok := *;
      ghost var e := if ok then Stopped(core) else StopFailed(core);
      if ok {
        live := live - {core};
      }
      EventKeeps(trace, e, next, next);
      Next(trace, e);
      trace := trace + [e];
    }

    /** A core is shown as stopped when it does not run or cannot be inspected. */
    method Diagnose(controller: nat) returns (xrayStopped: bool, mihomoStopped: bool)
      requires Valid() && controller < next && Holds(trace, controller)
      modifies this
      ensures Valid() && next == old(next) && refused == old(refused) && old(trace) < trace
      ensures Newest(trace).Diagnosed?
      ensures Newest(trace) == Diagnosed(controller, xrayStopped, mihomoStopped, Newest(trace).unseen)
      ensures xrayStopped == (Core(controller, Xray) !in live || Xray in Newest(trace).unseen)
      ensures mihomoStopped == (Core(controller, Mihomo) !in live || Mihomo in Newest(trace).unseen)
      ensures Open(trace) == old(Open(trace))
      ensures forall c :: Flag(trace, c) == old(Flag(trace, c))
      ensures xrayStopped && mihomoStopped ==> ReportedStopped(trace, controller)
    {
      hide Kept, Live, Strays, Flag;
      Interfere();
      DeathsAreNotSeen(old(trace), trace);
      var unseen: set<Engine> := *;
      xrayStopped := Core(controller, Xray) !in live || Xray in unseen;
      mihomoStopped := Core(controller, Mihomo) !in live || Mihomo in unseen;
      ghost var e := Diagnosed(controller, xrayStopped, mihomoStopped, unseen);
      EventKeeps(trace, e, next, next);
      Next(trace, e);
      trace := trace + [e];
    }

    /** Dropping a controller ends the cores it still runs. */
    method Release(controller: nat, ghost reason: Reason)
      requires Valid() && controller < next && ReleaseAllowed(trace, controller, reason)
      modifies this
      ensures Valid() && next == old(next) && refused == old(refused)
      ensures trace == old(trace) + [Released(controller, reason)]
      ensures Open(trace).None? && live == {} && strays == multiset{}
    {
      EventKeeps(trace, Released(controller, reason), next, next);
      Unfold(trace, Released(controller, reason));
      live := live - {Core(controller, Xray), Core(controller, Mihomo)};
      strays := strays[Core(controller, Xray) := 0][Core(controller, Mihomo) := 0];
      trace := trace + [Released(controller, reason)];
      NothingHeldNothingLives(trace, next);
    }
  }

  lemma NothingHeldNothingLives(t: Trace, bound: nat)
    requires Kept(t, bound) && Open(t).None?
    ensures Live(t) == {} && Strays(t) == multiset{}
  {
    OneGenerationAtEveryMoment(t, bound, |t|);
    assert t[..|t|] == t;
  }

  /** The engine runs on exactly when a start failed over it and nothing ended it since, or a process of
      it was lost. */
  ghost predicate RunsOnIff(t: Trace, world: World, core: Core)
    reads world
  {
    core in world.live || core in world.strays <==> Lingers(t, core) || core in Strays(t)
  }

  lemma RunsUnflagged(t: Trace, bound: nat, core: Core)
    requires Kept(t, bound)
    ensures !Flag(t, core) ==> (core in Live(t) <==> Lingers(t, core))
  {
    UnflaggedRunsIff(t, core);
  }

  lemma OnlyHeldLives(t: Trace, bound: nat)
    requires Kept(t, bound)
    ensures forall c :: c in Live(t) || c in Strays(t) ==> Holds(t, c.controller)
  {
    OneGenerationAtEveryMoment(t, bound, |t|);
    assert t[..|t|] == t;
  }

  lemma BelowOf(t: Trace, bound: nat, core: Core)
    requires Kept(t, bound) && (core in Live(t) || core in Strays(t))
    ensures core.controller < bound
  {
    hide Live, Strays, Flag, Legal, Hosted;
    if core.controller >= bound {
      NothingAbove(t, bound, core);
    }
  }

  lemma DeathStep(t: Trace, core: Core, bound: nat)
    requires Kept(t, bound) && core in Live(t)
    ensures Kept(t + [Died(core)], bound)
    ensures Live(t + [Died(core)]) == Live(t) - {core} && Strays(t + [Died(core)]) == Strays(t)
  {
    hide Kept, Live, Strays, Flag, Open;
    BelowOf(t, bound, core);
    EventKeeps(t, Died(core), bound, bound);
    Next(t, Died(core));
  }

  lemma StrayDeathStep(t: Trace, core: Core, bound: nat)
    requires Kept(t, bound) && core in Strays(t)
    ensures Kept(t + [StrayDied(core)], bound)
    ensures Live(t + [StrayDied(core)]) == Live(t)
    ensures Strays(t + [StrayDied(core)]) == Strays(t) - multiset{core}
  {
    hide Kept, Live, Strays, Flag, Open;
    BelowOf(t, bound, core);
    EventKeeps(t, StrayDied(core), bound, bound);
    Next(t, StrayDied(core));
  }

  /** A stop failed in the part of `u` that follows `t`. */
  ghost predicate FailedStop(t: Trace, u: Trace) {
    exists i :: |t| <= i < |u| && u[i].StopFailed?
  }

  /** A start of `engine` failed in the part of `u` that follows `t`. */
  ghost predicate FailedStart(t: Trace, u: Trace, engine: Engine) {
    exists i :: |t| <= i < |u| && u[i].StartFailed? && u[i].core.engine == engine
  }

  /** Nothing was active, or another generation that is let go now. */
  predicate NoneLeft(was: Option<Active>, now: Option<Active>, generation: nat) {
    now.None? && (was.Some? ==> was.value.generation != generation)
  }

  /** No Xray of this generation counts as started, and nothing of it was touched. */
  predicate NoXray(was: Option<Active>, now: Option<Active>, generation: nat) {
    NoneLeft(was, now, generation) || (was.Some? && was == now && was.value.generation == generation && !was.value.xray)
  }

  /** With one engine's flag set as given and the other's as before. */
  function WithFlag(a: Active, engine: Engine, flag: bool): Active {
    match engine
    case Xray => a.(xray := flag)
    case Mihomo => a.(mihomo := flag)
  }

  // ----- One frame of diagnostics -----

  ghost predicate Shown(t: Trace, live: set<Core>, k: nat, response: Response)
    requires response.ProcessDiagnostics?
  {
    && t != [] && Newest(t).Diagnosed?
    && response.xrayStopped == (Core(k, Xray) !in live || Xray in Newest(t).unseen)
    && response.mihomoStopped == (Core(k, Mihomo) !in live || Mihomo in Newest(t).unseen)
  }

  const MAX_ELEVATION_FRAME_BYTES: nat := 64 * 1024

  /** `frame` is the encoded size of a response with these logs, or nothing if it cannot be
      encoded. */
  predicate Fits(frame: seq<Bytes> -> Option<nat>, logs: seq<Bytes>) {
    frame(logs).Some? && frame(logs).value <= MAX_ELEVATION_FRAME_BYTES
  }

  /** `kept` is the longest suffix of the records that fits one frame. */
  ghost predicate NewestThatFit(kept: seq<Bytes>, logs: seq<Bytes>, frame: seq<Bytes> -> Option<nat>) {
    exists n :: 0 <= n <= |logs| && kept == logs[n..] && Fits(frame, kept) && forall m :: 0 <= m < n ==>
        !Fits(frame, logs[m..])
  }

  /** Drops the oldest records until the response fits one frame: the longest suffix that fits, and
      nothing only if not even the empty list does. */
  method TrimToFrame(logs: seq<Bytes>, frame: seq<Bytes> -> Option<nat>) returns (kept: Option<seq<Bytes>>)
    ensures kept.None? ==> forall n :: 0 <= n <= |logs| ==> !Fits(frame, logs[n..])
    ensures kept.Some? ==> NewestThatFit(kept.value, logs, frame)
    ensures kept.None? ==> !Fits(frame, [])
  {
    var rest := logs;
    ghost var n := 0;
    while true
      invariant 0 <= n <= |logs| && rest == logs[n..]
      invariant forall m :: 0 <= m < n ==> !Fits(frame, logs[m..])
      decreases |rest|
    {
      if Fits(frame, rest) {
        return Some(rest);
      }
      if rest == [] {
        return None;
      }
      rest := rest[1..];
      n := n + 1;
    }
  }

  /** The kinds of answer a command can have. */
  predicate Answers(command: Command, response: Response) {
    match command
    case StartXray(_) => response == StartedEngine(Xray) || response.Error?
    case StartMihomo(_) => response == StartedEngine(Mihomo) || response.Error?
    case Stop(engine) => response == StoppedEngine(engine) || response == Error(NotReady)
    case Diagnostics => response.ProcessDiagnostics? || response == Error(NotReady)
    case Shutdown => response == ShuttingDown
  }

  /** The host's life: it serves commands until a shutdown (or the pipe closes) and is dropped.
      Whatever the commands, the failures and the crashes were, the whole trace is kept, and in the
      end nothing is held. */
  method Serve(commands: seq<Command>, logs: seq<Bytes>, frame: seq<Bytes> -> Option<nat>)
    returns (world: World, responses: seq<Response>)
    ensures world.Valid() && Open(world.trace).None? && world.live == {} && world.strays == multiset{}
    ensures |responses| <= |commands|
    ensures forall i :: 0 <= i < |responses| && commands[i] == Shutdown ==> i == |responses| - 1
    ensures |responses| < |commands| ==> responses != [] && commands[|responses| - 1] == Shutdown
    ensures forall i :: 0 <= i < |responses| ==> Answers(commands[i], responses[i])
  {
    hide Kept, Live, Strays, Flag, Open, ReportedStopped, Lingers, Fits;
    world := new World();
    var host := new RuntimeHost(world);
    responses := [];
    while |responses| < |commands|
      invariant |responses| <= |commands|
      invariant host.Valid() && host.world == world && fresh(host) && fresh(world)
      invariant forall i :: 0 <= i < |responses| ==> commands[i] != Shutdown && Answers(commands[i], responses[i])
    {
      var response := host.Execute(commands[|responses|], logs, frame);
      responses := responses + [response];
      if commands[|responses| - 1] == Shutdown {
        break;
      }
    }
    host.ShutDownAll();
  }

  class RuntimeHost {
    const world: World
    var active: Option<Active>

    /** The flags say what the calls so far amount to. */
    ghost predicate Linked()
      reads this, world
    {
      && world.Valid()
      && match active
         case None => Open(world.trace).None?
         case Some(a) =>
           && Open(world.trace) == Some(Held(a.controller, a.generation))
           && a.controller < world.next
           && a.xray == Flag(world.trace, Core(a.controller, Xray))
           && a.mihomo == Flag(world.trace, Core(a.controller, Mihomo))
    }

    /** Between commands an active generation has a started core. */
    ghost predicate Valid()
      reads this, world
    {
      Linked() && (active.Some? ==> active.value.xray || active.value.mihomo)
    }

    constructor (world: World)
      requires world.Valid() && Open(world.trace).None?
      ensures Valid() && this.world == world && active.None?
    {
      this.world := world;
      active := None;
    }

    method Execute(command: Command, logs: seq<Bytes>, frame: seq<Bytes> -> Option<nat>) returns (response: Response)
      requires Valid()
      modifies this, world
      ensures Valid() && old(world.trace) <= world.trace
      ensures forall c :: c in world.live || c in world.strays ==>
                active.Some? && c.controller == active.value.controller
      ensures Answers(command, response)
      ensures response.StartedEngine? ==>
                && active.Some?
                && command == StartOf(response.engine, active.value.generation)
                && Core(active.value.controller, response.engine) in world.live
                && (response.engine == Xray ==> active.value.xray)
                && (response.engine == Mihomo ==> active.value.xray && active.value.mihomo)
      ensures (command.StartXray? || command.StartMihomo?) && response.Error? ==>
                || (&& response.code == GenerationMismatch
                    && active == old(active) && active.Some? && active.value.generation != command.generation
                    && exists e :: Core(active.value.controller, e) in world.live)
                || (&& command.StartMihomo? && response.code == NotReady
                    && NoXray(old(active), active, command.generation))
                || (&& command.StartXray? && response.code == NotReady
                    && NoneLeft(old(active), active, command.generation) && world.refused == old(world.refused) + 1)
                || FailedStart(old(world.trace), world.trace, if command.StartXray? then Xray else Mihomo)
      ensures response.StoppedEngine? ==>
                && command == Stop(response.engine)
                && (response.engine == Xray ==> active.None?)
                && (active.Some? ==>
                    && !Flag(world.trace, Core(active.value.controller, response.engine))
                    && RunsOnIff(world.trace, world, Core(active.value.controller, response.engine)))
      ensures command.Stop? ==>
                response == StoppedEngine(command.engine) ||
                (response == Error(NotReady) && FailedStop(old(world.trace), world.trace))
      ensures command == Stop(Mihomo) && old(active).Some? && old(active).value.xray ==>
                active.Some? && active.value.xray && active.value.generation == old(active).value.generation
      ensures command == Diagnostics ==> active == old(active)
      ensures command == Diagnostics ==>
                if !Fits(frame, []) && !response.ProcessDiagnostics? then response == Error(NotReady)
                else
                  && response.ProcessDiagnostics?
                  && NewestThatFit(response.logs, if active.Some? then logs else [], frame)
                  && (active.Some? ==> Shown(world.trace, world.live, active.value.controller, response))
                  && (active.None? ==> response.xrayStopped && response.mihomoStopped)
      ensures command == Shutdown ==> response == ShuttingDown && active.None?
    {
      hide Kept, Live, Strays, Flag, Open, ReportedStopped, StoppedMihomoLast, Lingers, Fits, NewestThatFit, Shown,
        FailedStart, FailedStop;
      match command {
        case StartXray(generation) =>
          response := Start(generation, Xray);
        case StartMihomo(generation) =>
          response := Start(generation, Mihomo);
        case Stop(engine) =>
          var ok := StopEngine(engine);
          response := if ok then StoppedEngine(engine) else Error(NotReady);
        case Diagnostics =>
          response := Report(logs, frame);
        case Shutdown =>
          ShutDownAll();
          response := ShuttingDown;
      }
      OnlyHeldLives(world.trace, world.next);
    }

    method Start(generation: nat, engine: Engine) returns (response: Response)
      requires Valid()
      modifies this, world
      ensures Valid() && old(world.trace) <= world.trace
      ensures response.StartedEngine? || response.Error?
      ensures response.StartedEngine? ==>
                && response.engine == engine && active.Some? && active.value.generation == generation
                && Core(active.value.controller, engine) in world.live
                && (if old(active).Some? && old(active).value.generation == generation
                    then active == Some(WithFlag(old(active).value, engine, true))
                    else active == Some(Active(generation, active.value.controller, true, false)) && engine == Xray)
                && (engine == Mihomo ==> active.value.xray)
      ensures response == Error(GenerationMismatch) ==>
                && active == old(active) && active.Some? && active.value.generation != generation
                && exists e :: Core(active.value.controller, e) in world.live
      ensures response.Error? ==>
                || response.code == GenerationMismatch
                || (engine == Mihomo && response.code == NotReady && NoXray(old(active), active, generation))
                || (&& engine == Xray && response.code == NotReady
                    && NoneLeft(old(active), active, generation) && world.refused == old(world.refused) + 1)
                || FailedStart(old(world.trace), world.trace, engine)
    {
      hide Kept, Live, Strays, Flag, Open, ReportedStopped, StoppedMihomoLast;
      if active.Some? && active.value.generation != generation {
        var alive := AnyCoreAlive();
        if alive {
          response := Error(GenerationMismatch);
          return;
        }
        // Every core of the previous generation has exited; release it for the new one.
        DiscardActive();
      }
      if engine == Mihomo && active.None? {
        response := Error(NotReady);
        return;
      }
      if active.None? {
        var controller := world.Create(generation);
        if controller.None? {
          response := Error(NotReady);
          return;
        }
        active := Some(Active(generation, controller.value, false, false));
      }
      if engine == Mihomo && !active.value.xray {
        response := Error(NotReady);
        return;
      }
      // Always delegate: a crashed core never stays reported as running.
      response := Delegate(engine);
    }

    /** Starts the engine of the active generation and drops the generation if nothing is left. */
    method Delegate(engine: Engine) returns (response: Response)
      requires Linked() && active.Some?
      requires engine == Mihomo ==> active.value.xray
      modifies this, world
      ensures Valid() && old(world.trace) <= world.trace
      ensures response == StartedEngine(engine) || (response.Error? && response.code != GenerationMismatch)
      ensures response.StartedEngine? ==>
                && active.Some? && active.value.generation == old(active).value.generation
                && Core(active.value.controller, engine) in world.live
      ensures response.Error? ==> FailedStart(old(world.trace), world.trace, engine)
      ensures var tried := WithFlag(old(active).value, engine, response.StartedEngine?);
              active == if tried.xray || tried.mihomo then Some(tried) else None
    {
      hide Kept, Live, Strays, Flag, Open, ReportedStopped, StoppedMihomoLast;
      var controller := active.value.controller;
      var error := world.Start(Core(controller, engine));
      ghost var asked := world.trace;
      assert error.Some? ==> asked[|asked| - 1] == Newest(asked);
      match engine {
        case Xray => active := Some(active.value.(xray := error.None?));
        case Mihomo => active := Some(active.value.(mihomo := error.None?));
      }
      if error.None? {
        response := StartedEngine(engine);
      } else {
        if !active.value.xray && !active.value.mihomo {
          active := None;
          world.Release(controller, StartFailure);
        }
        assert world.trace[|asked| - 1] == asked[|asked| - 1];
        response := Error(error.value);
      }
    }

    method AnyCoreAlive() returns (alive: bool)
      requires Valid()
      modifies world
      ensures Valid() && old(world.trace) <= world.trace && active == old(active) && world.refused == old(world.refused)
      ensures alive ==> active.Some? && exists e :: Core(active.value.controller, e) in world.live
      ensures !alive && active.Some? ==> ReportedStopped(world.trace, active.value.controller)
    {
      hide Kept, Live, Strays, Flag, Open, ReportedStopped, StoppedMihomoLast;
      if active.None? {
        return false;
      }
      if !active.value.xray && !active.value.mihomo {
        return false;
      }
      var xrayStopped, mihomoStopped := world.Diagnose(active.value.controller);
      alive := !xrayStopped || !mihomoStopped;
    }

    method DiscardActive()
      requires Valid()
      requires active.Some? ==> ReportedStopped(world.trace, active.value.controller)
      modifies this, world
      ensures Valid() && old(world.trace) <= world.trace && active.None? && world.refused == old(world.refused)
    {
      hide Kept, Live, Strays, Flag, Open, ReportedStopped;
      if active.Some? {
        var taken := active.value;
        active := None;
        var _ := world.Stop(Core(taken.controller, Mihomo));
        var _ := world.Stop(Core(taken.controller, Xray));
        world.Release(taken.controller, Discarded);
      }
    }

    /** An engine whose flag is cleared is answered without asking anybody; so after a success it runs on
        exactly when an earlier start failed over it or lost a process of it. */
    method StopEngine(engine: Engine) returns (ok: bool)
      requires Valid()
      modifies this, world
      ensures Valid() && old(world.trace) <= world.trace
      ensures active.Some? ==>
                && old(active).Some? && active.value.controller == old(active).value.controller
                && active.value.generation == old(active).value.generation
      ensures ok && active.Some? ==> !Flag(world.trace, Core(active.value.controller, engine))
      ensures ok && active.Some? ==> RunsOnIff(world.trace, world, Core(active.value.controller, engine))
      ensures ok && engine == Xray ==> active.None?
      ensures engine == Mihomo && old(active).Some? && ok ==>
                active == if old(active).value.xray then Some(old(active).value.(mihomo := false)) else None
      ensures engine == Mihomo && !ok ==> active == old(active)
      ensures engine == Xray && !ok ==>
                old(active).Some? && (active == old(active) || active == Some(old(active).value.(mihomo := false)))
      ensures !ok ==> FailedStop(old(world.trace), world.trace)
      ensures !ok ==> active.Some? && Newest(world.trace).StopFailed?
      ensures !ok ==> ControllerOf(Newest(world.trace)) == active.value.controller
      ensures engine == Mihomo && old(active).Some? && !old(active).value.mihomo ==>
                ok && world.trace == old(world.trace) && world.live == old(world.live)
      decreases if engine == Xray then 1 else 0
    {
      hide Kept, Live, Strays, Flag, Open, ReportedStopped, StoppedMihomoLast, Lingers;
      if engine == Xray && active.Some? && active.value.mihomo {
        var stopped := StopEngine(Mihomo);
        if !stopped {
          return false;
        }
      }
      if active.None? {
        return true;
      }
      var controller := active.value.controller;
      var running := match engine case Xray => active.value.xray case Mihomo => active.value.mihomo;
      if running {
        var stopped := world.Stop(Core(controller, engine));
        if !stopped {
          assert world.trace[|world.trace| - 1] == Newest(world.trace);
          return false;
        }
        match engine
        case Xray => active := Some(active.value.(xray := false));
        case Mihomo => active := Some(active.value.(mihomo := false));
      }
      if !active.value.xray && !active.value.mihomo {
        active := None;
        world.Release(controller, Emptied);
      } else {
        RunsUnflagged(world.trace, world.next, Core(controller, engine));
      }
      return true;
    }

    /** Everything is let go and nothing runs on, whichever stop fails. */
    method ShutDownAll()
      requires Valid()
      modifies this, world
      ensures Valid() && old(world.trace) <= world.trace && active.None?
      ensures world.live == {} && world.strays == multiset{}
    {
      hide Kept, Live, Strays, Flag, Open, ReportedStopped, StoppedMihomoLast;
      var _ := StopEngine(Mihomo);
      var _ := StopEngine(Xray);
      if active.Some? {
        var controller := active.value.controller;
        active := None;
        world.Release(controller, ShutDown);
      } else {
        NothingHeldNothingLives(world.trace, world.next);
      }
    }

    /** Each engine is shown as stopped when it does not run now or could not be inspected just now. */
    method Report(logs: seq<Bytes>, frame: seq<Bytes> -> Option<nat>) returns (response: Response)
      requires Valid()
      modifies world
      ensures Valid() && old(world.trace) <= world.trace
      ensures response.ProcessDiagnostics? ==>
                && Fits(frame, response.logs)
                && NewestThatFit(response.logs, if active.Some? then logs else [], frame)
                && (active.Some? ==> Shown(world.trace, world.live, active.value.controller, response))
      ensures active.None? && response.ProcessDiagnostics? ==> response.xrayStopped && response.mihomoStopped
      ensures active.None? ==> world.trace == old(world.trace)
      ensures response.ProcessDiagnostics? || (response == Error(NotReady) && !Fits(frame, []))
    {
      hide Kept, Live, Strays, Flag, Open, ReportedStopped, StoppedMihomoLast;
      var xrayStopped, mihomoStopped := true, true;
      if active.Some? {
        xrayStopped, mihomoStopped := world.Diagnose(active.value.controller);
      }
      var kept := TrimToFrame(if active.Some? then logs else [], frame);
      response := if kept.None? then Error(NotReady) else ProcessDiagnostics(xrayStopped, mihomoStopped, kept.value);
    }
  }
}
