/** How the privileged host pins down the files of one generation on Unix: every component of every
    path is opened relative to its already opened parent, without following links, and checked. */
module GuardChain {
  import opened Basics

  // ----- Paths -----

  datatype Component = Normal(name: string) | Special

  datatype Path = Path(absolute: bool, parts: seq<Component>)

  type Names = seq<string>

  /** A path made only of the root and plain names. */
  predicate Plain(p: Path) {
    p.absolute && forall i :: 0 <= i < |p.parts| ==> p.parts[i].Normal?
  }

  function NamesOf(p: Path): (r: Names)
    requires Plain(p)
    ensures |r| == |p.parts| && forall i :: 0 <= i < |r| ==> p.parts[i] == Normal(r[i])
  {
    seq(|p.parts|, i requires 0 <= i < |p.parts| => p.parts[i].name)
  }

  function Join(p: Path, name: string): Path {
    Path(p.absolute, p.parts + [Normal(name)])
  }

  function Parent(p: Path): Option<Path> {
    if p.parts == [] then None else Some(Path(p.absolute, p.parts[..|p.parts| - 1]))
  }

  function FileName(p: Path): Option<string> {
    if p.parts != [] && p.parts[|p.parts| - 1].Normal? then Some(p.parts[|p.parts| - 1].name) else None
  }

  // ----- Handles and guards -----

  datatype Kind = Directory | Regular | Other

  datatype Metadata = Metadata(kind: Kind, uid: nat, mode: bv32, device: nat, inode: nat)

  /** An open file, with the chain of opens that led to it. */
  datatype Handle = Root | Child(parent: Handle, name: string, metadata: Metadata)

  datatype Guard = Guard(path: Names, handle: Handle, identity: (nat, nat))

  datatype Error = InvalidGeneration | Layout | Symlink | Escape | Missing | Ownership | InvalidElf | Io

  /** What a component is checked for. */
  datatype Demand = Demand(directory: bool, last: bool, client: bool)

  const STICKY: bv32 := 0x200
  const GROUP_OR_OTHER_WRITE: bv32 := 0x12

  /** The right kind, owned by root or the client (by the client alone where demanded), and not open to
      other writers, unless it is a sticky directory of root on the way. */
  predicate Checked(m: Metadata, d: Demand, owner: nat) {
    && m.kind == (if d.directory then Directory else Regular)
    && (m.uid == owner || (m.uid == 0 && !d.client))
    && (m.mode & GROUP_OR_OTHER_WRITE != 0 ==> d.directory && !d.last && m.uid == 0 && m.mode & STICKY != 0)
  }

  /** A request to guard a path. */
  datatype Target = Target(names: Names, directory: bool, client: bool)

  function DemandOf(t: Target, path: Names): Demand {
    Demand(path != t.names || t.directory, path == t.names, path == t.names && t.client)
  }

  ghost predicate Requested(targets: seq<Target>, path: Names) {
    exists i :: 0 <= i < |targets| && path <= targets[i].names
  }

  /** The first request that passes through `path` decides what is demanded of it. */
  function FirstDemand(targets: seq<Target>, path: Names): Demand {
    if targets == [] then Demand(true, false, false)
    else if path <= targets[0].names then DemandOf(targets[0], path)
    else FirstDemand(targets[1..], path)
  }

  // ----- What the guard list always satisfies -----

  ghost predicate Distinct(guards: seq<Guard>) {
    forall i, j :: 0 <= i < j < |guards| ==> guards[i].path != guards[j].path
  }

  ghost predicate Holds(guards: seq<Guard>, path: Names) {
    exists i :: 0 <= i < |guards| && guards[i].path == path
  }

  /** Guard `i` was opened under its own name from the handle of its parent's guard, which comes before it. */
  ghost predicate Linked(guards: seq<Guard>, i: nat)
    requires i < |guards|
  {
    var g := guards[i];
    && g.path != [] && g.handle.Child? && g.handle.name == g.path[|g.path| - 1]
    && g.identity == (g.handle.metadata.device, g.handle.metadata.inode)
    && (if |g.path| == 1 then g.handle.parent == Root
        else exists j :: 0 <= j < i && guards[j].path == g.path[..|g.path| - 1] && guards[j].handle == g.handle.parent)
  }

  ghost predicate AllLinked(guards: seq<Guard>) {
    forall i :: 0 <= i < |guards| ==> Linked(guards, i)
  }

  ghost predicate AllChecked(guards: seq<Guard>, targets: seq<Target>, owner: nat) {
    forall i :: 0 <= i < |guards| ==>
      guards[i].handle.Child? && Checked(guards[i].handle.metadata, FirstDemand(targets, guards[i].path), owner)
  }

  /** Exactly the components of the requested paths are guarded. */
  ghost predicate Covers(guards: seq<Guard>, targets: seq<Target>) {
    forall path: Names :: Holds(guards, path) <==> path != [] && Requested(targets, path)
  }

  ghost predicate Guarded(guards: seq<Guard>, targets: seq<Target>, owner: nat) {
    Distinct(guards) && AllLinked(guards) && AllChecked(guards, targets, owner) && Covers(guards, targets)
  }

  /** The names opened one after the other to reach a handle. */
  function Trail(h: Handle): Names {
    match h
    case Root => []
    case Child(parent, name, _) => Trail(parent) + [name]
  }

  /** Every guard was reached from the root through exactly the names of its path, each opened in the
      directory before it. */
  lemma {:induction false} TrailIsPath(guards: seq<Guard>, i: nat)
    requires AllLinked(guards) && i < |guards|
    ensures Trail(guards[i].handle) == guards[i].path
    decreases i
  {
    var g := guards[i];
    assert Linked(guards, i);
    if |g.path| > 1 {
      var j :| 0 <= j < i && guards[j].path == g.path[..|g.path| - 1] && guards[j].handle == g.handle.parent;
      TrailIsPath(guards, j);
    }
    assert g.path == g.path[..|g.path| - 1] + [g.path[|g.path| - 1]];
  }

  // ----- One more request -----

  /** Requests `targets` are guarded, and the first `k` components of `t` as well. */
  ghost predicate GuardedTo(guards: seq<Guard>, targets: seq<Target>, t: Target, k: nat, owner: nat)
    requires k <= |t.names|
  {
    && Distinct(guards) && AllLinked(guards) && AllChecked(guards, targets + [t], owner)
    && forall path: Names :: Holds(guards, path) <==> path != [] && (Requested(targets, path) || path <= t.names[..k])
  }

  lemma {:induction false} FirstDemandStays(targets: seq<Target>, t: Target, path: Names)
    ensures Requested(targets, path) ==> FirstDemand(targets + [t], path) == FirstDemand(targets, path)
    ensures !Requested(targets, path) && path <= t.names ==> FirstDemand(targets + [t], path) == DemandOf(t, path)
  {
    var all := targets + [t];
    if targets == [] {
      assert all == [t] && all[0] == t;
    } else {
      assert all[1..] == targets[1..] + [t];
      FirstDemandStays(targets[1..], t, path);
      if i :| 0 <= i < |targets| && path <= targets[i].names && !(path <= targets[0].names) {
        assert path <= targets[1..][i - 1].names;
      }
      if i :| 0 <= i < |targets[1..]| && path <= targets[1..][i].names {
        assert path <= targets[i + 1].names;
      }
    }
  }

  lemma StartOfChain(guards: seq<Guard>, targets: seq<Target>, t: Target, owner: nat)
    requires Guarded(guards, targets, owner)
    ensures GuardedTo(guards, targets, t, 0, owner)
  {
    forall i | 0 <= i < |guards|
      ensures FirstDemand(targets + [t], guards[i].path) == FirstDemand(targets, guards[i].path)
    {
      assert Holds(guards, guards[i].path);
      FirstDemandStays(targets, t, guards[i].path);
    }
  }

  lemma EndOfChain(guards: seq<Guard>, targets: seq<Target>, t: Target, owner: nat)
    requires GuardedTo(guards, targets, t, |t.names|, owner)
    ensures Guarded(guards, targets + [t], owner)
  {
    assert t.names[..|t.names|] == t.names;
    forall path: Names
      ensures Requested(targets + [t], path) <==> Requested(targets, path) || path <= t.names
    {
      if Requested(targets, path) {
        var i :| 0 <= i < |targets| && path <= targets[i].names;
        assert path <= (targets + [t])[i].names;
      }
      if path <= t.names {
        assert path <= (targets + [t])[|targets|].names;
      }
    }
  }

  lemma PrefixesOfPrefix(names: Names, k: nat, path: Names)
    requires k < |names|
    ensures path <= names[..k + 1] <==> path <= names[..k] || path == names[..k + 1]
  {
    if path <= names[..k + 1] && |path| <= k {
      assert path == names[..k + 1][..|path|] == names[..k][..|path|];
    }
    if path <= names[..k] {
      assert path == names[..k][..|path|] == names[..k + 1][..|path|];
    }
  }

  /** A component guarded for an earlier path is taken as it is. */
  lemma ReuseKeeps(guards: seq<Guard>, targets: seq<Target>, t: Target, k: nat, owner: nat)
    requires k < |t.names| && GuardedTo(guards, targets, t, k, owner) && Holds(guards, t.names[..k + 1])
    ensures GuardedTo(guards, targets, t, k + 1, owner)
  {
    forall path: Names
      ensures Holds(guards, path) <==> path != [] && (Requested(targets, path) || path <= t.names[..k + 1])
    {
      PrefixesOfPrefix(t.names, k, path);
    }
  }

  lemma NewIsUnrequested(guards: seq<Guard>, targets: seq<Target>, t: Target, k: nat, owner: nat)
    requires k < |t.names| && GuardedTo(guards, targets, t, k, owner) && !Holds(guards, t.names[..k + 1])
    ensures FirstDemand(targets + [t], t.names[..k + 1]) == DemandOf(t, t.names[..k + 1])
  {
    assert t.names[..k + 1] != [];
    FirstDemandStays(targets, t, t.names[..k + 1]);
  }

  /** The parent handle while component `k` is opened: the guard of the components before it. */
  ghost predicate ParentIs(guards: seq<Guard>, names: Names, k: nat, parent: Handle)
    requires k <= |names|
  {
    if k == 0 then parent == Root
    else exists j :: 0 <= j < |guards| && guards[j].path == names[..k] && guards[j].handle == parent
  }

  lemma LinkedStays(guards: seq<Guard>, g: Guard)
    requires AllLinked(guards)
    ensures forall i :: 0 <= i < |guards| ==> Linked(guards + [g], i)
  {
    forall i | 0 <= i < |guards|
      ensures Linked(guards + [g], i)
    {
      var h := guards[i];
      assert Linked(guards, i) && (guards + [g])[i] == h;
      if |h.path| > 1 {
        var j :| 0 <= j < i && guards[j].path == h.path[..|h.path| - 1] && guards[j].handle == h.handle.parent;
        assert (guards + [g])[j] == guards[j];
      }
    }
  }

  lemma LastIsLinked(guards: seq<Guard>, names: Names, k: nat, parent: Handle, g: Guard)
    requires k < |names| && ParentIs(guards, names, k, parent)
    requires g.path == names[..k + 1] && g.handle.Child? && g.handle.parent == parent && g.handle.name == names[k]
    requires g.identity == (g.handle.metadata.device, g.handle.metadata.inode)
    ensures Linked(guards + [g], |guards|)
  {
    assert g.path[..k] == names[..k];
    if k > 0 {
      var j :| 0 <= j < |guards| && guards[j].path == names[..k] && guards[j].handle == parent;
      assert (guards + [g])[j] == guards[j];
    }
  }

  lemma HoldsAfterPush(guards: seq<Guard>, g: Guard, path: Names)
    ensures Holds(guards + [g], path) <==> Holds(guards, path) || path == g.path
  {
    if i :| 0 <= i < |guards| && guards[i].path == path {
      assert (guards + [g])[i].path == path;
    }
    assert (guards + [g])[|guards|] == g;
  }

  lemma PushKeeps(guards: seq<Guard>, targets: seq<Target>, t: Target, k: nat, parent: Handle, g: Guard, owner: nat)
    requires k < |t.names| && GuardedTo(guards, targets, t, k, owner) && ParentIs(guards, t.names, k, parent)
    requires !Holds(guards, t.names[..k + 1])
    requires g.path == t.names[..k + 1] && g.handle.Child? && g.handle.parent == parent && g.handle.name == t.names[k]
    requires g.identity == (g.handle.metadata.device, g.handle.metadata.inode)
    requires Checked(g.handle.metadata, DemandOf(t, g.path), owner)
    ensures GuardedTo(guards + [g], targets, t, k + 1, owner)
    ensures ParentIs(guards + [g], t.names, k + 1, g.handle)
  {
    hide Linked, Checked, FirstDemand, DemandOf, Requested;
    LinkedStays(guards, g);
    LastIsLinked(guards, t.names, k, parent, g);
    NewIsUnrequested(guards, targets, t, k, owner);
    forall path: Names
      ensures Holds(guards + [g], path) <==> path != [] && (Requested(targets, path) || path <= t.names[..k + 1])
    {
      HoldsAfterPush(guards, g, path);
      PrefixesOfPrefix(t.names, k, path);
    }
    assert (guards + [g])[|guards|] == g;
  }

  // ----- Opening -----

  /** What the system answers to opening a name below a handle without following links. The tree may
      change at any time; each pair of handle and name is asked once in one resolution. */
  datatype Opening = Opened(metadata: Metadata) | Link | NoEntry | Refused | Unreadable

  datatype Kernel = Kernel(
    open: (Handle, string, bool) -> Opening,
    /** Whether the root can be opened, and a handle duplicated, while that path is guarded. */
    rootOpens: Path -> bool,
    clones: (Handle, Path) -> bool)

  datatype Result<T> = Ok(value: T) | Err(error: Error)

  function OpenGuard(kernel: Kernel, parent: Handle, path: Names, d: Demand, owner: nat): (r: Result<Guard>)
    requires path != []
    ensures r.Ok? <==> && kernel.open(parent, path[|path| - 1], d.directory).Opened?
                       && Checked(kernel.open(parent, path[|path| - 1], d.directory).metadata, d, owner)
    ensures r.Ok? ==> r.value.path == path && r.value.handle.Child? && r.value.handle.parent == parent
    ensures r.Err? ==> r.error in {Symlink, Missing, Layout, Ownership, Io}
  {
    var name := path[|path| - 1];
    match kernel.open(parent, name, d.directory)
    case Link => Err(Symlink)
    case NoEntry => Err(Missing)
    case Refused => Err(Layout)
    case Unreadable => Err(Io)
    case Opened(m) =>
      if (m.kind == Directory) != d.directory || (!d.directory && m.kind != Regular) then Err(Layout)
      else if (m.uid != 0 || d.client) && m.uid != owner then Err(Ownership)
      else
        var sharedStickyRoot := d.directory && !d.last && m.uid == 0 && m.mode & STICKY != 0;
        if m.mode & GROUP_OR_OTHER_WRITE != 0 && !sharedStickyRoot then Err(Ownership)
        else Ok(Guard(path, Child(parent, name, m), (m.device, m.inode)))
  }

  /** The guard already held for a path. */
  method Find(guards: seq<Guard>, path: Names) returns (i: nat)
    ensures i <= |guards|
    ensures i < |guards| ==> guards[i].path == path
    ensures i == |guards| <==> !Holds(guards, path)
  {
    i := 0;
    while i < |guards| && guards[i].path != path
      invariant i <= |guards|
      invariant forall j :: 0 <= j < i ==> guards[j].path != path
    {
      i := i + 1;
    }
  }

  /** An error of a chain: the path is not plain, the system failed, or one of its components that no
      earlier path had guarded could not be opened and checked. */
  ghost predicate Justified(error: Error, path: Path, kernel: Kernel, t: Target, owner: nat, guards: seq<Guard>) {
    || (error == Io && (!kernel.rootOpens(path) || exists h: Handle :: !kernel.clones(h, path)))
    || (!Plain(path) && error == Layout)
    || exists q: Names, parent: Handle ::
         q != [] && q <= t.names && !Holds(guards, q) && Trail(parent) == q[..|q| - 1]
         && OpenGuard(kernel, parent, q, DemandOf(t, q), owner) == Err(error)
  }

  function TargetOf(path: Path, directory: bool, client: bool): Target {
    Target(if Plain(path) then NamesOf(path) else [], directory, client)
  }

  /** `guard_chain`: every component of the path that is not guarded yet is opened and checked. */
  method Chain(path: Path, directory: bool, owner: nat, client: bool, guards: seq<Guard>, kernel: Kernel,
               ghost targets: seq<Target>)
    returns (r: Result<seq<Guard>>)
    requires Guarded(guards, targets, owner)
    ensures r.Ok? ==> Plain(path) && guards <= r.value
    ensures r.Ok? ==> Guarded(r.value, targets + [TargetOf(path, directory, client)], owner)
    ensures r.Err? ==> r.error in {Symlink, Missing, Layout, Ownership, Io}
    ensures r.Err? ==> Justified(r.error, path, kernel, TargetOf(path, directory, client), owner, guards)
  {
    hide GuardedTo, Guarded, Checked, DemandOf, Linked, Trail;
    if !Plain(path) {
      return Err(Layout);
    }
    var names := NamesOf(path);
    var t := Target(names, directory, client);
    if !kernel.rootOpens(path) {
      return Err(Io);
    }
    var all, parent := guards, Root;
    StartOfChain(guards, targets, t, owner);
    for k := 0 to |names|
      invariant guards <= all
      invariant GuardedTo(all, targets, t, k, owner)
      invariant ParentIs(all, names, k, parent)
    {
      var ancestor := names[..k + 1];
      var i := Find(all, ancestor);
      if i < |all| {
        if !kernel.clones(all[i].handle, path) {
          return Err(Io);
        }
        ReuseKeeps(all, targets, t, k, owner);
        parent := all[i].handle;
      } else {
        var last := k + 1 == |names|;
        var demand := Demand(!last || directory, last, last && client);
        DemandIs(t, k, demand);
        var guard := OpenGuard(kernel, parent, ancestor, demand, owner);
        if guard.Err? {
          StillNew(guards, all, ancestor);
          ParentTrail(all, targets, t, k, parent, owner);
          assert ancestor[..|ancestor| - 1] == names[..k];
          return Err(guard.error);
        }
        if !kernel.clones(guard.value.handle, path) {
          return Err(Io);
        }
        PushKeeps(all, targets, t, k, parent, guard.value, owner);
        parent := guard.value.handle;
        all := all + [guard.value];
      }
    }
    EndOfChain(all, targets, t, owner);
    return Ok(all);
  }

  lemma DemandIs(t: Target, k: nat, d: Demand)
    requires k < |t.names|
    requires d == (var last := k + 1 == |t.names|; Demand(!last || t.directory, last, last && t.client))
    ensures DemandOf(t, t.names[..k + 1]) == d
  {
    assert k + 1 == |t.names| ==> t.names[..k + 1] == t.names;
  }

  lemma ParentTrail(guards: seq<Guard>, targets: seq<Target>, t: Target, k: nat, parent: Handle, owner: nat)
    requires k <= |t.names| && GuardedTo(guards, targets, t, k, owner) && ParentIs(guards, t.names, k, parent)
    ensures Trail(parent) == t.names[..k]
  {
    if k > 0 {
      var j :| 0 <= j < |guards| && guards[j].path == t.names[..k] && guards[j].handle == parent;
      TrailIsPath(guards, j);
    }
  }

  lemma StillNew(guards: seq<Guard>, all: seq<Guard>, path: Names)
    requires guards <= all && !Holds(all, path)
    ensures !Holds(guards, path)
  {
    forall i | 0 <= i < |guards|
      ensures guards[i].path != path
    {
      assert all[i] == guards[i];
    }
  }

  // ----- A whole resolution -----

  datatype Request = Request(path: Path, directory: bool, client: bool)

  function TargetsOf(requests: seq<Request>): (r: seq<Target>)
    ensures |r| == |requests|
    ensures forall i :: 0 <= i < |r| ==> r[i] == TargetOf(requests[i].path, requests[i].directory, requests[i].client)
  {
    seq(|requests|, i requires 0 <= i < |requests| =>
      TargetOf(requests[i].path, requests[i].directory, requests[i].client))
  }

  /** Request `i` failed after those before it were guarded. */
  ghost predicate Blamed(error: Error, requests: seq<Request>, i: nat, kernel: Kernel, owner: nat)
    requires i < |requests|
  {
    var t := TargetsOf(requests);
    exists held: seq<Guard> ::
      Guarded(held, t[..i], owner) && Justified(error, requests[i].path, kernel, t[i], owner, held)
  }

  lemma TargetsOfNext(requests: seq<Request>, k: nat)
    requires k < |requests|
    ensures TargetsOf(requests[..k]) == TargetsOf(requests)[..k]
    ensures TargetsOf(requests[..k + 1]) == TargetsOf(requests[..k]) + [TargetsOf(requests)[k]]
  {
  }

  method GuardAll(requests: seq<Request>, owner: nat, kernel: Kernel) returns (r: Result<seq<Guard>>)
    ensures r.Ok? ==> forall i :: 0 <= i < |requests| ==> Plain(requests[i].path)
    ensures r.Ok? ==> Guarded(r.value, TargetsOf(requests), owner)
    ensures r.Err? ==> r.error in {Symlink, Missing, Layout, Ownership, Io}
    ensures r.Err? ==> exists i :: 0 <= i < |requests| && Blamed(r.error, requests, i, kernel, owner)
  {
    hide Guarded, Justified, TargetsOf, Plain;
    var guards: seq<Guard> := [];
    assert requests[..0] == [];
    NothingGuarded(owner);
    for k := 0 to |requests|
      invariant Guarded(guards, TargetsOf(requests[..k]), owner)
      invariant forall i :: 0 <= i < k ==> Plain(requests[i].path)
    {
      TargetsOfNext(requests, k);
      var chained := Chain(requests[k].path, requests[k].directory, owner, requests[k].client, guards, kernel,
                           TargetsOf(requests[..k]));
      if chained.Err? {
        assert Blamed(chained.error, requests, k, kernel, owner);
        return Err(chained.error);
      }
      guards := chained.value;
    }
    assert requests[..|requests|] == requests;
    return Ok(guards);
  }

  lemma NothingGuarded(owner: nat)
    ensures TargetsOf([]) == [] && Guarded([], [], owner)
  {
  }

  const HOST_NAME := "multicore-core-host"

  function Zeros(n: nat): string {
    seq(n, _ => '0')
  }

  /** `runtime-` and the generation in at least twenty digits. */
  function GenerationName(generation: nat): string {
    var digits := Decimal(generation);
    "runtime-" + Zeros(Max(20 - |digits|, 0)) + digits
  }

  lemma {:induction false} ZerosReadAs(n: nat, digits: string)
    ensures FromDecimal(Zeros(n) + digits) == FromDecimal(digits)
    decreases n + |digits|
  {
    var s := Zeros(n) + digits;
    if digits != [] {
      var front := digits[..|digits| - 1];
      assert s[..|s| - 1] == Zeros(n) + front;
      ZerosReadAs(n, front);
    } else if n > 0 {
      assert s[..|s| - 1] == Zeros(n - 1) + [];
      ZerosReadAs(n - 1, []);
    } else {
      assert s == [];
    }
  }

  /** The directory of a generation is `runtime-` and at least twenty digits that read back as its number. */
  lemma GenerationNameReadsBack(generation: nat)
    ensures var name := GenerationName(generation);
            && |name| >= 28 && name[..8] == "runtime-"
            && (forall i :: 8 <= i < |name| ==> '0' <= name[i] <= '9')
            && FromDecimal(name[8..]) == generation
  {
    hide Decimal, FromDecimal;
    var digits := Decimal(generation);
    var zeros := Zeros(Max(20 - |digits|, 0));
    var name := GenerationName(generation);
    assert name[8..] == zeros + digits;
    ZerosReadAs(Max(20 - |digits|, 0), digits);
    DecimalIsReadBack(generation);
  }

  /** Different generations have different directories. */
  lemma GenerationNamesDiffer(a: nat, b: nat)
    requires GenerationName(a) == GenerationName(b)
    ensures a == b
  {
    hide GenerationName, FromDecimal;
    GenerationNameReadsBack(a);
    GenerationNameReadsBack(b);
  }

  function Requests(data: Path, package: Path, generation: nat, dashboard: bool): seq<Request> {
    var root := Join(data, "runtime");
    var staged := Join(root, GenerationName(generation));
    var cores := Join(package, "cores");
    [Request(data, true, false), Request(root, true, false), Request(staged, true, false),
     Request(package, true, false), Request(Join(package, "runtime"), true, false), Request(cores, true, false)]
    + (if dashboard then [Request(Join(package, "dashboard"), true, false)] else [])
    + [Request(Join(Join(package, "runtime"), HOST_NAME), false, false),
       Request(Join(cores, "xray"), false, false), Request(Join(cores, "mihomo"), false, false),
       Request(Join(staged, "xray.json"), false, true), Request(Join(staged, "mihomo.yaml"), false, true)]
  }

  datatype Resolved = Resolved(
    xray: Path, mihomo: Path, xrayConfig: Path, mihomoConfig: Path, dashboard: Option<Path>, dataRoot: Path,
    guards: seq<Guard>)

  predicate Inside(p: Path, directory: Path) {
    p.absolute == directory.absolute && directory.parts <= p.parts
  }

  /** The host lies in `runtime` of its package. */
  predicate HostLayout(host: Path, package: Path) {
    host == Join(Join(package, "runtime"), HOST_NAME)
  }

  lemma LayoutOf(host: Path)
    requires Parent(host).Some? && FileName(host) == Some(HOST_NAME)
    requires FileName(Parent(host).value) == Some("runtime")
    ensures Parent(Parent(host).value).Some? && HostLayout(host, Parent(Parent(host).value).value)
    ensures forall package :: HostLayout(host, package) ==> package == Parent(Parent(host).value).value
  {
    var directory := Parent(host).value;
    var package := Parent(directory).value;
    assert directory.parts == package.parts + [Normal("runtime")];
    assert host.parts == directory.parts + [Normal(HOST_NAME)];
    forall other | HostLayout(host, other)
      ensures other == package
    {
      assert other.parts == host.parts[..|host.parts| - 2];
      assert package.parts == host.parts[..|host.parts| - 2];
    }
  }

  lemma NoLayout(host: Path, package: Path)
    requires HostLayout(host, package)
    ensures Parent(host).Some? && FileName(host) == Some(HOST_NAME) && FileName(Parent(host).value) == Some("runtime")
  {
    assert host.parts[..|host.parts| - 1] == package.parts + [Normal("runtime")];
  }

  /** `resolve_from`. `canonical` is the file system's real path, `elf` the check of a binary's header. */
  method Resolve(data: Path, host: Path, generation: nat, owner: nat, kernel: Kernel, dashboard: bool,
                 canonical: Path -> Option<Path>, elf: Handle -> bool) returns (r: Result<Resolved>)
    ensures generation == 0 <==> r == Err(InvalidGeneration)
    ensures generation != 0 && (forall package :: !HostLayout(host, package)) ==> r == Err(Layout)
    ensures r.Ok? ==> exists package ::
              HostLayout(host, package) && Resolves(r.value, data, package, generation, owner, dashboard, canonical,
                                                    elf)
    ensures r.Err? && generation != 0 ==> forall package :: HostLayout(host, package) ==>
              || (exists i :: 0 <= i < |Requests(data, package, generation, dashboard)|
                              && Blamed(r.error, Requests(data, package, generation, dashboard), i, kernel, owner))
              || (exists guards :: Guarded(guards, TargetsOf(Requests(data, package, generation, dashboard)), owner)
                                   && !Locatable(data, package, generation, dashboard, canonical, elf, guards))
  {
    hide Guarded, TargetsOf, Requests, Plain, Blamed, Inside, Locatable, Contained, HeaderOk, Distinct;
    if generation == 0 {
      return Err(InvalidGeneration);
    }
    var runtimeDirectory := Parent(host);
    if || runtimeDirectory.None?
       || FileName(runtimeDirectory.value) != Some("runtime")
       || FileName(host) != Some(HOST_NAME) {
      forall package
        ensures !HostLayout(host, package)
      {
        if HostLayout(host, package) {
          NoLayout(host, package);
        }
      }
      return Err(Layout);
    }
    LayoutOf(host);
    var package := Parent(runtimeDirectory.value).value;
    var requests := Requests(data, package, generation, dashboard);
    var guarded := GuardAll(requests, owner, kernel);
    if guarded.Err? {
      return Err(guarded.error);
    }
    CoresArePlain(data, package, generation, dashboard);
    GuardedAreDistinct(guarded.value, TargetsOf(requests), owner);
    r := Locate(data, package, generation, dashboard, canonical, elf, guarded.value);
  }

  function Staged(data: Path, generation: nat): Path {
    Join(Join(data, "runtime"), GenerationName(generation))
  }

  function Core(package: Path, name: string): Path {
    Join(Join(package, "cores"), name)
  }

  lemma PathsInFull(data: Path, package: Path, generation: nat, name: string)
    ensures Core(package, name) == Path(package.absolute, package.parts + [Normal("cores"), Normal(name)])
    ensures Staged(data, generation) ==
            Path(data.absolute, data.parts + [Normal("runtime"), Normal(GenerationName(generation))])
  {
    hide GenerationName;
  }

  /** The real paths handed out lie in the real package and the real generation directory. */
  ghost predicate Contained(r: Resolved, data: Path, package: Path, generation: nat, dashboard: bool,
                            canonical: Path -> Option<Path>) {
    var staged, home := canonical(Staged(data, generation)), canonical(package);
    && staged.Some? && home.Some? && canonical(data) == Some(r.dataRoot) && Inside(staged.value, r.dataRoot)
    && RealPath(Join(Join(package, "runtime"), HOST_NAME), home.value, canonical).Ok?
    && canonical(Core(package, "xray")) == Some(r.xray) && Inside(r.xray, home.value)
    && canonical(Core(package, "mihomo")) == Some(r.mihomo) && Inside(r.mihomo, home.value)
    && canonical(Join(Staged(data, generation), "xray.json")) == Some(r.xrayConfig) && Inside(r.xrayConfig,
                                                                                              staged.value)
    && canonical(Join(Staged(data, generation), "mihomo.yaml")) == Some(r.mihomoConfig) && Inside(r.mihomoConfig,
                                                                                                  staged.value)
    && r.dashboard.Some? == dashboard
    && (dashboard ==> canonical(Join(package, "dashboard")) == r.dashboard && Inside(r.dashboard.value, home.value))
  }

  /** What a successful resolution promises. */
  ghost predicate Resolves(r: Resolved, data: Path, package: Path, generation: nat, owner: nat, dashboard: bool,
                           canonical: Path -> Option<Path>, elf: Handle -> bool) {
    && (forall i :: 0 <= i < |Requests(data, package, generation, dashboard)| ==>
          Plain(Requests(data, package, generation, dashboard)[i].path))
    && Guarded(r.guards, TargetsOf(Requests(data, package, generation, dashboard)), owner)
    && Contained(r, data, package, generation, dashboard, canonical)
    && HeaderOk(r.guards, Core(package, "xray"), elf) && HeaderOk(r.guards, Core(package, "mihomo"), elf)
  }

  ghost predicate HeaderOk(guards: seq<Guard>, binary: Path, elf: Handle -> bool) {
    exists i :: 0 <= i < |guards| && Plain(binary) && guards[i].path == NamesOf(binary) && elf(guards[i].handle)
  }

  /** The real path of `p`, when it lies in `directory`. */
  function RealPath(p: Path, directory: Path, canonical: Path -> Option<Path>): Result<Path> {
    match canonical(p)
    case None => Err(Missing)
    case Some(q) => if Inside(q, directory) then Ok(q) else Err(Escape)
  }

  /** Every real path exists where it should, and both binaries have the right header. */
  ghost predicate Locatable(data: Path, package: Path, generation: nat, dashboard: bool,
                            canonical: Path -> Option<Path>,
                            elf: Handle -> bool, guards: seq<Guard>) {
    var home, staged, root := canonical(package), canonical(Staged(data, generation)), canonical(data);
    && home.Some? && staged.Some? && root.Some? && Inside(staged.value, root.value)
    && RealPath(Join(Join(package, "runtime"), HOST_NAME), home.value, canonical).Ok?
    && RealPath(Core(package, "xray"), home.value, canonical).Ok?
    && RealPath(Core(package, "mihomo"), home.value, canonical).Ok?
    && RealPath(Join(Staged(data, generation), "xray.json"), staged.value, canonical).Ok?
    && RealPath(Join(Staged(data, generation), "mihomo.yaml"), staged.value, canonical).Ok?
    && (dashboard ==> RealPath(Join(package, "dashboard"), home.value, canonical).Ok?)
    && HeaderOk(guards, Core(package, "xray"), elf) && HeaderOk(guards, Core(package, "mihomo"), elf)
  }

  /** The second half of `resolve_from`: real paths, containment and the binaries' headers. */
  method Locate(data: Path, package: Path, generation: nat, dashboard: bool, canonical: Path -> Option<Path>,
                elf: Handle -> bool, guards: seq<Guard>) returns (r: Result<Resolved>)
    requires Plain(Core(package, "xray")) && Plain(Core(package, "mihomo")) && Distinct(guards)
    ensures r.Ok? <==> Locatable(data, package, generation, dashboard, canonical, elf, guards)
    ensures r.Err? ==> r.error in {Missing, Escape, InvalidElf}
    ensures r.Ok? ==> r.value.guards == guards && Contained(r.value, data, package, generation, dashboard, canonical)
    ensures r.Ok? ==> HeaderOk(guards, Core(package, "xray"), elf) && HeaderOk(guards, Core(package, "mihomo"), elf)
  {
    hide Plain, NamesOf, Inside, Join, HeaderOk, Distinct;
    var home, staged, root := canonical(package), canonical(Staged(data, generation)), canonical(data);
    if home.None? || staged.None? || root.None? {
      return Err(Missing);
    }
    if !Inside(staged.value, root.value) {
      return Err(Escape);
    }
    var host := RealPath(Join(Join(package, "runtime"), HOST_NAME), home.value, canonical);
    if host.Err? {
      return Err(host.error);
    }
    var xray := RealPath(Core(package, "xray"), home.value, canonical);
    if xray.Err? {
      return Err(xray.error);
    }
    var mihomo := RealPath(Core(package, "mihomo"), home.value, canonical);
    if mihomo.Err? {
      return Err(mihomo.error);
    }
    var xrayConfig := RealPath(Join(Staged(data, generation), "xray.json"), staged.value, canonical);
    if xrayConfig.Err? {
      return Err(xrayConfig.error);
    }
    var mihomoConfig := RealPath(Join(Staged(data, generation), "mihomo.yaml"), staged.value, canonical);
    if mihomoConfig.Err? {
      return Err(mihomoConfig.error);
    }
    var board: Option<Path> := None;
    if dashboard {
      var found := RealPath(Join(package, "dashboard"), home.value, canonical);
      if found.Err? {
        return Err(found.error);
      }
      board := Some(found.value);
    }
    var error := CheckHeader(guards, Core(package, "xray"), elf);
    if error.Some? {
      return Err(error.value);
    }
    error := CheckHeader(guards, Core(package, "mihomo"), elf);
    if error.Some? {
      return Err(error.value);
    }
    return Ok(Resolved(xray.value, mihomo.value, xrayConfig.value, mihomoConfig.value, board, root.value, guards));
  }

  /** The last guard of the binary holds an executable. */
  method CheckHeader(guards: seq<Guard>, binary: Path, elf: Handle -> bool) returns (error: Option<Error>)
    requires Plain(binary) && Distinct(guards)
    ensures error.None? <==> HeaderOk(guards, binary, elf)
    ensures error.Some? ==> error.value in {Missing, InvalidElf}
    ensures error == Some(Missing) <==> !Holds(guards, NamesOf(binary))
  {
    var names := NamesOf(binary);
    var i := |guards|;
    while i > 0 && guards[i - 1].path != names
      invariant 0 <= i <= |guards|
      invariant forall j :: i <= j < |guards| ==> guards[j].path != names
    {
      i := i - 1;
    }
    if i == 0 {
      return Some(Missing);
    }
    return if elf(guards[i - 1].handle) then None else Some(InvalidElf);
  }

  lemma GuardedAreDistinct(guards: seq<Guard>, targets: seq<Target>, owner: nat)
    requires Guarded(guards, targets, owner)
    ensures Distinct(guards)
  {
  }

  lemma CoresArePlain(data: Path, package: Path, generation: nat, dashboard: bool)
    requires forall i :: 0 <= i < |Requests(data, package, generation, dashboard)| ==>
               Plain(Requests(data, package, generation, dashboard)[i].path)
    ensures Plain(data) && Plain(package) && Plain(Core(package, "xray")) && Plain(Core(package, "mihomo"))
  {
    hide Plain, Join;
    var q := Requests(data, package, generation, dashboard);
    var n := if dashboard then 1 else 0;
    assert q[0].path == data && q[3].path == package;
    assert q[7 + n].path == Core(package, "xray") && q[8 + n].path == Core(package, "mihomo");
  }

  // ----- What the checks amount to -----

  /** The first request through a path decides, alone. */
  lemma {:induction false} FirstDemandIs(targets: seq<Target>, path: Names, i: nat)
    requires i < |targets| && path <= targets[i].names
    requires forall j :: 0 <= j < i ==> !(path <= targets[j].names)
    ensures FirstDemand(targets, path) == DemandOf(targets[i], path)
  {
    if i > 0 {
      assert targets[1..][i - 1] == targets[i];
      forall j | 0 <= j < i - 1
        ensures !(path <= targets[1..][j].names)
      {
        assert targets[1..][j] == targets[j + 1];
      }
      FirstDemandIs(targets[1..], path, i - 1);
    }
  }

  /** Request `i` gets the check it asked for, whatever is found there, exactly when the first request
      `first` through its path ends there too and asks for as much: a path that was only passed through
      before, or asked for with other demands, is not checked again. */
  lemma OwnCheckIff(targets: seq<Target>, i: nat, first: nat)
    requires first <= i < |targets| && targets[i].names <= targets[first].names
    requires forall j :: 0 <= j < first ==> !(targets[i].names <= targets[j].names)
    ensures (forall m, owner :: Checked(m, FirstDemand(targets, targets[i].names), owner)
                                ==> Checked(m, DemandOf(targets[i], targets[i].names), owner))
            <==> && targets[first].names == targets[i].names && targets[first].directory == targets[i].directory
                 && (targets[i].client ==> targets[first].client)
  {
    var path := targets[i].names;
    FirstDemandIs(targets, path, first);
    var asked, got := DemandOf(targets[i], path), DemandOf(targets[first], path);
    var shared := Metadata(Directory, 0, STICKY | GROUP_OR_OTHER_WRITE, 0, 0);
    var root := Metadata(if got.directory then Directory else Regular, 0, 0, 0, 0);
    assert (STICKY | GROUP_OR_OTHER_WRITE) & STICKY != 0 && (STICKY | GROUP_OR_OTHER_WRITE) & GROUP_OR_OTHER_WRITE != 0;
    assert (0 as bv32) & GROUP_OR_OTHER_WRITE == 0;
    var own := Metadata(if got.directory then Directory else Regular, 1, 0, 0, 0);
    if path != targets[first].names {
      assert Checked(shared, got, 1) && !Checked(shared, asked, 1);
    } else if got.directory != asked.directory {
      assert Checked(own, got, 1) && !Checked(own, asked, 1);
    } else if asked.client && !got.client {
      assert Checked(root, got, 1) && !Checked(root, asked, 1);
    }
  }

  // ----- The staged configurations -----

  /** The requests of a resolution, by names. */
  function Targets(data: Names, package: Names, generation: nat, dashboard: bool): seq<Target> {
    var staged := data + ["runtime"] + [GenerationName(generation)];
    [Target(data, true, false), Target(data + ["runtime"], true, false), Target(staged, true, false),
     Target(package, true, false), Target(package + ["runtime"], true, false), Target(package + ["cores"], true, false)]
    + (if dashboard then [Target(package + ["dashboard"], true, false)] else [])
    + [Target(package + ["runtime"] + [HOST_NAME], false, false),
       Target(package + ["cores"] + ["xray"], false, false), Target(package + ["cores"] + ["mihomo"], false, false),
       Target(staged + ["xray.json"], false, true), Target(staged + ["mihomo.yaml"], false, true)]
  }

  lemma NamesOfJoin(p: Path, name: string)
    requires Plain(p)
    ensures Plain(Join(p, name)) && NamesOf(Join(p, name)) == NamesOf(p) + [name]
  {
  }

  lemma TargetsAre(data: Path, package: Path, generation: nat, dashboard: bool)
    requires Plain(data) && Plain(package)
    ensures TargetsOf(Requests(data, package, generation, dashboard))
         == Targets(NamesOf(data), NamesOf(package), generation, dashboard)
  {
    hide Plain, Join, NamesOf, GenerationName;
    NamesOfJoin(data, "runtime");
    var root := Join(data, "runtime");
    NamesOfJoin(root, GenerationName(generation));
    var staged := Join(root, GenerationName(generation));
    NamesOfJoin(staged, "xray.json");
    NamesOfJoin(staged, "mihomo.yaml");
    NamesOfJoin(package, "runtime");
    NamesOfJoin(Join(package, "runtime"), HOST_NAME);
    NamesOfJoin(package, "dashboard");
    NamesOfJoin(package, "cores");
    NamesOfJoin(Join(package, "cores"), "xray");
    NamesOfJoin(Join(package, "cores"), "mihomo");
  }

  /** The two staged configurations of a generation. */
  predicate Config(data: Names, generation: nat, path: Names) {
    var staged := data + ["runtime"] + [GenerationName(generation)];
    path == staged + ["xray.json"] || path == staged + ["mihomo.yaml"]
  }

  lemma PrefixOfSnoc(path: Names, names: Names, name: string)
    ensures path <= names + [name] <==> path <= names || path == names + [name]
  {
    PrefixesOfPrefix(names + [name], |names|, path);
    assert (names + [name])[..|names|] == names && (names + [name])[..|names| + 1] == names + [name];
  }

  /** A path ending in the name of a configuration goes through a file of the package only when it goes
      through the package. */
  lemma ThroughPackage(path: Names, package: Names, name: string)
    requires path != [] && path[|path| - 1] != name
    ensures path <= package + [name] <==> path <= package
  {
    PrefixOfSnoc(path, package, name);
  }

  lemma ConfigNames(data: Names, generation: nat, path: Names)
    requires Config(data, generation, path)
    ensures path != [] && (path[|path| - 1] == "xray.json" || path[|path| - 1] == "mihomo.yaml")
    ensures path[..|path| - 1] == data + ["runtime"] + [GenerationName(generation)]
  {
  }

  lemma NotThrough(package: Names, path: Names)
    requires path != [] && path[|path| - 1] in {"xray.json", "mihomo.yaml"} && !(path <= package)
    ensures !(path <= package + ["runtime"]) && !(path <= package + ["cores"]) && !(path <= package + ["dashboard"])
    ensures !(path <= package + ["runtime"] + [HOST_NAME])
    ensures !(path <= package + ["cores"] + ["xray"]) && !(path <= package + ["cores"] + ["mihomo"])
  {
    ThroughPackage(path, package, "runtime");
    ThroughPackage(path, package, "cores");
    ThroughPackage(path, package, "dashboard");
    ThroughPackage(path, package + ["runtime"], HOST_NAME);
    ThroughPackage(path, package + ["cores"], "xray");
    ThroughPackage(path, package + ["cores"], "mihomo");
  }

  lemma NotBefore(data: Names, package: Names, generation: nat, dashboard: bool, path: Names)
    requires Config(data, generation, path)
    ensures var targets := Targets(data, package, generation, dashboard);
            && (forall j :: 0 <= j < 3 ==> !(path <= targets[j].names))
            && (!(path <= package) ==> forall j :: 0 <= j < |targets| - 2 ==> !(path <= targets[j].names))
            && path in [targets[|targets| - 2].names, targets[|targets| - 1].names]
  {
    hide GenerationName;
    ConfigNames(data, generation, path);
    if !(path <= package) {
      NotThrough(package, path);
    }
  }

  /** Nothing but the package's own path leads through a configuration before it is asked for. */
  lemma ConfigDemand(data: Names, package: Names, generation: nat, dashboard: bool, path: Names)
    requires Config(data, generation, path)
    ensures FirstDemand(Targets(data, package, generation, dashboard), path)
         == if path <= package then Demand(true, path == package, false) else Demand(false, true, true)
  {
    hide FirstDemand, GenerationName;
    ConfigNames(data, generation, path);
    var targets := Targets(data, package, generation, dashboard);
    NotBefore(data, package, generation, dashboard, path);
    if path <= package {
      FirstDemandIs(targets, path, 3);
    } else if path == targets[|targets| - 2].names {
      FirstDemandIs(targets, path, |targets| - 2);
    } else {
      FirstDemandIs(targets, path, |targets| - 1);
    }
  }

  /** A guarded configuration is known to be a file of the client exactly when the package does not lie
      at or below the configuration's path; otherwise a directory, even one of root, passes. */
  lemma ConfigIsClientsIff(data: Names, package: Names, generation: nat, dashboard: bool, path: Names)
    requires Config(data, generation, path)
    ensures (forall m, owner :: Checked(m, FirstDemand(Targets(data, package, generation, dashboard), path), owner)
                                ==> m.kind == Regular && m.uid == owner)
            <==> !(path <= package)
  {
    hide FirstDemand, Config, Targets;
    ConfigDemand(data, package, generation, dashboard, path);
    var m := Metadata(Directory, 0, 0, 0, 0);
    assert (0 as bv32) & GROUP_OR_OTHER_WRITE == 0;
    assert path <= package ==> Checked(m, FirstDemand(Targets(data, package, generation, dashboard), path), 1);
  }

  /** A regular file was asked for as a file, by a request of exactly its path. */
  lemma {:induction false} FileWasAskedFor(targets: seq<Target>, path: Names) returns (i: nat)
    requires !FirstDemand(targets, path).directory
    ensures i < |targets| && targets[i].names == path && !targets[i].directory
    ensures FirstDemand(targets, path) == DemandOf(targets[i], path)
  {
    if path <= targets[0].names {
      i := 0;
    } else {
      var j := FileWasAskedFor(targets[1..], path);
      i := j + 1;
    }
  }

  lemma LastName(names: Names, name: string, path: Names)
    requires path == names + [name]
    ensures path != [] && path[|path| - 1] == name
  {
  }

  lemma FileTargets(data: Names, package: Names, generation: nat, dashboard: bool, i: nat)
    requires i < |Targets(data, package, generation, dashboard)|
    requires !Targets(data, package, generation, dashboard)[i].directory
    ensures var t := Targets(data, package, generation, dashboard)[i];
            && t.names != []
            && (t.names[|t.names| - 1] in {"xray.json", "mihomo.yaml"} <==> Config(data, generation, t.names))
            && (Config(data, generation, t.names) ==> t.client)
  {
    hide GenerationName;
    var staged := data + ["runtime"] + [GenerationName(generation)];
    LastName(package + ["runtime"], HOST_NAME, package + ["runtime"] + [HOST_NAME]);
    LastName(package + ["cores"], "xray", package + ["cores"] + ["xray"]);
    LastName(package + ["cores"], "mihomo", package + ["cores"] + ["mihomo"]);
    LastName(staged, "xray.json", staged + ["xray.json"]);
    LastName(staged, "mihomo.yaml", staged + ["mihomo.yaml"]);
  }

  /** Whatever guard is found by the file name of a configuration is that generation's configuration, a
      regular file of the client that nobody else may write. */
  lemma FoundByNameIsClients(guards: seq<Guard>, data: Names, package: Names, generation: nat, dashboard: bool,
                             owner: nat, i: nat)
    requires Guarded(guards, Targets(data, package, generation, dashboard), owner) && i < |guards|
    requires guards[i].handle.Child? && guards[i].handle.metadata.kind == Regular
    requires guards[i].path != [] && guards[i].path[|guards[i].path| - 1] in {"xray.json", "mihomo.yaml"}
    ensures Config(data, generation, guards[i].path) && guards[i].handle.metadata.uid == owner
    ensures guards[i].handle.metadata.mode & GROUP_OR_OTHER_WRITE == 0
    ensures !(guards[i].path <= package)
  {
    hide FirstDemand, Targets, Config;
    var path := guards[i].path;
    var targets := Targets(data, package, generation, dashboard);
    assert Checked(guards[i].handle.metadata, FirstDemand(targets, path), owner);
    var k := FileWasAskedFor(targets, path);
    FileTargets(data, package, generation, dashboard, k);
    ConfigDemand(data, package, generation, dashboard, path);
  }

  /** In every successful resolution a configuration has a guard, which is a regular file of the client
      exactly when the package does not lie at or below that path. */
  lemma {:induction false} ResolvedConfig(r: Resolved, data: Path, package: Path, generation: nat, owner: nat,
                                          dashboard: bool,
                       canonical: Path -> Option<Path>, elf: Handle -> bool, path: Names) returns (i: nat)
    requires Resolves(r, data, package, generation, owner, dashboard, canonical, elf)
    requires Plain(data) && Plain(package) && Config(NamesOf(data), generation, path)
    ensures i < |r.guards| && r.guards[i].path == path && r.guards[i].handle.Child?
    ensures !(path <= NamesOf(package)) <==>
              r.guards[i].handle.metadata.kind == Regular && r.guards[i].handle.metadata.uid == owner
    ensures path <= NamesOf(package) <==> r.guards[i].handle.metadata.kind == Directory
  {
    hide FirstDemand, Targets, Config, Contained, HeaderOk, NamesOf, Requests, TargetsOf, Plain;
    var targets := Targets(NamesOf(data), NamesOf(package), generation, dashboard);
    TargetsAre(data, package, generation, dashboard);
    NotBefore(NamesOf(data), NamesOf(package), generation, dashboard, path);
    ConfigNames(NamesOf(data), generation, path);
    assert |targets| > 1 by { TargetCount(NamesOf(data), NamesOf(package), generation, dashboard); }
    var k := if path == targets[|targets| - 2].names then |targets| - 2 else |targets| - 1;
    assert path <= targets[k].names;
    assert Requested(targets, path);
    assert Holds(r.guards, path);
    i :| 0 <= i < |r.guards| && r.guards[i].path == path;
    ConfigDemand(NamesOf(data), NamesOf(package), generation, dashboard, path);
    assert Checked(r.guards[i].handle.metadata, FirstDemand(targets, path), owner);
  }

  lemma TargetCount(data: Names, package: Names, generation: nat, dashboard: bool)
    ensures |Targets(data, package, generation, dashboard)| >= 11
  {
  }

  // ----- What is guarded, and as what -----

  /** The five files of a resolution. */
  ghost predicate IsFile(data: Names, package: Names, generation: nat, path: Names) {
    || path == data + ["runtime", GenerationName(generation), "xray.json"]
    || path == data + ["runtime", GenerationName(generation), "mihomo.yaml"]
    || path == package + ["runtime", "multicore-core-host"]
    || path == package + ["cores", "xray"]
    || path == package + ["cores", "mihomo"]
  }

  /** On the way to one of its directories, or one of them. */
  ghost predicate LeadsToDirectory(data: Names, package: Names, generation: nat, dashboard: bool, path: Names) {
    || path <= data + ["runtime", GenerationName(generation)]
    || path <= package + ["runtime"]
    || path <= package + ["cores"]
    || (dashboard && path <= package + ["dashboard"])
  }

  lemma SnocTwice(names: Names, a: string, b: string)
    ensures names + [a] + [b] == names + [a, b]
  {
  }

  lemma SnocThrice(names: Names, a: string, b: string, c: string)
    ensures names + [a] + [b] + [c] == names + [a, b, c]
  {
  }

  lemma PrefixOfLonger(path: Names, names: Names, more: Names)
    requires path <= names
    ensures path <= names + more
  {
  }

  /** The targets, written out. */
  lemma TargetsInFull(data: Names, package: Names, generation: nat, dashboard: bool)
    ensures var t := Targets(data, package, generation, dashboard);
            var g := GenerationName(generation);
            var n := if dashboard then 7 else 6;
            && |t| == n + 5
            && t[0] == Target(data, true, false) && t[1] == Target(data + ["runtime"], true, false)
            && t[2] == Target(data + ["runtime", g], true, false) && t[3] == Target(package, true, false)
            && t[4] == Target(package + ["runtime"], true, false) && t[5] == Target(package + ["cores"], true, false)
            && (dashboard ==> t[6] == Target(package + ["dashboard"], true, false))
            && t[n] == Target(package + ["runtime", "multicore-core-host"], false, false)
            && t[n + 1] == Target(package + ["cores", "xray"], false, false)
            && t[n + 2] == Target(package + ["cores", "mihomo"], false, false)
            && t[n + 3] == Target(data + ["runtime", g, "xray.json"], false, true)
            && t[n + 4] == Target(data + ["runtime", g, "mihomo.yaml"], false, true)
  {
    hide GenerationName;
    var g := GenerationName(generation);
    SnocTwice(data, "runtime", g);
    SnocThrice(data, "runtime", g, "xray.json");
    SnocThrice(data, "runtime", g, "mihomo.yaml");
    SnocTwice(package, "runtime", "multicore-core-host");
    SnocTwice(package, "cores", "xray");
    SnocTwice(package, "cores", "mihomo");
  }

  lemma RequestedLeads(data: Names, package: Names, generation: nat, dashboard: bool, path: Names, i: nat)
    requires i < |Targets(data, package, generation, dashboard)|
    requires path <= Targets(data, package, generation, dashboard)[i].names
    ensures || LeadsToDirectory(data, package, generation, dashboard, path)
            || (&& IsFile(data, package, generation, path)
                && path == Targets(data, package, generation, dashboard)[i].names
                && !Targets(data, package, generation, dashboard)[i].directory)
  {
    hide GenerationName, Targets;
    TargetsInFull(data, package, generation, dashboard);
    PrefixOfSnocs(path, data, package, GenerationName(generation));
  }

  /** A path that leads to a directory lies on one of the directory requests, which come first. */
  lemma DirectoryRequest(data: Names, package: Names, generation: nat, dashboard: bool, path: Names) returns (i: nat)
    requires LeadsToDirectory(data, package, generation, dashboard, path)
    ensures i < |Targets(data, package, generation, dashboard)| - 5
    ensures path <= Targets(data, package, generation, dashboard)[i].names
  {
    hide GenerationName, Targets;
    TargetsInFull(data, package, generation, dashboard);
    i := if path <= data + ["runtime", GenerationName(generation)] then 2
         else if path <= package + ["runtime"] then 4
         else if path <= package + ["cores"] then 5
         else 6;
  }

  lemma FileRequest(data: Names, package: Names, generation: nat, dashboard: bool, path: Names) returns (i: nat)
    requires IsFile(data, package, generation, path)
    ensures i < |Targets(data, package, generation, dashboard)|
    ensures path == Targets(data, package, generation, dashboard)[i].names
  {
    hide GenerationName, Targets;
    TargetsInFull(data, package, generation, dashboard);
    var n := if dashboard then 7 else 6;
    var g := GenerationName(generation);
    i := if path == package + ["runtime", "multicore-core-host"] then n
         else if path == package + ["cores", "xray"] then n + 1
         else if path == package + ["cores", "mihomo"] then n + 2
         else if path == data + ["runtime", g, "xray.json"] then n + 3
         else n + 4;
  }

  lemma DirectoriesComeFirst(data: Names, package: Names, generation: nat, dashboard: bool, i: nat)
    requires i < |Targets(data, package, generation, dashboard)|
    ensures Targets(data, package, generation, dashboard)[i].directory <==>
              i < |Targets(data, package, generation, dashboard)| - 5
  {
    hide GenerationName, Targets;
    TargetsInFull(data, package, generation, dashboard);
  }

  lemma RequestedIff(data: Names, package: Names, generation: nat, dashboard: bool, path: Names)
    ensures Requested(Targets(data, package, generation, dashboard), path) <==>
              || LeadsToDirectory(data, package, generation, dashboard, path)
              || IsFile(data, package, generation, path)
  {
    hide Targets, LeadsToDirectory, IsFile;
    var t := Targets(data, package, generation, dashboard);
    if Requested(t, path) {
      var i :| 0 <= i < |t| && path <= t[i].names;
      RequestedLeads(data, package, generation, dashboard, path, i);
    }
    if LeadsToDirectory(data, package, generation, dashboard, path) {
      var i := DirectoryRequest(data, package, generation, dashboard, path);
      assert path <= t[i].names;
    }
    if IsFile(data, package, generation, path) {
      var i := FileRequest(data, package, generation, dashboard, path);
      assert path <= t[i].names;
    }
  }

  lemma {:induction false} FirstThrough(targets: seq<Target>, path: Names, n: nat) returns (i: nat)
    requires n < |targets| && path <= targets[n].names
    ensures i <= n && path <= targets[i].names && forall j :: 0 <= j < i ==> !(path <= targets[j].names)
    decreases n
  {
    i := n;
    if j :| 0 <= j < n && path <= targets[j].names {
      i := FirstThrough(targets, path, j);
    }
  }

  /** What is demanded first: a directory on the way to one, else a file. */
  lemma DemandedKind(data: Names, package: Names, generation: nat, dashboard: bool, path: Names)
    requires Requested(Targets(data, package, generation, dashboard), path)
    ensures FirstDemand(Targets(data, package, generation, dashboard), path).directory <==>
              LeadsToDirectory(data, package, generation, dashboard, path)
  {
    hide Targets, LeadsToDirectory, IsFile, FirstDemand;
    var t := Targets(data, package, generation, dashboard);
    var n :| 0 <= n < |t| && path <= t[n].names;
    if LeadsToDirectory(data, package, generation, dashboard, path) {
      n := DirectoryRequest(data, package, generation, dashboard, path);
    }
    var i := FirstThrough(t, path, n);
    FirstDemandIs(t, path, i);
    DirectoriesComeFirst(data, package, generation, dashboard, i);
    RequestedLeads(data, package, generation, dashboard, path, i);
  }

  /** Every successful resolution guards exactly the components of its five files and its directories, as
      directories on the way to one of the directories and as regular files else. */
  lemma {:induction false} ResolvedGuards(
    r: Resolved, data: Path, package: Path, generation: nat, owner: nat, dashboard: bool,
    canonical: Path -> Option<Path>, elf: Handle -> bool, path: Names)
    requires Resolves(r, data, package, generation, owner, dashboard, canonical, elf)
    requires Plain(data) && Plain(package)
    ensures Holds(r.guards, path) <==>
              && path != []
              && (|| LeadsToDirectory(NamesOf(data), NamesOf(package), generation, dashboard, path)
                  || IsFile(NamesOf(data), NamesOf(package), generation, path))
    ensures forall i :: 0 <= i < |r.guards| && r.guards[i].path == path ==>
              && r.guards[i].handle.Child?
              && (r.guards[i].handle.metadata.uid == 0 || r.guards[i].handle.metadata.uid == owner)
              && r.guards[i].handle.metadata.kind ==
                 (if LeadsToDirectory(NamesOf(data), NamesOf(package), generation, dashboard, path) then Directory
                  else Regular)
  {
    hide FirstDemand, Targets, LeadsToDirectory, IsFile, Contained, HeaderOk, NamesOf, Requests, TargetsOf, Plain;
    var targets := Targets(NamesOf(data), NamesOf(package), generation, dashboard);
    TargetsAre(data, package, generation, dashboard);
    RequestedIff(NamesOf(data), NamesOf(package), generation, dashboard, path);
    forall i | 0 <= i < |r.guards| && r.guards[i].path == path
      ensures r.guards[i].handle.Child? && Checked(r.guards[i].handle.metadata, FirstDemand(targets, path), owner)
      ensures Requested(targets, path)
    {
      assert Holds(r.guards, path);
    }
    if Requested(targets, path) {
      DemandedKind(NamesOf(data), NamesOf(package), generation, dashboard, path);
    }
  }

  lemma PrefixOfSnocs(path: Names, data: Names, package: Names, g: string)
    ensures path <= data ==> path <= data + ["runtime", g]
    ensures path <= data + ["runtime"] ==> path <= data + ["runtime", g]
    ensures path <= package ==> path <= package + ["runtime"]
    ensures forall f: string :: path <= data + ["runtime", g, f] <==>
              path <= data + ["runtime", g] || path == data + ["runtime", g, f]
    ensures forall d, f: string :: path <= package + [d, f] <==> path <= package + [d] || path == package + [d, f]
  {
    assert data + ["runtime", g] == data + ["runtime"] + [g];
    PrefixOfSnoc(path, data, "runtime");
    PrefixOfSnoc(path, data + ["runtime"], g);
    PrefixOfSnoc(path, package, "runtime");
    forall f: string
      ensures path <= data + ["runtime", g, f] <==> path <= data + ["runtime", g] || path == data + ["runtime", g, f]
    {
      assert data + ["runtime", g, f] == data + ["runtime", g] + [f];
      PrefixOfSnoc(path, data + ["runtime", g], f);
    }
    forall d, f: string
      ensures path <= package + [d, f] <==> path <= package + [d] || path == package + [d, f]
    {
      SnocTwice(package, d, f);
      PrefixOfSnoc(path, package + [d], f);
    }
  }

  // ----- Every layout can be resolved -----

  /** A system in which every name opens as the kind asked for, owned by the client and closed to
      others. */
  function Obliging(owner: nat): Kernel {
    Kernel((_, _, directory) => Opened(Metadata(if directory then Directory else Regular, owner, 0, 0, 0)),
           _ => true, (_, _) => true)
  }

  lemma ObligingOpens(owner: nat, parent: Handle, path: Names, d: Demand)
    requires path != []
    ensures OpenGuard(Obliging(owner), parent, path, d, owner).Ok?
  {
    assert (0 as bv32) & GROUP_OR_OTHER_WRITE == 0;
  }

  lemma ObligingIsNotBlamed(error: Error, requests: seq<Request>, i: nat, owner: nat)
    requires i < |requests| && Plain(requests[i].path)
    ensures !Blamed(error, requests, i, Obliging(owner), owner)
  {
    hide Guarded, Plain, Holds;
    var t := TargetsOf(requests)[i];
    forall held
      ensures !Justified(error, requests[i].path, Obliging(owner), t, owner, held)
    {
      forall q: Names, parent: Handle | q != []
        ensures OpenGuard(Obliging(owner), parent, q, DemandOf(t, q), owner).Ok?
      {
        ObligingOpens(owner, parent, q, DemandOf(t, q));
      }
    }
  }

  lemma GuardOfRequest(guards: seq<Guard>, targets: seq<Target>, owner: nat, k: nat) returns (i: nat)
    requires Guarded(guards, targets, owner) && k < |targets| && targets[k].names != []
    ensures i < |guards| && guards[i].path == targets[k].names
  {
    assert targets[k].names <= targets[k].names;
    assert Requested(targets, targets[k].names);
    assert Holds(guards, targets[k].names);
    i :| 0 <= i < |guards| && guards[i].path == targets[k].names;
  }

  lemma {:induction false} CoreIsGuarded(guards: seq<Guard>, data: Path, package: Path, generation: nat, owner: nat,
                                         dashboard: bool,
                      elf: Handle -> bool, name: string)
    requires Plain(data) && Plain(package) && name in {"xray", "mihomo"} && forall h :: elf(h)
    requires Guarded(guards, TargetsOf(Requests(data, package, generation, dashboard)), owner)
    ensures HeaderOk(guards, Core(package, name), elf)
  {
    hide Guarded, Plain, NamesOf, Join, GenerationName;
    NamesOfJoin(package, "cores");
    NamesOfJoin(Join(package, "cores"), name);
    var requests := Requests(data, package, generation, dashboard);
    var k := (if dashboard then 8 else 7) + (if name == "xray" then 0 else 1);
    assert requests[k].path == Core(package, name);
    var i := GuardOfRequest(guards, TargetsOf(requests), owner, k);
  }

  lemma JoinIsInside(p: Path, name: string, directory: Path)
    requires Inside(p, directory)
    ensures Inside(Join(p, name), directory)
  {
  }

  /** When every path is its own real path, everything lies where it should. */
  lemma {:induction false} WithoutLinksLocatable(data: Path, package: Path, generation: nat, dashboard: bool,
                              canonical: Path -> Option<Path>, elf: Handle -> bool, guards: seq<Guard>)
    requires forall p :: canonical(p) == Some(p)
    requires HeaderOk(guards, Core(package, "xray"), elf) && HeaderOk(guards, Core(package, "mihomo"), elf)
    ensures Locatable(data, package, generation, dashboard, canonical, elf, guards)
  {
    hide HeaderOk;
    assert Inside(data, data) && Inside(package, package);
    var staged := Staged(data, generation);
    assert Inside(staged, staged);
    hide Inside, Join, GenerationName;
    JoinIsInside(data, "runtime", data);
    JoinIsInside(Join(data, "runtime"), GenerationName(generation), data);
    JoinIsInside(staged, "xray.json", staged);
    JoinIsInside(staged, "mihomo.yaml", staged);
    JoinIsInside(package, "runtime", package);
    JoinIsInside(Join(package, "runtime"), HOST_NAME, package);
    JoinIsInside(package, "dashboard", package);
    JoinIsInside(package, "cores", package);
    JoinIsInside(Join(package, "cores"), "xray", package);
    JoinIsInside(Join(package, "cores"), "mihomo", package);
  }

  lemma JoinIsPlain(p: Path, name: string)
    requires Plain(p)
    ensures Plain(Join(p, name))
  {
  }

  lemma AllRequestsArePlain(data: Path, package: Path, generation: nat, dashboard: bool)
    requires Plain(data) && Plain(package)
    ensures forall i :: 0 <= i < |Requests(data, package, generation, dashboard)| ==>
              Plain(Requests(data, package, generation, dashboard)[i].path)
  {
    hide Plain, Join, GenerationName;
    JoinIsPlain(data, "runtime");
    var staged := Join(Join(data, "runtime"), GenerationName(generation));
    JoinIsPlain(Join(data, "runtime"), GenerationName(generation));
    JoinIsPlain(staged, "xray.json");
    JoinIsPlain(staged, "mihomo.yaml");
    JoinIsPlain(package, "runtime");
    JoinIsPlain(Join(package, "runtime"), HOST_NAME);
    JoinIsPlain(package, "dashboard");
    JoinIsPlain(package, "cores");
    JoinIsPlain(Join(package, "cores"), "xray");
    JoinIsPlain(Join(package, "cores"), "mihomo");
  }

  lemma OnePackage(host: Path, package: Path, other: Path)
    requires HostLayout(host, package) && HostLayout(host, other)
    ensures package == other
  {
    NoLayout(host, package);
    LayoutOf(host);
  }

  /** Wherever the data directory and the package lie, the resolution succeeds in some system. */
  method ResolveObligingly(data: Path, package: Path, generation: nat, owner: nat, dashboard: bool,
                           canonical: Path -> Option<Path>, elf: Handle -> bool) returns (r: Result<Resolved>)
    requires Plain(data) && Plain(package) && generation != 0
    requires (forall p :: canonical(p) == Some(p)) && (forall h :: elf(h))
    ensures r.Ok? && Resolves(r.value, data, package, generation, owner, dashboard, canonical, elf)
  {
    hide Guarded, TargetsOf, HeaderOk, Locatable, Plain, Requests, Blamed, Resolves;
    var host := Join(Join(package, "runtime"), HOST_NAME);
    r := Resolve(data, host, generation, owner, Obliging(owner), dashboard, canonical, elf);
    ghost var requests := Requests(data, package, generation, dashboard);
    AllRequestsArePlain(data, package, generation, dashboard);
    assert HostLayout(host, package);
    if r.Err? {
      forall i | 0 <= i < |requests|
        ensures !Blamed(r.error, requests, i, Obliging(owner), owner)
      {
        ObligingIsNotBlamed(r.error, requests, i, owner);
      }
      forall guards | Guarded(guards, TargetsOf(requests), owner)
        ensures Locatable(data, package, generation, dashboard, canonical, elf, guards)
      {
        CoreIsGuarded(guards, data, package, generation, owner, dashboard, elf, "xray");
        CoreIsGuarded(guards, data, package, generation, owner, dashboard, elf, "mihomo");
        WithoutLinksLocatable(data, package, generation, dashboard, canonical, elf, guards);
      }
      assert false;
    }
    ghost var found :| HostLayout(host, found)
                       && Resolves(r.value, data, found, generation, owner, dashboard, canonical, elf);
    OnePackage(host, package, found);
  }

  /** The exception is real: whenever the package lies at or below a configuration's path, a resolution
      succeeds with a directory guarded in place of that configuration. */
  method DirectoryMayPassAsConfig(data: Path, package: Path, generation: nat, owner: nat, dashboard: bool,
                                  canonical: Path -> Option<Path>, elf: Handle -> bool, path: Names)
    returns (r: Result<Resolved>, ghost i: nat)
    requires Plain(data) && Plain(package) && generation != 0
    requires (forall p :: canonical(p) == Some(p)) && (forall h :: elf(h))
    requires Config(NamesOf(data), generation, path) && path <= NamesOf(package)
    ensures r.Ok? && Resolves(r.value, data, package, generation, owner, dashboard, canonical, elf)
    ensures i < |r.value.guards| && r.value.guards[i].path == path
    ensures r.value.guards[i].handle.Child? && r.value.guards[i].handle.metadata.kind == Directory
  {
    hide Resolves, Config, NamesOf, Plain;
    r := ResolveObligingly(data, package, generation, owner, dashboard, canonical, elf);
    i := ResolvedConfig(r.value, data, package, generation, owner, dashboard, canonical, elf, path);
  }

  // ----- Using the guards -----

  /** `read_guarded` picks the last regular file guarded under that file name. */
  method GuardToRead(guards: seq<Guard>, path: Path) returns (found: Result<nat>)
    requires AllLinked(guards)
    ensures found.Ok? ==> found.value < |guards| && Readable(guards[found.value], path)
    ensures found.Ok? ==> forall j :: found.value < j < |guards| ==> !Readable(guards[j], path)
    ensures found.Err? ==> found.error == Missing && forall j :: 0 <= j < |guards| ==> !Readable(guards[j], path)
  {
    var i := |guards|;
    while i > 0
      invariant 0 <= i <= |guards|
      invariant forall j :: i <= j < |guards| ==> !Readable(guards[j], path)
    {
      i := i - 1;
      if Readable(guards[i], path) {
        return Ok(i);
      }
    }
    return Err(Missing);
  }

  predicate Readable(g: Guard, path: Path) {
    && g.path != [] && FileName(path) == Some(g.path[|g.path| - 1])
    && g.handle.Child? && g.handle.metadata.kind == Regular
  }

  /** What a path shows without following links. */
  datatype Seen = Nothing | ALink | Entry(identity: (nat, nat))

  /** `verify_unchanged`: every guarded path still shows the very file that was guarded. */
  method VerifyUnchanged(guards: seq<Guard>, look: Names -> Seen) returns (error: Option<Error>)
    ensures error.None? <==> forall i :: 0 <= i < |guards| ==> look(guards[i].path) == Entry(guards[i].identity)
    ensures error.Some? ==> exists i :: 0 <= i < |guards| && FirstChange(guards, i, look, error.value)
  {
    for k := 0 to |guards|
      invariant forall i :: 0 <= i < k ==> look(guards[i].path) == Entry(guards[i].identity)
    {
      var seen := look(guards[k].path);
      if seen.Nothing? {
        assert FirstChange(guards, k, look, Missing);
        return Some(Missing);
      }
      if seen.ALink? {
        assert FirstChange(guards, k, look, Symlink);
        return Some(Symlink);
      }
      if seen.identity != guards[k].identity {
        assert FirstChange(guards, k, look, Escape);
        return Some(Escape);
      }
    }
    return None;
  }

  /** Guard `i` is the first whose path changed. */
  ghost predicate FirstChange(guards: seq<Guard>, i: nat, look: Names -> Seen, error: Error)
    requires i < |guards|
  {
    Changed(guards[i], look, error) && forall j :: 0 <= j < i ==> look(guards[j].path) == Entry(guards[j].identity)
  }

  /** How a guard's path changed. */
  predicate Changed(g: Guard, look: Names -> Seen, error: Error) {
    match look(g.path)
    case Nothing => error == Missing
    case ALink => error == Symlink
    case Entry(identity) => error == Escape && identity != g.identity
  }
}
