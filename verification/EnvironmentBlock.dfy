/** The environment the daemon is started with on Windows: the inherited variables without anything
    the daemon's own keys could be confused with, plus the daemon's own, sorted and encoded as a
    UTF-16 block. `Decode` reads such a block the way the started process does. */
module EnvironmentBlock {
  import opened StableSort
  import opened Basics
  import CommandLine

  type Unit = CommandLine.Unit
  type Wide = CommandLine.Wide

  const NUL: Unit := 0
  const EQUALS: Unit := 61

  datatype Variable = Variable(name: Wide, value: Wide)

  /** What the system guarantees of a variable: no NUL, and no `=` in the name except as its very
      first unit (the hidden `=C:` variables). */
  predicate Proper(v: Variable) {
    && v.name != [] && EQUALS !in v.name[1..]
    && NUL !in v.name && NUL !in v.value
  }

  ghost predicate AllProper(vs: seq<Variable>) {
    forall v :: v in vs ==> Proper(v)
  }

  // ----- Names -----

  function Upper(u: Unit): Unit {
    if 97 <= u <= 122 then u - 32 else u
  }

  /** Equal up to ASCII case. */
  predicate SameName(a: Wide, b: Wide) {
    |a| == |b| && forall i :: 0 <= i < |a| ==> Upper(a[i]) == Upper(b[i])
  }

  /** The keys that never come from outside; the first one is never set either. */
  const KEYS: seq<string> := [
    "MULTICORE_DAEMON_URL",
    "MULTICORE_DAEMON_TOKEN",
    "MULTICORE_DAEMON_READY_STDOUT",
    "MULTICORE_DAEMON_ADDR",
    "MULTICORE_DAEMON_DATA_DIR",
    "MULTICORE_XRAY_BIN",
    "MULTICORE_MIHOMO_BIN",
    "MULTICORE_MIHOMO_CONTROLLER_ADDR"
  ]

  predicate PlainText(s: string) {
    forall i :: 0 <= i < |s| ==> s[i] < 128 as char && s[i] as int != EQUALS && s[i] as int != NUL
  }

  lemma DaemonKeyText()
    ensures PlainText(KEYS[0]) && PlainText(KEYS[1])
  {
  }

  lemma ReadyKeyText()
    ensures PlainText(KEYS[2]) && PlainText(KEYS[3])
  {
  }

  lemma DataKeyText()
    ensures PlainText(KEYS[4]) && PlainText(KEYS[5])
  {
  }

  lemma MihomoKeyText()
    ensures PlainText(KEYS[6]) && PlainText(KEYS[7])
  {
  }

  lemma KeyText(k: nat)
    requires k < |KEYS|
    ensures KEYS[k] != [] && PlainText(KEYS[k])
  {
    hide PlainText;
    DaemonKeyText();
    ReadyKeyText();
    DataKeyText();
    MihomoKeyText();
  }

  function Key(k: nat): (r: Wide)
    requires k < |KEYS|
    ensures |r| == |KEYS[k]| && r != [] && forall i :: 0 <= i < |r| ==> r[i] == KEYS[k][i] as int
    ensures NUL !in r && EQUALS !in r
  {
    KeyText(k);
    Ascii(KEYS[k])
  }

  function Named(key: Wide): Variable -> bool {
    (v: Variable) => SameName(v.name, key)
  }

  predicate Reserved(name: Wide) {
    exists k: nat :: k < |KEYS| && SameName(name, Key(k))
  }

  function Foreign(): Variable -> bool {
    (v: Variable) => !Reserved(v.name)
  }

  /** No two keys can be mistaken for each other. */
  lemma KeysDiffer(j: nat, k: nat)
    requires j < |KEYS| && k < |KEYS| && j != k
    ensures !SameName(Key(j), Key(k))
  {
    assert |KEYS[0]| == 20 && |KEYS[1]| == 22 && |KEYS[2]| == 29 && |KEYS[3]| == 21;
    assert |KEYS[4]| == 25 && |KEYS[5]| == 18 && |KEYS[6]| == 20 && |KEYS[7]| == 32;
    if |KEYS[j]| == |KEYS[k]| {
      assert (j == 0 && k == 6) || (j == 6 && k == 0);
      assert KEYS[0][10] == 'D' && KEYS[6][10] == 'M';
      assert Key(0)[10] == 68 && Key(6)[10] == 77;
    }
  }

  const READY: Wide := Ascii("1")
  const DAEMON_ADDR: Wide := Ascii("127.0.0.1:0")
  const CONTROLLER_ADDR: Wide := Ascii("127.0.0.1:19090")

  /** The seven variables the daemon gets. */
  function DaemonVariables(token: Wide, dataDir: Wide, xray: Wide, mihomo: Wide): (r: seq<Variable>)
    ensures |r| == 7 && forall j :: 0 <= j < 7 ==> r[j].name == Key(j + 1)
  {
    [Variable(Key(1), token),
     Variable(Key(2), READY),
     Variable(Key(3), DAEMON_ADDR),
     Variable(Key(4), dataDir),
     Variable(Key(5), xray),
     Variable(Key(6), mihomo),
     Variable(Key(7), CONTROLLER_ADDR)]
  }

  ghost predicate IsDaemon(daemon: seq<Variable>) {
    |daemon| == 7 && forall j :: 0 <= j < 7 ==> daemon[j].name == Key(j + 1)
  }

  // ----- Sorting -----

  predicate High(u: Unit) {
    0xD800 <= u < 0xDC00
  }

  predicate Low(u: Unit) {
    0xDC00 <= u < 0xE000
  }

  /** The code points of a name, unpaired surrogates replaced, ASCII letters in upper case. */
  function SortKey(s: Wide): seq<nat> {
    if s == [] then []
    else if High(s[0]) && |s| > 1 && Low(s[1]) then
      [0x10000 + (s[0] - 0xD800) * 0x400 + (s[1] - 0xDC00)] + SortKey(s[2..])
    else if High(s[0]) || Low(s[0]) then [0xFFFD] + SortKey(s[1..])
    else [Upper(s[0])] + SortKey(s[1..])
  }

  predicate LexLe(a: seq<nat>, b: seq<nat>) {
    a == [] || (b != [] && (a[0] < b[0] || (a[0] == b[0] && LexLe(a[1..], b[1..]))))
  }

  lemma {:induction false} LexTotal(a: seq<nat>, b: seq<nat>)
    ensures LexLe(a, b) || LexLe(b, a)
  {
    if a != [] && b != [] {
      LexTotal(a[1..], b[1..]);
    }
  }

  lemma {:induction false} LexTransitive(a: seq<nat>, b: seq<nat>, c: seq<nat>)
    requires LexLe(a, b) && LexLe(b, c)
    ensures LexLe(a, c)
  {
    if a != [] && a[0] == b[0] == c[0] {
      LexTransitive(a[1..], b[1..], c[1..]);
    }
  }

  function ByName(): (Variable, Variable) -> bool {
    (a: Variable, b: Variable) => LexLe(SortKey(a.name), SortKey(b.name))
  }

  lemma ByNameIsPreorder()
    ensures TotalPreorder(ByName())
  {
    forall a: Variable, b: Variable
      ensures ByName()(a, b) || ByName()(b, a)
    {
      LexTotal(SortKey(a.name), SortKey(b.name));
    }
    forall a: Variable, b: Variable, c: Variable | ByName()(a, b) && ByName()(b, c)
      ensures ByName()(a, c)
    {
      LexTransitive(SortKey(a.name), SortKey(b.name), SortKey(c.name));
    }
  }

  // ----- What the order and the names mean -----

  /** Equal, or an ASCII letter in its other case. */
  predicate SameLetter(a: Unit, b: Unit) {
    a == b || (65 <= a <= 90 && b == a + 32) || (97 <= a <= 122 && b == a - 32)
  }

  lemma SameNameIff(a: Wide, b: Wide)
    ensures SameName(a, b) <==> |a| == |b| && forall i :: 0 <= i < |a| ==> SameLetter(a[i], b[i])
  {
  }

  /** The name is that text up to the case of ASCII letters. */
  predicate Spells(name: Wide, text: string) {
    |name| == |text| && forall i :: 0 <= i < |name| ==>
      || name[i] == text[i] as int
      || (65 <= name[i] <= 90 && name[i] as int + 32 == text[i] as int)
      || (97 <= name[i] <= 122 && name[i] as int - 32 == text[i] as int)
  }

  lemma NamedIff(v: Variable, k: nat)
    requires k < |KEYS|
    ensures Named(Key(k))(v) <==> Spells(v.name, KEYS[k])
  {
    SameNameIff(v.name, Key(k));
  }

  /** A variable is foreign exactly when its name spells none of the eight keys. */
  lemma ForeignIff(v: Variable)
    ensures Foreign()(v) <==>
              && !Spells(v.name, "MULTICORE_DAEMON_URL") && !Spells(v.name, "MULTICORE_DAEMON_TOKEN")
              && !Spells(v.name, "MULTICORE_DAEMON_READY_STDOUT") && !Spells(v.name, "MULTICORE_DAEMON_ADDR")
              && !Spells(v.name, "MULTICORE_DAEMON_DATA_DIR") && !Spells(v.name, "MULTICORE_XRAY_BIN")
              && !Spells(v.name, "MULTICORE_MIHOMO_BIN") && !Spells(v.name, "MULTICORE_MIHOMO_CONTROLLER_ADDR")
  {
    hide Spells, SameName, Key;
    forall k: nat | k < 8
      ensures SameName(v.name, Key(k)) <==> Spells(v.name, KEYS[k])
    {
      NamedIff(v, k);
    }
    assert Reserved(v.name) <==> exists k: nat :: k < 8 && SameName(v.name, Key(k));
    assert Spells(v.name, KEYS[0]) ==> SameName(v.name, Key(0));
    assert Spells(v.name, KEYS[1]) ==> SameName(v.name, Key(1));
    assert Spells(v.name, KEYS[2]) ==> SameName(v.name, Key(2));
    assert Spells(v.name, KEYS[3]) ==> SameName(v.name, Key(3));
    assert Spells(v.name, KEYS[4]) ==> SameName(v.name, Key(4));
    assert Spells(v.name, KEYS[5]) ==> SameName(v.name, Key(5));
    assert Spells(v.name, KEYS[6]) ==> SameName(v.name, Key(6));
    assert Spells(v.name, KEYS[7]) ==> SameName(v.name, Key(7));
  }

  /** The units up to the `n`th are the same letters, and there `a` ends or has the smaller letter. */
  ghost predicate AscendsAt(a: Wide, b: Wide, n: nat) {
    && n <= |a| && n <= |b|
    && (forall k :: 0 <= k < n ==> SameLetter(a[k], b[k]))
    && (n == |a| || (n < |b| && UpperCase(a[n]) < UpperCase(b[n])))
  }

  function UpperCase(u: Unit): int {
    if 97 <= u && u <= 122 then u - 32 else u
  }

  predicate Plain(s: Wide) {
    forall i :: 0 <= i < |s| ==> !(0xD800 <= s[i] < 0xE000)
  }

  /** Names come in order of their upper-cased units, as long as no surrogates occur. */
  ghost predicate Ascends(a: Wide, b: Wide) {
    Plain(a) && Plain(b) ==> exists n :: AscendsAt(a, b, n)
  }

  lemma SortKeyOfPlain(s: Wide)
    requires s != [] && Plain(s)
    ensures SortKey(s) == [UpperCase(s[0])] + SortKey(s[1..]) && Plain(s[1..])
  {
  }

  /** A surrogate pair counts as its code point, and a lone surrogate as U+FFFD. */
  lemma SortKeyOfSurrogate(s: Wide)
    requires s != [] && 0xD800 <= s[0] < 0xE000
    ensures SortKey(s) ==
            if s[0] < 0xDC00 && |s| > 1 && 0xDC00 <= s[1] < 0xE000
            then [0x10000 + (s[0] as int - 0xD800) * 0x400 + (s[1] as int - 0xDC00)] + SortKey(s[2..])
            else [0xFFFD] + SortKey(s[1..])
  {
  }

  lemma {:induction false} LexIsAscending(a: Wide, b: Wide) returns (n: nat)
    requires Plain(a) && Plain(b) && LexLe(SortKey(a), SortKey(b))
    ensures AscendsAt(a, b, n)
  {
    if a == [] {
      n := 0;
    } else {
      SortKeyOfPlain(a);
      assert b != [] by {
        assert SortKey([]) == [];
      }
      SortKeyOfPlain(b);
      if UpperCase(a[0]) < UpperCase(b[0]) {
        n := 0;
      } else {
        assert SortKey(a)[1..] == SortKey(a[1..]) && SortKey(b)[1..] == SortKey(b[1..]);
        var m := LexIsAscending(a[1..], b[1..]);
        n := m + 1;
        forall k | 0 <= k < n
          ensures SameLetter(a[k], b[k])
        {
          assert k > 0 ==> a[k] == a[1..][k - 1] && b[k] == b[1..][k - 1];
        }
      }
    }
  }

  lemma SortedAscends(vs: seq<Variable>)
    requires Sorted(ByName(), vs)
    ensures forall i, j :: 0 <= i < j < |vs| ==> Ascends(vs[i].name, vs[j].name)
  {
    hide LexLe, SortKey;
    forall i, j | 0 <= i < j < |vs|
      ensures Ascends(vs[i].name, vs[j].name)
    {
      assert ByName()(vs[i], vs[j]);
      if Plain(vs[i].name) && Plain(vs[j].name) {
        var n := LexIsAscending(vs[i].name, vs[j].name);
      }
    }
  }

  // ----- Encoding -----

  function EncodeOne(v: Variable): Wide {
    v.name + [EQUALS] + v.value + [NUL]
  }

  function Encode(vs: seq<Variable>): Wide {
    if vs == [] then [] else EncodeOne(vs[0]) + Encode(vs[1..])
  }

  /** The block in units: each variable as name, equals sign, value and NUL, one after the other. */
  lemma {:induction false} EncodeInOrder(a: seq<Variable>, b: seq<Variable>)
    ensures Encode(a + b) == Encode(a) + Encode(b)
  {
    if a == [] {
      assert a + b == b;
    } else {
      assert (a + b)[1..] == a[1..] + b;
      EncodeInOrder(a[1..], b);
    }
  }

  lemma EncodeOfOne(v: Variable)
    ensures Encode([v]) == v.name + [61] + v.value + [0]
  {
    assert [v][1..] == [] && Encode([]) == [];
  }

  function Values(inherited: seq<Variable>, daemon: seq<Variable>): seq<Variable> {
    Sort(ByName(), Filter(Foreign(), inherited) + daemon)
  }

  /** Filters, appends, sorts and encodes. The process that reads the block finds exactly the sorted
      variables: each daemon key once, with the daemon's value, the daemon URL never, and every
      other inherited variable as it was. */
  method EnvironmentBlock(inherited: seq<Variable>, daemon: seq<Variable>) returns (block: Wide)
    requires IsDaemon(daemon) && AllProper(inherited) && AllProper(daemon)
    ensures Decode(block) == Values(inherited, daemon) && block == Encode(Decode(block)) + [0]
    ensures forall i, j :: 0 <= i < j < |Decode(block)| ==> Ascends(Decode(block)[i].name, Decode(block)[j].name)
    ensures forall j :: 0 <= j < 7 ==> Filter(Named(Key(j + 1)), Decode(block)) == [daemon[j]]
    ensures Filter(Named(Key(0)), Decode(block)) == []
    ensures Filter(Foreign(), Decode(block)) == Sort(ByName(), Filter(Foreign(), inherited))
    ensures multiset(Filter(Foreign(), Decode(block))) == multiset(Filter(Foreign(), inherited))
  {
    hide Foreign, Named, ByName, Filter, Sort, Decode, Encode, EncodeOne, Key, Sorted, Ascends;
    var values := KeepForeign(inherited);
    values := values + daemon;
    values := Sort(ByName(), values);
    block := [];
    for i := 0 to |values|
      invariant block + Encode(values[i..]) == Encode(values)
    {
      EncodeHead(values, i);
      block := block + values[i].name;
      block := block + [EQUALS];
      block := block + values[i].value;
      block := block + [NUL];
    }
    EncodeEnd(values);
    assert block == Encode(values);
    block := block + [NUL];
    ValuesAreProper(inherited, daemon);
    BlockIsReadBack(values);
    ByNameIsPreorder();
    SortIsSorted(ByName(), Filter(Foreign(), inherited) + daemon);
    SortedAscends(values);
    forall j | 0 <= j < 7
      ensures Filter(Named(Key(j + 1)), values) == [daemon[j]]
    {
      DaemonKeyOnce(inherited, daemon, j);
    }
    UrlNever(inherited, daemon);
    OthersKept(inherited, daemon);
    SortKeepsElements(ByName(), Filter(Foreign(), inherited));
  }

  lemma DaemonIsProper(token: Wide, dataDir: Wide, xray: Wide, mihomo: Wide)
    requires NUL !in token && NUL !in dataDir && NUL !in xray && NUL !in mihomo
    ensures AllProper(DaemonVariables(token, dataDir, xray, mihomo))
  {
    hide Key;
    assert NUL !in READY && NUL !in DAEMON_ADDR && NUL !in CONTROLLER_ADDR;
  }

  /** The block of a package: the daemon finds its token, its address, its directory and both cores under
      their keys, once each, and nothing inherited instead. */
  method DaemonBlock(inherited: seq<Variable>, token: Wide, dataDir: Wide, xray: Wide, mihomo: Wide)
    returns (block: Wide)
    requires AllProper(inherited)
    requires NUL !in token && NUL !in dataDir && NUL !in xray && NUL !in mihomo
    ensures Filter(Named(Key(0)), Decode(block)) == []
    ensures Filter(Named(Key(1)), Decode(block)) == [Variable(Key(1), token)]
    ensures Filter(Named(Key(2)), Decode(block)) == [Variable(Key(2), READY)]
    ensures Filter(Named(Key(3)), Decode(block)) == [Variable(Key(3), DAEMON_ADDR)]
    ensures Filter(Named(Key(4)), Decode(block)) == [Variable(Key(4), dataDir)]
    ensures Filter(Named(Key(5)), Decode(block)) == [Variable(Key(5), xray)]
    ensures Filter(Named(Key(6)), Decode(block)) == [Variable(Key(6), mihomo)]
    ensures Filter(Named(Key(7)), Decode(block)) == [Variable(Key(7), CONTROLLER_ADDR)]
    ensures Filter(Foreign(), Decode(block)) == Sort(ByName(), Filter(Foreign(), inherited))
  {
    hide Foreign, Named, ByName, Filter, Sort, Decode, Key, AllProper;
    var daemon := DaemonVariables(token, dataDir, xray, mihomo);
    DaemonIsProper(token, dataDir, xray, mihomo);
    block := EnvironmentBlock(inherited, daemon);
    assert Filter(Named(Key(0 + 1)), Decode(block)) == [daemon[0]];
    assert Filter(Named(Key(1 + 1)), Decode(block)) == [daemon[1]];
    assert Filter(Named(Key(2 + 1)), Decode(block)) == [daemon[2]];
    assert Filter(Named(Key(3 + 1)), Decode(block)) == [daemon[3]];
    assert Filter(Named(Key(4 + 1)), Decode(block)) == [daemon[4]];
    assert Filter(Named(Key(5 + 1)), Decode(block)) == [daemon[5]];
    assert Filter(Named(Key(6 + 1)), Decode(block)) == [daemon[6]];
  }

  method KeepForeign(inherited: seq<Variable>) returns (kept: seq<Variable>)
    ensures kept == Filter(Foreign(), inherited)
  {
    kept := [];
    for i := 0 to |inherited|
      invariant kept == Filter(Foreign(), inherited[..i])
    {
      assert Front(inherited[..i + 1]) == inherited[..i];
      if Foreign()(inherited[i]) {
        kept := kept + [inherited[i]];
      }
    }
    assert inherited[..|inherited|] == inherited;
  }

  lemma EncodeHead(vs: seq<Variable>, i: nat)
    requires i < |vs|
    ensures Encode(vs[i..]) == vs[i].name + [EQUALS] + vs[i].value + [NUL] + Encode(vs[i + 1..])
  {
    assert vs[i..][1..] == vs[i + 1..];
  }

  lemma EncodeEnd(vs: seq<Variable>)
    ensures Encode(vs[|vs|..]) == []
  {
  }

  // ----- Decoding -----

  /** `name=value`, where a leading `=` belongs to the name. */
  function Split(entry: Wide): Variable
    requires entry != []
  {
    var n := 1 + IndexOf(entry[1..], EQUALS);
    Variable(entry[..n], if n < |entry| then entry[n + 1..] else [])
  }

  /** Entries up to the empty one. */
  function Decode(block: Wide): seq<Variable>
    decreases |block|
  {
    if block == [] || block[0] == NUL then []
    else
      var n := IndexOf(block, NUL);
      [Split(block[..n])] + (if n < |block| then Decode(block[n + 1..]) else [])
  }

  lemma SplitIsReadBack(v: Variable)
    requires Proper(v)
    ensures Split(v.name + [EQUALS] + v.value) == v
  {
    var entry := v.name + [EQUALS] + v.value;
    assert entry[1..] == v.name[1..] + [EQUALS] + v.value;
    IndexOfIs(v.name[1..], v.value, EQUALS);
  }

  lemma {:induction false} BlockIsReadBack(vs: seq<Variable>)
    requires AllProper(vs)
    ensures Decode(Encode(vs) + [NUL]) == vs
  {
    hide Split, IndexOf, Proper;
    if vs != [] {
      var v := vs[0];
      var entry := v.name + [EQUALS] + v.value;
      var rest := Encode(vs[1..]) + [NUL];
      var block := Encode(vs) + [NUL];
      ProperEntry(v);
      assert block == entry + [NUL] + rest;
      IndexOfIs(entry, rest, NUL);
      assert block[..|entry|] == entry && block[|entry| + 1..] == rest;
      SplitIsReadBack(v);
      BlockIsReadBack(vs[1..]);
      assert vs == [v] + vs[1..];
      assert block[0] != NUL;
    }
  }

  lemma ProperEntry(v: Variable)
    requires Proper(v)
    ensures var entry := v.name + [EQUALS] + v.value; entry != [] && entry[0] != NUL && NUL !in entry
  {
  }

  lemma ValuesAreProper(inherited: seq<Variable>, daemon: seq<Variable>)
    requires AllProper(inherited) && AllProper(daemon)
    ensures AllProper(Values(inherited, daemon))
  {
    var all := Filter(Foreign(), inherited) + daemon;
    FilterKeepsMembers(Foreign(), inherited);
    SortKeepsElements(ByName(), all);
    forall v | v in Values(inherited, daemon)
      ensures Proper(v)
    {
      assert v in multiset(all);
    }
  }

  // ----- What is in the block -----

  lemma {:induction false} FilterOne(p: Variable -> bool, s: seq<Variable>, k: nat)
    requires k < |s| && p(s[k])
    requires forall i :: 0 <= i < |s| && i != k ==> !p(s[i])
    ensures Filter(p, s) == [s[k]]
  {
    hide Filter;
    FilterNone(p, s[..k]);
    FilterNone(p, s[k + 1..]);
    FilterAll(p, [s[k]]);
    FilterConcat(p, [s[k]], s[k + 1..]);
    FilterConcat(p, s[..k], [s[k]] + s[k + 1..]);
    assert s == s[..k] + ([s[k]] + s[k + 1..]);
  }

  lemma ForeignIsNotNamed(inherited: seq<Variable>, k: nat)
    requires k < |KEYS|
    ensures Filter(Named(Key(k)), Filter(Foreign(), inherited)) == []
  {
    FilterKeepsMembers(Foreign(), inherited);
    FilterNone(Named(Key(k)), Filter(Foreign(), inherited));
  }

  lemma NamedInValues(inherited: seq<Variable>, daemon: seq<Variable>, k: nat)
    requires k < |KEYS|
    ensures Filter(Named(Key(k)), Values(inherited, daemon)) == Sort(ByName(), Filter(Named(Key(k)), daemon))
  {
    hide Filter, Sort, Named, Key;
    ByNameIsPreorder();
    FilterSort(ByName(), Named(Key(k)), Filter(Foreign(), inherited) + daemon);
    FilterConcat(Named(Key(k)), Filter(Foreign(), inherited), daemon);
    ForeignIsNotNamed(inherited, k);
    assert [] + Filter(Named(Key(k)), daemon) == Filter(Named(Key(k)), daemon);
  }

  lemma SortOne(v: Variable)
    ensures Sort(ByName(), [v]) == [v]
  {
    SortOfSorted(ByName(), [v]);
  }

  lemma DaemonKeyOnce(inherited: seq<Variable>, daemon: seq<Variable>, j: nat)
    requires IsDaemon(daemon) && j < 7
    ensures Filter(Named(Key(j + 1)), Values(inherited, daemon)) == [daemon[j]]
  {
    hide Filter, Sort, Key, ByName, Values;
    var p := Named(Key(j + 1));
    forall i | 0 <= i < 7 && i != j
      ensures !p(daemon[i])
    {
      KeysDiffer(i + 1, j + 1);
    }
    FilterOne(p, daemon, j);
    NamedInValues(inherited, daemon, j + 1);
    SortOne(daemon[j]);
  }

  lemma UrlNever(inherited: seq<Variable>, daemon: seq<Variable>)
    requires IsDaemon(daemon)
    ensures Filter(Named(Key(0)), Values(inherited, daemon)) == []
  {
    hide Filter, Key, ByName, Values;
    var p := Named(Key(0));
    forall v | v in daemon
      ensures !p(v)
    {
      var i :| 0 <= i < 7 && daemon[i] == v;
      KeysDiffer(i + 1, 0);
    }
    FilterNone(p, daemon);
    NamedInValues(inherited, daemon, 0);
  }

  lemma OthersKept(inherited: seq<Variable>, daemon: seq<Variable>)
    requires IsDaemon(daemon)
    ensures Filter(Foreign(), Values(inherited, daemon)) == Sort(ByName(), Filter(Foreign(), inherited))
  {
    hide Filter, Sort, Key, ByName;
    var p := Foreign();
    forall v | v in daemon
      ensures !p(v)
    {
      var i :| 0 <= i < 7 && daemon[i] == v;
      assert SameName(v.name, Key(i + 1));
    }
    ByNameIsPreorder();
    FilterSort(ByName(), p, Filter(p, inherited) + daemon);
    FilterConcat(p, Filter(p, inherited), daemon);
    FilterNone(p, daemon);
    FilterKeepsMembers(p, inherited);
    FilterAll(p, Filter(p, inherited));
    assert Filter(p, inherited) + [] == Filter(p, inherited);
  }
}
