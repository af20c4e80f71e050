/** The command line that starts the daemon on Windows: every argument is quoted by
    `quote_windows_argument`, and the started process takes the line apart again with the
    argv rules of the Microsoft C runtime. `Parse` below is those rules, written down
    independently of the quoting; the theorems relate the two. */
module CommandLine {

  /** One UTF-16 code unit; surrogates need not be paired. */
  type Unit = u: int | 0 <= u < 0x1_0000
  type Wide = seq<Unit>

  const NUL: Unit := 0
  const TAB: Unit := 9
  const SPACE: Unit := 32
  const QUOTE: Unit := 34
  const BACKSLASH: Unit := 92

  predicate Blank(u: Unit) {
    u == SPACE || u == TAB
  }

  function Slashes(n: nat): Wide {
    seq(n, _ => BACKSLASH)
  }

  // ----- Quoting -----

  /** What remains to be written for `value` when `pending` backslashes were just read. */
  function Escaped(value: Wide, pending: nat): Wide {
    if value == [] then Slashes(pending * 2) + [QUOTE]
    else if value[0] == BACKSLASH then Escaped(value[1..], pending + 1)
    else if value[0] == QUOTE then Slashes(pending + 1) + Slashes(pending) + [QUOTE] + Escaped(value[1..], 0)
    else Slashes(pending) + [value[0]] + Escaped(value[1..], 0)
  }

  function Quoted(value: Wide): Wide {
    [QUOTE] + Escaped(value, 0)
  }

  /** Quotes one argument the way the desktop does, unit by unit with a count of the backslashes
      not yet written. Whatever blank or end follows, the C runtime reads the argument back. */
  method QuoteWindowsArgument(value: Wide) returns (result: Wide)
    ensures result == Quoted(value)
    ensures forall rest: Wide :: Ends(rest) ==> Argument(result + rest, false) == Scan(value, rest)
  {
    hide Argument;
    result := [QUOTE];
    var backslashes: nat := 0;
    for i := 0 to |value|
      invariant result + Escaped(value[i..], backslashes) == Quoted(value)
    {
      assert value[i..][1..] == value[i + 1..];
      if value[i] == BACKSLASH {
        backslashes := backslashes + 1;
      } else {
        if value[i] == QUOTE {
          result := result + Slashes(backslashes + 1);
        }
        result := result + Slashes(backslashes);
        backslashes := 0;
        result := result + [value[i]];
      }
    }
    assert value[|value|..] == [];
    result := result + Slashes(backslashes * 2);
    result := result + [QUOTE];
    forall rest: Wide | Ends(rest)
      ensures Argument(result + rest, false) == Scan(value, rest)
    {
      QuotedIsReadBack(value, rest);
      assert result == Quoted(value);
    }
  }

  /** The whole line: the quoted program, every quoted argument after a space, and a NUL. */
  function Assembled(program: Wide, args: seq<Wide>): Wide {
    Quoted(program) + Joined(args) + [NUL]
  }

  function Joined(args: seq<Wide>): Wide {
    if args == [] then [] else [SPACE] + Quoted(args[0]) + Joined(args[1..])
  }

  lemma JoinedHead(args: seq<Wide>)
    requires args != []
    ensures Joined(args) == [SPACE] + Quoted(args[0]) + Joined(args[1..])
  {
  }

  /** Builds the command line and states exactly when the started process sees what was meant:
      the program path must be free of quotes and must not end in a backslash (argv[0] knows no
      escapes), and nothing may contain a NUL. Any other mix of quotes, blanks and backslash
      runs survives. */
  method CommandLineFor(program: Wide, args: seq<Wide>) returns (line: Wide)
    ensures line == Assembled(program, args)
    ensures Parse(line) == [program] + args <==> Transportable(program, args)
  {
    hide Quoted, Argument, Parse, Transportable;
    line := QuoteWindowsArgument(program);
    for i := 0 to |args|
      invariant line + Joined(args[i..]) == Quoted(program) + Joined(args)
    {
      JoinedHead(args[i..]);
      assert args[i..][1..] == args[i + 1..];
      line := line + [SPACE];
      var quoted := QuoteWindowsArgument(args[i]);
      line := line + quoted;
    }
    assert args[|args|..] == [];
    line := line + [NUL];
    AssembledIsReadBackIff(program, args);
  }

  // ----- The C runtime's argv rules -----

  /** The argument read and the units left after it. */
  datatype Scan = Scan(text: Wide, rest: Wide)

  /** The number of backslashes at the start. */
  function SlashRun(s: Wide): (n: nat)
    ensures n <= |s| && s[..n] == Slashes(n)
    ensures n < |s| ==> s[n] != BACKSLASH
  {
    if s == [] || s[0] != BACKSLASH then 0
    else
      assert s[1..][..SlashRun(s[1..])] == s[1..1 + SlashRun(s[1..])];
      1 + SlashRun(s[1..])
  }

  function Emit(text: Wide, scan: Scan): Scan {
    Scan(text + scan.text, scan.rest)
  }

  /** One argument, inside or outside a quoted part: 2n backslashes before a quote give n and the
      quote delimits; 2n+1 give n and a literal quote; a doubled quote inside a quoted part is a
      literal quote; other backslashes are literal; a blank outside quotes ends the argument. */
  function Argument(s: Wide, quoted: bool): (r: Scan)
    ensures |r.rest| <= |s|
    ensures s != [] && !Blank(s[0]) ==> |r.rest| < |s|
    decreases |s|
  {
    var n := SlashRun(s);
    if n < |s| && s[n] == QUOTE then
      if n % 2 == 1 then
        Emit(Slashes(n / 2) + [QUOTE], Argument(s[n + 1..], quoted))
      else if quoted && n + 1 < |s| && s[n + 1] == QUOTE then
        Emit(Slashes(n / 2) + [QUOTE], Argument(s[n + 2..], quoted))
      else
        Emit(Slashes(n / 2), Argument(s[n + 1..], !quoted))
    else if n == |s| || (!quoted && Blank(s[n])) then
      Scan(Slashes(n), s[n..])
    else
      Emit(Slashes(n) + [s[n]], Argument(s[n + 1..], quoted))
  }

  function SkipBlanks(s: Wide): (r: Wide)
    ensures |r| <= |s|
    ensures r != [] ==> !Blank(r[0])
  {
    if s != [] && Blank(s[0]) then SkipBlanks(s[1..]) else s
  }

  function Arguments(s: Wide): seq<Wide>
    decreases |s|
  {
    var start := SkipBlanks(s);
    if start == [] then []
    else
      var scan := Argument(start, false);
      [scan.text] + Arguments(scan.rest)
  }

  /** argv[0]: quotes only switch whether blanks end it; backslashes mean nothing. */
  function ProgramName(s: Wide, quoted: bool): Scan {
    if s == [] then Scan([], [])
    else if s[0] == QUOTE then ProgramName(s[1..], !quoted)
    else if !quoted && Blank(s[0]) then Scan([], s[1..])
    else Emit([s[0]], ProgramName(s[1..], quoted))
  }

  /** A C string ends at its first NUL. */
  function UpToNul(s: Wide): Wide {
    if s == [] || s[0] == NUL then [] else [s[0]] + UpToNul(s[1..])
  }

  function Parse(line: Wide): seq<Wide> {
    var scan := ProgramName(UpToNul(line), false);
    [scan.text] + Arguments(scan.rest)
  }

  // ----- Quoting is undone by parsing -----

  predicate Ends(rest: Wide) {
    rest == [] || Blank(rest[0])
  }

  predicate PlainProgram(program: Wide) {
    && QUOTE !in program
    && (program != [] ==> program[|program| - 1] != BACKSLASH)
  }

  predicate Transportable(program: Wide, args: seq<Wide>) {
    && PlainProgram(program)
    && NUL !in program
    && forall i :: 0 <= i < |args| ==> NUL !in args[i]
  }

  lemma {:induction false} SlashRunOf(n: nat, s: Wide)
    requires s == [] || s[0] != BACKSLASH
    ensures SlashRun(Slashes(n) + s) == n
  {
    if n == 0 {
      assert Slashes(0) + s == s;
    } else {
      SlashRunOf(n - 1, s);
      assert (Slashes(n) + s)[1..] == Slashes(n - 1) + s;
    }
  }

  /** An odd run of backslashes and a quote: half of them and a literal quote. */
  lemma ReadEscapedQuote(n: nat, after: Wide)
    ensures Argument(Slashes(2 * n + 1) + ([QUOTE] + after), true) == Emit(Slashes(n) + [QUOTE], Argument(after, true))
  {
    var k := 2 * n + 1;
    var s := Slashes(k) + ([QUOTE] + after);
    SlashRunOf(k, [QUOTE] + after);
    assert s[k] == QUOTE && s[k + 1..] == after;
    assert k % 2 == 1 && k / 2 == n;
  }

  /** Backslashes before anything but a quote stay as they are. */
  lemma ReadPlain(n: nat, unit: Unit, after: Wide)
    requires unit != QUOTE && unit != BACKSLASH
    ensures Argument(Slashes(n) + ([unit] + after), true) == Emit(Slashes(n) + [unit], Argument(after, true))
  {
    var s := Slashes(n) + ([unit] + after);
    SlashRunOf(n, [unit] + after);
    assert s[n] == unit && s[n + 1..] == after;
  }

  /** An even run of backslashes and the closing quote: half of them, and the argument ends. */
  lemma ReadClosingQuote(n: nat, rest: Wide)
    requires Ends(rest)
    ensures Argument(Slashes(2 * n) + ([QUOTE] + rest), true) == Scan(Slashes(n), rest)
  {
    var k := 2 * n;
    var s := Slashes(k) + ([QUOTE] + rest);
    SlashRunOf(k, [QUOTE] + rest);
    assert s[k] == QUOTE && s[k + 1..] == rest;
    assert k + 1 < |s| ==> s[k + 1] == rest[0];
    assert k % 2 == 0 && k / 2 == n;
    assert SlashRun(rest) == 0;
    assert Slashes(0) == [] && rest[0..] == rest;
    assert Argument(rest, false) == Scan([], rest);
    assert Slashes(n) + [] == Slashes(n);
  }

  /** The escaped text up to and including the first unit that is not a backslash. */
  lemma EscapedHead(value: Wide, pending: nat, rest: Wide)
    requires value != [] && value[0] != BACKSLASH
    ensures var after := Escaped(value[1..], 0) + rest;
            Escaped(value, pending) + rest ==
            Slashes(if value[0] == QUOTE then 2 * pending + 1 else pending) + ([value[0]] + after)
  {
    if value[0] == QUOTE {
      assert Slashes(pending + 1) + Slashes(pending) == Slashes(2 * pending + 1);
    }
  }

  lemma SplitHead(value: Wide, pending: nat)
    requires value != []
    ensures Slashes(pending) + [value[0]] + value[1..] == Slashes(pending) + value
    ensures value[0] == BACKSLASH ==> Slashes(pending + 1) + value[1..] == Slashes(pending) + value
    ensures Slashes(0) + value[1..] == value[1..]
  {
  }

  /** Reading the escaped tail inside quotes returns the pending backslashes and the value. */
  lemma {:induction false} EscapedIsReadBack(value: Wide, pending: nat, rest: Wide)
    requires Ends(rest)
    ensures Argument(Escaped(value, pending) + rest, true) == Scan(Slashes(pending) + value, rest)
    decreases |value|
  {
    hide Argument, Slashes;
    if value == [] {
      assert Escaped(value, pending) + rest == Slashes(2 * pending) + ([QUOTE] + rest);
      ReadClosingQuote(pending, rest);
      assert Slashes(pending) + value == Slashes(pending);
    } else {
      SplitHead(value, pending);
      if value[0] == BACKSLASH {
        EscapedIsReadBack(value[1..], pending + 1, rest);
      } else {
        var after := Escaped(value[1..], 0) + rest;
        EscapedHead(value, pending, rest);
        EscapedIsReadBack(value[1..], 0, rest);
        if value[0] == QUOTE {
          ReadEscapedQuote(pending, after);
        } else {
          ReadPlain(pending, value[0], after);
        }
      }
    }
  }

  lemma QuotedIsReadBack(value: Wide, rest: Wide)
    requires Ends(rest)
    ensures Argument(Quoted(value) + rest, false) == Scan(value, rest)
  {
    var s := Quoted(value) + rest;
    assert SlashRun(s) == 0;
    assert s[1..] == Escaped(value, 0) + rest;
    EscapedIsReadBack(value, 0, rest);
    assert Slashes(0) + value == value;
  }

  /** The arguments after the program come back one by one. */
  lemma {:induction false} JoinedIsReadBack(args: seq<Wide>)
    ensures Arguments(Joined(args)) == args
  {
    if args != [] {
      var rest := Joined(args[1..]);
      var quoted := Quoted(args[0]) + rest;
      assert Joined(args) == [SPACE] + quoted;
      assert Joined(args)[1..] == quoted;
      assert SkipBlanks(quoted) == quoted;
      assert SkipBlanks(Joined(args)) == quoted;
      QuotedIsReadBack(args[0], rest);
      JoinedIsReadBack(args[1..]);
      assert [args[0]] + args[1..] == args;
    }
  }

  /** argv[0] of a quote-free program: the program, with its trailing backslashes doubled. */
  lemma {:induction false} ProgramIsReadBack(program: Wide, pending: nat, rest: Wide)
    requires QUOTE !in program
    requires Ends(rest)
    ensures ProgramName(Escaped(program, pending) + rest, true) ==
            Scan(Slashes(pending) + program + Slashes(TrailingSlashes(program, pending)),
                 if rest == [] then [] else rest[1..])
    decreases |program|
  {
    hide Slashes, ProgramName, Escaped;
    if program == [] {
      var tail := [QUOTE] + rest;
      EscapedEnd(program, pending, rest);
      SlashesInName(2 * pending, tail);
      ClosingQuoteInName(rest);
      TwiceSlashes(pending);
      assert Slashes(2 * pending) + [] == Slashes(pending) + program + Slashes(pending);
    } else {
      SplitHead(program, pending);
      if program[0] == BACKSLASH {
        EscapedSlash(program, pending);
        ProgramIsReadBack(program[1..], pending + 1, rest);
      } else {
        var after := Escaped(program[1..], 0) + rest;
        EscapedHead(program, pending, rest);
        SlashesInName(pending, [program[0]] + after);
        UnitInName(program[0], after);
        ProgramIsReadBack(program[1..], 0, rest);
        var more := Slashes(TrailingSlashes(program, pending));
        Regroup(Slashes(pending), [program[0]], program[1..], more);
      }
    }
  }

  /** The backslashes at the end of `program`, with `pending` more in front of it. */
  function TrailingSlashes(program: Wide, pending: nat): nat {
    if program == [] then pending
    else TrailingSlashes(program[1..], if program[0] == BACKSLASH then pending + 1 else 0)
  }

  lemma {:induction false} NoTrailingSlash(program: Wide, pending: nat)
    ensures TrailingSlashes(program, pending) == 0 <==>
            if program == [] then pending == 0 else program[|program| - 1] != BACKSLASH
    decreases |program|
  {
    if program != [] {
      NoTrailingSlash(program[1..], if program[0] == BACKSLASH then pending + 1 else 0);
    }
  }

  lemma ClosingQuoteInName(rest: Wide)
    requires Ends(rest)
    ensures ProgramName([QUOTE] + rest, true) == Scan([], if rest == [] then [] else rest[1..])
  {
    assert ([QUOTE] + rest)[1..] == rest;
  }

  lemma UnitInName(unit: Unit, after: Wide)
    requires unit != QUOTE
    ensures ProgramName([unit] + after, true) == Emit([unit], ProgramName(after, true))
  {
    assert ([unit] + after)[1..] == after;
  }

  lemma Regroup(a: Wide, b: Wide, c: Wide, d: Wide)
    ensures a + (b + (c + d)) == a + b + c + d
  {
  }

  lemma EscapedEnd(value: Wide, pending: nat, rest: Wide)
    requires value == []
    ensures Escaped(value, pending) + rest == Slashes(2 * pending) + ([QUOTE] + rest)
  {
  }

  lemma EscapedSlash(value: Wide, pending: nat)
    requires value != [] && value[0] == BACKSLASH
    ensures Escaped(value, pending) == Escaped(value[1..], pending + 1)
  {
  }

  lemma TwiceSlashes(n: nat)
    ensures Slashes(2 * n) == Slashes(n) + Slashes(n)
  {
  }

  lemma {:induction false} SlashesInName(n: nat, s: Wide)
    ensures ProgramName(Slashes(n) + s, true) == Emit(Slashes(n), ProgramName(s, true))
  {
    hide ProgramName;
    if n == 0 {
      assert Slashes(0) + s == s;
      assert Slashes(0) + ProgramName(s, true).text == ProgramName(s, true).text;
    } else {
      SlashesInName(n - 1, s);
      assert Slashes(n) == [BACKSLASH] + Slashes(n - 1);
      assert Slashes(n) + s == [BACKSLASH] + (Slashes(n - 1) + s);
      UnitInName(BACKSLASH, Slashes(n - 1) + s);
      assert [BACKSLASH] + (Slashes(n - 1) + ProgramName(s, true).text) == Slashes(n) + ProgramName(s, true).text;
    }
  }

  /** Without a NUL, argv[0] is right exactly for a plain program, and the arguments always are. */
  lemma ParseOf(program: Wide, args: seq<Wide>)
    requires NUL !in program && forall i :: 0 <= i < |args| ==> NUL !in args[i]
    ensures |Parse(Assembled(program, args))| >= 1
    ensures Parse(Assembled(program, args))[0] == program <==> PlainProgram(program)
    ensures PlainProgram(program) ==> Parse(Assembled(program, args))[1..] == args
  {
    hide Escaped, Joined, ProgramName, Arguments, UpToNul, Slashes;
    var rest := Joined(args);
    var body := Quoted(program) + rest;
    JoinedHasNoNul(args);
    EscapedHasNoNul(program, 0);
    UpToNulStops(body);
    assert body == [QUOTE] + (Escaped(program, 0) + rest);
    OpeningQuoteInName(Escaped(program, 0) + rest);
    if QUOTE in program {
      NameHasNoQuote(body, false);
    } else {
      JoinedEnds(args);
      ProgramIsReadBack(program, 0, rest);
      NoTrailingSlash(program, 0);
      SlashesAround(program, TrailingSlashes(program, 0));
      AfterBlank(args);
    }
  }

  lemma JoinedEnds(args: seq<Wide>)
    ensures Ends(Joined(args))
  {
  }

  lemma SlashesAround(program: Wide, n: nat)
    ensures Slashes(0) + program + Slashes(n) == program <==> n == 0
  {
    assert |Slashes(0) + program + Slashes(n)| == |program| + n;
  }

  lemma OpeningQuoteInName(s: Wide)
    ensures ProgramName([QUOTE] + s, false) == ProgramName(s, true)
  {
    assert ([QUOTE] + s)[1..] == s;
  }

  /** The line comes back exactly when it is transportable. */
  lemma AssembledIsReadBackIff(program: Wide, args: seq<Wide>)
    ensures Parse(Assembled(program, args)) == [program] + args <==> Transportable(program, args)
  {
    hide Parse, Assembled, PlainProgram;
    var parsed := Parse(Assembled(program, args));
    ParseHasNoNul(Assembled(program, args));
    var whole := [program] + args;
    assert whole[0] == program && whole[1..] == args;
    if NUL in program {
      assert NUL in whole[0];
    } else if i :| 0 <= i < |args| && NUL in args[i] {
      assert NUL in whole[i + 1];
    } else {
      ParseOf(program, args);
      assert parsed == [parsed[0]] + parsed[1..];
    }
  }

  /** The blank that ends argv[0] is consumed with it; the arguments do not notice. */
  lemma AfterBlank(args: seq<Wide>)
    ensures var rest := Joined(args); Arguments(if rest == [] then [] else rest[1..]) == args
  {
    hide Argument, Quoted;
    JoinedIsReadBack(args);
    if args != [] {
      JoinedHead(args);
      var rest := Joined(args);
      assert rest[0] == SPACE;
      assert SkipBlanks(rest) == SkipBlanks(rest[1..]);
    }
  }

  lemma {:induction false} UpToNulStops(s: Wide)
    requires NUL !in s
    ensures UpToNul(s + [NUL]) == s
  {
    if s != [] {
      assert (s + [NUL])[1..] == s[1..] + [NUL];
      UpToNulStops(s[1..]);
    }
  }

  lemma {:induction false} EscapedHasNoNul(value: Wide, pending: nat)
    requires NUL !in value
    ensures NUL !in Escaped(value, pending)
    decreases |value|
  {
    if value != [] {
      EscapedHasNoNul(value[1..], if value[0] == BACKSLASH then pending + 1 else 0);
    }
  }

  lemma {:induction false} JoinedHasNoNul(args: seq<Wide>)
    requires forall i :: 0 <= i < |args| ==> NUL !in args[i]
    ensures NUL !in Joined(args)
  {
    if args != [] {
      EscapedHasNoNul(args[0], 0);
      JoinedHasNoNul(args[1..]);
    }
  }

  lemma {:induction false} NameHasNoQuote(s: Wide, quoted: bool)
    ensures QUOTE !in ProgramName(s, quoted).text
    decreases |s|
  {
    if s != [] {
      NameHasNoQuote(s[1..], if s[0] == QUOTE then !quoted else quoted);
    }
  }

  lemma {:induction false} NameHasNoNul(s: Wide, quoted: bool)
    requires NUL !in s
    ensures NUL !in ProgramName(s, quoted).text && NUL !in ProgramName(s, quoted).rest
    decreases |s|
  {
    if s != [] {
      NameHasNoNul(s[1..], if s[0] == QUOTE then !quoted else quoted);
    }
  }

  lemma {:induction false} ArgumentHasNoNul(s: Wide, quoted: bool)
    requires NUL !in s
    ensures NUL !in Argument(s, quoted).text && NUL !in Argument(s, quoted).rest
    decreases |s|
  {
    var n := SlashRun(s);
    if n < |s| && s[n] == QUOTE && n % 2 == 0 {
      if quoted && n + 1 < |s| && s[n + 1] == QUOTE {
        ArgumentHasNoNul(s[n + 2..], quoted);
      } else {
        ArgumentHasNoNul(s[n + 1..], !quoted);
      }
    } else if n < |s| && (quoted || !Blank(s[n])) {
      ArgumentHasNoNul(s[n + 1..], quoted);
    }
  }

  lemma {:induction false} ArgumentsHaveNoNul(s: Wide)
    requires NUL !in s
    ensures forall i :: 0 <= i < |Arguments(s)| ==> NUL !in Arguments(s)[i]
    decreases |s|
  {
    var start := SkipBlanks(s);
    SkippedIsPart(s);
    if start != [] {
      ArgumentHasNoNul(start, false);
      ArgumentsHaveNoNul(Argument(start, false).rest);
    }
  }

  lemma {:induction false} SkippedIsPart(s: Wide)
    requires NUL !in s
    ensures NUL !in SkipBlanks(s)
  {
    if s != [] && Blank(s[0]) {
      SkippedIsPart(s[1..]);
    }
  }

  lemma {:induction false} UpToNulHasNone(s: Wide)
    ensures NUL !in UpToNul(s)
  {
    if s != [] && s[0] != NUL {
      UpToNulHasNone(s[1..]);
    }
  }

  lemma ParseHasNoNul(line: Wide)
    ensures forall i :: 0 <= i < |Parse(line)| ==> NUL !in Parse(line)[i]
  {
    UpToNulHasNone(line);
    NameHasNoNul(UpToNul(line), false);
    ArgumentsHaveNoNul(ProgramName(UpToNul(line), false).rest);
  }
}
