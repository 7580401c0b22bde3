/** Running && and || chains under PowerShell 5.1, which has neither (tools/bash/shell_windows.go). */
module PowerShellChain {
  import opened Wrappers
  import opened Text
  import opened ChainOps

  // ----- the statements a chain becomes, and their text -----

  /** IfCode(zero, cmd) runs `cmd` when the last exit code is zero, or when it is not. */
  datatype Statement = Reset | Run(cmd: string) | IfCode(zero: bool, cmd: string)

  const RESET := "$global:LASTEXITCODE=0"
  const IF_ZERO := "if($global:LASTEXITCODE -eq 0){"
  const IF_NONZERO := "if($global:LASTEXITCODE -ne 0){"

  function Guard(zero: bool): string {
    if zero then IF_ZERO else IF_NONZERO
  }

  function Code(s: Statement): string {
    match s
    case Reset => RESET
    case Run(cmd) => cmd
    case IfCode(zero, cmd) => Guard(zero) + " " + cmd + " }"
  }

  /** The program text: statements separated by "; ". */
  function Render(program: seq<Statement>, k: nat): string
    requires k < |program|
    decreases |program| - k
  {
    if k == |program| - 1 then Code(program[k]) else Code(program[k]) + "; " + Render(program, k + 1)
  }

  function Link(segments: seq<Segment>, k: nat): Statement
    requires 0 < k < |segments|
  {
    IfCode(segments[k - 1].op == Some(And), segments[k].text)
  }

  function Translate(segments: seq<Segment>): seq<Statement>
    requires segments != []
  {
    [Reset, Run(segments[0].text)] + seq(|segments| - 1, k requires 0 <= k < |segments| - 1 => Link(segments, k + 1))
  }

  lemma Regroup(a: string, sep: string, b: string, c: string)
    ensures a + sep + (b + sep + c) == a + sep + b + sep + c
  {
  }

  lemma Glue(r: string, a: string, g: string, b: string, n: string, c: string)
    ensures r + (a + g + b) + n + c == r + a + (g + b + n + c)
  {
  }

  lemma {:induction false} RenderAppend(program: seq<Statement>, s: Statement, k: nat)
    requires k < |program|
    ensures Render(program + [s], k) == Render(program, k) + "; " + Code(s)
    decreases |program| - k
  {
    if k < |program| - 1 {
      RenderAppend(program, s, k + 1);
      Regroup(Code(program[k]), "; ", Render(program, k + 1), Code(s));
      assert (program + [s])[k] == program[k];
    }
  }

  lemma Appended(result: string, zero: bool, next: string)
    ensures result + ("; " + Guard(zero) + " ") + next + " }" == result + "; " + Code(IfCode(zero, next))
  {
    Glue(result, "; ", Guard(zero), " ", next, " }");
  }

  lemma RenderStart(text: string)
    ensures Render([Reset, Run(text)], 0) == RESET + "; " + text
  {
    var program := [Reset, Run(text)];
    assert Render(program, 1) == text;
    assert Render(program, 0) == RESET + "; " + text;
  }

  lemma TranslatePrefix(segments: seq<Segment>, i: nat)
    requires i + 1 < |segments|
    ensures Translate(segments)[..i + 2] + [Link(segments, i + 1)] == Translate(segments)[..i + 3]
  {
  }

  method BuildPSChainOps(parsed: ChainParse) returns (result: string)
    requires parsed.segments != []
    ensures result == Render(Translate(parsed.segments), 0)
  {
    var segments := parsed.segments;
    result := RESET + "; ";
    result := result + segments[0].text;
    ghost var program := [Reset, Run(segments[0].text)];
    RenderStart(segments[0].text);
    var i := 0;
    while i < |segments| - 1
      invariant 0 <= i <= |segments| - 1
      invariant program == Translate(segments)[..i + 2]
      invariant result == Render(program, 0)
    {
      var op, next := segments[i].op, segments[i + 1].text;
      RenderAppend(program, Link(segments, i + 1), 0);
      TranslatePrefix(segments, i);
      Appended(result, op == Some(And), next);
      program := program + [Link(segments, i + 1)];
      result := result + ("; " + Guard(op == Some(And)) + " ");
      result := result + next;
      result := result + " }";
      i := i + 1;
    }
    assert program == Translate(segments);
  }

  // ----- re-reading the translated text -----

  /** A part scanned on its own meets no operator at any depth and, unless it is the last one, closes everything it
      opens. */
  ghost predicate Sound(cmd: string, cut: Cut) {
    && cut.lo <= cut.hi <= |cmd| && Calm(cmd, cut.lo, NEUTRAL, cut.hi, false)
    && (cut.op.Some? ==> ScanTo(cmd, cut.lo, NEUTRAL, cut.hi) == (cut.hi, NEUTRAL))
  }

  lemma {:induction false} CutsSound(cmd: string, start: nat, i: nat, q: Quoting)
    requires start <= i <= |cmd| && !NestedFrom(cmd, i, q)
    requires Calm(cmd, start, NEUTRAL, i, false) && ScanTo(cmd, start, NEUTRAL, i) == (i, q)
    ensures forall cut :: cut in Cuts(cmd, start, i, q) ==> Sound(cmd, cut)
    decreases |cmd| - i
  {
    if i < |cmd| {
      var x := Lex(cmd, i, q);
      if x.event.Split? {
        CutsSound(cmd, i + 2, i + 2, NEUTRAL);
      } else {
        ScanSplit(cmd, start, NEUTRAL, i, i + x.width, false);
        CutsSound(cmd, start, i + x.width, x.state);
      }
    }
  }

  /** The same for a text standing alone. */
  predicate Quiet(t: string, closed: bool) {
    Calm(t, 0, NEUTRAL, |t|, false) && (closed ==> ScanTo(t, 0, NEUTRAL, |t|).1 == NEUTRAL)
  }

  lemma {:induction false} ScanOvershoot(cmd: string, i: nat, q: Quoting, j: nat)
    requires i <= j <= |cmd|
    ensures j <= ScanTo(cmd, i, q, j).0 <= j + 1 && ScanTo(cmd, i, q, j).0 <= |cmd|
    decreases |cmd| - i
  {
    if i < j && i + Lex(cmd, i, q).width <= j {
      ScanOvershoot(cmd, i + Lex(cmd, i, q).width, Lex(cmd, i, q).state, j);
    }
  }

  lemma SpacesAreBland(cmd: string, i: nat, j: nat)
    requires i <= j <= |cmd| && forall k :: i <= k < j ==> IsSpace(cmd[k])
    ensures forall k :: i <= k < j ==> Bland(cmd[k])
  {
  }

  /** Dropping the blanks around a part leaves its scan sound ... */
  lemma InnerSound(cmd: string, cut: Cut, lo: nat, hi: nat)
    requires Sound(cmd, cut) && cut.lo <= lo <= hi <= cut.hi
    requires forall k :: cut.lo <= k < lo || hi <= k < cut.hi ==> IsSpace(cmd[k])
    ensures Calm(cmd, lo, NEUTRAL, hi, false)
    ensures ScanTo(cmd, lo, NEUTRAL, cut.hi) == ScanTo(cmd, cut.lo, NEUTRAL, cut.hi)
    ensures ScanTo(cmd, lo, NEUTRAL, hi).0 <= |cmd|
    ensures ScanTo(cmd, lo, NEUTRAL, cut.hi)
            == ScanTo(cmd, ScanTo(cmd, lo, NEUTRAL, hi).0, ScanTo(cmd, lo, NEUTRAL, hi).1, cut.hi)
  {
    SpacesAreBland(cmd, cut.lo, lo);
    BlandRun(cmd, cut.lo, NEUTRAL, lo);
    ScanSplit(cmd, cut.lo, NEUTRAL, lo, cut.hi, false);
    ScanSplit(cmd, lo, NEUTRAL, hi, cut.hi, false);
  }

  /** ... and closed, even when a final backslash loses the blank it escapes. */
  lemma PartQuiet(cmd: string, cut: Cut, lo: nat, hi: nat)
    requires Sound(cmd, cut) && cut.lo <= lo <= hi <= cut.hi
    requires forall k :: cut.lo <= k < lo || hi <= k < cut.hi ==> IsSpace(cmd[k])
    ensures Quiet(cmd[lo..hi], cut.op.Some?)
  {
    InnerSound(cmd, cut, lo, hi);
    ScanOvershoot(cmd, lo, NEUTRAL, hi);
    ContextSwitch(cmd, lo, cmd[lo..hi], 0, hi - lo, NEUTRAL, false);
    var (p, q) := ScanTo(cmd, lo, NEUTRAL, hi);
    if p <= cut.hi {
      SpacesAreBland(cmd, p, cut.hi);
      BlandRun(cmd, p, q, cut.hi);
    }
  }

  lemma SliceOfSlice(cmd: string, lo: nat, hi: nat, a: nat, b: nat)
    requires lo <= hi <= |cmd| && a <= b <= hi - lo
    ensures cmd[lo..hi][a..b] == cmd[lo + a..lo + b]
  {
    var x, y := cmd[lo..hi][a..b], cmd[lo + a..lo + b];
    forall k | 0 <= k < b - a ensures x[k] == y[k] {
      assert x[k] == cmd[lo..hi][a + k];
    }
  }

  /** Where the trimmed text of a part lies in the command. */
  lemma CropBounds(cmd: string, cut: Cut) returns (lo: nat, hi: nat)
    requires cut.lo <= cut.hi <= |cmd|
    ensures cut.lo <= lo <= hi <= cut.hi && Cropped(cmd, cut).text == cmd[lo..hi]
    ensures forall k :: cut.lo <= k < lo || hi <= k < cut.hi ==> IsSpace(cmd[k])
  {
    var part := cmd[cut.lo..cut.hi];
    var a, b := TrimSplits(part);
    SliceOfSlice(cmd, cut.lo, cut.hi, a, b);
    lo, hi := cut.lo + a, cut.lo + b;
    forall k | cut.lo <= k < lo || hi <= k < cut.hi ensures IsSpace(cmd[k]) {
      assert part[k - cut.lo] == cmd[k];
    }
  }

  lemma CropQuiet(cmd: string, cut: Cut)
    requires Sound(cmd, cut)
    ensures Quiet(Cropped(cmd, cut).text, cut.op.Some?)
  {
    var lo, hi := CropBounds(cmd, cut);
    PartQuiet(cmd, cut, lo, hi);
  }

  ghost predicate AllBland(s: string) {
    forall k :: 0 <= k < |s| ==> Bland(s[k])
  }

  /** Scanning a quiet text and the harmless text after it: at worst a backslash escapes its first character. */
  lemma QuietPrefix(a: string, w: string, m: nat, closed: bool)
    requires Quiet(a, closed) && |a| < m <= |w| && w[..|a|] == a && forall k :: |a| <= k < m ==> Bland(w[k])
    ensures Calm(w, 0, NEUTRAL, m, false)
    ensures ScanTo(w, 0, NEUTRAL, m).0 == m && (closed ==> ScanTo(w, 0, NEUTRAL, m).1 == NEUTRAL)
  {
    assert forall k :: 0 <= k < |a| ==> a[k] == w[..|a|][k];
    ContextSwitch(a, 0, w, 0, |a|, NEUTRAL, false);
    var (p, q) := ScanTo(w, 0, NEUTRAL, |a|);
    BlandRun(w, p, q, m);
    ScanSplit(w, 0, NEUTRAL, |a|, m, false);
  }

  lemma QuietPad(a: string, sep: string, closed: bool)
    requires Quiet(a, closed) && sep != [] && AllBland(sep)
    ensures Quiet(a + sep, closed)
  {
    QuietPrefix(a, a + sep, |a + sep|, closed);
  }

  lemma QuietGlue(a: string, sep: string, b: string, closed: bool)
    requires Quiet(a, true) && sep != [] && AllBland(sep) && Quiet(b, closed)
    ensures Quiet(a + sep + b, closed)
  {
    var w, m := a + sep + b, |a + sep|;
    assert w[..|a|] == a && forall k :: |a| <= k < m ==> w[k] == sep[k - |a|];
    QuietPrefix(a, w, m, true);
    ContextSwitch(b, 0, w, m, |b|, NEUTRAL, false);
    ScanSplit(w, 0, NEUTRAL, m, |w|, false);
  }

  lemma SeparatorsBland()
    ensures AllBland("; ") && AllBland(" ") && AllBland(" }")
  {
  }

  lemma BlandQuiet(t: string)
    requires AllBland(t)
    ensures Quiet(t, true)
  {
    BlandRun(t, 0, NEUTRAL, |t|);
  }

  /** A harmless text in parentheses. */
  lemma ParenthesesQuiet(g: string, open: nat, close: nat)
    requires open < close < |g| && g[open] == '(' && g[close] == ')'
    requires forall k :: 0 <= k < |g| && k != open && k != close ==> Bland(g[k])
    ensures Quiet(g, true)
  {
    var inside := Quoting(false, false, 1);
    BlandRun(g, close + 1, NEUTRAL, |g|);
    BlandRun(g, open + 1, inside, close);
    ScanSplit(g, open + 1, inside, close, |g|, false);
    BlandRun(g, 0, NEUTRAL, open);
    ScanSplit(g, 0, NEUTRAL, open, |g|, false);
  }

  lemma GuardQuiet(zero: bool)
    ensures Quiet(Guard(zero), true)
  {
    if zero {
      ParenthesesQuiet(IF_ZERO, 2, 29);
    } else {
      ParenthesesQuiet(IF_NONZERO, 2, 29);
    }
  }

  ghost predicate Silent(s: Statement, closed: bool) {
    s.Reset? || Quiet(s.cmd, closed)
  }

  lemma CodeQuiet(s: Statement, closed: bool)
    requires Silent(s, closed)
    ensures Quiet(Code(s), closed)
  {
    SeparatorsBland();
    match s
    case Reset => BlandQuiet(RESET);
    case Run(_) =>
    case IfCode(zero, cmd) =>
      GuardQuiet(zero);
      QuietGlue(Guard(zero), " ", cmd, closed);
      QuietPad(Guard(zero) + " " + cmd, " }", closed);
  }

  lemma {:induction false} RenderQuiet(program: seq<Statement>, k: nat)
    requires k < |program| && forall j :: 0 <= j < |program| ==> Silent(program[j], j < |program| - 1)
    ensures Quiet(Render(program, k), false)
    decreases |program| - k
  {
    CodeQuiet(program[k], k < |program| - 1);
    if k < |program| - 1 {
      SeparatorsBland();
      RenderQuiet(program, k + 1);
      QuietGlue(Code(program[k]), "; ", Render(program, k + 1), false);
    }
  }

  /** Reading the text finds no chain operator at any depth. */
  predicate OperatorFree(t: string) {
    !Parse(t).HasChainOps() && !Parse(t).hasNestedOps
  }

  lemma QuietParses(t: string)
    ensures Quiet(t, false) <==> OperatorFree(t)
  {
    CalmIsOperatorFree(t, 0, 0, NEUTRAL);
  }

  lemma SegmentsQuiet(cmd: string)
    requires !Parse(cmd).hasNestedOps
    ensures var segments := Parse(cmd).segments;
            segments != [] && forall j :: 0 <= j < |segments| ==> Quiet(segments[j].text, j < |segments| - 1)
  {
    var cuts, segments := Cuts(cmd, 0, 0, NEUTRAL), Parse(cmd).segments;
    CutsSound(cmd, 0, 0, NEUTRAL);
    CutsTile(cmd, 0, 0, NEUTRAL);
    forall j | 0 <= j < |segments| ensures Quiet(segments[j].text, j < |segments| - 1) {
      CropQuiet(cmd, cuts[j]);
    }
  }

  lemma ProgramSilent(segments: seq<Segment>)
    requires segments != [] && forall j :: 0 <= j < |segments| ==> Quiet(segments[j].text, j < |segments| - 1)
    ensures var program := Translate(segments); forall j :: 0 <= j < |program| ==> Silent(program[j], j < |program| - 1)
  {
    var program := Translate(segments);
    forall j | 0 <= j < |program| ensures Silent(program[j], j < |program| - 1) {
      if j > 0 {
        assert program[j].cmd == segments[j - 1].text;
      }
    }
  }

  /** The PowerShell text of a chain without nested operators shows no operator at any depth when read again. */
  lemma TranslationIsOperatorFree(cmd: string)
    requires !Parse(cmd).hasNestedOps
    ensures OperatorFree(Render(Translate(Parse(cmd).segments), 0))
  {
    var segments := Parse(cmd).segments;
    SegmentsQuiet(cmd);
    ProgramSilent(segments);
    RenderQuiet(Translate(segments), 0);
    QuietParses(Render(Translate(segments), 0));
  }

  // ----- meaning -----

  /** What running a command does: the new state of the world, its exit status, and whether it sets the exit-code
      variable (a cmdlet does not). */
  datatype Outcome<S> = Outcome(world: S, status: int, sets: bool)

  /** An AND-OR list: left-associative, equal precedence (section 2.9.3 of the POSIX Shell Command Language). */
  datatype AndOr = Single(cmd: string) | Chain(left: AndOr, op: Op, right: string)

  /** The world and exit status after an AND-OR list. */
  function Eval<S>(exec: (string, S) -> Outcome<S>, list: AndOr, world: S): (S, int) {
    match list
    case Single(cmd) => (exec(cmd, world).world, exec(cmd, world).status)
    case Chain(left, op, right) =>
      var (w, status) := Eval(exec, left, world);
      if op.And? == (status == 0) then (exec(right, w).world, exec(right, w).status) else (w, status)
  }

  /** The first n + 1 commands of a chain as an AND-OR list. */
  function ListOf(segments: seq<Segment>, n: nat): AndOr
    requires n < |segments| && forall k :: 0 <= k < n ==> segments[k].op.Some?
  {
    if n == 0 then Single(segments[0].text)
    else Chain(ListOf(segments, n - 1), segments[n - 1].op.value, segments[n].text)
  }

  function RunCommand<S>(exec: (string, S) -> Outcome<S>, cmd: string, world: S, code: int): (S, int) {
    var o := exec(cmd, world);
    (o.world, if o.sets then o.status else code)
  }

  /** PowerShell's run of one statement on the world and the exit-code variable. */
  function Execute<S>(exec: (string, S) -> Outcome<S>, s: Statement, world: S, code: int): (S, int) {
    match s
    case Reset => (world, 0)
    case Run(cmd) => RunCommand(exec, cmd, world, code)
    case IfCode(zero, cmd) => if zero == (code == 0) then RunCommand(exec, cmd, world, code) else (world, code)
  }

  /** The run of the first n statements. */
  function RunProgram<S>(exec: (string, S) -> Outcome<S>, program: seq<Statement>, n: nat, world: S, code: int): (S,
                         int)
    requires n <= |program|
  {
    if n == 0 then (world, code)
    else
      var (w, c) := RunProgram(exec, program, n - 1, world, code);
      Execute(exec, program[n - 1], w, c)
  }

  /** The operators of a chain: every command but the last is followed by one. */
  predicate Linked(segments: seq<Segment>) {
    segments != [] && forall k :: 0 <= k < |segments| - 1 ==> segments[k].op.Some?
  }

  /** The world and exit code before the k-th command. */
  function Before<S>(exec: (string, S) -> Outcome<S>, segments: seq<Segment>, k: nat, world: S): (S, int)
    requires Linked(segments) && k < |segments|
  {
    if k == 0 then (world, 0) else Eval(exec, ListOf(segments, k - 1), world)
  }

  /** The AND-OR list runs its k-th command. */
  predicate IsRun<S>(exec: (string, S) -> Outcome<S>, segments: seq<Segment>, k: nat, world: S)
    requires Linked(segments) && k < |segments|
  {
    k == 0 || segments[k - 1].op.value.And? == (Before(exec, segments, k, world).1 == 0)
  }

  /** If it is run, the k-th command sets the exit code, or its status is the code that is there anyway. */
  predicate Tells<S>(exec: (string, S) -> Outcome<S>, segments: seq<Segment>, k: nat, world: S)
    requires Linked(segments) && k < |segments|
  {
    IsRun(exec, segments, k, world) ==>
      var (w, code) := Before(exec, segments, k, world);
      exec(segments[k].text, w).sets || exec(segments[k].text, w).status == code
  }

  /** After the k-th command the translation has done and reports what the AND-OR list has. */
  predicate Agrees<S(==)>(exec: (string, S) -> Outcome<S>, segments: seq<Segment>, k: nat, world: S, code: int)
    requires Linked(segments) && k < |segments|
  {
    RunProgram(exec, Translate(segments), k + 2, world, code) == Eval(exec, ListOf(segments, k), world)
  }

  lemma FirstAgrees<S>(exec: (string, S) -> Outcome<S>, segments: seq<Segment>, world: S, code: int)
    requires Linked(segments)
    ensures Agrees(exec, segments, 0, world, code) <==> Tells(exec, segments, 0, world)
  {
    var program := Translate(segments);
    assert RunProgram(exec, program, 0, world, code) == (world, code);
    assert RunProgram(exec, program, 1, world, code) == (world, 0);
    assert program[1] == Run(segments[0].text);
  }

  lemma NextAgrees<S>(exec: (string, S) -> Outcome<S>, segments: seq<Segment>, k: nat, world: S, code: int)
    requires Linked(segments) && 0 < k < |segments| && Agrees(exec, segments, k - 1, world, code)
    ensures Agrees(exec, segments, k, world, code) <==> Tells(exec, segments, k, world)
  {
    var program := Translate(segments);
    assert program[k + 1] == Link(segments, k);
    assert RunProgram(exec, program, k + 1, world, code) == Before(exec, segments, k, world);
  }

  lemma {:induction false} AgreesIfTells<S>(exec: (string, S) -> Outcome<S>, segments: seq<Segment>, k: nat, world: S,
                                            code: int)
    requires Linked(segments) && k < |segments| && forall j :: 0 <= j <= k ==> Tells(exec, segments, j, world)
    ensures Agrees(exec, segments, k, world, code)
  {
    if k == 0 {
      FirstAgrees(exec, segments, world, code);
    } else {
      AgreesIfTells(exec, segments, k - 1, world, code);
      NextAgrees(exec, segments, k, world, code);
    }
  }

  /** The translation keeps step with the AND-OR list to the end exactly when every command that is run tells its
      status: it sets the exit code, or the code is right already. */
  lemma KeepsStepIff<S>(exec: (string, S) -> Outcome<S>, segments: seq<Segment>, world: S, code: int)
    requires Linked(segments)
    ensures (forall k :: 0 <= k < |segments| ==> Agrees(exec, segments, k, world, code))
            <==> (forall k :: 0 <= k < |segments| ==> Tells(exec, segments, k, world))
  {
    if forall k :: 0 <= k < |segments| ==> Agrees(exec, segments, k, world, code) {
      forall k | 0 <= k < |segments| ensures Tells(exec, segments, k, world) {
        assert Agrees(exec, segments, k, world, code);
        if k == 0 {
          FirstAgrees(exec, segments, world, code);
        } else {
          assert Agrees(exec, segments, k - 1, world, code);
          NextAgrees(exec, segments, k, world, code);
        }
      }
    }
    if forall k :: 0 <= k < |segments| ==> Tells(exec, segments, k, world) {
      forall k | 0 <= k < |segments| ensures Agrees(exec, segments, k, world, code) {
        AgreesIfTells(exec, segments, k, world, code);
      }
    }
  }

  lemma ParsedIsLinked(cmd: string)
    ensures Linked(Parse(cmd).segments)
  {
    CutsTile(cmd, 0, 0, NEUTRAL);
  }

  /** For a parsed command: the translation keeps step with the AND-OR list exactly when each command that is run tells
      its status, and then the whole run does to the world, and reports, what the list does. */
  lemma TranslationKeepsMeaning<S>(exec: (string, S) -> Outcome<S>, cmd: string, world: S, code: int)
    ensures var segments := Parse(cmd).segments;
            && Linked(segments)
            && ((forall k :: 0 <= k < |segments| ==> Agrees(exec, segments, k, world, code))
                <==> (forall k :: 0 <= k < |segments| ==> Tells(exec, segments, k, world)))
            && ((forall k :: 0 <= k < |segments| ==> Tells(exec, segments, k, world)) ==>
                  RunProgram(exec, Translate(segments), |Translate(segments)|, world, code)
                  == Eval(exec, ListOf(segments, |segments| - 1), world))
  {
    var segments := Parse(cmd).segments;
    ParsedIsLinked(cmd);
    KeepsStepIff(exec, segments, world, code);
    if forall k :: 0 <= k < |segments| ==> Tells(exec, segments, k, world) {
      AgreesIfTells(exec, segments, |segments| - 1, world, code);
    }
  }

  /** In particular when every command sets the exit code, as native programs do; the first may also succeed without. */
  lemma SettingTells<S>(exec: (string, S) -> Outcome<S>, segments: seq<Segment>, k: nat, world: S)
    requires Linked(segments) && k < |segments|
    requires var o := exec(segments[k].text, Before(exec, segments, k, world).0); o.sets || (k == 0 && o.status == 0)
    ensures Tells(exec, segments, k, world)
  {
  }

  /** A machine that counts the commands run, on which "a" is a cmdlet that fails. */
  function CmdletFails(cmd: string, count: nat): Outcome<nat> {
    Outcome(count + 1, if cmd == "a" then 1 else 0, cmd != "a")
  }

  /** A first command that fails without setting the exit code, as a cmdlet does, lets the second one run. */
  lemma SilentFailureRunsOn()
    ensures var segments := [Segment("a", Some(And)), Segment("b", None)];
            && Eval(CmdletFails, ListOf(segments, 1), 0) == (1, 1) && !Tells(CmdletFails, segments, 0, 0)
            && RunProgram(CmdletFails, Translate(segments), 3, 0, 0) == (2, 0)
  {
    var segments := [Segment("a", Some(And)), Segment("b", None)];
    var program := Translate(segments);
    assert program == [Reset, Run("a"), IfCode(true, "b")];
    assert ListOf(segments, 0) == Single("a");
    assert "b"[0] != "a"[0];
    assert RunProgram(CmdletFails, program, 0, 0, 0) == (0, 0);
    assert RunProgram(CmdletFails, program, 1, 0, 0) == (0, 0);
    assert RunProgram(CmdletFails, program, 2, 0, 0) == (1, 0);
  }
}
