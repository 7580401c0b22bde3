/** Chain operators as PowerShell's own quoting shows them, against the scanner's reading by the rules of bash
    (tools/bash/chainops.go, tools/bash/shell_windows.go). */
module PowerShellReading {
  import opened Wrappers
  import opened Text
  import opened ChainOps
  import opened PowerShellChain

  /** No operator stands outside quotes in cmd[i..]. PowerShell escapes with a backtick, everywhere but in single
      quotes; a backslash is an ordinary character, and a doubled quote closes and opens again. */
  predicate ShowsNone(cmd: string, i: nat, single: bool, double: bool)
    requires i <= |cmd|
    decreases |cmd| - i
  {
    if i == |cmd| then true
    else if cmd[i] == '`' && !single && i + 1 < |cmd| then ShowsNone(cmd, i + 2, single, double)
    else
      var single' := if cmd[i] == '\'' && !double then !single else single;
      var double' := if cmd[i] == '"' && !single' then !double else double;
      (single' || double' || PairAt(cmd, i).None?) && ShowsNone(cmd, i + 1, single', double')
  }

  /** PowerShell sees no chain operator. */
  predicate Unchained(cmd: string) {
    ShowsNone(cmd, 0, false, false)
  }

  /** Neither shell's escape character occurs. */
  predicate Unescaped(s: string) {
    forall k :: 0 <= k < |s| ==> s[k] != '\\' && s[k] != '`'
  }

  lemma {:induction false} SameSteps(cmd: string, i: nat, q: Quoting)
    requires i <= |cmd| && Unescaped(cmd)
    ensures ShowsNone(cmd, i, q.single, q.double) <==> Calm(cmd, i, q, |cmd|, false)
    decreases |cmd| - i
  {
    if i < |cmd| {
      SameSteps(cmd, i + 1, After(q, cmd[i]));
    }
  }

  /** Without escape characters the two readings agree. */
  lemma ReadingsAgree(cmd: string)
    requires Unescaped(cmd)
    ensures Unchained(cmd) <==> OperatorFree(cmd)
  {
    SameSteps(cmd, 0, NEUTRAL);
    QuietParses(cmd);
  }

  /** With a backslash they may not: bash keeps the string open at an escaped quote, PowerShell closes it there. */
  lemma ReadingsDiffer(cmd: string)
    requires cmd == "\"\\\"&&\""
    ensures OperatorFree(cmd) && !Unchained(cmd)
  {
    var q := Quoting(false, true, 0);
    assert Lex(cmd, 0, NEUTRAL) == Lexed(1, q, Plain);
    assert Lex(cmd, 1, q) == Lexed(2, q, Plain);
    assert Lex(cmd, 3, q) == Lexed(1, q, Plain);
    assert Lex(cmd, 4, q) == Lexed(1, q, Plain);
    assert Lex(cmd, 5, q) == Lexed(1, NEUTRAL, Plain);
    assert Calm(cmd, 5, q, 6, false);
    assert Calm(cmd, 3, q, 6, false);
    assert Calm(cmd, 1, q, 6, false);
    QuietParses(cmd);
    assert !ShowsNone(cmd, 3, false, false);
    assert !ShowsNone(cmd, 2, false, true);
    assert !ShowsNone(cmd, 1, false, true);
  }

  // ----- the translation brings no escape character in -----

  lemma {:induction false} RenderUnescaped(program: seq<Statement>, k: nat)
    requires k < |program| && forall j :: 0 <= j < |program| ==> Unescaped(Code(program[j]))
    ensures Unescaped(Render(program, k))
    decreases |program| - k
  {
    if k < |program| - 1 {
      RenderUnescaped(program, k + 1);
    }
  }

  lemma TrimUnescaped(s: string)
    requires Unescaped(s)
    ensures Unescaped(Trim(s))
  {
    var lo, hi := TrimSplits(s);
  }

  lemma SegmentsUnescaped(cmd: string)
    requires Unescaped(cmd)
    ensures forall s :: s in Parse(cmd).segments ==> Unescaped(s.text)
  {
    var cuts := Cuts(cmd, 0, 0, NEUTRAL);
    var segments := Parse(cmd).segments;
    forall s | s in segments ensures Unescaped(s.text) {
      var k :| 0 <= k < |segments| && segments[k] == s;
      TrimUnescaped(cmd[cuts[k].lo..cuts[k].hi]);
    }
  }

  lemma JoinUnescaped(a: string, b: string)
    requires Unescaped(a) && Unescaped(b)
    ensures Unescaped(a + b)
  {
  }

  lemma GuardUnescaped(zero: bool)
    ensures Unescaped(Guard(zero))
  {
  }

  lemma CodeUnescaped(s: Statement)
    requires s.Reset? || Unescaped(s.cmd)
    ensures Unescaped(Code(s))
  {
    match s
    case Reset =>
    case Run(_) =>
    case IfCode(zero, cmd) =>
      GuardUnescaped(zero);
      JoinUnescaped(Guard(zero), " ");
      JoinUnescaped(Guard(zero) + " ", cmd);
      JoinUnescaped(Guard(zero) + " " + cmd, " }");
  }

  lemma ProgramUnescaped(segments: seq<Segment>, j: nat)
    requires segments != [] && j < |Translate(segments)| && forall s :: s in segments ==> Unescaped(s.text)
    ensures Unescaped(Code(Translate(segments)[j]))
  {
    var program := Translate(segments);
    if j > 0 {
      assert program[j].cmd == segments[j - 1].text && segments[j - 1] in segments;
    }
    CodeUnescaped(program[j]);
  }

  /** A chain without escape characters is translated into a text that shows PowerShell no chain operator. */
  lemma TranslationUnchained(cmd: string)
    requires Unescaped(cmd) && !Parse(cmd).hasNestedOps
    ensures Unchained(Render(Translate(Parse(cmd).segments), 0))
  {
    var segments := Parse(cmd).segments;
    var program := Translate(segments);
    SegmentsUnescaped(cmd);
    forall j | 0 <= j < |program| ensures Unescaped(Code(program[j])) {
      ProgramUnescaped(segments, j);
    }
    RenderUnescaped(program, 0);
    TranslationIsOperatorFree(cmd);
    ReadingsAgree(Render(program, 0));
  }

  // ----- how PowerShell reads a guarded command -----

  /** The operators -eq and -ne. */
  function Compare(operator: string, a: int, b: int): Option<bool> {
    if operator == "-eq" then Some(a == b) else if operator == "-ne" then Some(a != b) else None
  }

  /** A statement "if($global:LASTEXITCODE OP 0){ BODY }", as the operator and the body. */
  function Guarded(t: string): Option<(string, string)> {
    if |t| >= 32 && t[..23] == "if($global:LASTEXITCODE" && t[23] == ' ' && t[27..31] == " 0){" && t[|t| - 1] == '}'
    then Some((t[24..27], Trim(t[31..|t| - 1])))
    else None
  }

  lemma FourParts(g: string, a: string, op: string, c: string)
    requires |a| == 23 && |op| == 3 && |c| == 4 && g == a + " " + op + c
    ensures |g| == 31 && g[..23] == a && g[23] == ' ' && g[24..27] == op && g[27..31] == c
  {
  }

  lemma GuardParts(zero: bool)
    ensures var g := Guard(zero);
            && |g| == 31 && g[..23] == "if($global:LASTEXITCODE" && g[23] == ' '
            && g[24..27] == (if zero then "-eq" else "-ne") && g[27..31] == " 0){"
  {
    var a, c := "if($global:LASTEXITCODE", " 0){";
    if zero {
      assert IF_ZERO == a + " " + "-eq" + c;
      FourParts(IF_ZERO, a, "-eq", c);
    } else {
      assert IF_NONZERO == a + " " + "-ne" + c;
      FourParts(IF_NONZERO, a, "-ne", c);
    }
  }

  lemma SlicesAgree(g: string, t: string, rest: string)
    requires t == g + rest && |g| == 31
    ensures |t| >= 31 && t[..23] == g[..23] && t[23] == g[23] && t[24..27] == g[24..27] && t[27..31] == g[27..31]
    ensures t[31..] == rest
  {
  }

  lemma BodyReads(t: string, cmd: string)
    requires |t| >= 31 && t[31..] == " " + cmd + " }" && Trimmed(cmd)
    ensures |t| >= 34 && t[|t| - 1] == '}' && Trim(t[31..|t| - 1]) == cmd
  {
    var rest := " " + cmd + " }";
    assert |t| == 31 + |rest| && t[|t| - 1] == t[31..][|rest| - 1] == rest[|rest| - 1];
    assert t[31..|t| - 1] == t[31..][..|rest| - 1] == " " + cmd + " ";
    TrimPadded(" ", cmd, " ");
  }

  lemma CompareReads(zero: bool, code: int)
    ensures Compare(if zero then "-eq" else "-ne", code, 0) == Some(zero == (code == 0))
  {
    assert "-eq"[1] != "-ne"[1];
  }

  lemma GuardedParts(t: string, rest: string, zero: bool)
    requires t == Guard(zero) + rest && |t| >= 32 && t[|t| - 1] == '}'
    ensures Guarded(t) == Some((if zero then "-eq" else "-ne", Trim(t[31..|t| - 1])))
  {
    GuardParts(zero);
    SlicesAgree(Guard(zero), t, rest);
  }

  /** Read back, a guarded command is the command, under a test that passes exactly when the exit code calls for it. */
  lemma GuardReads(zero: bool, cmd: string, code: int)
    requires Trimmed(cmd)
    ensures var g := Guarded(Code(IfCode(zero, cmd)));
            g.Some? && g.value.1 == cmd && Compare(g.value.0, code, 0) == Some(zero == (code == 0))
  {
    var t, rest := Code(IfCode(zero, cmd)), " " + cmd + " }";
    CodeSplits(zero, cmd, t, rest);
    BodyReads(t, cmd);
    GuardedParts(t, rest, zero);
    CompareReads(zero, code);
  }

  lemma CodeSplits(zero: bool, cmd: string, t: string, rest: string)
    requires t == Code(IfCode(zero, cmd)) && rest == " " + cmd + " }"
    ensures t == Guard(zero) + rest && |t| >= 31 && t[31..] == rest
  {
    GuardParts(zero);
    assert t == Guard(zero) + rest;
    SlicesAgree(Guard(zero), t, rest);
  }
}
