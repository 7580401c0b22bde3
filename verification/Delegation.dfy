/** Handing a command to another shell as a PowerShell single-quoted literal, and the choice made for PowerShell 5.1
    (tools/bash/shell_windows.go). */
module Delegation {
  import opened Wrappers
  import opened ChainOps
  import opened PowerShellChain
  import opened PowerShellReading

  /** Each single quote of s[k..] doubled. */
  function Doubled(s: string, k: nat): string
    requires k <= |s|
    decreases |s| - k
  {
    if k == |s| then [] else (if s[k] == '\'' then "''" else [s[k]]) + Doubled(s, k + 1)
  }

  /** The literal that PowerShell reads from `i`, just after the opening quote, and where it ends: a doubled quote
      stands for one, a lone quote closes. */
  function ReadLiteral(text: string, i: nat): (r: Option<(string, nat)>)
    requires i <= |text|
    ensures r.Some? ==> i < r.value.1 <= |text|
    decreases |text| - i
  {
    if i == |text| then None
    else if text[i] != '\'' then
      var rest := ReadLiteral(text, i + 1);
      if rest.None? then None else Some(([text[i]] + rest.value.0, rest.value.1))
    else if i + 1 < |text| && text[i + 1] == '\'' then
      var rest := ReadLiteral(text, i + 2);
      if rest.None? then None else Some((['\''] + rest.value.0, rest.value.1))
    else Some(([], i + 1))
  }

  /** PowerShell reads back exactly the command that was quoted. */
  lemma {:induction false} LiteralRoundTrip(text: string, i: nat, s: string, k: nat)
    requires k <= |s| && i <= |text| && text[i..] == Doubled(s, k) + "'"
    ensures ReadLiteral(text, i) == Some((s[k..], |text|))
    decreases |s| - k
  {
    var d := Doubled(s, k) + "'";
    assert text[i] == d[0];
    if k < |s| {
      var w := if s[k] == '\'' then 2 else 1;
      assert text[i + w..] == d[w..];
      assert d[w..] == Doubled(s, k + 1) + "'";
      if w == 2 {
        assert text[i + 1] == d[1];
      }
      LiteralRoundTrip(text, i + w, s, k + 1);
      assert s[k..] == [s[k]] + s[k + 1..];
    }
  }

  // ----- scanning a literal -----

  function Inside(depth: nat): Quoting {
    Quoting(true, false, depth)
  }

  function Outside(depth: nat): Quoting {
    Quoting(false, false, depth)
  }

  /** Inside single quotes nothing but a quote matters. */
  lemma {:induction false} QuotedRun(cmd: string, i: nat, j: nat, depth: nat)
    requires i <= j <= |cmd| && forall k :: i <= k < j ==> cmd[k] != '\''
    ensures ScanTo(cmd, i, Inside(depth), j) == (j, Inside(depth)) && Calm(cmd, i, Inside(depth), j, false)
    decreases j - i
  {
    if i < j {
      QuotedRun(cmd, i + 1, j, depth);
    }
  }

  lemma QuoteStep(cmd: string, i: nat, depth: nat)
    requires i < |cmd| && cmd[i] == '\''
    ensures Lex(cmd, i, Outside(depth)) == Lexed(1, Inside(depth), Plain)
    ensures Lex(cmd, i, Inside(depth)) == Lexed(1, Outside(depth), Plain)
  {
  }

  /** A quoted literal is passed over: whatever the command holds, no operator shows. */
  lemma {:induction false} LiteralCalm(text: string, i: nat, s: string, k: nat, depth: nat)
    requires k <= |s| && i <= |text| && text[i..] == Doubled(s, k) + "'"
    ensures Calm(text, i, Inside(depth), |text|, false)
    decreases |s| - k
  {
    var d := Doubled(s, k) + "'";
    assert text[i] == d[0];
    if k == |s| {
      QuoteStep(text, i, depth);
    } else {
      var w := if s[k] == '\'' then 2 else 1;
      assert text[i + w..] == d[w..];
      assert d[w..] == Doubled(s, k + 1) + "'";
      LiteralCalm(text, i + w, s, k + 1, depth);
      if w == 2 {
        assert text[i + 1] == d[1];
        QuoteStep(text, i, depth);
        QuoteStep(text, i + 1, depth);
        assert Calm(text, i + 1, Outside(depth), |text|, false);
      }
    }
  }

  // ----- which calls show no operator -----

  /** What stands before the literal: the call of git-bash by its path, or of cmd.exe. The path is not escaped. */
  function Lead(gitBash: Option<string>): string {
    if gitBash.Some? then "& '" + gitBash.value + "' -c " else "& cmd /c "
  }

  /** The external shell call: git-bash when it is installed, else cmd.exe. */
  function Delegated(command: string, gitBash: Option<string>): string {
    Lead(gitBash) + ("'" + Doubled(command, 0) + "'")
  }

  /** The lead shows no operator and leaves no quote open. */
  predicate SafeLead(lead: string) {
    var q := ScanTo(lead, 0, NEUTRAL, |lead|).1;
    Calm(lead, 0, NEUTRAL, |lead|, false) && !q.single && !q.double
  }

  lemma {:induction false} NoOvershoot(cmd: string, i: nat, q: Quoting, j: nat)
    requires i <= j <= |cmd| && Calm(cmd, i, q, j, false) && (j > 0 ==> cmd[j - 1] != '\\')
    ensures ScanTo(cmd, i, q, j).0 == j
    decreases |cmd| - i
  {
    if i < j {
      NoOvershoot(cmd, i + Lex(cmd, i, q).width, Lex(cmd, i, q).state, j);
    }
  }

  /** The scan of the lead is the same when the literal follows it. */
  lemma LeadScan(lead: string, text: string)
    requires lead != [] && lead[|lead| - 1] == ' ' && |lead| < |text| && text[..|lead|] == lead && text[|lead|] == '\''
    ensures Calm(text, 0, NEUTRAL, |lead|, false) <==> Calm(lead, 0, NEUTRAL, |lead|, false)
    ensures Calm(lead, 0, NEUTRAL, |lead|, false) ==>
              ScanTo(text, 0, NEUTRAL, |lead|) == (|lead|, ScanTo(lead, 0, NEUTRAL, |lead|).1)
  {
    var n := |lead|;
    assert forall k :: 0 <= k < n ==> lead[k] == text[..n][k];
    if Calm(lead, 0, NEUTRAL, n, false) {
      ContextSwitch(lead, 0, text, 0, n, NEUTRAL, false);
      NoOvershoot(text, 0, NEUTRAL, n);
    }
    if Calm(text, 0, NEUTRAL, n, false) {
      ContextSwitch(text, 0, lead, 0, n, NEUTRAL, false);
    }
  }

  /** Where the literal stands in a delegated command. */
  lemma Layout(lead: string, command: string, text: string)
    requires text == lead + ("'" + Doubled(command, 0) + "'")
    ensures |lead| < |text| && text[..|lead|] == lead && text[|lead|] == '\''
    ensures text[|lead| + 1..] == Doubled(command, 0) + "'"
  {
    assert "'" + Doubled(command, 0) + "'" == ['\''] + (Doubled(command, 0) + "'");
  }

  lemma SafeIsQuiet(lead: string, command: string, text: string)
    requires lead != [] && lead[|lead| - 1] == ' ' && text == lead + ("'" + Doubled(command, 0) + "'") && SafeLead(lead)
    ensures OperatorFree(text)
  {
    var n := |lead|;
    var q := ScanTo(lead, 0, NEUTRAL, n).1;
    Layout(lead, command, text);
    LeadScan(lead, text);
    LiteralCalm(text, n + 1, command, 0, q.depth);
    QuoteStep(text, n, q.depth);
    assert q == Outside(q.depth);
    ScanSplit(text, 0, NEUTRAL, n, |text|, false);
    QuietParses(text);
  }

  /** A command that shows an operator behind a lead that leaves a quote open. */
  function Exposing(lead: string): string {
    if ScanTo(lead, 0, NEUTRAL, |lead|).1.double then "\"&&" else "&&"
  }

  lemma {:induction false} DoubledItself(s: string, k: nat)
    requires k <= |s| && forall j :: k <= j < |s| ==> s[j] != '\''
    ensures Doubled(s, k) == s[k..]
    decreases |s| - k
  {
    if k < |s| {
      DoubledItself(s, k + 1);
      assert s[k..] == [s[k]] + s[k + 1..];
    }
  }

  /** Behind an open single quote the literal's own quote closes it, and the command lies bare. */
  lemma BareAfterSingle(text: string, n: nat, depth: nat)
    requires n + 3 < |text| && text[n] == '\'' && text[n + 1] == '&' && text[n + 2] == '&'
    ensures !Calm(text, n, Inside(depth), |text|, false)
  {
    QuoteStep(text, n, depth);
    assert !Lex(text, n + 1, Outside(depth)).event.Plain?;
  }

  lemma BareAfterDouble(text: string, n: nat, q: Quoting)
    requires n + 4 < |text| && text[n] == '\'' && text[n + 1] == '"' && text[n + 2] == '&' && text[n + 3] == '&'
    requires q.double && !q.single
    ensures !Calm(text, n, q, |text|, false)
  {
    assert Lex(text, n, q) == Lexed(1, q, Plain);
    assert Lex(text, n + 1, q) == Lexed(1, Outside(q.depth), Plain);
    assert !Lex(text, n + 2, Outside(q.depth)).event.Plain?;
    assert !Calm(text, n + 1, q, |text|, false);
  }

  lemma ExposedAt(lead: string, text: string)
    requires text == lead + ("'" + Doubled(Exposing(lead), 0) + "'")
    ensures var n, c := |lead|, Exposing(lead);
            |text| == n + |c| + 2 && text[n] == '\'' && forall k :: 0 <= k < |c| ==> text[n + 1 + k] == c[k]
  {
    DoubledItself(Exposing(lead), 0);
    Layout(lead, Exposing(lead), text);
    var c := Exposing(lead);
    forall k | 0 <= k < |c| ensures text[|lead| + 1 + k] == c[k] {
      assert text[|lead| + 1..][k] == (c + "'")[k];
    }
  }

  lemma {:induction false} NeverBothQuotes(cmd: string, i: nat, q: Quoting, j: nat)
    requires i <= |cmd| && j <= |cmd| && !(q.single && q.double)
    ensures !(ScanTo(cmd, i, q, j).1.single && ScanTo(cmd, i, q, j).1.double)
    decreases |cmd| - i
  {
    if i < j {
      NeverBothQuotes(cmd, i + Lex(cmd, i, q).width, Lex(cmd, i, q).state, j);
    }
  }

  lemma UnsafeExposes(lead: string, text: string)
    requires lead != [] && lead[|lead| - 1] == ' ' && !SafeLead(lead)
    requires text == lead + ("'" + Doubled(Exposing(lead), 0) + "'")
    ensures !OperatorFree(text)
  {
    var n := |lead|;
    var q := ScanTo(lead, 0, NEUTRAL, n).1;
    Layout(lead, Exposing(lead), text);
    LeadScan(lead, text);
    ScanSplit(text, 0, NEUTRAL, n, |text|, false);
    QuietParses(text);
    if Calm(lead, 0, NEUTRAL, n, false) {
      ExposedAt(lead, text);
      NeverBothQuotes(lead, 0, NEUTRAL, n);
      var c := Exposing(lead);
      assert text[n + 1 + 0] == c[0] && text[n + 1 + 1] == c[1];
      if q.double {
        assert text[n + 1 + 2] == c[2];
        BareAfterDouble(text, n, q);
      } else {
        assert q == Inside(q.depth);
        BareAfterSingle(text, n, q.depth);
      }
    }
  }

  lemma LeadEnds(gitBash: Option<string>)
    ensures Lead(gitBash) != [] && Lead(gitBash)[|Lead(gitBash)| - 1] == ' '
  {
  }

  /** Every command delegated this way is free of operators exactly when the lead is safe. */
  lemma DelegationSafeIff(gitBash: Option<string>)
    ensures (forall command :: OperatorFree(Delegated(command, gitBash))) <==> SafeLead(Lead(gitBash))
  {
    var lead := Lead(gitBash);
    LeadEnds(gitBash);
    if SafeLead(lead) {
      forall command ensures OperatorFree(Delegated(command, gitBash)) {
        SafeIsQuiet(lead, command, Delegated(command, gitBash));
      }
    } else {
      UnsafeExposes(lead, Delegated(Exposing(lead), gitBash));
    }
  }

  // ----- safe and unsafe paths -----

  /** The call sign and the opening quote. */
  lemma CallSign(lead: string, m: nat)
    requires 3 <= m <= |lead| && lead[0] == '&' && lead[1] == ' ' && lead[2] == '\''
    ensures ScanTo(lead, 0, NEUTRAL, m) == ScanTo(lead, 3, Inside(0), m)
    ensures Calm(lead, 0, NEUTRAL, m, false) <==> Calm(lead, 3, Inside(0), m, false)
  {
    assert Lex(lead, 0, NEUTRAL) == Lexed(1, NEUTRAL, Plain);
    assert Lex(lead, 1, NEUTRAL) == Lexed(1, NEUTRAL, Plain);
    assert ScanTo(lead, 0, NEUTRAL, m) == ScanTo(lead, 1, NEUTRAL, m) == ScanTo(lead, 2, NEUTRAL, m);
    assert Calm(lead, 0, NEUTRAL, m, false) == Calm(lead, 1, NEUTRAL, m, false) == Calm(lead, 2, NEUTRAL, m, false);
    QuoteStep(lead, 2, 0);
  }

  lemma LeadLayout(path: string, lead: string)
    requires lead == "& '" + path + "' -c "
    ensures var n := 3 + |path|;
            && |lead| == n + 5 && lead[0] == '&' && lead[1] == ' ' && lead[2] == '\'' && lead[n] == '\''
            && (forall k :: 3 <= k < n ==> lead[k] == path[k - 3])
            && forall k :: n < k < n + 5 ==> lead[k] != '\'' && Bland(lead[k])
  {
    var n, tail := 3 + |path|, "' -c ";
    assert forall k :: n <= k < n + 5 ==> lead[k] == tail[k - n];
  }

  /** A path without a single quote is safe. */
  lemma QuoteFreePathIsSafe(path: string)
    requires '\'' !in path
    ensures SafeLead(Lead(Some(path)))
  {
    var lead, n := Lead(Some(path)), 3 + |path|;
    LeadLayout(path, lead);
    CallSign(lead, |lead|);
    QuotedRun(lead, 3, n, 0);
    QuoteStep(lead, n, 0);
    BlandRun(lead, n + 1, NEUTRAL, |lead|);
    ScanSplit(lead, 3, Inside(0), n, |lead|, false);
  }

  lemma CmdIsSafe()
    ensures SafeLead(Lead(None))
  {
    var lead := Lead(None);
    assert Lex(lead, 0, NEUTRAL) == Lexed(1, NEUTRAL, Plain);
    BlandRun(lead, 1, NEUTRAL, |lead|);
  }

  /** Outside quotes a path of harmless characters and backslashes changes nothing. */
  lemma {:induction false} BareRun(cmd: string, i: nat, j: nat, depth: nat)
    requires i <= j < |cmd| && (forall k :: i <= k < j ==> Bland(cmd[k]) || cmd[k] == '\\')
    requires i < j ==> cmd[j - 1] != '\\'
    ensures ScanTo(cmd, i, Outside(depth), j) == (j, Outside(depth))
    decreases j - i
  {
    if i < j {
      var x := Lex(cmd, i, Outside(depth));
      assert x.state == Outside(depth) && i + x.width <= j;
      BareRun(cmd, i + x.width, j, depth);
    }
  }

  /** From inside quotes to the next quote and over it, and from outside likewise. */
  lemma LeavesQuotes(lead: string, i: nat, a: nat, m: nat)
    requires i <= a < m <= |lead| && lead[a] == '\'' && forall j :: i <= j < a ==> lead[j] != '\''
    ensures ScanTo(lead, i, Inside(0), m) == ScanTo(lead, a + 1, Outside(0), m)
  {
    QuotedRun(lead, i, a, 0);
    QuoteStep(lead, a, 0);
    ScanSplit(lead, i, Inside(0), a, m, false);
  }

  lemma EntersQuotes(lead: string, i: nat, n: nat, m: nat)
    requires i <= n < m <= |lead| && lead[n] == '\'' && (i < n ==> lead[n - 1] != '\\')
    requires forall j :: i <= j < n ==> Bland(lead[j]) || lead[j] == '\\'
    ensures ScanTo(lead, i, Outside(0), m) == ScanTo(lead, n + 1, Inside(0), m)
  {
    BareRun(lead, i, n, 0);
    QuoteStep(lead, n, 0);
    ScanSplit(lead, i, Outside(0), n, m, false);
  }

  /** A path with one single quote in it, as under a user directory named O'Brien, is not. */
  lemma QuotedPathIsUnsafe(path: string, k: nat)
    requires k < |path| && path[k] == '\'' && path[|path| - 1] != '\\'
    requires forall j :: 0 <= j < |path| && j != k ==> Bland(path[j]) || path[j] == '\\'
    ensures !SafeLead(Lead(Some(path)))
  {
    var lead, n := Lead(Some(path)), 3 + |path|;
    LeadLayout(path, lead);
    CallSign(lead, |lead|);
    LeavesQuotes(lead, 3, 3 + k, |lead|);
    EntersQuotes(lead, 4 + k, n, |lead|);
    QuotedRun(lead, n + 1, |lead|, 0);
  }

  // ----- what PowerShell itself sees of a delegated command -----

  lemma {:induction false} QuotedShows(text: string, i: nat, j: nat)
    requires i <= j <= |text| && forall k :: i <= k < j ==> text[k] != '\''
    ensures ShowsNone(text, i, true, false) <==> ShowsNone(text, j, true, false)
    decreases j - i
  {
    if i < j {
      QuotedShows(text, i + 1, j);
    }
  }

  lemma {:induction false} BareShows(text: string, i: nat, j: nat)
    requires i <= j <= |text| && forall k :: i <= k < j ==> Bland(text[k]) && text[k] != '`'
    ensures ShowsNone(text, i, false, false) <==> ShowsNone(text, j, false, false)
    decreases j - i
  {
    if i < j {
      BareShows(text, i + 1, j);
    }
  }

  lemma {:induction false} LiteralShowsNone(text: string, i: nat, s: string, k: nat)
    requires k <= |s| && i <= |text| && text[i..] == Doubled(s, k) + "'"
    ensures ShowsNone(text, i, true, false)
    decreases |s| - k
  {
    var d := Doubled(s, k) + "'";
    assert text[i] == d[0];
    if k < |s| {
      var w := if s[k] == '\'' then 2 else 1;
      assert text[i + w..] == d[w..];
      assert d[w..] == Doubled(s, k + 1) + "'";
      LiteralShowsNone(text, i + w, s, k + 1);
      if w == 2 {
        assert text[i + 1] == d[1];
        assert ShowsNone(text, i + 1, false, false);
      }
    }
  }

  lemma CallShowsNone(text: string, lead: string, path: string)
    requires |lead| < |text| && text[..|lead|] == lead && lead == "& '" + path + "' -c " && '\'' !in path
    ensures Unchained(text) <==> ShowsNone(text, |lead|, false, false)
  {
    var n := 3 + |path|;
    LeadLayout(path, lead);
    assert forall k :: 0 <= k < |lead| ==> text[k] == text[..|lead|][k] == lead[k];
    assert ShowsNone(text, 0, false, false) == ShowsNone(text, 1, false, false);
    assert ShowsNone(text, 1, false, false) == ShowsNone(text, 2, false, false) == ShowsNone(text, 3, true, false);
    QuotedShows(text, 3, n);
    assert ShowsNone(text, n, true, false) == ShowsNone(text, n + 1, false, false);
    LeadTail(path, lead);
    BareShows(text, n + 1, |lead|);
  }

  lemma LeadTail(path: string, lead: string)
    requires lead == "& '" + path + "' -c "
    ensures forall k :: 3 + |path| < k < |lead| ==> Bland(lead[k]) && lead[k] != '`'
  {
    var tail := "' -c ";
    assert forall k :: 3 + |path| <= k < |lead| ==> lead[k] == tail[k - 3 - |path|];
  }

  lemma CmdShowsNone(text: string, lead: string)
    requires |lead| < |text| && text[..|lead|] == lead && lead == "& cmd /c "
    ensures Unchained(text) <==> ShowsNone(text, |lead|, false, false)
  {
    assert forall k :: 0 <= k < |lead| ==> text[k] == text[..|lead|][k] == lead[k];
    assert ShowsNone(text, 0, false, false) == ShowsNone(text, 1, false, false);
    BareShows(text, 1, |lead|);
  }

  /** By PowerShell's own rules too, every command delegated to cmd.exe or through a path without a single quote is free
      of chain operators. */
  lemma DelegatedUnchained(command: string, gitBash: Option<string>)
    requires gitBash.Some? ==> '\'' !in gitBash.value
    ensures Unchained(Delegated(command, gitBash))
  {
    var lead, text := Lead(gitBash), Delegated(command, gitBash);
    Layout(lead, command, text);
    if gitBash.Some? {
      CallShowsNone(text, lead, gitBash.value);
    } else {
      CmdShowsNone(text, lead);
    }
    LiteralShowsNone(text, |lead| + 1, command, 0);
  }

  // ----- the choice for PowerShell 5.1 -----

  predicate Delegates(parsed: ChainParse) {
    parsed.hasNestedOps || (parsed.HasChainOps() && parsed.HasEmptySegment())
  }

  lemma PowerShellSeesNone(command: string, gitBash: Option<string>)
    ensures gitBash.None? || '\'' !in gitBash.value ==> Unchained(Delegated(command, gitBash))
    ensures Unescaped(command) && !Parse(command).hasNestedOps ==>
              Unchained(Render(Translate(Parse(command).segments), 0))
    ensures Unescaped(command) && OperatorFree(command) ==> Unchained(command)
  {
    if gitBash.None? || '\'' !in gitBash.value {
      DelegatedUnchained(command, gitBash);
    }
    if Unescaped(command) {
      ReadingsAgree(command);
      if !Parse(command).hasNestedOps {
        TranslationUnchained(command);
      }
    }
  }

  /** What PowerShell 5.1 is given for a command. By the scanner's own rules it never holds a chain operator at any
      depth, unless the command is delegated through a path that is not safe. By PowerShell's rules it holds none when
      the path has no single quote and the command is delegated or has no escape character. */
  method UserCommand(command: string, gitBash: Option<string>) returns (userCmd: string)
    ensures !Delegates(Parse(command)) || SafeLead(Lead(gitBash)) ==> OperatorFree(userCmd)
    ensures gitBash.None? || '\'' !in gitBash.value ==> OperatorFree(userCmd)
    ensures (gitBash.None? || '\'' !in gitBash.value) && (Delegates(Parse(command)) || Unescaped(command)) ==>
              Unchained(userCmd)
    ensures var parsed := Parse(command);
            if Delegates(parsed) then userCmd == Delegated(command, gitBash)
            else if parsed.HasChainOps() then userCmd == Render(Translate(parsed.segments), 0)
            else userCmd == command
  {
    DelegationSafeIff(gitBash);
    if gitBash.None? {
      CmdIsSafe();
    } else if '\'' !in gitBash.value {
      QuoteFreePathIsSafe(gitBash.value);
    }
    PowerShellSeesNone(command, gitBash);
    userCmd := command;
    var parsed := ParseChainOps(command);
    if parsed.hasNestedOps {
      userCmd := Delegated(command, gitBash);
    } else if parsed.HasChainOps() {
      var empty := HasEmptySegment(parsed);
      if empty {
        userCmd := Delegated(command, gitBash);
      } else {
        TranslationIsOperatorFree(command);
        userCmd := BuildPSChainOps(parsed);
      }
    }
  }

  method HasEmptySegment(parsed: ChainParse) returns (found: bool)
    ensures found == parsed.HasEmptySegment()
  {
    for i := 0 to |parsed.segments|
      invariant forall k :: 0 <= k < i ==> parsed.segments[k].text != ""
    {
      if parsed.segments[i].text == "" {
        return true;
      }
    }
    return false;
  }
}
