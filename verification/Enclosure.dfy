/** Parentheses protect the operators inside them from the split and raise the flag for nested ones
    (tools/bash/chainops.go). */
module Enclosure {
  import opened Wrappers
  import opened ChainOps
  import opened PowerShellChain

  function Deeper(q: Quoting): Quoting {
    q.(depth := q.depth + 1)
  }

  /** No parenthesis is closed before `j` that was not opened in the text. */
  ghost predicate NeverUnder(cmd: string, i: nat, q: Quoting, j: nat)
    requires i <= |cmd| && j <= |cmd|
    decreases |cmd| - i
  {
    i >= j ||
    (!(cmd[i] == ')' && !q.single && !q.double && q.depth == 0)
     && NeverUnder(cmd, i + Lex(cmd, i, q).width, Lex(cmd, i, q).state, j))
  }

  /** A text whose scan closes its quotes, escapes and parentheses; it may hold operators anywhere. */
  ghost predicate Closed(t: string) {
    ScanTo(t + " ", 0, NEUTRAL, |t|) == (|t|, NEUTRAL) && NeverUnder(t + " ", 0, NEUTRAL, |t|)
  }

  /** The same text stands in `a` before a space and in `b` before a closing parenthesis. */
  ghost predicate Copied(a: string, i: nat, b: string, j: nat, n: nat) {
    SameText(a, i, b, j, n) && i + n < |a| && a[i + n] == ' ' && j + n < |b| && b[j + n] == ')'
  }

  lemma DeeperStep(q: Quoting, ch: char)
    requires !(ch == ')' && !q.single && !q.double && q.depth == 0)
    ensures After(Deeper(q), ch) == Deeper(After(q, ch))
  {
  }

  lemma SamePair(a: string, i: nat, b: string, j: nat, n: nat)
    requires Copied(a, i, b, j, n) && n > 0
    ensures a[i] == b[j] && PairAt(a, i) == PairAt(b, j)
    ensures PairAt(a, i).Some? ==> n > 1 && (a[i + 1] == '&' || a[i + 1] == '|')
  {
    assert a[i] == b[j];
    if n > 1 {
      assert a[i + 1] == b[j + 1];
    }
  }

  /** One level deeper nothing is split, and a step shows an operator exactly when it does outside. */
  lemma DeeperLex(a: string, i: nat, b: string, j: nat, n: nat, q: Quoting)
    requires Copied(a, i, b, j, n) && n > 0 && !(a[i] == ')' && !q.single && !q.double && q.depth == 0)
    ensures var x, y := Lex(a, i, q), Lex(b, j, Deeper(q));
            && y.state == Deeper(x.state) && !y.event.Split? && (y.event.Plain? <==> x.event.Plain?)
            && y.width == if x.event.Split? then 1 else x.width
  {
    SamePair(a, i, b, j, n);
    DeeperStep(q, a[i]);
  }

  /** The second half of an operator changes nothing. */
  lemma SecondHalf(b: string, j: nat, q: Quoting)
    requires j < |b| && (b[j] == '&' || b[j] == '|') && q.depth > 0
    ensures var y := Lex(b, j, q); y.width == 1 && y.state == q && !y.event.Split?
  {
  }

  /** What splits the text outside takes two steps one level deeper, and shows there. */
  lemma SplitBelow(a: string, i: nat, b: string, j: nat, n: nat, q: Quoting)
    requires Copied(a, i, b, j, n) && n > 0 && !(a[i] == ')' && !q.single && !q.double && q.depth == 0)
    requires Lex(a, i, q).event.Split?
    ensures n > 1 && Lex(a, i, q).width == 2
    ensures var deep := Deeper(Lex(a, i, q).state);
            && Lex(b, j, Deeper(q)) == Lexed(1, deep, Nested)
            && Lex(b, j + 1, deep).width == 1 && Lex(b, j + 1, deep).state == deep && !Lex(b, j + 1, deep).event.Split?
  {
    DeeperLex(a, i, b, j, n, q);
    SamePair(a, i, b, j, n);
    assert b[j + 1] == a[i + 1];
    SecondHalf(b, j + 1, Deeper(Lex(a, i, q).state));
  }

  lemma StepFits(a: string, i: nat, q: Quoting, n: nat)
    requires n > 0 && i + n <= |a| && ScanTo(a, i, q, i + n).0 == i + n
    ensures Lex(a, i, q).width <= n
  {
  }

  /** Scanning the text one level deeper. */
  lemma {:induction false} DeeperScan(a: string, i: nat, b: string, j: nat, n: nat, q: Quoting)
    requires Copied(a, i, b, j, n) && ScanTo(a, i, q, i + n).0 == i + n && NeverUnder(a, i, q, i + n)
    ensures ScanTo(b, j, Deeper(q), j + n) == (j + n, Deeper(ScanTo(a, i, q, i + n).1))
    ensures Calm(b, j, Deeper(q), j + n, true)
    ensures Calm(b, j, Deeper(q), j + n, false) <==> Calm(a, i, q, i + n, false)
    decreases n
  {
    if n > 0 {
      var x := Lex(a, i, q);
      DeeperLex(a, i, b, j, n, q);
      StepFits(a, i, q, n);
      DeeperScan(a, i + x.width, b, j + x.width, n - x.width, x.state);
      if x.event.Split? {
        SplitBelow(a, i, b, j, n, q);
      }
    }
  }

  /** `t` stands in parentheses at the start of `w`. */
  ghost predicate Parenthesized(t: string, w: string) {
    |w| >= |t| + 2 && w[0] == '(' && w[|t| + 1] == ')' && forall k :: 0 <= k < |t| ==> w[k + 1] == t[k]
  }

  lemma PutInParentheses(t: string, w: string)
    requires |w| >= |t| + 2 && w[..|t| + 2] == "(" + t + ")"
    ensures Parenthesized(t, w)
  {
    var p := "(" + t + ")";
    assert forall k :: 0 <= k < |p| ==> w[k] == w[..|p|][k] == p[k];
    assert forall k :: 0 <= k < |t| ==> t[k] == p[k + 1];
  }

  lemma OpensAndCloses(w: string, n: nat)
    requires n + 2 <= |w| && w[0] == '(' && w[n + 1] == ')'
    ensures Lex(w, 0, NEUTRAL) == Lexed(1, Deeper(NEUTRAL), Plain)
    ensures Lex(w, n + 1, Deeper(NEUTRAL)) == Lexed(1, NEUTRAL, Plain)
  {
  }

  /** From the opening parenthesis to the closing one. */
  lemma ScanEnclosed(t: string, w: string, nested: bool)
    requires Closed(t) && Parenthesized(t, w)
    ensures ScanTo(w, 0, NEUTRAL, |t| + 2) == (|t| + 2, NEUTRAL)
    ensures Calm(w, 0, NEUTRAL, |t| + 2, nested) <==> nested || Calm(t + " ", 0, NEUTRAL, |t|, false)
  {
    var n, a := |t|, t + " ";
    assert forall k :: 0 <= k < n ==> a[k] == t[k];
    DeeperScan(a, 0, w, 1, n, NEUTRAL);
    OpensAndCloses(w, n);
    ScanSplit(w, 1, Deeper(NEUTRAL), n + 1, n + 2, nested);
  }

  lemma EnclosedScan(t: string, w: string)
    requires Closed(t) && |w| >= |t| + 2 && w[..|t| + 2] == "(" + t + ")"
    ensures ScanTo(w, 0, NEUTRAL, |t| + 2) == (|t| + 2, NEUTRAL) && Calm(w, 0, NEUTRAL, |t| + 2, true)
    ensures Calm(w, 0, NEUTRAL, |t| + 2, false) <==> Calm(t + " ", 0, NEUTRAL, |t|, false)
  {
    PutInParentheses(t, w);
    ScanEnclosed(t, w, true);
    ScanEnclosed(t, w, false);
  }

  /** In parentheses a closed text is one command, whatever operators it holds. */
  lemma EnclosedAtomic(t: string)
    requires Closed(t)
    ensures Atomic("(" + t + ")")
  {
    var p := "(" + t + ")";
    assert (p + " ")[..|p|] == p;
    EnclosedScan(t, p + " ");
  }

  /** The scan of a text shows operators alike whether or not a space follows it. */
  lemma CalmAlone(t: string)
    ensures Calm(t, 0, NEUTRAL, |t|, false) <==> Calm(t + " ", 0, NEUTRAL, |t|, false)
  {
    var a := t + " ";
    assert forall k :: 0 <= k < |t| ==> a[k] == t[k];
    if Calm(t, 0, NEUTRAL, |t|, false) {
      ContextSwitch(t, 0, a, 0, |t|, NEUTRAL, false);
    }
    if Calm(a, 0, NEUTRAL, |t|, false) {
      ContextSwitch(a, 0, t, 0, |t|, NEUTRAL, false);
    }
  }

  /** The command is a single segment, and the flag for nested operators is raised exactly when the text shows an
      operator at some depth. */
  lemma EnclosedNests(t: string)
    requires Closed(t)
    ensures Parse("(" + t + ")").segments == [Segment("(" + t + ")", None)]
    ensures Parse("(" + t + ")").hasNestedOps <==> !OperatorFree(t)
  {
    var p := "(" + t + ")";
    assert p[..|p|] == p;
    EnclosedScan(t, p);
    EnclosedAtomic(t);
    ParsesAlone(p);
    QuietParses(p);
    QuietParses(t);
    CalmAlone(t);
  }

  /** An atomic text parses to itself. */
  lemma ParsesAlone(p: string)
    requires Atomic(p)
    ensures Parse(p).segments == [Segment(p, None)]
  {
    var texts := [p];
    ParseInvertsJoin(texts, []);
    assert Join(texts, []) == "" + p == p;
  }

  /** Two commands in parentheses: kept together, and known to hold an operator. */
  lemma SubshellKept(cmd: string)
    requires cmd == "(a&&b)"
    ensures Parse(cmd) == ChainParse([Segment(cmd, None)], true)
  {
    var t := "a&&b";
    var w := t + " ";
    assert Lex(w, 0, NEUTRAL) == Lexed(1, NEUTRAL, Plain);
    assert Lex(w, 1, NEUTRAL) == Lexed(2, NEUTRAL, Split(And));
    assert Lex(w, 3, NEUTRAL) == Lexed(1, NEUTRAL, Plain);
    assert ScanTo(w, 3, NEUTRAL, 4) == (4, NEUTRAL) && NeverUnder(w, 3, NEUTRAL, 4);
    assert ScanTo(w, 1, NEUTRAL, 4) == (4, NEUTRAL) && NeverUnder(w, 1, NEUTRAL, 4);
    assert !Calm(w, 1, NEUTRAL, 4, false);
    CalmAlone(t);
    QuietParses(t);
    assert cmd == "(" + t + ")";
    EnclosedNests(t);
  }
}
