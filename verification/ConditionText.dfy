/** Texts of conditions: balanced parentheses, and reading "(l) && (r)" as a conjunction
    (tools/codegraph/project_resolver.go, tools/codegraph/semantic_facts.go). */
module ConditionText {
  import opened Wrappers

  // ----- balanced texts -----

  /** From `i` on, with d parentheses open, everything opened is closed and nothing else is. */
  predicate Closes(s: string, i: nat, d: nat)
    requires i <= |s|
    decreases |s| - i
  {
    if i == |s| then d == 0
    else if s[i] == '(' then Closes(s, i + 1, d + 1)
    else if s[i] == ')' then d > 0 && Closes(s, i + 1, d - 1)
    else Closes(s, i + 1, d)
  }

  predicate Balanced(s: string) {
    Closes(s, 0, 0)
  }

  lemma {:induction false} ClosesSuffix(a: string, b: string, j: nat, d: nat)
    requires j <= |b|
    ensures Closes(a + b, |a| + j, d) == Closes(b, j, d)
    decreases |b| - j
  {
    if j < |b| {
      assert (a + b)[|a| + j] == b[j];
      ClosesSuffix(a, b, j + 1, d + 1);
      if d > 0 {
        ClosesSuffix(a, b, j + 1, d - 1);
      }
      ClosesSuffix(a, b, j + 1, d);
    }
  }

  /** A text that leaves e parentheses open, followed by one that closes e more. */
  lemma {:induction false} ClosesAppend(a: string, b: string, i: nat, d: nat, e: nat)
    requires i <= |a| && Closes(a, i, d) && Closes(b, 0, e)
    ensures Closes(a + b, i, d + e)
    decreases |a| - i
  {
    if i == |a| {
      ClosesSuffix(a, b, 0, e);
    } else {
      assert (a + b)[i] == a[i];
      if a[i] == '(' {
        ClosesAppend(a, b, i + 1, d + 1, e);
      } else if a[i] == ')' {
        ClosesAppend(a, b, i + 1, d - 1, e);
      } else {
        ClosesAppend(a, b, i + 1, d, e);
      }
    }
  }

  lemma BalancedConcat(a: string, b: string)
    requires Balanced(a) && Balanced(b)
    ensures Balanced(a + b)
  {
    ClosesAppend(a, b, 0, 0, 0);
  }

  function Enclosed(s: string): string {
    "(" + s + ")"
  }

  lemma BalancedEnclosed(s: string)
    requires Balanced(s)
    ensures Balanced(Enclosed(s))
  {
    var close := ")";
    assert Closes(close, 1, 0);
    assert Closes(close, 0, 1);
    ClosesAppend(s, close, 0, 0, 1);
    var open := "(";
    ClosesSuffix(open, s + close, 0, 1);
    assert Enclosed(s) == open + (s + close);
  }

  /** A text without parentheses. */
  lemma {:induction false} PlainBalanced(s: string, i: nat)
    requires i <= |s| && forall k :: i <= k < |s| ==> s[k] != '(' && s[k] != ')'
    ensures Closes(s, i, 0)
    decreases |s| - i
  {
    if i < |s| {
      PlainBalanced(s, i + 1);
    }
  }

  // ----- conjunctions -----

  const AND := " && "

  function Conjunction(l: string, r: string): string {
    Enclosed(l) + AND + Enclosed(r)
  }

  lemma BalancedConjunction(l: string, r: string)
    requires Balanced(l) && Balanced(r)
    ensures Balanced(Conjunction(l, r))
  {
    BalancedEnclosed(l);
    BalancedEnclosed(r);
    PlainBalanced(AND, 0);
    BalancedConcat(Enclosed(l), AND);
    BalancedConcat(Enclosed(l) + AND, Enclosed(r));
  }

  /** A reading of condition texts under which "" is true and "(l) && (r)" is the conjunction of balanced l and r, as in
      a C constant expression. */
  ghost predicate Lawful(holds: string -> bool) {
    && holds("")
    && forall l, r :: Balanced(l) && Balanced(r) && l != "" && r != "" ==>
         holds(Conjunction(l, r)) == (holds(l) && holds(r))
  }

  // ----- every truth assignment extends to such a reading -----

  /** Where the innermost of d open parentheses is closed, or the end. */
  function Close(s: string, i: nat, d: nat): (k: nat)
    requires i <= |s|
    ensures i <= k <= |s|
    decreases |s| - i
  {
    if i == |s| then i
    else if s[i] == '(' then Close(s, i + 1, d + 1)
    else if s[i] == ')' then (if d <= 1 then i else Close(s, i + 1, d - 1))
    else Close(s, i + 1, d)
  }

  /** " && (" stands at `i`. */
  predicate JoinAt(s: string, i: nat) {
    i + 5 <= |s| && s[i] == ' ' && s[i + 1] == '&' && s[i + 2] == '&' && s[i + 3] == ' ' && s[i + 4] == '('
  }

  /** The two parts of a text of the form "(l) && (r)", found by matching parentheses. */
  function Parts(t: string): (p: Option<(string, string)>)
    ensures p.Some? ==> |p.value.0| < |t| && |p.value.1| < |t|
  {
    if t == "" || t[0] != '(' then None
    else
      var m := Close(t, 1, 1);
      if m < |t| && JoinAt(t, m + 1) && Close(t, m + 6, 1) == |t| - 1 && 1 < m && m + 6 < |t| - 1
      then Some((t[1..m], t[m + 6..|t| - 1]))
      else None
  }

  /** The reading that agrees with `truth` on every text that is not of the form "(l) && (r)". */
  predicate Reading(truth: string -> bool, t: string)
    decreases |t|
  {
    if t == "" then true
    else
      match Parts(t)
      case None => truth(t)
      case Some(p) => Reading(truth, p.0) && Reading(truth, p.1)
  }

  /** The text `l` stands in `t` at `p`. */
  ghost predicate At(t: string, p: nat, l: string) {
    p + |l| <= |t| && forall k :: p <= k < p + |l| ==> t[k] == l[k - p]
  }

  /** A parenthesis opened before a balanced text is closed right after it. */
  lemma {:induction false} CloseAfter(t: string, p: nat, l: string, k: nat, d: nat)
    requires At(t, p, l) && k <= |l| && Closes(l, k, d) && p + |l| < |t| && t[p + |l|] == ')'
    ensures Close(t, p + k, d + 1) == p + |l|
    decreases |l| - k
  {
    if k < |l| {
      assert t[p + k] == l[k];
      if l[k] == '(' {
        CloseAfter(t, p, l, k + 1, d + 1);
      } else if l[k] == ')' {
        CloseAfter(t, p, l, k + 1, d - 1);
      } else {
        CloseAfter(t, p, l, k + 1, d);
      }
    }
  }

  lemma ConjunctionLayout(l: string, r: string, t: string)
    requires t == Conjunction(l, r)
    ensures var m := 1 + |l|;
            && |t| == m + |r| + 7 && t[0] == '(' && At(t, 1, l) && t[m] == ')' && JoinAt(t, m + 1)
            && At(t, m + 6, r) && t[|t| - 1] == ')'
  {
    var a, m := Enclosed(l), 1 + |l|;
    assert t[0] == a[0] && t[m] == a[m];
    assert forall k :: 1 <= k < m ==> t[k] == a[k] == l[k - 1];
    assert forall k :: m + 1 <= k < m + 5 ==> t[k] == AND[k - m - 1];
    var b := Enclosed(r);
    assert forall k :: m + 5 <= k < |t| ==> t[k] == b[k - m - 5];
    assert forall k :: m + 6 <= k < m + 6 + |r| ==> t[k] == r[k - m - 6];
  }

  lemma AtSlice(t: string, p: nat, l: string)
    requires At(t, p, l)
    ensures t[p..p + |l|] == l
  {
  }

  /** The two parts of a conjunction of balanced texts are found again: the text has only one such reading. */
  lemma PartsOfConjunction(l: string, r: string)
    requires Balanced(l) && Balanced(r) && l != "" && r != ""
    ensures Parts(Conjunction(l, r)) == Some((l, r))
  {
    var t, m := Conjunction(l, r), 1 + |l|;
    ConjunctionLayout(l, r, t);
    CloseAfter(t, 1, l, 0, 0);
    CloseAfter(t, m + 6, r, 0, 0);
    AtSlice(t, 1, l);
    AtSlice(t, m + 6, r);
  }

  /** Every truth assignment to the texts that are not conjunctions extends to a lawful reading. */
  lemma EveryAssignmentExtends(truth: string -> bool) returns (holds: string -> bool)
    ensures Lawful(holds) && forall t :: t != "" && Parts(t).None? ==> holds(t) == truth(t)
  {
    holds := t => Reading(truth, t);
    forall l, r | Balanced(l) && Balanced(r) && l != "" && r != ""
      ensures holds(Conjunction(l, r)) == (holds(l) && holds(r))
    {
      PartsOfConjunction(l, r);
      assert Conjunction(l, r) != "";
    }
  }

  /** A balanced text in parentheses is no conjunction, so an assignment is free to make it true or false. */
  lemma EnclosedIsFree(s: string)
    requires Balanced(s)
    ensures Parts(Enclosed(s)).None?
  {
    var t := Enclosed(s);
    assert forall k :: 1 <= k < 1 + |s| ==> t[k] == s[k - 1];
    CloseAfter(t, 1, s, 0, 0);
  }

  /** Without balance the law does not extend: here is a lawful reading of an unbalanced pair that is no conjunction. */
  lemma UnbalancedIsFree() returns (holds: string -> bool)
    ensures Lawful(holds) && holds(")") && holds("x") && !holds(Conjunction(")", "x"))
  {
    var l, r := ")", "x";
    var t := Conjunction(l, r);
    ConjunctionLayout(l, r, t);
    assert t[1] == l[0];
    assert Close(t, 1, 1) == 1;
    assert Parts(t).None? && Parts(l).None? && Parts(r).None?;
    holds := EveryAssignmentExtends(s => s != t);
    assert |t| > 1;
  }
}
