/** Preprocessor provenance: the condition recorded for each source line (tools/codegraph/semantic_facts.go). */
module SourceConditions {
  import opened Text
  import opened ConditionText

  /** An #if expression is an atom named by its text. */
  datatype Formula =
    | Atom(text: string)
    | Not(arg: Formula)
    | Both(left: Formula, right: Formula)
    | AnyOf(args: seq<Formula>)

  type Truth = string -> bool

  predicate Holds(f: Formula, truth: Truth) {
    match f
    case Atom(text) => truth(text)
    case Not(arg) => !Holds(arg, truth)
    case Both(left, right) => Holds(left, truth) && Holds(right, truth)
    case AnyOf(args) => exists k :: 0 <= k < |args| && Holds(args[k], truth)
  }

  predicate Some(fs: seq<Formula>, truth: Truth) {
    exists k :: 0 <= k < |fs| && Holds(fs[k], truth)
  }

  predicate All(fs: seq<Formula>, truth: Truth) {
    forall k :: 0 <= k < |fs| ==> Holds(fs[k], truth)
  }

  // ----- reading one line -----

  datatype Directive = Ordinary | If(cond: Formula) | Elif(cond: Formula) | Else | Endif

  function Defined(name: string): Formula {
    Atom("defined(" + name + ")")
  }

  datatype Word = IF | IFDEF | IFNDEF | ELIF | ELSE | ENDIF

  function Spelling(w: Word): string {
    match w
    case IF => "if"
    case IFDEF => "ifdef"
    case IFNDEF => "ifndef"
    case ELIF => "elif"
    case ELSE => "else"
    case ENDIF => "endif"
  }

  predicate TakesCondition(w: Word) {
    !w.ELSE? && !w.ENDIF?
  }

  /** A conditional directive: its word, and the text after it. */
  datatype Reading = Nothing | Read(word: Word, arg: string)

  /** What the frame stack is told. */
  function Interpret(r: Reading): Directive {
    match r
    case Nothing => Ordinary
    case Read(w, arg) =>
      match w
      case IF => If(Atom(arg))
      case IFDEF => If(Defined(arg))
      case IFNDEF => If(Not(Defined(arg)))
      case ELIF => Elif(Atom(arg))
      case ELSE => Else
      case ENDIF => Endif
  }

  /** The directive text starts with the word and a space. */
  predicate Starts(d: string, w: Word) {
    Spelling(w) + " " <= d
  }

  function ScanWord(d: string): Reading {
    if Starts(d, IFDEF) then Read(IFDEF, Trim(d[6..]))
    else if Starts(d, IFNDEF) then Read(IFNDEF, Trim(d[7..]))
    else if Starts(d, IF) then Read(IF, Trim(d[3..]))
    else if Starts(d, ELIF) then Read(ELIF, Trim(d[5..]))
    else if d == Spelling(ELSE) then Read(ELSE, "")
    else if d == Spelling(ENDIF) then Read(ENDIF, "")
    else Nothing
  }

  /** The text after a leading #, without surrounding blanks. */
  function Body(text: string): string
    requires "#" <= Trim(text)
  {
    Trim(Trim(text)[1..])
  }

  function RawReading(line: string): Reading {
    if "#" <= Trim(line) then ScanWord(Body(line)) else Nothing
  }

  /** What the scanner makes of a raw line. */
  function Classify(line: string): Directive {
    Interpret(RawReading(line))
  }

  // ----- the frame stack -----

  datatype Frame = Frame(branches: seq<Formula>, active: Formula)

  function Step(stack: seq<Frame>, d: Directive): seq<Frame> {
    match d
    case Ordinary => stack
    case If(c) => stack + [Frame([c], c)]
    case Elif(c) =>
      if stack == [] then stack
      else
        var top := stack[|stack| - 1];
        stack[..|stack| - 1] + [Frame(top.branches + [c], Both(Not(AnyOf(top.branches)), c))]
    case Else =>
      if stack == [] then stack
      else
        var top := stack[|stack| - 1];
        stack[..|stack| - 1] + [Frame(top.branches, Not(AnyOf(top.branches)))]
    case Endif => if stack == [] then stack else stack[..|stack| - 1]
  }

  /** The stack after the first n directives. */
  function StackAt(stack: seq<Frame>, ds: seq<Directive>, n: nat): seq<Frame>
    requires n <= |ds|
  {
    if n == 0 then stack else Step(StackAt(stack, ds, n - 1), ds[n - 1])
  }

  function Actives(stack: seq<Frame>): seq<Formula> {
    seq(|stack|, k requires 0 <= k < |stack| => stack[k].active)
  }

  function Directives(lines: seq<string>): seq<Directive> {
    seq(|lines|, k requires 0 <= k < |lines| => Classify(lines[k]))
  }

  /** The conditions recorded for the i-th line, all of which must hold. */
  function Recorded(ds: seq<Directive>, i: nat): seq<Formula>
    requires i < |ds|
  {
    Actives(StackAt([], ds, i + 1))
  }

  method ActiveConditions(stack: seq<Frame>) returns (active: seq<Formula>)
    ensures active == Actives(stack)
  {
    active := [];
    for k := 0 to |stack|
      invariant active == Actives(stack)[..k]
    {
      active := active + [stack[k].active];
    }
  }

  /** The recorded conditions as a map by line number, counted from 1; a line under no condition has no entry. */
  ghost predicate Records(result: map<nat, seq<Formula>>, ds: seq<Directive>, n: nat) {
    && n <= |ds|
    && (forall line :: line in result ==> 1 <= line <= n && result[line] == Recorded(ds, line - 1) != [])
    && (forall i :: 0 <= i < n && Recorded(ds, i) != [] ==> i + 1 in result)
  }

  lemma RecordsNext(result: map<nat, seq<Formula>>, ds: seq<Directive>, n: nat)
    requires n < |ds| && Records(result, ds, n)
    ensures Records(if Recorded(ds, n) == [] then result else result[n + 1 := Recorded(ds, n)], ds, n + 1)
  {
  }

  method SourceConditions(lang: string, lines: seq<string>) returns (result: map<nat, seq<Formula>>)
    ensures lang != "cpp" ==> result == map[]
    ensures lang == "cpp" ==> Records(result, Directives(lines), |lines|)
  {
    result := map[];
    if lang != "cpp" {
      return;
    }
    var stack: seq<Frame> := [];
    ghost var ds := Directives(lines);
    for index := 0 to |lines|
      invariant stack == StackAt([], ds, index)
      invariant Records(result, ds, index)
    {
      RecordsNext(result, ds, index);
      var d := Classify(lines[index]);
      stack := Step(stack, d);
      var active := ActiveConditions(stack);
      if |active| > 0 {
        result := result[index + 1 := active];
      }
    }
  }

  // ----- conditional inclusion (section 6.10.1 of ISO/IEC 9899:2011) -----

  /** A group of lines, and the part of an if-section after its first group. */
  datatype Group = Nil | Line(rest: Group) | Section(cond: Formula, body: Group, alts: Alts, after: Group)
  datatype Alts = End | ElseGroup(body: Group) | ElifGroup(cond: Formula, body: Group, alts: Alts)

  function Flatten(g: Group): seq<Directive> {
    match g
    case Nil => []
    case Line(rest) => [Ordinary] + Flatten(rest)
    case Section(c, body, alts, after) => [If(c)] + Flatten(body) + FlattenAlts(alts) + Flatten(after)
  }

  function FlattenAlts(a: Alts): seq<Directive> {
    match a
    case End => [Endif]
    case ElseGroup(body) => [Else] + Flatten(body) + [Endif]
    case ElifGroup(c, body, alts) => [Elif(c)] + Flatten(body) + FlattenAlts(alts)
  }

  /** For each line, whether it is kept; directives themselves count as kept. A group is processed when its condition
      is the first true one of its section; an #else group when none was true. */
  function Kept(g: Group, live: bool, truth: Truth): seq<bool> {
    match g
    case Nil => []
    case Line(rest) => [live] + Kept(rest, live, truth)
    case Section(c, body, alts, after) =>
      [true] + Kept(body, live && Holds(c, truth), truth) + KeptAlts(alts, live, Holds(c, truth), truth)
      + Kept(after, live, truth)
  }

  function KeptAlts(a: Alts, live: bool, taken: bool, truth: Truth): seq<bool> {
    match a
    case End => [true]
    case ElseGroup(body) => [true] + Kept(body, live && !taken, truth) + [true]
    case ElifGroup(c, body, alts) =>
      [true] + Kept(body, live && !taken && Holds(c, truth), truth)
      + KeptAlts(alts, live, taken || Holds(c, truth), truth)
  }

  /** The verdict of the recorded condition on the i-th line, from a given stack. */
  predicate Verdict(stack: seq<Frame>, ds: seq<Directive>, i: nat, truth: Truth)
    requires i < |ds|
  {
    ds[i].Ordinary? ==> All(Actives(StackAt(stack, ds, i + 1)), truth)
  }

  function Verdicts(stack: seq<Frame>, ds: seq<Directive>, truth: Truth): seq<bool> {
    seq(|ds|, i requires 0 <= i < |ds| => Verdict(stack, ds, i, truth))
  }

  function Final(stack: seq<Frame>, ds: seq<Directive>): seq<Frame> {
    StackAt(stack, ds, |ds|)
  }

  lemma {:induction false} StackPrefix(stack: seq<Frame>, a: seq<Directive>, b: seq<Directive>, n: nat)
    requires n <= |a|
    ensures StackAt(stack, a + b, n) == StackAt(stack, a, n)
  {
    if n > 0 {
      StackPrefix(stack, a, b, n - 1);
    }
  }

  lemma {:induction false} StackSuffix(stack: seq<Frame>, a: seq<Directive>, b: seq<Directive>, n: nat)
    requires n <= |b|
    ensures StackAt(stack, a + b, |a| + n) == StackAt(Final(stack, a), b, n)
  {
    if n == 0 {
      StackPrefix(stack, a, b, |a|);
    } else {
      StackSuffix(stack, a, b, n - 1);
    }
  }

  lemma VerdictsConcat(stack: seq<Frame>, a: seq<Directive>, b: seq<Directive>, truth: Truth)
    ensures Verdicts(stack, a + b, truth) == Verdicts(stack, a, truth) + Verdicts(Final(stack, a), b, truth)
    ensures Final(stack, a + b) == Final(Final(stack, a), b)
  {
    StackSuffix(stack, a, b, |b|);
    forall i | 0 <= i < |a| + |b|
      ensures Verdict(stack, a + b, i, truth) == (Verdicts(stack, a, truth) + Verdicts(Final(stack, a), b, truth))[i]
    {
      if i < |a| {
        StackPrefix(stack, a, b, i + 1);
      } else {
        StackSuffix(stack, a, b, i - |a| + 1);
      }
    }
  }

  lemma VerdictsOne(stack: seq<Frame>, d: Directive, truth: Truth)
    ensures Verdicts(stack, [d], truth) == [d.Ordinary? ==> All(Actives(Step(stack, d)), truth)]
    ensures Final(stack, [d]) == Step(stack, d)
  {
    assert StackAt(stack, [d], 0) == stack;
    assert StackAt(stack, [d], 1) == Step(stack, d);
  }

  /** Live exactly when all frames hold: one more frame adds its own condition. */
  lemma Pushed(stack: seq<Frame>, f: Frame, truth: Truth)
    ensures All(Actives(stack + [f]), truth) == (All(Actives(stack), truth) && Holds(f.active, truth))
  {
    var more, less := Actives(stack + [f]), Actives(stack);
    assert forall k :: 0 <= k < |less| ==> more[k] == less[k];
    assert more[|stack|] == f.active;
  }

  lemma AppendBranch(fs: seq<Formula>, c: Formula, truth: Truth)
    ensures Some(fs + [c], truth) == (Some(fs, truth) || Holds(c, truth))
  {
    var more := fs + [c];
    assert more[|fs|] == c && forall k :: 0 <= k < |fs| ==> more[k] == fs[k];
  }

  lemma NoneOf(fs: seq<Formula>, truth: Truth)
    ensures Holds(Not(AnyOf(fs)), truth) == !Some(fs, truth)
  {
    assert Holds(AnyOf(fs), truth) == Some(fs, truth);
  }

  /** A group leaves the stack as it was, and each of its lines gets the right verdict. */
  ghost predicate Right(stack: seq<Frame>, ds: seq<Directive>, end: seq<Frame>, kept: seq<bool>, truth: Truth) {
    Verdicts(stack, ds, truth) == kept && Final(stack, ds) == end
  }

  lemma RightConcat(s0: seq<Frame>, a: seq<Directive>, s1: seq<Frame>, x: seq<bool>, b: seq<Directive>, s2: seq<Frame>,
                    y: seq<bool>, truth: Truth)
    requires Right(s0, a, s1, x, truth) && Right(s1, b, s2, y, truth)
    ensures Right(s0, a + b, s2, x + y, truth)
  {
    VerdictsConcat(s0, a, b, truth);
  }

  lemma RightOne(stack: seq<Frame>, d: Directive, truth: Truth)
    requires !d.Ordinary?
    ensures Right(stack, [d], Step(stack, d), [true], truth)
  {
    VerdictsOne(stack, d, truth);
  }

  lemma {:induction false} GroupRight(stack: seq<Frame>, g: Group, truth: Truth)
    ensures Right(stack, Flatten(g), stack, Kept(g, All(Actives(stack), truth), truth), truth)
    decreases g
  {
    var live := All(Actives(stack), truth);
    match g
    case Nil =>
    case Line(rest) =>
      VerdictsOne(stack, Ordinary, truth);
      GroupRight(stack, rest, truth);
      RightConcat(stack, [Ordinary], stack, [live], Flatten(rest), stack, Kept(rest, live, truth), truth);
    case Section(c, body, alts, after) =>
      var taken := Holds(c, truth);
      var s1 := stack + [Frame([c], c)];
      RightOne(stack, If(c), truth);
      GroupRight(s1, body, truth);
      Pushed(stack, Frame([c], c), truth);
      RightConcat(stack, [If(c)], s1, [true], Flatten(body), s1, Kept(body, live && taken, truth), truth);
      AltsRight(stack, Frame([c], c), alts, truth);
      assert Some([c], truth) == taken by { AppendBranch([], c, truth); assert [] + [c] == [c]; }
      RightConcat(stack, [If(c)] + Flatten(body), s1, [true] + Kept(body, live && taken, truth),
                  FlattenAlts(alts), stack, KeptAlts(alts, live, taken, truth), truth);
      GroupRight(stack, after, truth);
      RightConcat(stack, [If(c)] + Flatten(body) + FlattenAlts(alts), stack,
                  [true] + Kept(body, live && taken, truth) + KeptAlts(alts, live, taken, truth),
                  Flatten(after), stack, Kept(after, live, truth), truth);
  }

  lemma {:induction false} AltsRight(stack: seq<Frame>, f: Frame, a: Alts, truth: Truth)
    ensures Right(stack + [f], FlattenAlts(a), stack,
                  KeptAlts(a, All(Actives(stack), truth), Some(f.branches, truth), truth), truth)
    decreases a
  {
    var live, taken := All(Actives(stack), truth), Some(f.branches, truth);
    var s0 := stack + [f];
    assert s0[..|s0| - 1] == stack && s0[|s0| - 1] == f;
    match a
    case End =>
      RightOne(s0, Endif, truth);
    case ElseGroup(body) =>
      var f1 := Frame(f.branches, Not(AnyOf(f.branches)));
      var s1 := stack + [f1];
      NoneOf(f.branches, truth);
      RightOne(s0, Else, truth);
      Pushed(stack, f1, truth);
      GroupRight(s1, body, truth);
      RightConcat(s0, [Else], s1, [true], Flatten(body), s1, Kept(body, live && !taken, truth), truth);
      RightOne(s1, Endif, truth);
      assert s1[..|s1| - 1] == stack;
      RightConcat(s0, [Else] + Flatten(body), s1, [true] + Kept(body, live && !taken, truth), [Endif], stack, [true],
                  truth);
    case ElifGroup(c, body, alts) =>
      var f1 := Frame(f.branches + [c], Both(Not(AnyOf(f.branches)), c));
      var s1 := stack + [f1];
      var on := live && !taken && Holds(c, truth);
      NoneOf(f.branches, truth);
      RightOne(s0, Elif(c), truth);
      Pushed(stack, f1, truth);
      AppendBranch(f.branches, c, truth);
      GroupRight(s1, body, truth);
      RightConcat(s0, [Elif(c)], s1, [true], Flatten(body), s1, Kept(body, on, truth), truth);
      AltsRight(stack, f1, alts, truth);
      RightConcat(s0, [Elif(c)] + Flatten(body), s1, [true] + Kept(body, on, truth), FlattenAlts(alts), stack,
                  KeptAlts(alts, live, taken || Holds(c, truth), truth), truth);
  }

  /** For every well-nested sequence of lines and every truth assignment, the recorded conditions of an ordinary line
      all hold exactly when conditional inclusion keeps the line. */
  lemma RecordedIffKept(g: Group, i: nat, truth: Truth)
    requires i < |Flatten(g)| && Flatten(g)[i].Ordinary?
    ensures i < |Kept(g, true, truth)|
    ensures All(Recorded(Flatten(g), i), truth) == Kept(g, true, truth)[i]
  {
    GroupRight([], g, truth);
    assert Verdicts([], Flatten(g), truth)[i] == Verdict([], Flatten(g), i, truth);
  }

  // ----- sibling branches -----

  /** The conditions the stack machine gives to the groups of one section: the first, each #elif, and #else. */
  function Branches(conds: seq<Formula>, hasElse: bool): seq<Formula>
    requires conds != []
  {
    seq(|conds|, k requires 0 <= k < |conds| =>
      if k == 0 then conds[0] else Both(Not(AnyOf(conds[..k])), conds[k]))
    + (if hasElse then [Not(AnyOf(conds))] else [])
  }

  /** The frame after an #if, #elif... with these conditions has them as branches, and the last one's condition active.
      */
  lemma {:induction false} FrameOfBranches(stack: seq<Frame>, conds: seq<Formula>)
    requires conds != []
    ensures var ds := [If(conds[0])] + seq(|conds| - 1, k requires 0 <= k < |conds| - 1 => Elif(conds[k + 1]));
            Final(stack, ds) == stack + [Frame(conds, Branches(conds, false)[|conds| - 1])]
    decreases |conds|
  {
    var n := |conds| - 1;
    var ds := [If(conds[0])] + seq(n, k requires 0 <= k < n => Elif(conds[k + 1]));
    if n == 0 {
      assert ds == [If(conds[0])] && conds == [conds[0]];
      VerdictsOne(stack, ds[0], text => true);
    } else {
      var less := conds[..n];
      var before := [If(less[0])] + seq(n - 1, k requires 0 <= k < n - 1 => Elif(less[k + 1]));
      FrameOfBranches(stack, less);
      assert ds == before + [Elif(conds[n])];
      VerdictsConcat(stack, before, [Elif(conds[n])], text => true);
      VerdictsOne(Final(stack, before), Elif(conds[n]), text => true);
      assert less + [conds[n]] == conds;
    }
  }

  lemma BranchHolds(conds: seq<Formula>, hasElse: bool, k: nat, truth: Truth)
    requires conds != [] && k < |Branches(conds, hasElse)|
    ensures Holds(Branches(conds, hasElse)[k], truth)
            <==> ((forall j :: 0 <= j < k ==> !Holds(conds[j], truth)) && (k < |conds| ==> Holds(conds[k], truth)))
  {
    if k == |conds| {
      NoneOf(conds, truth);
    } else if k > 0 {
      NoneOf(conds[..k], truth);
      assert forall j :: 0 <= j < k ==> conds[..k][j] == conds[j];
    }
  }

  /** At most one sibling branch is kept. */
  lemma SiblingsExclusive(conds: seq<Formula>, hasElse: bool, j: nat, k: nat, truth: Truth)
    requires conds != [] && j < k < |Branches(conds, hasElse)|
    ensures !(Holds(Branches(conds, hasElse)[j], truth) && Holds(Branches(conds, hasElse)[k], truth))
  {
    BranchHolds(conds, hasElse, j, truth);
    BranchHolds(conds, hasElse, k, truth);
  }

  lemma FirstTrue(conds: seq<Formula>, truth: Truth) returns (k: nat)
    ensures k <= |conds| && (k < |conds| ==> Holds(conds[k], truth))
    ensures forall j :: 0 <= j < k ==> !Holds(conds[j], truth)
  {
    k := 0;
    while k < |conds| && !Holds(conds[k], truth)
      invariant k <= |conds| && forall j :: 0 <= j < k ==> !Holds(conds[j], truth)
    {
      k := k + 1;
    }
  }

  /** Some branch is kept exactly when the section has an #else or one of its conditions is true. */
  lemma SiblingsExhaustive(conds: seq<Formula>, hasElse: bool, truth: Truth)
    requires conds != []
    ensures Some(Branches(conds, hasElse), truth) <==> hasElse || Some(conds, truth)
  {
    var bs := Branches(conds, hasElse);
    var k := FirstTrue(conds, truth);
    if k < |bs| {
      BranchHolds(conds, hasElse, k, truth);
      assert Holds(bs[k], truth);
    } else {
      forall j | 0 <= j < |bs| ensures !Holds(bs[j], truth) {
        BranchHolds(conds, hasElse, j, truth);
      }
    }
  }

  // ----- the recorded text -----

  /** The text of a formula as it is recorded. */
  function Show(f: Formula): string {
    match f
    case Atom(text) => text
    case Not(arg) => "!" + Show(arg)
    case Both(left, right) => Show(left) + AND + Enclosed(Show(right))
    case AnyOf(args) => Enclosed(ShowAny(args, 0))
  }

  function ShowAny(args: seq<Formula>, k: nat): string
    requires k <= |args|
    decreases args, |args| - k
  {
    if k == |args| then ""
    else if k == |args| - 1 then Show(args[k])
    else Show(args[k]) + " || " + ShowAny(args, k + 1)
  }

  /** The text recorded for a line under these conditions. */
  function ShowAll(fs: seq<Formula>, k: nat): string
    requires k <= |fs|
    decreases |fs| - k
  {
    if k == |fs| then ""
    else if k == |fs| - 1 then Enclosed(Show(fs[k]))
    else Enclosed(Show(fs[k])) + AND + ShowAll(fs, k + 1)
  }

  ghost predicate BalancedAtoms(f: Formula) {
    match f
    case Atom(text) => Balanced(text)
    case Not(arg) => BalancedAtoms(arg)
    case Both(left, right) => BalancedAtoms(left) && BalancedAtoms(right)
    case AnyOf(args) => forall k :: 0 <= k < |args| ==> BalancedAtoms(args[k])
  }

  lemma BalancedJoin(a: string, sep: string, b: string)
    requires Balanced(a) && Balanced(b) && forall k :: 0 <= k < |sep| ==> sep[k] != '(' && sep[k] != ')'
    ensures Balanced(a + sep + b)
  {
    PlainBalanced(sep, 0);
    BalancedConcat(a, sep);
    BalancedConcat(a + sep, b);
  }

  lemma {:induction false} ShowBalanced(f: Formula)
    requires BalancedAtoms(f)
    ensures Balanced(Show(f))
    decreases f
  {
    match f
    case Atom(_) =>
    case Not(arg) =>
      ShowBalanced(arg);
      PlainBalanced("!", 0);
      BalancedConcat("!", Show(arg));
    case Both(left, right) =>
      ShowBalanced(left);
      ShowBalanced(right);
      BalancedEnclosed(Show(right));
      BalancedJoin(Show(left), AND, Enclosed(Show(right)));
    case AnyOf(args) =>
      ShowAnyBalanced(args, 0);
      BalancedEnclosed(ShowAny(args, 0));
  }

  lemma {:induction false} ShowAnyBalanced(args: seq<Formula>, k: nat)
    requires k <= |args| && forall j :: 0 <= j < |args| ==> BalancedAtoms(args[j])
    ensures Balanced(ShowAny(args, k))
    decreases args, |args| - k
  {
    if k == |args| {
      PlainBalanced("", 0);
    } else {
      ShowBalanced(args[k]);
      if k < |args| - 1 {
        ShowAnyBalanced(args, k + 1);
        BalancedJoin(Show(args[k]), " || ", ShowAny(args, k + 1));
      }
    }
  }

  /** Conditions recorded from balanced #if expressions are balanced texts. */
  lemma {:induction false} RecordedBalanced(fs: seq<Formula>, k: nat)
    requires k <= |fs| && forall j :: 0 <= j < |fs| ==> BalancedAtoms(fs[j])
    ensures Balanced(ShowAll(fs, k))
    decreases |fs| - k
  {
    if k == |fs| {
      PlainBalanced("", 0);
    } else {
      ShowBalanced(fs[k]);
      BalancedEnclosed(Show(fs[k]));
      if k < |fs| - 1 {
        RecordedBalanced(fs, k + 1);
        BalancedJoin(Enclosed(Show(fs[k])), AND, ShowAll(fs, k + 1));
      }
    }
  }
}
