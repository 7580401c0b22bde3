/** The strings that the preprocessor scanner keeps and records (tools/codegraph/semantic_facts.go), against the
    formulas that stand for them. */
module ConditionStrings {
  import opened Text
  import opened ConditionText
  import opened SourceConditions

  /** strings.Join. */
  function Join(parts: seq<string>, sep: string): string {
    if parts == [] then "" else if |parts| == 1 then parts[0] else parts[0] + sep + Join(parts[1..], sep)
  }

  datatype TextFrame = TextFrame(branches: seq<string>, active: string)

  /** None of the branches seen. */
  function NoBranch(branches: seq<string>): string {
    "!(" + Join(branches, " || ") + ")"
  }

  function Opening(value: string): TextFrame {
    TextFrame([value], value)
  }

  /** What a line does to the stack of strings. */
  function StepText(stack: seq<TextFrame>, r: Reading): seq<TextFrame> {
    match r
    case Nothing => stack
    case Read(word, arg) =>
      match word
      case IFDEF => stack + [Opening("defined(" + arg + ")")]
      case IFNDEF => stack + [Opening("!defined(" + arg + ")")]
      case IF => stack + [Opening(arg)]
      case ELIF =>
        if stack == [] then stack
        else
          var top := stack[|stack| - 1];
          stack[..|stack| - 1] + [TextFrame(top.branches + [arg], NoBranch(top.branches) + " && (" + arg + ")")]
      case ELSE =>
        if stack == [] then stack
        else
          var top := stack[|stack| - 1];
          stack[..|stack| - 1] + [TextFrame(top.branches, NoBranch(top.branches))]
      case ENDIF => if stack == [] then stack else stack[..|stack| - 1]
  }

  /** The active conditions in parentheses, those that are not empty. */
  function Enclosings(stack: seq<TextFrame>): seq<string> {
    if stack == [] then []
    else (if stack[0].active != "" then ["(" + stack[0].active + ")"] else []) + Enclosings(stack[1..])
  }

  function RecordText(stack: seq<TextFrame>): string {
    Join(Enclosings(stack), " && ")
  }

  /** The stack after the first n readings. */
  function TextStackAt(readings: seq<Reading>, n: nat): seq<TextFrame>
    requires n <= |readings|
  {
    if n == 0 then [] else StepText(TextStackAt(readings, n - 1), readings[n - 1])
  }

  /** What the scanner reads line by line. */
  function RawReadings(lines: seq<string>): seq<Reading> {
    seq(|lines|, k requires 0 <= k < |lines| => RawReading(lines[k]))
  }

  // ----- the formulas show as these strings -----

  function Shown(fs: seq<Formula>): seq<string> {
    seq(|fs|, k requires 0 <= k < |fs| => Show(fs[k]))
  }

  function TextOf(f: Frame): TextFrame {
    TextFrame(Shown(f.branches), Show(f.active))
  }

  function TextsOf(stack: seq<Frame>): seq<TextFrame> {
    seq(|stack|, k requires 0 <= k < |stack| => TextOf(stack[k]))
  }

  lemma {:induction false} JoinShows(fs: seq<Formula>, k: nat)
    requires k <= |fs|
    ensures Join(Shown(fs)[k..], " || ") == ShowAny(fs, k)
    decreases |fs| - k
  {
    var parts := Shown(fs)[k..];
    if k < |fs| - 1 {
      JoinShows(fs, k + 1);
      assert parts[1..] == Shown(fs)[k + 1..];
    }
  }

  lemma NoBranchShows(fs: seq<Formula>)
    ensures Show(Not(AnyOf(fs))) == NoBranch(Shown(fs))
  {
    JoinShows(fs, 0);
    assert Shown(fs)[0..] == Shown(fs);
    assert Show(AnyOf(fs)) == "(" + ShowAny(fs, 0) + ")";
    assert "!" + ("(" + ShowAny(fs, 0) + ")") == "!(" + ShowAny(fs, 0) + ")";
  }

  lemma ElifShows(fs: seq<Formula>, arg: string)
    ensures Show(Both(Not(AnyOf(fs)), Atom(arg))) == NoBranch(Shown(fs)) + " && (" + arg + ")"
  {
    NoBranchShows(fs);
    assert NoBranch(Shown(fs)) + AND + ("(" + arg + ")") == NoBranch(Shown(fs)) + " && (" + arg + ")";
  }

  lemma ShownAppend(fs: seq<Formula>, f: Formula)
    ensures Shown(fs + [f]) == Shown(fs) + [Show(f)]
  {
  }

  lemma TextsPush(stack: seq<Frame>, f: Frame)
    ensures TextsOf(stack + [f]) == TextsOf(stack) + [TextOf(f)]
  {
  }

  lemma TextsPop(stack: seq<Frame>)
    requires stack != []
    ensures TextsOf(stack[..|stack| - 1]) == TextsOf(stack)[..|stack| - 1]
  {
  }

  lemma OpeningShows(c: Formula)
    ensures TextOf(Frame([c], c)) == Opening(Show(c))
  {
  }

  /** One line does to the strings what it does to the formulas. */
  lemma StepShows(stack: seq<Frame>, r: Reading)
    ensures TextsOf(Step(stack, Interpret(r))) == StepText(TextsOf(stack), r)
  {
    match r
    case Nothing =>
    case Read(word, arg) =>
      match word {
        case IFDEF => PushShows(stack, Defined(arg));
        case IFNDEF =>
          PushShows(stack, Not(Defined(arg)));
          assert "!" + ("defined(" + arg + ")") == "!defined(" + arg + ")";
        case IF => PushShows(stack, Atom(arg));
        case ELIF => if stack != [] { ElifStepShows(stack, arg); }
        case ELSE => if stack != [] { ElseStepShows(stack); }
        case ENDIF => if stack != [] { TextsPop(stack); }
      }
  }

  lemma PushShows(stack: seq<Frame>, c: Formula)
    ensures TextsOf(Step(stack, If(c))) == TextsOf(stack) + [Opening(Show(c))]
  {
    TextsPush(stack, Frame([c], c));
    OpeningShows(c);
  }

  lemma ElifStepShows(stack: seq<Frame>, arg: string)
    requires stack != []
    ensures TextsOf(Step(stack, Elif(Atom(arg)))) == StepText(TextsOf(stack), Read(ELIF, arg))
  {
    var top := stack[|stack| - 1];
    TextsPop(stack);
    TextsPush(stack[..|stack| - 1], Frame(top.branches + [Atom(arg)], Both(Not(AnyOf(top.branches)), Atom(arg))));
    ShownAppend(top.branches, Atom(arg));
    ElifShows(top.branches, arg);
  }

  lemma ElseStepShows(stack: seq<Frame>)
    requires stack != []
    ensures TextsOf(Step(stack, Else)) == StepText(TextsOf(stack), Read(ELSE, ""))
  {
    var top := stack[|stack| - 1];
    TextsPop(stack);
    TextsPush(stack[..|stack| - 1], Frame(top.branches, Not(AnyOf(top.branches))));
    NoBranchShows(top.branches);
  }

  function Interpreted(readings: seq<Reading>): seq<Directive> {
    seq(|readings|, k requires 0 <= k < |readings| => Interpret(readings[k]))
  }

  lemma {:induction false} StackShows(readings: seq<Reading>, n: nat)
    requires n <= |readings|
    ensures TextsOf(StackAt([], Interpreted(readings), n)) == TextStackAt(readings, n)
  {
    if n > 0 {
      StackShows(readings, n - 1);
      StepShows(StackAt([], Interpreted(readings), n - 1), readings[n - 1]);
    }
  }

  lemma DirectivesAre(lines: seq<string>)
    ensures Directives(lines) == Interpreted(RawReadings(lines))
  {
  }

  // ----- no condition is empty -----

  lemma SuffixInk(d: string, n: nat)
    requires Trimmed(d) && 0 < n <= |d| && IsSpace(d[n - 1])
    ensures Trim(d[n..]) != ""
  {
    var rest := d[n..];
    var lo, hi := TrimSplits(rest);
    assert n < |d| && rest[|rest| - 1] == d[|d| - 1];
  }

  lemma ScanHasArgument(d: string)
    requires Trimmed(d)
    ensures var r := ScanWord(d); r.Read? && TakesCondition(r.word) ==> r.arg != ""
  {
    if Starts(d, IFDEF) {
      assert d[5] == (Spelling(IFDEF) + " ")[5];
      SuffixInk(d, 6);
    } else if Starts(d, IFNDEF) {
      assert d[6] == (Spelling(IFNDEF) + " ")[6];
      SuffixInk(d, 7);
    } else if Starts(d, IF) {
      assert d[2] == (Spelling(IF) + " ")[2];
      SuffixInk(d, 3);
    } else if Starts(d, ELIF) {
      assert d[4] == (Spelling(ELIF) + " ")[4];
      SuffixInk(d, 5);
    }
  }

  lemma RawHasArgument(line: string)
    ensures var r := RawReading(line); r.Read? && TakesCondition(r.word) ==> r.arg != ""
  {
    if "#" <= Trim(line) {
      var lo, hi := TrimSplits(Trim(line)[1..]);
      ScanHasArgument(Body(line));
    }
  }

  ghost predicate Visible(stack: seq<TextFrame>) {
    forall k :: 0 <= k < |stack| ==> stack[k].active != ""
  }

  lemma StepVisible(stack: seq<TextFrame>, r: Reading)
    requires Visible(stack) && (r.Read? && TakesCondition(r.word) ==> r.arg != "")
    ensures Visible(StepText(stack, r))
  {
    match r
    case Nothing =>
    case Read(word, arg) =>
      match word {
        case IF =>
        case IFDEF =>
        case IFNDEF =>
        case ELIF => if stack != [] { NoBranchVisible(stack[|stack| - 1].branches); }
        case ELSE => if stack != [] { NoBranchVisible(stack[|stack| - 1].branches); }
        case ENDIF =>
      }
  }

  lemma NoBranchVisible(branches: seq<string>)
    ensures NoBranch(branches) != ""
  {
  }

  ghost predicate HaveArguments(readings: seq<Reading>) {
    forall k :: 0 <= k < |readings| && readings[k].Read? && TakesCondition(readings[k].word) ==> readings[k].arg != ""
  }

  lemma {:induction false} AlwaysVisible(readings: seq<Reading>, n: nat)
    requires n <= |readings| && HaveArguments(readings)
    ensures Visible(TextStackAt(readings, n))
  {
    if n > 0 {
      AlwaysVisible(readings, n - 1);
      StepVisible(TextStackAt(readings, n - 1), readings[n - 1]);
    }
  }

  lemma RawHaveArguments(lines: seq<string>)
    ensures HaveArguments(RawReadings(lines))
  {
    forall k | 0 <= k < |lines| {
      RawHasArgument(lines[k]);
    }
  }

  lemma {:induction false} EnclosingsShow(stack: seq<Frame>, k: nat)
    requires k <= |stack| && Visible(TextsOf(stack))
    ensures Join(Enclosings(TextsOf(stack)[k..]), " && ") == ShowAll(Actives(stack), k)
    ensures |Enclosings(TextsOf(stack)[k..])| == |stack| - k
    decreases |stack| - k
  {
    var rest := TextsOf(stack)[k..];
    if k < |stack| {
      EnclosingsShow(stack, k + 1);
      assert rest[1..] == TextsOf(stack)[k + 1..];
      var more := Enclosings(rest[1..]);
      assert Enclosings(rest) == ["(" + Show(stack[k].active) + ")"] + more;
      assert Enclosings(rest)[1..] == more;
    }
  }

  lemma TextOfReadings(readings: seq<Reading>, i: nat)
    requires i < |readings| && HaveArguments(readings)
    ensures RecordText(TextStackAt(readings, i + 1)) == ShowAll(Recorded(Interpreted(readings), i), 0)
    ensures RecordText(TextStackAt(readings, i + 1)) == "" <==> Recorded(Interpreted(readings), i) == []
  {
    var stack := StackAt([], Interpreted(readings), i + 1);
    StackShows(readings, i + 1);
    AlwaysVisible(readings, i + 1);
    EnclosingsShow(stack, 0);
    assert TextsOf(stack)[0..] == TextsOf(stack);
    assert stack != [] ==> ShowAll(Actives(stack), 0) != "";
  }

  /** The string recorded for a line, as the scanner builds it, shows the line's conditions. */
  lemma RecordedText(lines: seq<string>, i: nat)
    requires i < |lines|
    ensures RecordText(TextStackAt(RawReadings(lines), i + 1)) == ShowAll(Recorded(Directives(lines), i), 0)
    ensures RecordText(TextStackAt(RawReadings(lines), i + 1)) == "" <==> Recorded(Directives(lines), i) == []
  {
    RawHaveArguments(lines);
    DirectivesAre(lines);
    TextOfReadings(RawReadings(lines), i);
  }
}
