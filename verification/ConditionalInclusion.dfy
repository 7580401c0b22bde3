/** Conditional inclusion as C carries it out on the directives it reads (section 6.10.1 of ISO/IEC 9899:2011), and the
    conditions the scanner records (tools/codegraph/semantic_facts.go). */
module ConditionalInclusion {
  import opened SourceConditions
  import opened SourceReading

  // ----- what C does -----

  /** What an if-section opens with: #if, #ifdef or #ifndef. */
  datatype Test = Expression(text: string) | Macro(name: string) | NoMacro(name: string)

  /** The lines of a file, nested as the grammar of section 6.10 nests them. */
  datatype Part = Empty | TextLine(rest: Part) | IfSection(test: Test, body: Part, elses: Elses, after: Part)
  datatype Elses = EndIf | ElsePart(body: Part) | ElifPart(text: string, body: Part, elses: Elses)

  function TestReading(t: Test): Reading {
    match t
    case Expression(text) => Read(IF, text)
    case Macro(name) => Read(IFDEF, name)
    case NoMacro(name) => Read(IFNDEF, name)
  }

  function Readings(p: Part): seq<Reading> {
    match p
    case Empty => []
    case TextLine(rest) => [Nothing] + Readings(rest)
    case IfSection(test, body, elses, after) =>
      [TestReading(test)] + Readings(body) + ElseReadings(elses) + Readings(after)
  }

  function ElseReadings(e: Elses): seq<Reading> {
    match e
    case EndIf => [Read(ENDIF, "")]
    case ElsePart(body) => [Read(ELSE, "")] + Readings(body) + [Read(ENDIF, "")]
    case ElifPart(text, body, elses) => [Read(ELIF, text)] + Readings(body) + ElseReadings(elses)
  }

  /** `macros` are the macros that are defined, `value` tells which expressions are not zero; the operator `defined`
      says in an expression what #ifdef asks. */
  ghost predicate Evaluates(value: string -> bool, macros: iset<string>) {
    forall x: string :: value(DefinedExpression(x)) <==> x in macros
  }

  function DefinedExpression(x: string): string {
    "defined(" + x + ")"
  }

  ghost predicate Passes(t: Test, value: string -> bool, macros: iset<string>) {
    match t
    case Expression(text) => value(text)
    case Macro(name) => name in macros
    case NoMacro(name) => name !in macros
  }

  /** For each line, whether it is processed; directives themselves count as processed. */
  ghost function Processed(p: Part, live: bool, value: string -> bool, macros: iset<string>): seq<bool> {
    match p
    case Empty => []
    case TextLine(rest) => [live] + Processed(rest, live, value, macros)
    case IfSection(test, body, elses, after) =>
      var passes := Passes(test, value, macros);
      [true] + Processed(body, live && passes, value, macros) + ElseProcessed(elses, live && !passes, value, macros)
      + Processed(after, live, value, macros)
  }

  /** `open` tells whether a group of the section may still be processed. */
  ghost function ElseProcessed(e: Elses, open: bool, value: string -> bool, macros: iset<string>): seq<bool> {
    match e
    case EndIf => [true]
    case ElsePart(body) => [true] + Processed(body, open, value, macros) + [true]
    case ElifPart(text, body, elses) =>
      [true] + Processed(body, open && value(text), value, macros)
      + ElseProcessed(elses, open && !value(text), value, macros)
  }

  // ----- the formulas the scanner works with mean the same -----

  function Told(readings: seq<Reading>): seq<Directive> {
    seq(|readings|, k requires 0 <= k < |readings| => Interpret(readings[k]))
  }

  lemma ToldConcat(a: seq<Reading>, b: seq<Reading>)
    ensures Told(a + b) == Told(a) + Told(b)
  {
  }

  lemma ToldOne(r: Reading)
    ensures Told([r]) == [Interpret(r)]
  {
  }

  function ConditionOf(t: Test): Formula {
    match t
    case Expression(text) => Atom(text)
    case Macro(name) => Defined(name)
    case NoMacro(name) => Not(Defined(name))
  }

  function GroupOf(p: Part): Group {
    match p
    case Empty => Nil
    case TextLine(rest) => Line(GroupOf(rest))
    case IfSection(test, body, elses, after) =>
      Section(ConditionOf(test), GroupOf(body), AltsOf(elses), GroupOf(after))
  }

  function AltsOf(e: Elses): Alts {
    match e
    case EndIf => End
    case ElsePart(body) => ElseGroup(GroupOf(body))
    case ElifPart(text, body, elses) => ElifGroup(Atom(text), GroupOf(body), AltsOf(elses))
  }

  /** What is recorded for a test holds exactly when the test passes. */
  lemma ConditionHolds(t: Test, value: string -> bool, macros: iset<string>)
    requires Evaluates(value, macros)
    ensures Interpret(TestReading(t)) == If(ConditionOf(t))
    ensures Holds(ConditionOf(t), value) <==> Passes(t, value, macros)
  {
    match t
    case Expression(_) =>
    case Macro(name) => assert Defined(name).text == DefinedExpression(name);
    case NoMacro(name) => assert Defined(name).text == DefinedExpression(name);
  }

  lemma {:induction false} ToldIsFlat(p: Part)
    ensures Told(Readings(p)) == Flatten(GroupOf(p))
  {
    match p
    case Empty =>
    case TextLine(rest) =>
      ToldIsFlat(rest);
      ToldOne(Nothing);
      ToldConcat([Nothing], Readings(rest));
    case IfSection(test, body, elses, after) =>
      ToldIsFlat(body);
      ElsesAreFlat(elses);
      ToldIsFlat(after);
      ToldOne(TestReading(test));
      ToldConcat([TestReading(test)], Readings(body));
      ToldConcat([TestReading(test)] + Readings(body), ElseReadings(elses));
      ToldConcat([TestReading(test)] + Readings(body) + ElseReadings(elses), Readings(after));
  }

  lemma {:induction false} ElsesAreFlat(e: Elses)
    ensures Told(ElseReadings(e)) == FlattenAlts(AltsOf(e))
  {
    match e
    case EndIf => ToldOne(Read(ENDIF, ""));
    case ElsePart(body) =>
      ToldIsFlat(body);
      ToldOne(Read(ELSE, ""));
      ToldOne(Read(ENDIF, ""));
      ToldConcat([Read(ELSE, "")], Readings(body));
      ToldConcat([Read(ELSE, "")] + Readings(body), [Read(ENDIF, "")]);
    case ElifPart(text, body, elses) =>
      ToldIsFlat(body);
      ElsesAreFlat(elses);
      ToldOne(Read(ELIF, text));
      ToldConcat([Read(ELIF, text)], Readings(body));
      ToldConcat([Read(ELIF, text)] + Readings(body), ElseReadings(elses));
  }

  lemma {:induction false} KeptIsProcessed(p: Part, live: bool, value: string -> bool, macros: iset<string>)
    requires Evaluates(value, macros)
    ensures Kept(GroupOf(p), live, value) == Processed(p, live, value, macros)
  {
    match p
    case Empty =>
    case TextLine(rest) => KeptIsProcessed(rest, live, value, macros);
    case IfSection(test, body, elses, after) =>
      ConditionHolds(test, value, macros);
      var passes := Passes(test, value, macros);
      KeptIsProcessed(body, live && passes, value, macros);
      AltsAreProcessed(elses, live, passes, value, macros);
      KeptIsProcessed(after, live, value, macros);
  }

  lemma {:induction false} AltsAreProcessed(e: Elses, live: bool, taken: bool, value: string -> bool,
                                            macros: iset<string>)
    requires Evaluates(value, macros)
    ensures KeptAlts(AltsOf(e), live, taken, value) == ElseProcessed(e, live && !taken, value, macros)
  {
    match e
    case EndIf =>
    case ElsePart(body) => KeptIsProcessed(body, live && !taken, value, macros);
    case ElifPart(text, body, elses) =>
      KeptIsProcessed(body, live && !taken && value(text), value, macros);
      AltsAreProcessed(elses, live, taken || value(text), value, macros);
  }

  // ----- whole files -----

  /** The directives of a file as C reads them. */
  function FileReadings(lines: seq<string>): seq<Reading> {
    seq(|lines|, k requires 0 <= k < |lines| => CReading(lines, k))
  }

  /** In a file that the scanner reads as C does, the conditions recorded for a line that is no directive all hold
      exactly when C processes the line, for all macros and all values of the expressions. */
  lemma FileRecordedIffKept(lines: seq<string>, p: Part, i: nat, value: string -> bool, macros: iset<string>)
    requires FileReadings(lines) == Readings(p) && i < |lines| && Evaluates(value, macros)
    requires forall k :: 0 <= k < |lines| ==> RawReading(lines[k]) == CReading(lines, k)
    requires CReading(lines, i).Nothing?
    ensures i < |Directives(lines)| && i < |Processed(p, true, value, macros)|
    ensures All(Recorded(Directives(lines), i), value) == Processed(p, true, value, macros)[i]
  {
    ToldIsFlat(p);
    KeptIsProcessed(p, true, value, macros);
    FileIsTold(lines);
    RecordedIffKept(GroupOf(p), i, value);
  }

  lemma FileIsTold(lines: seq<string>)
    requires forall k :: 0 <= k < |lines| ==> RawReading(lines[k]) == CReading(lines, k)
    ensures Directives(lines) == Told(FileReadings(lines))
  {
    forall k | 0 <= k < |lines| ensures Directives(lines)[k] == Told(FileReadings(lines))[k] {
      assert FileReadings(lines)[k] == CReading(lines, k);
    }
  }
}
