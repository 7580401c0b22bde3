/** Which lines the preprocessor scanner reads as the C preprocessor does: line splices and comments are resolved before
    directives (section 5.1.1.2 of ISO/IEC 9899:2011), the scanner looks at raw lines
    (tools/codegraph/semantic_facts.go). */
module SourceReading {
  import opened Text
  import opened SourceConditions

  // ----- words -----

  predicate IsWordChar(ch: char) {
    'a' <= ch <= 'z' || 'A' <= ch <= 'Z' || '0' <= ch <= '9' || ch == '_'
  }

  function WordEnd(s: string, i: nat): (k: nat)
    requires i <= |s|
    ensures i <= k <= |s|
    decreases |s| - i
  {
    if i < |s| && IsWordChar(s[i]) then WordEnd(s, i + 1) else i
  }

  lemma {:induction false} WordEndIs(s: string, i: nat, e: nat)
    requires i <= e <= |s| && forall k :: i <= k < e ==> IsWordChar(s[k])
    ensures WordEnd(s, i) == e <==> (e == |s| || !IsWordChar(s[e]))
    decreases e - i
  {
    if i < e {
      WordEndIs(s, i + 1, e);
    }
  }

  /** The word the directive text begins with. */
  predicate Begins(d: string, w: Word) {
    d[..WordEnd(d, 0)] == Spelling(w)
  }

  predicate SpaceFollows(d: string) {
    WordEnd(d, 0) < |d| && d[WordEnd(d, 0)] == ' '
  }

  predicate NothingFollows(d: string) {
    WordEnd(d, 0) == |d|
  }

  lemma SpellingIsWord(w: Word)
    ensures Spelling(w) != [] && forall k :: 0 <= k < |Spelling(w)| ==> IsWordChar(Spelling(w)[k])
  {
  }

  lemma SpellingsDiffer(v: Word, w: Word)
    ensures Spelling(v) == Spelling(w) ==> v == w
  {
    var a, b := Spelling(v), Spelling(w);
    if a == b && |a| == 4 {
      assert a[1] == b[1] && a[2] == b[2];
    }
    if a == b && |a| == 5 {
      assert a[0] == b[0];
    }
  }

  /** A prefix test with the space is a test of the first word and of the character after it. */
  lemma StartsIff(d: string, w: Word)
    ensures Starts(d, w) <==> Begins(d, w) && SpaceFollows(d)
    ensures d == Spelling(w) <==> Begins(d, w) && NothingFollows(d)
    ensures Begins(d, w) ==> WordEnd(d, 0) == |Spelling(w)|
  {
    var s := Spelling(w);
    var n := |s|;
    SpellingIsWord(w);
    if Starts(d, w) {
      assert forall k :: 0 <= k < n ==> d[k] == (s + " ")[k] == s[k];
      assert d[n] == (s + " ")[n];
      WordEndIs(d, 0, n);
      assert d[..n] == s;
    }
    if d == s {
      WordEndIs(d, 0, |d|);
      assert d[..|d|] == d;
    }
  }

  /** The spelling the scanner expects: a space after a directive that takes a condition, nothing after the others. */
  predicate Plain(d: string) {
    forall w: Word :: Begins(d, w) ==> if TakesCondition(w) then SpaceFollows(d) else NothingFollows(d)
  }

  lemma OneWord(d: string, v: Word, w: Word)
    ensures Begins(d, v) && Begins(d, w) ==> v == w
  {
    SpellingsDiffer(v, w);
  }

  /** What the scanner reads when the text begins with a given word. */
  lemma ScansWord(d: string, w: Word)
    requires Begins(d, w)
    ensures ScanWord(d) == if TakesCondition(w) && SpaceFollows(d) then Read(w, Trim(d[WordEnd(d, 0) + 1..]))
                           else if !TakesCondition(w) && NothingFollows(d) then Read(w, "")
                           else Nothing
  {
    StartsIff(d, IFDEF);
    StartsIff(d, IFNDEF);
    StartsIff(d, IF);
    StartsIff(d, ELIF);
    StartsIff(d, ELSE);
    StartsIff(d, ENDIF);
    OneWord(d, w, IFDEF);
    OneWord(d, w, IFNDEF);
    OneWord(d, w, IF);
    OneWord(d, w, ELIF);
    OneWord(d, w, ELSE);
    OneWord(d, w, ENDIF);
  }

  lemma ScansNothing(d: string)
    requires forall w: Word :: !Begins(d, w)
    ensures ScanWord(d) == Nothing
  {
    StartsIff(d, IFDEF);
    StartsIff(d, IFNDEF);
    StartsIff(d, IF);
    StartsIff(d, ELIF);
    StartsIff(d, ELSE);
    StartsIff(d, ENDIF);
  }

  // ----- what the C preprocessor sees -----

  /** A line of a file is what stands between two line feeds; C takes a carriage return before one for part of the line
      end. */
  function Chomp(line: string): string {
    if line != "" && line[|line| - 1] == '\r' then line[..|line| - 1] else line
  }

  predicate Backslashed(s: string) {
    s != "" && s[|s| - 1] == '\\'
  }

  predicate Spliced(line: string) {
    Backslashed(Chomp(line))
  }

  lemma TrimDrops(s: string, n: nat)
    requires n + 1 == |s| && IsSpace(s[n])
    ensures Trim(s[..n]) == Trim(s)
  {
    var lo, hi := TrimSplits(s);
    if lo < hi {
      var left, mid, right := s[..lo], s[lo..hi], s[hi..n];
      assert s[..n] == left + mid + right;
      TrimPadded(left, mid, right);
    } else {
      var from, to := TrimSplits(s[..n]);
      assert from == to;
    }
  }

  /** The scanner trims the carriage return away. */
  lemma TrimChomp(line: string)
    ensures Trim(Chomp(line)) == Trim(line) && RawReading(Chomp(line)) == RawReading(line)
  {
    if line != "" && line[|line| - 1] == '\r' {
      TrimDrops(line, |line| - 1);
    }
  }

  /** The logical line that starts with the k-th physical one: splices join it with the next. */
  function Logical(lines: seq<string>, k: nat): string
    requires k < |lines|
    decreases |lines| - k
  {
    if Spliced(lines[k]) && k + 1 < |lines| then Chomp(lines[k])[..|Chomp(lines[k])| - 1] + Logical(lines, k + 1)
    else Chomp(lines[k])
  }

  /** The k-th line continues an earlier one. */
  predicate Continued(lines: seq<string>, k: nat)
    requires k < |lines|
  {
    k > 0 && Spliced(lines[k - 1])
  }

  /** Where the logical line begins that the k-th line belongs to. */
  function StartOf(lines: seq<string>, k: nat): (j: nat)
    requires k < |lines|
    ensures j <= k
  {
    if Continued(lines, k) then StartOf(lines, k - 1) else k
  }

  datatype Mode = Code | Literal(mark: char) | Comment

  predicate Pair(s: string, i: nat, a: char, b: char) {
    i + 1 < |s| && s[i] == a && s[i + 1] == b
  }

  /** The text from `i` on with each comment replaced by a space; comments are not looked for in literals. */
  function Strip(s: string, i: nat, m: Mode): string
    requires i <= |s|
    decreases |s| - i
  {
    if i == |s| then ""
    else
      match m
      case Comment => if Pair(s, i, '*', '/') then Strip(s, i + 2, Code) else Strip(s, i + 1, Comment)
      case Literal(mark) =>
        if s[i] == '\\' && i + 1 < |s| then s[i..i + 2] + Strip(s, i + 2, m)
        else [s[i]] + Strip(s, i + 1, if s[i] == mark then Code else m)
      case Code =>
        if Pair(s, i, '/', '/') then " "
        else if Pair(s, i, '/', '*') then " " + Strip(s, i + 2, Comment)
        else [s[i]] + Strip(s, i + 1, if s[i] == '"' || s[i] == '\'' then Literal(s[i]) else Code)
  }

  /** Whether a comment is open after the line. */
  function After(s: string, i: nat, m: Mode): Mode
    requires i <= |s|
    decreases |s| - i
  {
    if i == |s| then (if m.Comment? then Comment else Code)
    else
      match m
      case Comment => if Pair(s, i, '*', '/') then After(s, i + 2, Code) else After(s, i + 1, Comment)
      case Literal(mark) =>
        if s[i] == '\\' && i + 1 < |s| then After(s, i + 2, m) else After(s, i + 1, if s[i] == mark then Code else m)
      case Code =>
        if Pair(s, i, '/', '/') then Code
        else if Pair(s, i, '/', '*') then After(s, i + 2, Comment)
        else After(s, i + 1, if s[i] == '"' || s[i] == '\'' then Literal(s[i]) else Code)
  }

  function ModeAt(lines: seq<string>, k: nat): Mode
    requires k < |lines|
  {
    if k == 0 then Code
    else
      var j := StartOf(lines, k - 1);
      After(Logical(lines, j), 0, ModeAt(lines, j))
  }

  /** The text of the logical line that starts here, without comments. */
  function CText(lines: seq<string>, k: nat): string
    requires k < |lines|
  {
    Strip(Logical(lines, k), 0, ModeAt(lines, k))
  }

  /** The text after the word; C takes none after #else and #endif. */
  function ArgumentOf(d: string, w: Word): string {
    if TakesCondition(w) then Trim(d[WordEnd(d, 0)..]) else ""
  }

  /** The first word decides. */
  function CWord(d: string): Reading {
    if Begins(d, IF) then Read(IF, ArgumentOf(d, IF))
    else if Begins(d, IFDEF) then Read(IFDEF, ArgumentOf(d, IFDEF))
    else if Begins(d, IFNDEF) then Read(IFNDEF, ArgumentOf(d, IFNDEF))
    else if Begins(d, ELIF) then Read(ELIF, ArgumentOf(d, ELIF))
    else if Begins(d, ELSE) then Read(ELSE, ArgumentOf(d, ELSE))
    else if Begins(d, ENDIF) then Read(ENDIF, ArgumentOf(d, ENDIF))
    else Nothing
  }

  /** The length of the # that opens a directive, or of its digraph (section 6.4.6 of ISO/IEC 9899:2011). */
  function HashEnd(t: string): (n: nat)
    ensures n <= |t|
  {
    if "#" <= t then 1 else if "%:" <= t then 2 else 0
  }

  function CBody(text: string): string {
    Trim(Trim(text)[HashEnd(Trim(text))..])
  }

  function ReadC(text: string): Reading {
    if HashEnd(Trim(text)) > 0 then CWord(CBody(text)) else Nothing
  }

  function CReading(lines: seq<string>, k: nat): Reading
    requires k < |lines|
  {
    if Continued(lines, k) then Nothing else ReadC(CText(lines, k))
  }

  lemma CReads(d: string, w: Word)
    requires Begins(d, w)
    ensures CWord(d) == Read(w, ArgumentOf(d, w))
  {
    OneWord(d, w, IFDEF);
    OneWord(d, w, IFNDEF);
    OneWord(d, w, IF);
    OneWord(d, w, ELIF);
    OneWord(d, w, ELSE);
    OneWord(d, w, ENDIF);
  }

  lemma CReadsBegins(d: string)
    ensures CWord(d).Read? ==> Begins(d, CWord(d).word) && CWord(d).arg == ArgumentOf(d, CWord(d).word)
    ensures CWord(d).Nothing? ==> forall w: Word :: !Begins(d, w)
  {
  }

  // ----- ink: the characters that are not white space -----

  function Ink(s: string, i: nat): nat
    requires i <= |s|
    decreases |s| - i
  {
    if i == |s| then 0 else (if IsSpace(s[i]) then 0 else 1) + Ink(s, i + 1)
  }

  lemma {:induction false} InkSuffix(a: string, b: string, j: nat)
    requires j <= |b|
    ensures Ink(a + b, |a| + j) == Ink(b, j)
    decreases |b| - j
  {
    if j < |b| {
      InkSuffix(a, b, j + 1);
    }
  }

  lemma {:induction false} InkConcat(a: string, b: string, i: nat)
    requires i <= |a|
    ensures Ink(a + b, i) == Ink(a, i) + Ink(b, 0)
    decreases |a| - i
  {
    if i == |a| {
      InkSuffix(a, b, 0);
    } else {
      InkConcat(a, b, i + 1);
    }
  }

  lemma InkCut(s: string, n: nat)
    requires n <= |s|
    ensures Ink(s, 0) == Ink(s[..n], 0) + Ink(s[n..], 0)
  {
    assert s == s[..n] + s[n..];
    InkConcat(s[..n], s[n..], 0);
  }

  lemma {:induction false} InkBlank(s: string, i: nat)
    requires i <= |s| && forall k :: i <= k < |s| ==> IsSpace(s[k])
    ensures Ink(s, i) == 0
    decreases |s| - i
  {
    if i < |s| {
      InkBlank(s, i + 1);
    }
  }

  lemma {:induction false} InkFull(s: string, i: nat)
    requires i <= |s| && forall k :: i <= k < |s| ==> !IsSpace(s[k])
    ensures Ink(s, i) == |s| - i
    decreases |s| - i
  {
    if i < |s| {
      InkFull(s, i + 1);
    }
  }

  lemma InkBetween(s: string, lo: nat, hi: nat)
    requires lo <= hi <= |s| && forall k :: 0 <= k < lo || hi <= k < |s| ==> IsSpace(s[k])
    ensures Ink(s[lo..hi], 0) == Ink(s, 0)
  {
    var left, mid, right := s[..lo], s[lo..hi], s[hi..];
    assert s == left + (mid + right);
    InkBlank(left, 0);
    InkBlank(right, 0);
    InkConcat(left, mid + right, 0);
    InkConcat(mid, right, 0);
  }

  lemma InkTrim(s: string)
    ensures Ink(Trim(s), 0) == Ink(s, 0)
  {
    var lo, hi := TrimSplits(s);
    InkBetween(s, lo, hi);
  }

  lemma BodyInk(text: string)
    requires "#" <= Trim(text)
    ensures Ink(text, 0) == 1 + Ink(Body(text), 0)
  {
    var t := Trim(text);
    InkTrim(text);
    InkCut(t, 1);
    assert t[..1] == "#" && Ink("#", 1) == 0;
    InkTrim(t[1..]);
  }

  lemma CBodyInk(text: string)
    requires HashEnd(Trim(text)) > 0
    ensures Ink(text, 0) >= 1 + Ink(CBody(text), 0)
  {
    var t := Trim(text);
    var n := HashEnd(t);
    InkTrim(text);
    InkCut(t, n);
    assert t[..n][0] == t[0] && !IsSpace(t[0]);
    InkTrim(t[n..]);
  }

  lemma WordInk(d: string, w: Word)
    requires Begins(d, w)
    ensures Ink(d, 0) == |Spelling(w)| + Ink(d[WordEnd(d, 0)..], 0)
  {
    SpellingIsWord(w);
    InkFull(Spelling(w), 0);
    InkCut(d, WordEnd(d, 0));
  }

  /** What a reading of the scanner says about the text. */
  lemma ScanBegins(d: string)
    ensures var r := ScanWord(d);
            r.Read? ==> && Begins(d, r.word)
                        && if TakesCondition(r.word) then SpaceFollows(d) && r.arg == Trim(d[WordEnd(d, 0) + 1..])
                           else NothingFollows(d) && r.arg == ""
  {
    if w: Word :| Begins(d, w) {
      ScansWord(d, w);
    } else {
      ScansNothing(d);
    }
  }

  lemma ScanInk(d: string)
    ensures ScanWord(d).Read? ==> Ink(d, 0) == |Spelling(ScanWord(d).word)| + Ink(ScanWord(d).arg, 0)
  {
    var r, e := ScanWord(d), WordEnd(d, 0);
    ScanBegins(d);
    if r.Read? {
      WordInk(d, r.word);
      if TakesCondition(r.word) {
        InkCut(d[e..], 1);
        assert d[e..][..1] == " " && d[e..][1..] == d[e + 1..];
        InkBlank(" ", 0);
        InkTrim(d[e + 1..]);
      }
    }
  }

  lemma RawInk(line: string)
    ensures RawReading(line).Read? ==>
              Ink(line, 0) == 1 + |Spelling(RawReading(line).word)| + Ink(RawReading(line).arg, 0)
  {
    if "#" <= Trim(line) {
      BodyInk(line);
      ScanInk(Body(line));
    }
  }

  lemma CInk(text: string)
    ensures ReadC(text).Read? ==> Ink(text, 0) >= 1 + |Spelling(ReadC(text).word)| + Ink(ReadC(text).arg, 0)
  {
    if HashEnd(Trim(text)) > 0 {
      var d := CBody(text);
      CBodyInk(text);
      CReadsBegins(d);
      if CWord(d).Read? {
        WordInk(d, CWord(d).word);
        InkTrim(d[WordEnd(d, 0)..]);
      }
    }
  }

  // ----- comments cost ink -----

  lemma InkPrepend(c: char, s: string)
    ensures Ink([c] + s, 0) == (if IsSpace(c) then 0 else 1) + Ink(s, 0)
  {
    InkConcat([c], s, 0);
    assert Ink([c], 1) == 0;
  }

  /** What stripping a text does to its ink: it stays at most the same, and the same only if the text stays the same. */
  ghost predicate Costs(s: string, i: nat, m: Mode)
    requires i <= |s|
  {
    && Ink(Strip(s, i, m), 0) <= Ink(s, i)
    && (!m.Comment? && Ink(Strip(s, i, m), 0) == Ink(s, i) ==> Strip(s, i, m) == s[i..])
    && (m.Comment? && Ink(s, i) > 0 ==> Ink(Strip(s, i, m), 0) < Ink(s, i))
  }

  lemma KeepsChar(s: string, i: nat, m: Mode, m': Mode)
    requires i < |s| && !m.Comment? && !m'.Comment? && Costs(s, i + 1, m')
    requires Strip(s, i, m) == [s[i]] + Strip(s, i + 1, m')
    ensures Costs(s, i, m)
  {
    InkPrepend(s[i], Strip(s, i + 1, m'));
    assert s[i..] == [s[i]] + s[i + 1..];
  }

  lemma KeepsPair(s: string, i: nat, m: Mode)
    requires i + 1 < |s| && !m.Comment? && Costs(s, i + 2, m) && Strip(s, i, m) == s[i..i + 2] + Strip(s, i + 2, m)
    ensures Costs(s, i, m)
  {
    var rest := Strip(s, i + 2, m);
    assert s[i..i + 2] + rest == [s[i]] + ([s[i + 1]] + rest);
    InkPrepend(s[i + 1], rest);
    InkPrepend(s[i], [s[i + 1]] + rest);
    assert s[i..] == s[i..i + 2] + s[i + 2..];
  }

  lemma {:induction false} StripCosts(s: string, i: nat, m: Mode)
    requires i <= |s|
    ensures Costs(s, i, m)
    decreases |s| - i
  {
    if i < |s| {
      match m
      case Comment =>
        if Pair(s, i, '*', '/') {
          StripCosts(s, i + 2, Code);
        } else {
          StripCosts(s, i + 1, Comment);
        }
      case Literal(mark) =>
        if s[i] == '\\' && i + 1 < |s| {
          StripCosts(s, i + 2, m);
          KeepsPair(s, i, m);
        } else {
          var m' := if s[i] == mark then Code else m;
          StripCosts(s, i + 1, m');
          KeepsChar(s, i, m, m');
        }
      case Code =>
        if Pair(s, i, '/', '/') {
          InkBlank(" ", 0);
        } else if Pair(s, i, '/', '*') {
          StripCosts(s, i + 2, Comment);
          InkPrepend(' ', Strip(s, i + 2, Comment));
        } else {
          var m' := if s[i] == '"' || s[i] == '\'' then Literal(s[i]) else Code;
          StripCosts(s, i + 1, m');
          KeepsChar(s, i, m, m');
        }
    }
  }

  // ----- open comments -----

  /** What is left of `w` beyond what is left of its prefix of length n. */
  ghost predicate Leaves(s: string, w: string, i: nat, m: Mode, tail: string)
    requires i <= |s| && i <= |w|
  {
    Strip(w, i, m) == Strip(s, i, m) + tail
  }

  lemma ClosedTail(w: string, i: nat) returns (tail: string)
    requires i + 4 == |w| && w[i..] == " */x"
    ensures Strip(w, i, Comment) == "x"
  {
    tail := w[i..];
    assert w[i] == tail[0] && w[i + 1] == tail[1] && w[i + 2] == tail[2] && w[i + 3] == tail[3];
    assert Strip(w, i + 4, Code) == "";
    assert Strip(w, i + 3, Code) == "x";
    assert Strip(w, i + 1, Comment) == Strip(w, i + 3, Code);
  }

  /** Outside comments a text that starts with a space keeps it. */
  lemma KeepsSpace(w: string, i: nat, m: Mode)
    requires i < |w| && w[i] == ' ' && !m.Comment?
    ensures Strip(w, i, m) != [] && Strip(w, i, m)[0] == ' '
  {
  }

  /** Text added to a line that leaves no comment open is not taken for the end of one. */
  lemma {:induction false} AddedText(s: string, w: string, i: nat, m: Mode) returns (tail: string)
    requires i <= |s| && |w| == |s| + 4 && w[..|s|] == s && w[|s|..] == " */x"
    ensures Leaves(s, w, i, m, tail) && (tail == "x" <==> After(s, i, m).Comment?)
    decreases |s| - i, 2
  {
    assert forall k :: 0 <= k < |s| ==> w[k] == w[..|s|][k] == s[k];
    assert w[|s|] == w[|s|..][0];
    if i == |s| {
      tail := Strip(w, i, m);
      if m.Comment? {
        var _ := ClosedTail(w, i);
      } else {
        KeepsSpace(w, i, m);
      }
    } else {
      tail := AddedStep(s, w, i, m);
    }
  }

  lemma {:induction false} AddedStep(s: string, w: string, i: nat, m: Mode) returns (tail: string)
    requires i < |s| && |w| == |s| + 4 && w[..|s|] == s && w[|s|..] == " */x"
    requires w[|s|] == ' ' && forall k :: 0 <= k < |s| ==> w[k] == s[k]
    ensures Leaves(s, w, i, m, tail) && (tail == "x" <==> After(s, i, m).Comment?)
    decreases |s| - i, 1
  {
    match m
    case Comment =>
      if Pair(s, i, '*', '/') {
        tail := AddedText(s, w, i + 2, Code);
      } else {
        tail := AddedText(s, w, i + 1, Comment);
      }
    case Literal(mark) => tail := AddedLiteral(s, w, i, mark);
    case Code =>
      if Pair(s, i, '/', '/') {
        tail := "";
      } else if Pair(s, i, '/', '*') {
        tail := AddedText(s, w, i + 2, Comment);
      } else {
        tail := AddedText(s, w, i + 1, if s[i] == '"' || s[i] == '\'' then Literal(s[i]) else Code);
      }
  }

  lemma {:induction false} AddedLiteral(s: string, w: string, i: nat, mark: char) returns (tail: string)
    requires i < |s| && |w| == |s| + 4 && w[..|s|] == s && w[|s|..] == " */x"
    requires w[|s|] == ' ' && forall k :: 0 <= k < |s| ==> w[k] == s[k]
    ensures Leaves(s, w, i, Literal(mark), tail) && (tail == "x" <==> After(s, i, Literal(mark)).Comment?)
    decreases |s| - i, 0
  {
    var m := Literal(mark);
    if s[i] == '\\' && i + 1 < |s| {
      tail := AddedText(s, w, i + 2, m);
      assert w[i..i + 2] == s[i..i + 2];
    } else if s[i] == '\\' {
      tail := [' '] + Strip(w, i + 2, m);
      assert w[i..i + 2] == [s[i]] + [' '];
    } else {
      tail := AddedText(s, w, i + 1, if s[i] == mark then Code else m);
    }
  }

  /** A comment is open after a line exactly when the end of a comment, put behind it, is swallowed with all before it.
      */
  lemma CommentStaysOpen(s: string, m: Mode)
    ensures After(s, 0, m).Comment? <==> Strip(s + " */x", 0, m) == Strip(s, 0, m) + "x"
  {
    var w, kept := s + " */x", Strip(s, 0, m);
    assert w[..|s|] == s && w[|s|..] == " */x";
    var tail := AddedText(s, w, 0, m);
    assert (kept + tail)[|kept|..] == tail && (kept + "x")[|kept|..] == "x";
  }

  // ----- splices leave a backslash -----

  lemma TrimLast(s: string)
    requires s != "" && !IsSpace(s[|s| - 1])
    ensures Trim(s) != "" && Trim(s)[|Trim(s)| - 1] == s[|s| - 1]
  {
    var lo, hi := TrimSplits(s);
    assert hi == |s|;
  }

  lemma TrimIsTrimmed(s: string)
    ensures Trimmed(Trim(s))
  {
    var lo, hi := TrimSplits(s);
  }

  lemma BodySpliced(line: string)
    requires Backslashed(line) && "#" <= Trim(line)
    ensures Backslashed(Body(line))
  {
    TrimLast(line);
    var t := Trim(line);
    assert t[0] == '#' && |t| > 1;
    TrimLast(t[1..]);
  }

  lemma BareNotSpliced(d: string, w: Word)
    requires Begins(d, w) && NothingFollows(d)
    ensures !Backslashed(d)
  {
    SpellingIsWord(w);
    assert d[..|d|] == d;
  }

  lemma ScanSpliced(d: string)
    requires Backslashed(d) && ScanWord(d).Read?
    ensures Backslashed(ScanWord(d).arg)
  {
    ScanBegins(d);
    var w, e := ScanWord(d).word, WordEnd(d, 0);
    if TakesCondition(w) {
      TrimLast(d[e + 1..]);
    } else {
      BareNotSpliced(d, w);
    }
  }

  /** The scanner takes the backslash of a spliced directive for part of its condition. */
  lemma RawSpliced(line: string)
    requires Spliced(line) && RawReading(line).Read?
    ensures Backslashed(RawReading(line).arg)
  {
    TrimChomp(line);
    BodySpliced(Chomp(line));
    ScanSpliced(Body(Chomp(line)));
  }

  lemma TrimEmpty(s: string)
    ensures Trim(s) != "" ==> s != ""
  {
  }

  lemma LastOfSuffix(s: string, n: nat)
    requires n <= |s| && Trimmed(s) && Backslashed(Trim(s[n..]))
    ensures Backslashed(s)
  {
    TrimEmpty(s[n..]);
    TrimLast(s[n..]);
  }

  lemma CSpliced(text: string)
    requires ReadC(text).Read? && Backslashed(ReadC(text).arg)
    ensures Backslashed(Trim(text))
  {
    var t, d := Trim(text), CBody(text);
    var n := HashEnd(t);
    TrimIsTrimmed(text);
    TrimIsTrimmed(t[n..]);
    CReadsBegins(d);
    LastOfSuffix(d, WordEnd(d, 0));
    LastOfSuffix(t, n);
  }

  // ----- the scanner and C agree -----

  /** Neither a splice nor a comment touches the line. */
  predicate Unaltered(lines: seq<string>, k: nat)
    requires k < |lines|
  {
    !Continued(lines, k) && !(Spliced(lines[k]) && k + 1 < |lines|) && CText(lines, k) == Chomp(lines[k])
  }

  /** The # is spelled #, and the rest as the scanner expects. */
  predicate PlainlySpelled(line: string) {
    && ("#" <= Trim(line) ==> Plain(Body(line)))
    && ("%:" <= Trim(line) ==> forall w: Word :: !Begins(CBody(line), w))
  }

  lemma SpaceBefore(s: string)
    requires s != "" && s[0] == ' '
    ensures Trim(s) == Trim(s[1..])
  {
    assert Lead(s, 0) == Lead(s, 1);
    LeadAfter(s, 1);
    TrailAfter(s, Lead(s, 1), |s|);
    var lo, hi := Lead(s, 1), Trail(s, Lead(s, 1), |s|);
    assert s[lo..hi] == s[1..][lo - 1..hi - 1];
  }

  lemma {:induction false} LeadAfter(s: string, i: nat)
    requires 1 <= i <= |s|
    ensures Lead(s[1..], i - 1) == Lead(s, i) - 1
    decreases |s| - i
  {
    if i < |s| && IsSpace(s[i]) {
      LeadAfter(s, i + 1);
    }
  }

  lemma {:induction false} TrailAfter(s: string, lo: nat, j: nat)
    requires 1 <= lo <= j <= |s|
    ensures Trail(s[1..], lo - 1, j - 1) == Trail(s, lo, j) - 1
    decreases j
  {
    if lo < j && IsSpace(s[j - 1]) {
      TrailAfter(s, lo, j - 1);
    }
  }

  /** On one text the scanner reads what C reads exactly when it is plainly spelled. */
  lemma SameReadingIffPlain(d: string)
    ensures ScanWord(d) == CWord(d) <==> Plain(d)
  {
    if w: Word :| Begins(d, w) {
      ScansWord(d, w);
      CReads(d, w);
      forall v: Word | Begins(d, v) ensures v == w {
        OneWord(d, v, w);
      }
      if TakesCondition(w) && SpaceFollows(d) {
        SpaceBefore(d[WordEnd(d, 0)..]);
        assert d[WordEnd(d, 0)..][1..] == d[WordEnd(d, 0) + 1..];
      }
    } else {
      ScansNothing(d);
      CReadsBegins(d);
    }
  }

  lemma UnalteredIff(lines: seq<string>, k: nat)
    requires k < |lines| && Unaltered(lines, k)
    ensures RawReading(lines[k]) == CReading(lines, k) <==> PlainlySpelled(lines[k])
  {
    var line := lines[k];
    TrimChomp(line);
    if "#" <= Trim(line) {
      SameReadingIffPlain(Body(line));
    } else {
      CReadsBegins(CBody(line));
    }
  }

  /** A directive that a comment touches is never read alike: the comment costs ink. */
  lemma CommentShows(lines: seq<string>, k: nat)
    requires k < |lines| && !Continued(lines, k) && !(Spliced(lines[k]) && k + 1 < |lines|)
    requires RawReading(lines[k]) == CReading(lines, k) != Nothing
    ensures Unaltered(lines, k)
  {
    var line := Chomp(lines[k]);
    TrimChomp(lines[k]);
    RawInk(line);
    CInk(CText(lines, k));
    StripCosts(line, 0, ModeAt(lines, k));
    assert line[0..] == line;
  }

  /** The scanner reads a line as C does, word and condition, exactly when the line is free of splices and comments and
      plainly spelled, or neither sees a conditional directive. What C reads never ends in a backslash: no directive or
      constant expression does. */
  lemma ReadAlikeIff(lines: seq<string>, k: nat)
    requires k < |lines| && !Backslashed(Trim(CText(lines, k)))
    ensures RawReading(lines[k]) == CReading(lines, k)
            <==> || (Unaltered(lines, k) && PlainlySpelled(lines[k]))
                 || (RawReading(lines[k]).Nothing? && CReading(lines, k).Nothing?)
  {
    if Unaltered(lines, k) {
      UnalteredIff(lines, k);
    } else if RawReading(lines[k]) == CReading(lines, k) != Nothing {
      if Spliced(lines[k]) && k + 1 < |lines| {
        RawSpliced(lines[k]);
        CSpliced(CText(lines, k));
      } else {
        CommentShows(lines, k);
      }
    }
  }

  /** The directives of a file as C sees them. */
  function CDirectives(lines: seq<string>): seq<Directive> {
    seq(|lines|, k requires 0 <= k < |lines| => Interpret(CReading(lines, k)))
  }

  // ----- a comment that leaks -----

  const COMMENTED := "#endif //"

  lemma CommentedIsDropped()
    ensures Strip(COMMENTED, 0, Code) == "#endif " + " "
  {
    var s := COMMENTED;
    assert Strip(s, 7, Code) == " ";
    assert Strip(s, 6, Code) == [s[6]] + Strip(s, 7, Code);
    assert Strip(s, 5, Code) == [s[5]] + Strip(s, 6, Code);
    assert Strip(s, 4, Code) == [s[4]] + Strip(s, 5, Code);
    assert Strip(s, 3, Code) == [s[3]] + Strip(s, 4, Code);
    assert Strip(s, 2, Code) == [s[2]] + Strip(s, 3, Code);
    assert Strip(s, 1, Code) == [s[1]] + Strip(s, 2, Code);
    assert Strip(s, 0, Code) == [s[0]] + Strip(s, 1, Code);
  }

  lemma HashReads(line: string, d: string, left: string, right: string)
    requires d != "" && Trimmed(d) && line == left + ("#" + d) + right
    requires (forall k :: 0 <= k < |left| ==> IsSpace(left[k])) && (forall k :: 0 <= k < |right| ==> IsSpace(right[k]))
    ensures "#" <= Trim(line) && Body(line) == d
  {
    TrimPadded(left, "#" + d, right);
    TrimPadded("", d, "");
    assert "" + d + "" == d == ("#" + d)[1..];
  }

  /** The scanner misses an #endif that anything follows. */
  lemma MissedEndif(d: string, line: string)
    requires Begins(d, ENDIF) && !NothingFollows(d) && Trimmed(d) && d != "" && line == "#" + d
    ensures RawReading(line) == Nothing
  {
    assert line == "" + ("#" + d) + "";
    HashReads(line, d, "", "");
    ScansWord(d, ENDIF);
  }

  lemma CommentedBegins(d: string)
    requires d == "endif //"
    ensures Begins(d, ENDIF) && !NothingFollows(d) && Trimmed(d)
  {
    WordEndIs(d, 0, 5);
    assert d[..5] == Spelling(ENDIF);
  }

  lemma CCommented(c: string, text: string, right: string)
    requires c == Spelling(ENDIF) && text == "#" + c + right && right == "  "
    ensures ReadC(text) == Read(ENDIF, "")
  {
    assert text == "" + ("#" + c) + right;
    HashReads(text, c, "", right);
    WordEndIs(c, 0, 5);
    assert c[..5] == c;
    CReads(c, ENDIF);
  }

  /** The frame stack over an #if, some directive, and an ordinary line. */
  lemma ThreeSteps(c: Formula, d: Directive, ds: seq<Directive>)
    requires ds == [If(c), d, Ordinary]
    ensures Recorded(ds, 2) == Actives(Step([Frame([c], c)], d))
  {
    assert StackAt([], ds, 0) == [];
    assert StackAt([], ds, 1) == Step([], If(c)) == [Frame([c], c)];
    assert StackAt([], ds, 2) == Step([Frame([c], c)], d);
    assert StackAt([], ds, 3) == Step(StackAt([], ds, 2), Ordinary);
  }

  lemma CommentedIsMissed()
    ensures RawReading(COMMENTED) == Nothing
  {
    var d := "endif //";
    assert COMMENTED == "#" + d;
    CommentedBegins(d);
    MissedEndif(d, COMMENTED);
  }

  lemma CommentedIsSeen()
    ensures ReadC(Strip(COMMENTED, 0, Code)) == Read(ENDIF, "")
  {
    var blanks := "  ";
    CommentedIsDropped();
    assert "#endif " + " " == "#" + Spelling(ENDIF) + blanks;
    CCommented(Spelling(ENDIF), "#endif " + " ", blanks);
  }

  /** A line that is no directive by itself. */
  predicate NoDirective(line: string) {
    RawReading(line).Nothing? && ReadC(Strip(Chomp(line), 0, Code)).Nothing?
  }

  lemma OpeningBegins(d: string)
    requires d == "if A"
    ensures Begins(d, IF) && SpaceFollows(d) && Trimmed(d) && WordEnd(d, 0) == 2
  {
    WordEndIs(d, 0, 2);
    assert d[..2] == Spelling(IF);
  }

  lemma OpeningScans(d: string, arg: string)
    requires d == "if A" && arg == "A"
    ensures ScanWord(d) == Read(IF, arg) == CWord(d)
  {
    OpeningBegins(d);
    ScansWord(d, IF);
    var rest := d[3..];
    assert rest == "" + arg + "";
    TrimPadded("", arg, "");
    forall w: Word | Begins(d, w) ensures w == IF {
      OneWord(d, w, IF);
    }
    SameReadingIffPlain(d);
  }

  lemma OpeningReads(d: string, line: string)
    requires d == "if A" && line == "#" + d
    ensures RawReading(line) == ScanWord(d) && ReadC(line) == CWord(d)
  {
    OpeningBegins(d);
    assert line == "" + ("#" + d) + "";
    HashReads(line, d, "", "");
  }

  /** A text without quotes and slashes is left alone. */
  lemma {:induction false} StripsToItself(s: string, i: nat)
    requires i <= |s| && forall k :: 0 <= k < |s| ==> s[k] != '/' && s[k] != '"' && s[k] != '\''
    ensures Strip(s, i, Code) == s[i..] && After(s, i, Code) == Code
    decreases |s| - i
  {
    if i < |s| {
      StripsToItself(s, i + 1);
    }
  }

  lemma CommentedEndsInCode()
    ensures After(COMMENTED, 0, Code) == Code
  {
    var s := COMMENTED;
    assert After(s, 7, Code) == Code;
    assert After(s, 6, Code) == After(s, 7, Code);
    assert After(s, 5, Code) == After(s, 6, Code);
    assert After(s, 4, Code) == After(s, 5, Code);
    assert After(s, 3, Code) == After(s, 4, Code);
    assert After(s, 2, Code) == After(s, 3, Code);
    assert After(s, 1, Code) == After(s, 2, Code);
  }

  /** What C reads in the three lines. */
  lemma LeakReadings(lines: seq<string>)
    requires |lines| == 3 && lines[0] == OPENING && lines[1] == COMMENTED
    ensures CReading(lines, 0) == ReadC(OPENING) && CReading(lines, 1) == Read(ENDIF, "")
    ensures CReading(lines, 2) == ReadC(Strip(Chomp(lines[2]), 0, Code))
  {
    StripsToItself(lines[0], 0);
    assert Logical(lines, 0) == lines[0] && ModeAt(lines, 0) == Code;
    assert StartOf(lines, 0) == 0 && ModeAt(lines, 1) == Code;
    assert Logical(lines, 1) == COMMENTED;
    CommentedIsSeen();
    CommentedEndsInCode();
    assert StartOf(lines, 1) == 1 && ModeAt(lines, 2) == Code;
  }

  const OPENING := "#if A"

  /** In the lines `#if A`, `#endif //` and any line that is no directive, C closes the section at the second line and
      the scanner does not: it records the third line under A. */
  lemma MissedEndifLeaks(lines: seq<string>)
    requires |lines| == 3 && lines[0] == OPENING && lines[1] == COMMENTED && NoDirective(lines[2])
    ensures Recorded(Directives(lines), 2) == [Atom("A")]
    ensures Recorded(CDirectives(lines), 2) == []
  {
    var arg := "A";
    RawDirectives(lines, arg);
    Stays(Atom(arg), Directives(lines));
    SeenDirectives(lines, arg);
    Closes(Atom(arg), CDirectives(lines));
  }

  lemma RawDirectives(lines: seq<string>, arg: string)
    requires |lines| == 3 && lines[0] == OPENING && lines[1] == COMMENTED && NoDirective(lines[2]) && arg == "A"
    ensures Opens(Atom(arg), Ordinary, Directives(lines))
  {
    OpeningIs(arg);
    CommentedIsMissed();
    assert Directives(lines)[0] == Interpret(RawReading(lines[0]));
    assert Directives(lines)[1] == Interpret(RawReading(lines[1]));
    assert Directives(lines)[2] == Interpret(RawReading(lines[2]));
  }

  lemma CDirectiveAt(lines: seq<string>, k: nat, r: Reading)
    requires k < |lines| && CReading(lines, k) == r
    ensures CDirectives(lines)[k] == Interpret(r)
  {
  }

  lemma SeenOpening(lines: seq<string>, k: nat, arg: string)
    requires |lines| == 3 && lines[0] == OPENING && lines[1] == COMMENTED && k == 0 && arg == "A"
    ensures CDirectives(lines)[k] == If(Atom(arg))
  {
    OpeningIs(arg);
    LeakReadings(lines);
    CDirectiveAt(lines, k, ReadC(OPENING));
  }

  lemma SeenClosing(lines: seq<string>, k: nat, r: Reading)
    requires |lines| == 3 && lines[0] == OPENING && lines[1] == COMMENTED && k == 1 && r.Read? && r.word == ENDIF
    requires r.arg == ""
    ensures CDirectives(lines)[k] == Endif
  {
    ClosingRead(lines, k, r);
    CDirectiveAt(lines, k, r);
  }

  lemma ClosingRead(lines: seq<string>, k: nat, r: Reading)
    requires |lines| == 3 && lines[0] == OPENING && lines[1] == COMMENTED && k == 1 && r == Read(ENDIF, "")
    ensures CReading(lines, k) == r
  {
    LeakReadings(lines);
  }

  lemma SeenLast(lines: seq<string>, k: nat)
    requires |lines| == 3 && lines[0] == OPENING && lines[1] == COMMENTED && NoDirective(lines[2]) && k == 2
    ensures CDirectives(lines)[k] == Ordinary
  {
    LeakReadings(lines);
    CDirectiveAt(lines, k, Nothing);
  }

  lemma SeenDirectives(lines: seq<string>, arg: string)
    requires |lines| == 3 && lines[0] == OPENING && lines[1] == COMMENTED && NoDirective(lines[2]) && arg == "A"
    ensures Opens(Atom(arg), Endif, CDirectives(lines))
  {
    SeenOpening(lines, 0, arg);
    SeenClosing(lines, 1, Read(ENDIF, ""));
    SeenLast(lines, 2);
  }

  lemma OpeningIs(arg: string)
    requires arg == "A"
    ensures RawReading(OPENING) == ReadC(OPENING) == Read(IF, arg)
  {
    var d := "if A";
    assert OPENING == "#" + d;
    OpeningReads(d, OPENING);
    OpeningScans(d, arg);
  }

  ghost predicate Opens(c: Formula, d: Directive, ds: seq<Directive>) {
    |ds| == 3 && ds[0] == If(c) && ds[1] == d && ds[2] == Ordinary
  }

  lemma Stays(c: Formula, ds: seq<Directive>)
    requires Opens(c, Ordinary, ds)
    ensures Recorded(ds, 2) == [c]
  {
    ThreeSteps(c, Ordinary, ds);
  }

  lemma Closes(c: Formula, ds: seq<Directive>)
    requires Opens(c, Endif, ds)
    ensures Recorded(ds, 2) == []
  {
    ThreeSteps(c, Endif, ds);
  }
}
