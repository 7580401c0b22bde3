/** What C does to the text of a file before it looks for directives: it joins spliced lines and replaces comments by
    spaces (section 5.1.1.2 of ISO/IEC 9899:2011). */
module LexicalPhases {
  import opened SourceReading

  // ----- splices -----

  /** A text cut into lines: all but the last end in a backslash. */
  function Cut(parts: seq<string>): seq<string>
    requires parts != []
  {
    if |parts| == 1 then parts else [parts[0] + "\\"] + Cut(parts[1..])
  }

  function Whole(parts: seq<string>): string {
    if parts == [] then "" else parts[0] + Whole(parts[1..])
  }

  lemma {:induction false} LogicalSuffix(a: string, lines: seq<string>, k: nat)
    requires k < |lines|
    ensures Logical([a] + lines, k + 1) == Logical(lines, k)
    decreases |lines| - k
  {
    if k + 1 < |lines| {
      LogicalSuffix(a, lines, k + 1);
    }
  }

  lemma SplicedPart(part: string)
    ensures var line := part + "\\";
            Chomp(line) == line && Spliced(line) && line[..|line| - 1] == part
  {
  }

  lemma LogicalJoins(part: string, rest: seq<string>)
    requires rest != []
    ensures Logical([part + "\\"] + rest, 0) == part + Logical(rest, 0)
  {
    var line := part + "\\";
    SplicedPart(part);
    LogicalSuffix(line, rest, 0);
    assert ([line] + rest)[0] == line;
  }

  /** However a text is cut into spliced lines, C puts it together again. */
  lemma {:induction false} SplicesVanish(parts: seq<string>)
    requires parts != [] && !Spliced(parts[|parts| - 1]) && Chomp(parts[|parts| - 1]) == parts[|parts| - 1]
    ensures Cut(parts) != [] && Logical(Cut(parts), 0) == Whole(parts)
    decreases |parts|
  {
    if |parts| == 1 {
      assert Whole(parts[1..]) == "";
    } else {
      SplicesVanish(parts[1..]);
      LogicalJoins(parts[0], Cut(parts[1..]));
    }
  }

  // ----- comments -----

  /** `b` stands in `w` from `n` on. */
  ghost predicate Stands(w: string, n: nat, b: string) {
    n + |b| == |w| && forall k :: 0 <= k < |b| ==> w[n + k] == b[k]
  }

  lemma SamePair(w: string, n: nat, b: string, i: nat, x: char, y: char)
    requires Stands(w, n, b) && i < |b|
    ensures Pair(w, n + i, x, y) == Pair(b, i, x, y) && w[n + i] == b[i]
    ensures i + 2 <= |b| ==> w[n + i..n + i + 2] == b[i..i + 2]
  {
    assert i + 1 < |b| ==> w[n + (i + 1)] == b[i + 1];
  }

  lemma {:induction false} StripStanding(w: string, n: nat, b: string, i: nat, m: Mode)
    requires Stands(w, n, b) && i <= |b|
    ensures Strip(w, n + i, m) == Strip(b, i, m)
    decreases |b| - i, 1
  {
    if i < |b| {
      SamePair(w, n, b, i, '*', '/');
      SamePair(w, n, b, i, '/', '/');
      SamePair(w, n, b, i, '/', '*');
      match m
      case Comment => StripStanding(w, n, b, if Pair(b, i, '*', '/') then i + 2 else i + 1,
                                    if Pair(b, i, '*', '/') then Code else Comment);
      case Literal(mark) => LiteralStanding(w, n, b, i, mark);
      case Code =>
        if Pair(b, i, '/', '*') {
          StripStanding(w, n, b, i + 2, Comment);
        } else if !Pair(b, i, '/', '/') {
          StripStanding(w, n, b, i + 1, if b[i] == '"' || b[i] == '\'' then Literal(b[i]) else Code);
        }
    }
  }

  lemma {:induction false} LiteralStanding(w: string, n: nat, b: string, i: nat, mark: char)
    requires Stands(w, n, b) && i < |b|
    ensures Strip(w, n + i, Literal(mark)) == Strip(b, i, Literal(mark))
    decreases |b| - i, 0
  {
    SamePair(w, n, b, i, '*', '/');
    if b[i] == '\\' && i + 1 < |b| {
      StripStanding(w, n, b, i + 2, Literal(mark));
    } else {
      StripStanding(w, n, b, i + 1, if b[i] == mark then Code else Literal(mark));
    }
  }

  lemma StripSuffix(a: string, b: string, m: Mode)
    ensures Strip(a + b, |a|, m) == Strip(b, 0, m)
  {
    StripStanding(a + b, |a|, b, 0, m);
  }

  predicate Simple(s: string) {
    forall k :: 0 <= k < |s| ==> s[k] != '/' && s[k] != '"' && s[k] != '\''
  }

  /** Text without quotes and slashes stands as it is. */
  lemma {:induction false} SimpleStands(a: string, rest: string, i: nat)
    requires i <= |a| && Simple(a)
    ensures Strip(a + rest, i, Code) == a[i..] + Strip(rest, 0, Code)
    decreases |a| - i
  {
    if i == |a| {
      StripSuffix(a, rest, Code);
    } else {
      SimpleStands(a, rest, i + 1);
      assert (a + rest)[i] == a[i];
      assert a[i..] == [a[i]] + a[i + 1..];
    }
  }

  /** A line comment is a space up to the end of the line. */
  lemma LineCommentIsSpace(a: string, x: string)
    requires Simple(a)
    ensures Strip(a + ("//" + x), 0, Code) == a + " "
  {
    var rest := "//" + x;
    SimpleStands(a, rest, 0);
    assert rest[0] == '/' && rest[1] == '/';
    assert a[0..] == a;
  }

  lemma {:induction false} CommentSkipped(c: string, rest: string, i: nat)
    requires i <= |c| && '*' !in c
    ensures Strip(c + ("*/" + rest), i, Comment) == Strip(rest, 0, Code)
    decreases |c| - i
  {
    var w := c + ("*/" + rest);
    if i == |c| {
      assert w[i] == '*' && w[i + 1] == '/';
      assert w == (c + "*/") + rest;
      StripSuffix(c + "*/", rest, Code);
    } else {
      assert w[i] == c[i] && c[i] in c;
      CommentSkipped(c, rest, i + 1);
    }
  }

  /** A block comment is one space, and code goes on behind it. */
  lemma BlockCommentIsSpace(a: string, c: string, rest: string)
    requires Simple(a) && '*' !in c
    ensures Strip(a + ("/*" + (c + ("*/" + rest))), 0, Code) == a + (" " + Strip(rest, 0, Code))
  {
    var body := c + ("*/" + rest);
    var w := "/*" + body;
    SimpleStands(a, w, 0);
    assert a[0..] == a && w[0] == '/' && w[1] == '*';
    StripSuffix("/*", body, Comment);
    CommentSkipped(c, rest, 0);
  }

  lemma LiteralCloses(x: string, mark: char, rest: string)
    requires mark != '\\'
    ensures Strip(x + ([mark] + rest), |x|, Literal(mark)) == [mark] + Strip(rest, 0, Code)
  {
    var w := x + ([mark] + rest);
    assert w == (x + [mark]) + rest;
    StripSuffix(x + [mark], rest, Code);
    assert w[|x|] == mark;
  }

  lemma ConsSlice(x: string, i: nat, tail: string)
    requires i < |x|
    ensures [x[i]] + (x[i + 1..] + tail) == x[i..] + tail
  {
    assert x[i..] == [x[i]] + x[i + 1..];
  }

  lemma {:induction false} LiteralKept(x: string, mark: char, rest: string, i: nat)
    requires i <= |x| && mark !in x && '\\' !in x && mark != '\\'
    ensures Strip(x + ([mark] + rest), i, Literal(mark)) == x[i..] + ([mark] + Strip(rest, 0, Code))
    decreases |x| - i
  {
    var w := x + ([mark] + rest);
    if i == |x| {
      LiteralCloses(x, mark, rest);
    } else {
      assert w[i] == x[i] && x[i] in x;
      LiteralKept(x, mark, rest, i + 1);
      ConsSlice(x, i, [mark] + Strip(rest, 0, Code));
    }
  }

  /** What looks like a comment in a string or character literal is none. */
  lemma LiteralStands(a: string, mark: char, x: string, rest: string)
    requires Simple(a) && (mark == '"' || mark == '\'') && mark !in x && '\\' !in x
    ensures Strip(a + ([mark] + (x + ([mark] + rest))), 0, Code)
            == a + ([mark] + (x + ([mark] + Strip(rest, 0, Code))))
  {
    var body := x + ([mark] + rest);
    var w := [mark] + body;
    SimpleStands(a, w, 0);
    assert a[0..] == a && w[0] == mark;
    StripSuffix([mark], body, Literal(mark));
    LiteralKept(x, mark, rest, 0);
    assert x[0..] == x;
  }
}
