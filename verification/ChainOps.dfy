/** Splitting a shell command at its top-level && and || operators (tools/bash/chainops.go). */
module ChainOps {
  import opened Wrappers
  import opened Text

  datatype Op = And | Or

  /** `op` is the operator after the segment; the last one has none. */
  datatype Segment = Segment(text: string, op: Option<Op>)

  datatype ChainParse = ChainParse(segments: seq<Segment>, hasNestedOps: bool) {
    predicate HasChainOps() { |segments| > 1 }
    predicate HasEmptySegment() { exists s :: s in segments && s.text == "" }
  }

  /** The quoting state: inside single quotes, inside double quotes, parenthesis depth. */
  datatype Quoting = Quoting(single: bool, double: bool, depth: nat)

  const NEUTRAL := Quoting(false, false, 0)

  datatype Event = Plain | Nested | Split(op: Op)

  datatype Lexed = Lexed(width: nat, state: Quoting, event: Event)

  function PairAt(cmd: string, i: nat): Option<Op> {
    if i + 1 < |cmd| && cmd[i] == '&' && cmd[i + 1] == '&' then Some(And)
    else if i + 1 < |cmd| && cmd[i] == '|' && cmd[i + 1] == '|' then Some(Or)
    else None
  }

  function After(q: Quoting, ch: char): Quoting {
    var single := if ch == '\'' && !q.double then !q.single else q.single;
    var double := if ch == '"' && !single then !q.double else q.double;
    var depth := if single || double then q.depth
                 else if ch == '(' then q.depth + 1
                 else if ch == ')' && q.depth > 0 then q.depth - 1
                 else q.depth;
    Quoting(single, double, depth)
  }

  /** One step of the scan at `i`: an escaped pair, an operator, or a single character. */
  function Lex(cmd: string, i: nat, q: Quoting): (x: Lexed)
    requires i < |cmd|
    ensures 1 <= x.width <= 2 && i + x.width <= |cmd|
  {
    if cmd[i] == '\\' && !q.single && i + 1 < |cmd| then Lexed(2, q, Plain)
    else
      var q' := After(q, cmd[i]);
      var pair := PairAt(cmd, i);
      if q'.single || q'.double || pair.None? then Lexed(1, q', Plain)
      else if q'.depth == 0 then Lexed(2, q', Split(pair.value))
      else Lexed(1, q', Nested)
  }

  /** A segment as the part cmd[lo..hi] of the command, before trimming. */
  datatype Cut = Cut(lo: nat, hi: nat, op: Option<Op>)

  /** The segments of cmd[start..] when the scan stands at `i` in state `q`. */
  function Cuts(cmd: string, start: nat, i: nat, q: Quoting): (cuts: seq<Cut>)
    requires start <= i <= |cmd|
    ensures cuts != [] && forall k :: 0 <= k < |cuts| ==> cuts[k].lo <= cuts[k].hi <= |cmd|
    decreases |cmd| - i
  {
    if i == |cmd| then [Cut(start, i, None)]
    else
      var x := Lex(cmd, i, q);
      match x.event
      case Split(op) => [Cut(start, i, Some(op))] + Cuts(cmd, i + 2, i + 2, x.state)
      case _ => Cuts(cmd, start, i + x.width, x.state)
  }

  function Cropped(cmd: string, cut: Cut): Segment
    requires cut.lo <= cut.hi <= |cmd|
  {
    Segment(Trim(cmd[cut.lo..cut.hi]), cut.op)
  }

  function Crop(cmd: string, cuts: seq<Cut>): seq<Segment>
    requires forall k :: 0 <= k < |cuts| ==> cuts[k].lo <= cuts[k].hi <= |cmd|
  {
    seq(|cuts|, k requires 0 <= k < |cuts| => Cropped(cmd, cuts[k]))
  }

  predicate NestedFrom(cmd: string, i: nat, q: Quoting)
    requires i <= |cmd|
    decreases |cmd| - i
  {
    i < |cmd| && (Lex(cmd, i, q).event.Nested? || NestedFrom(cmd, i + Lex(cmd, i, q).width, Lex(cmd, i, q).state))
  }

  function Parse(cmd: string): ChainParse {
    ChainParse(Crop(cmd, Cuts(cmd, 0, 0, NEUTRAL)), NestedFrom(cmd, 0, NEUTRAL))
  }

  /** The result of a scan that stands at `i` in state `q` with the segments `done` found. */
  function Finish(cmd: string, start: nat, i: nat, q: Quoting, done: seq<Segment>, nested: bool): ChainParse
    requires start <= i <= |cmd|
    decreases |cmd| - i
  {
    if i == |cmd| then ChainParse(done + [Cropped(cmd, Cut(start, i, None))], nested)
    else
      var x := Lex(cmd, i, q);
      match x.event
      case Split(op) => Finish(cmd, i + 2, i + 2, x.state, done + [Cropped(cmd, Cut(start, i, Some(op)))], nested)
      case Nested => Finish(cmd, start, i + x.width, x.state, done, true)
      case Plain => Finish(cmd, start, i + x.width, x.state, done, nested)
  }

  lemma FinishSplit(cmd: string, start: nat, i: nat, op: Op, rest: seq<Cut>, done: seq<Segment>)
    requires start <= i <= |cmd| && forall k :: 0 <= k < |rest| ==> rest[k].lo <= rest[k].hi <= |cmd|
    ensures (done + [Cropped(cmd, Cut(start, i, Some(op)))]) + Crop(cmd, rest)
            == done + Crop(cmd, [Cut(start, i, Some(op))] + rest)
  {
  }

  /** The result is the segments found so far and those of the cuts to come. */
  ghost predicate Finishes(cmd: string, start: nat, i: nat, q: Quoting, done: seq<Segment>, nested: bool)
    requires start <= i <= |cmd|
  {
    Finish(cmd, start, i, q, done, nested)
    == ChainParse(done + Crop(cmd, Cuts(cmd, start, i, q)), nested || NestedFrom(cmd, i, q))
  }

  lemma FinishesSplit(cmd: string, start: nat, i: nat, q: Quoting, done: seq<Segment>, nested: bool)
    requires start <= i < |cmd| && Lex(cmd, i, q).event.Split?
    requires var x := Lex(cmd, i, q);
             Finishes(cmd, i + 2, i + 2, x.state, done + [Cropped(cmd, Cut(start, i, Some(x.event.op)))], nested)
    ensures Finishes(cmd, start, i, q, done, nested)
  {
    var x := Lex(cmd, i, q);
    FinishSplit(cmd, start, i, x.event.op, Cuts(cmd, i + 2, i + 2, x.state), done);
  }

  lemma {:induction false} FinishIs(cmd: string, start: nat, i: nat, q: Quoting, done: seq<Segment>, nested: bool)
    requires start <= i <= |cmd|
    ensures Finishes(cmd, start, i, q, done, nested)
    decreases |cmd| - i
  {
    if i < |cmd| {
      var x := Lex(cmd, i, q);
      match x.event
      case Split(op) =>
        FinishIs(cmd, i + 2, i + 2, x.state, done + [Cropped(cmd, Cut(start, i, Some(op)))], nested);
        FinishesSplit(cmd, start, i, q, done, nested);
      case Nested => FinishIs(cmd, start, i + x.width, x.state, done, true);
      case Plain => FinishIs(cmd, start, i + x.width, x.state, done, nested);
    }
  }

  /** Quote and parenthesis tracking for one unescaped byte. */
  method TrackQuotes(ch: char, single: bool, double: bool, depth: nat)
    returns (inSingle: bool, inDouble: bool, parenDepth: nat)
    ensures Quoting(inSingle, inDouble, parenDepth) == After(Quoting(single, double, depth), ch)
  {
    inSingle, inDouble, parenDepth := single, double, depth;
    if ch == '\'' && !inDouble {
      inSingle := !inSingle;
    }
    if ch == '"' && !inSingle {
      inDouble := !inDouble;
    }
    if !inSingle && !inDouble {
      if ch == '(' {
        parenDepth := parenDepth + 1;
      }
      if ch == ')' && parenDepth > 0 {
        parenDepth := parenDepth - 1;
      }
    }
  }

  /** What the scan does with the byte at `i`. */
  method Step(cmd: string, i: nat, single: bool, double: bool, depth: nat) returns (x: Lexed)
    requires i < |cmd|
    ensures x == Lex(cmd, i, Quoting(single, double, depth))
  {
    if cmd[i] == '\\' && !single && i + 1 < |cmd| {
      return Lexed(2, Quoting(single, double, depth), Plain);
    }
    var inSingle, inDouble, parenDepth := TrackQuotes(cmd[i], single, double, depth);
    var state := Quoting(inSingle, inDouble, parenDepth);
    if !inSingle && !inDouble {
      var pair := PairAt(cmd, i);
      if pair.Some? {
        return if parenDepth == 0 then Lexed(2, state, Split(pair.value)) else Lexed(1, state, Nested);
      }
    }
    return Lexed(1, state, Plain);
  }

  lemma SliceGrows(cmd: string, start: nat, i: nat, j: nat)
    requires start <= i <= j <= |cmd|
    ensures cmd[start..j] == cmd[start..i] + cmd[i..j]
  {
  }

  /** One round of the byte loop; `start` is where the current segment began. */
  method Advance(cmd: string, i: nat, q: Quoting, segments0: seq<Segment>, nested0: bool, buf0: string,
                 ghost start0: nat)
    returns (i': nat, q': Quoting, segments: seq<Segment>, nested: bool, buf: string, ghost start: nat)
    requires start0 <= i < |cmd| && buf0 == cmd[start0..i]
    ensures start <= i' <= |cmd| && i < i' && buf == cmd[start..i']
    ensures Finish(cmd, start, i', q', segments, nested) == Finish(cmd, start0, i, q, segments0, nested0)
  {
    segments, nested, buf, start := segments0, nested0, buf0, start0;
    var x := Step(cmd, i, q.single, q.double, q.depth);
    if x.event.Split? {
      segments := segments + [Segment(Trim(buf), Some(x.event.op))];
      buf := [];
      start := i + 2;
    } else {
      nested := nested || x.event.Nested?;
      SliceGrows(cmd, start, i, i + x.width);
      buf := buf + cmd[i..i + x.width];
    }
    q', i' := x.state, i + x.width;
  }

  method ParseChainOps(cmd: string) returns (p: ChainParse)
    ensures p == Parse(cmd)
  {
    var segments, hasNestedOps := [], false;
    var buf: string := [];
    var q := NEUTRAL;
    ghost var start: nat := 0;
    var i: nat := 0;
    while i < |cmd|
      invariant start <= i <= |cmd| && buf == cmd[start..i]
      invariant Finish(cmd, start, i, q, segments, hasNestedOps) == Finish(cmd, 0, 0, NEUTRAL, [], false)
    {
      i, q, segments, hasNestedOps, buf, start := Advance(cmd, i, q, segments, hasNestedOps, buf, start);
    }
    segments := segments + [Segment(Trim(buf), None)];
    FinishIs(cmd, 0, 0, NEUTRAL, [], false);
    p := ChainParse(segments, hasNestedOps);
  }

  /** The parts lie end to end from `start` to the end of the command with exactly one operator between two. */
  ghost predicate Tiles(cmd: string, cuts: seq<Cut>, start: nat) {
    && cuts != [] && cuts[0].lo == start
    && (forall k :: 0 <= k < |cuts| - 1 ==>
          cuts[k].op.Some? && PairAt(cmd, cuts[k].hi) == cuts[k].op && cuts[k + 1].lo == cuts[k].hi + 2)
    && cuts[|cuts| - 1].hi == |cmd| && cuts[|cuts| - 1].op.None?
  }

  lemma TilesCons(cmd: string, cut: Cut, cuts: seq<Cut>)
    requires Tiles(cmd, cuts, cut.hi + 2) && cut.op.Some? && PairAt(cmd, cut.hi) == cut.op
    ensures Tiles(cmd, [cut] + cuts, cut.lo)
  {
    var all := [cut] + cuts;
    forall k | 0 <= k < |all| - 1
      ensures all[k].op.Some? && PairAt(cmd, all[k].hi) == all[k].op && all[k + 1].lo == all[k].hi + 2
    {
      if k > 0 {
        assert all[k] == cuts[k - 1] && all[k + 1] == cuts[k];
      }
    }
  }

  /** Nothing but operators and the white space around them is dropped. */
  lemma {:induction false} CutsTile(cmd: string, start: nat, i: nat, q: Quoting)
    requires start <= i <= |cmd|
    ensures Tiles(cmd, Cuts(cmd, start, i, q), start)
    decreases |cmd| - i
  {
    if i < |cmd| {
      var x := Lex(cmd, i, q);
      if x.event.Split? {
        CutsTile(cmd, i + 2, i + 2, x.state);
        TilesCons(cmd, Cut(start, i, Some(x.event.op)), Cuts(cmd, i + 2, i + 2, x.state));
      } else {
        CutsTile(cmd, start, i + x.width, x.state);
      }
    }
  }

  // ----- scanning part of a command -----

  /** The first step boundary at or after `j`, and the state there. */
  function ScanTo(cmd: string, i: nat, q: Quoting, j: nat): (nat, Quoting)
    requires i <= |cmd| && j <= |cmd|
    decreases |cmd| - i
  {
    if i >= j then (i, q) else ScanTo(cmd, i + Lex(cmd, i, q).width, Lex(cmd, i, q).state, j)
  }

  /** No operator is met by the steps that start before `j`, at top level or (unless `nested`) below it. */
  predicate Calm(cmd: string, i: nat, q: Quoting, j: nat, nested: bool)
    requires i <= |cmd| && j <= |cmd|
    decreases |cmd| - i
  {
    i >= j ||
    (!Lex(cmd, i, q).event.Split? && (nested || Lex(cmd, i, q).event.Plain?)
     && Calm(cmd, i + Lex(cmd, i, q).width, Lex(cmd, i, q).state, j, nested))
  }

  lemma {:induction false} CalmCuts(cmd: string, start: nat, i: nat, q: Quoting, j: nat)
    requires start <= i <= |cmd| && j <= |cmd| && Calm(cmd, i, q, j, true)
    ensures ScanTo(cmd, i, q, j).0 <= |cmd| && i <= ScanTo(cmd, i, q, j).0
    ensures Cuts(cmd, start, i, q) == Cuts(cmd, start, ScanTo(cmd, i, q, j).0, ScanTo(cmd, i, q, j).1)
    decreases |cmd| - i
  {
    if i < j {
      CalmCuts(cmd, start, i + Lex(cmd, i, q).width, Lex(cmd, i, q).state, j);
    }
  }

  /** A command has one segment and no nested operator exactly when the scan meets no operator at any depth. */
  lemma {:induction false} CalmIsOperatorFree(cmd: string, start: nat, i: nat, q: Quoting)
    requires start <= i <= |cmd|
    ensures Calm(cmd, i, q, |cmd|, false) <==> |Cuts(cmd, start, i, q)| == 1 && !NestedFrom(cmd, i, q)
    decreases |cmd| - i
  {
    if i < |cmd| {
      var x := Lex(cmd, i, q);
      if !x.event.Split? {
        CalmIsOperatorFree(cmd, start, i + x.width, x.state);
      }
    }
  }

  /** A scan can be cut at any step boundary. */
  lemma {:induction false} ScanSplit(cmd: string, i: nat, q: Quoting, j: nat, k: nat, nested: bool)
    requires i <= |cmd| && j <= k <= |cmd|
    ensures ScanTo(cmd, i, q, j).0 <= |cmd|
    ensures ScanTo(cmd, i, q, k) == ScanTo(cmd, ScanTo(cmd, i, q, j).0, ScanTo(cmd, i, q, j).1, k)
    ensures Calm(cmd, i, q, k, nested) <==>
            Calm(cmd, i, q, j, nested) && Calm(cmd, ScanTo(cmd, i, q, j).0, ScanTo(cmd, i, q, j).1, k, nested)
    decreases |cmd| - i
  {
    if i < j {
      ScanSplit(cmd, i + Lex(cmd, i, q).width, Lex(cmd, i, q).state, j, k, nested);
    }
  }

  /** Characters that change nothing: neither quotes, escapes, parentheses nor operators. */
  predicate Bland(ch: char) {
    ch != '\'' && ch != '"' && ch != '\\' && ch != '(' && ch != ')' && ch != '&' && ch != '|'
  }

  lemma {:induction false} BlandRun(cmd: string, i: nat, q: Quoting, j: nat)
    requires i <= j <= |cmd| && forall k :: i <= k < j ==> Bland(cmd[k])
    ensures ScanTo(cmd, i, q, j) == (j, q) && Calm(cmd, i, q, j, false) && Calm(cmd, i, q, j, true)
    decreases j - i
  {
    if i < j {
      BlandRun(cmd, i + 1, q, j);
    }
  }

  ghost predicate SameText(a: string, i: nat, b: string, j: nat, n: nat) {
    i + n <= |a| && j + n <= |b| && forall k :: i <= k < i + n ==> a[k] == b[k - i + j]
  }

  /** A step inside both copies of the text is the same step. */
  lemma SameStep(a: string, i: nat, b: string, j: nat, n: nat, q: Quoting)
    requires SameText(a, i, b, j, n) && n > 1
    ensures Lex(a, i, q) == Lex(b, j, q)
  {
    assert a[i] == b[j] && a[i + 1] == b[j + 1];
  }

  lemma LastStep(a: string, i: nat, b: string, j: nat, q: Quoting)
    requires SameText(a, i, b, j, 1)
    requires j + 1 < |b| ==> b[j + 1] != '&' && b[j + 1] != '|'
    ensures Lex(b, j, q).event.Plain?
    ensures !Lex(a, i, q).event.Split? ==> Lex(b, j, q).state == Lex(a, i, q).state
    ensures i + 1 < |a| && j + 1 < |b| && !Lex(a, i, q).event.Split? ==> Lex(b, j, q).width == Lex(a, i, q).width
  {
    assert a[i] == b[j];
  }

  /** Scanning depends only on the scanned text and, at its last character, on whether the next one completes an
      operator or is there to be escaped. */
  lemma {:induction false} ContextSwitch(a: string, i: nat, b: string, j: nat, n: nat, q: Quoting, nested: bool)
    requires SameText(a, i, b, j, n)
    requires j + n < |b| ==> b[j + n] != '&' && b[j + n] != '|'
    requires Calm(a, i, q, i + n, nested)
    ensures Calm(b, j, q, j + n, nested)
    ensures ScanTo(b, j, q, j + n).1 == ScanTo(a, i, q, i + n).1
    ensures j + n <= ScanTo(b, j, q, j + n).0 <= j + n + 1 && ScanTo(b, j, q, j + n).0 <= |b|
    ensures i + n < |a| && j + n < |b| ==> ScanTo(b, j, q, j + n).0 - j == ScanTo(a, i, q, i + n).0 - i
    decreases n
  {
    if n == 1 {
      LastStep(a, i, b, j, q);
      assert a[i] == b[j];
    } else if n > 1 {
      SameStep(a, i, b, j, n, q);
      var x := Lex(a, i, q);
      ContextSwitch(a, i + x.width, b, j + x.width, n - x.width, x.state, nested);
    }
  }

  // ----- parsing inverts joining -----

  /** A nonempty trimmed text whose quotes, escapes and parentheses are closed and which has no operator of its
      own at top level. */
  predicate Atomic(t: string) {
    && t != [] && Trimmed(t)
    && Calm(t + " ", 0, NEUTRAL, |t|, true) && ScanTo(t + " ", 0, NEUTRAL, |t|) == (|t|, NEUTRAL)
  }

  predicate AllAtomic(texts: seq<string>) {
    forall k :: 0 <= k < |texts| ==> Atomic(texts[k])
  }

  function Spaced(op: Op): string {
    match op case And => " && " case Or => " || "
  }

  /** `prefix` followed by the commands from the k-th on, written with their operators. */
  function JoinOnto(prefix: string, texts: seq<string>, ops: seq<Op>, k: nat): string
    requires |texts| == |ops| + 1 && k <= |ops|
    decreases |ops| - k
  {
    if k == |ops| then prefix + texts[k] else JoinOnto(prefix + texts[k] + Spaced(ops[k]), texts, ops, k + 1)
  }

  function Join(texts: seq<string>, ops: seq<Op>): string
    requires |texts| == |ops| + 1
  {
    JoinOnto("", texts, ops, 0)
  }

  /** The commands from the k-th on, each with the operator after it. */
  function Zip(texts: seq<string>, ops: seq<Op>, k: nat): seq<Segment>
    requires |texts| == |ops| + 1 && k <= |ops|
    decreases |ops| - k
  {
    if k == |ops| then [Segment(texts[k], None)] else [Segment(texts[k], Some(ops[k]))] + Zip(texts, ops, k + 1)
  }

  lemma CropCons(cmd: string, cut: Cut, cuts: seq<Cut>)
    requires cut.lo <= cut.hi <= |cmd| && forall k :: 0 <= k < |cuts| ==> cuts[k].lo <= cuts[k].hi <= |cmd|
    ensures Crop(cmd, [cut] + cuts) == [Cropped(cmd, cut)] + Crop(cmd, cuts)
  {
  }

  /** An atomic text at `p` is passed over without an event. */
  lemma AtomicPasses(cmd: string, start: nat, p: nat, t: string)
    requires Atomic(t) && start <= p && p + |t| <= |cmd| && cmd[p..p + |t|] == t
    requires p + |t| < |cmd| ==> cmd[p + |t|] == ' '
    ensures p + |t| < |cmd| ==> Cuts(cmd, start, p, NEUTRAL) == Cuts(cmd, start, p + |t|, NEUTRAL)
    ensures p + |t| == |cmd| ==> Cuts(cmd, start, p, NEUTRAL) == [Cut(start, |cmd|, None)]
  {
    var n := |t|;
    forall k | 0 <= k < n ensures (t + " ")[k] == cmd[k - 0 + p] {
      assert t[k] == cmd[p..p + n][k];
    }
    ContextSwitch(t + " ", 0, cmd, p, n, NEUTRAL, true);
    CalmCuts(cmd, start, p, NEUTRAL, p + n);
  }

  /** A spaced operator at `m` ends the segment. */
  lemma CutAtOp(cmd: string, start: nat, m: nat, op: Op)
    requires start <= m && m + 4 <= |cmd| && cmd[m] == ' ' && PairAt(cmd, m + 1) == Some(op) && cmd[m + 3] == ' '
    ensures Cuts(cmd, start, m, NEUTRAL) == [Cut(start, m + 1, Some(op))] + Cuts(cmd, m + 3, m + 4, NEUTRAL)
  {
    assert Lex(cmd, m, NEUTRAL) == Lexed(1, NEUTRAL, Plain);
    assert Cuts(cmd, start, m, NEUTRAL) == Cuts(cmd, start, m + 1, NEUTRAL);
    assert Lex(cmd, m + 1, NEUTRAL) == Lexed(2, NEUTRAL, Split(op));
    assert Cuts(cmd, start, m + 1, NEUTRAL) == [Cut(start, m + 1, Some(op))] + Cuts(cmd, m + 3, m + 3, NEUTRAL);
    assert Lex(cmd, m + 3, NEUTRAL) == Lexed(1, NEUTRAL, Plain);
    assert Cuts(cmd, m + 3, m + 3, NEUTRAL) == Cuts(cmd, m + 3, m + 4, NEUTRAL);
  }

  lemma CropsTo(cmd: string, lo: nat, p: nat, t: string, hi: nat)
    requires Trimmed(t) && lo <= p && p + |t| <= hi <= |cmd| && cmd[p..p + |t|] == t
    requires forall k :: lo <= k < p || p + |t| <= k < hi ==> IsSpace(cmd[k])
    ensures Trim(cmd[lo..hi]) == t
  {
    assert cmd[lo..hi] == cmd[lo..p] + t + cmd[p + |t|..hi];
    TrimPadded(cmd[lo..p], t, cmd[p + |t|..hi]);
  }

  /** The first command of a joined chain becomes the first segment; the rest is parsed from where it starts. */
  lemma FirstCut(cmd: string, start: nat, p: nat, m: nat, t: string, op: Op)
    requires Atomic(t) && start <= p && m == p + |t| && m + 4 <= |cmd| && cmd[p..m] == t
    requires cmd[m] == ' ' && PairAt(cmd, m + 1) == Some(op) && cmd[m + 3] == ' '
    requires forall k :: start <= k < p ==> IsSpace(cmd[k])
    ensures Crop(cmd, Cuts(cmd, start, p, NEUTRAL))
            == [Segment(t, Some(op))] + Crop(cmd, Cuts(cmd, m + 3, m + 4, NEUTRAL))
  {
    AtomicPasses(cmd, start, p, t);
    CutAtOp(cmd, start, m, op);
    CropsTo(cmd, start, p, t, m + 1);
    CropCons(cmd, Cut(start, m + 1, Some(op)), Cuts(cmd, m + 3, m + 4, NEUTRAL));
  }

  lemma OnlyCut(cmd: string, start: nat, p: nat, t: string)
    requires Atomic(t) && start <= p <= |cmd| && cmd[p..] == t
    requires forall k :: start <= k < p ==> IsSpace(cmd[k])
    ensures Crop(cmd, Cuts(cmd, start, p, NEUTRAL)) == [Segment(t, None)]
  {
    assert cmd[p..p + |t|] == t;
    AtomicPasses(cmd, start, p, t);
    CropsTo(cmd, start, p, t, |cmd|);
  }

  /** The chain from its k-th command on stands at `p`. */
  ghost predicate LaidOut(cmd: string, p: nat, texts: seq<string>, ops: seq<Op>, k: nat)
    requires |texts| == |ops| + 1 && k <= |ops|
    decreases |ops| - k
  {
    var m := p + |texts[k]|;
    && m <= |cmd| && cmd[p..m] == texts[k]
    && if k == |ops| then m == |cmd|
       else
         && m + 4 <= |cmd| && cmd[m] == ' ' && PairAt(cmd, m + 1) == Some(ops[k]) && cmd[m + 3] == ' '
         && LaidOut(cmd, m + 4, texts, ops, k + 1)
  }

  /** Where the pieces of a prefix lie. */
  lemma PrefixLayout(cmd: string, prefix: string, t: string, g: string)
    requires prefix + t + g <= cmd
    ensures var p, m := |prefix|, |prefix| + |t|;
            m + |g| <= |cmd| && cmd[p..m] == t && forall j :: m <= j < m + |g| ==> cmd[j] == g[j - m]
  {
    var w := prefix + t + g;
    assert forall j :: 0 <= j < |w| ==> cmd[j] == w[j];
  }

  lemma SpacedAt(cmd: string, m: nat, op: Op)
    requires m + 4 <= |cmd| && forall j :: m <= j < m + 4 ==> cmd[j] == Spaced(op)[j - m]
    ensures cmd[m] == ' ' && PairAt(cmd, m + 1) == Some(op) && cmd[m + 3] == ' '
  {
    match op
    case And =>
    case Or =>
  }

  lemma LayOut(cmd: string, prefix: string, texts: seq<string>, ops: seq<Op>, k: nat)
    requires |texts| == |ops| + 1 && k < |ops| && prefix + texts[k] + Spaced(ops[k]) <= cmd
    requires LaidOut(cmd, |prefix| + |texts[k]| + 4, texts, ops, k + 1)
    ensures LaidOut(cmd, |prefix|, texts, ops, k)
  {
    PrefixLayout(cmd, prefix, texts[k], Spaced(ops[k]));
    SpacedAt(cmd, |prefix| + |texts[k]|, ops[k]);
  }

  lemma {:induction false} JoinIsLaidOut(prefix: string, texts: seq<string>, ops: seq<Op>, k: nat)
    requires |texts| == |ops| + 1 && k <= |ops|
    ensures prefix <= JoinOnto(prefix, texts, ops, k)
    ensures LaidOut(JoinOnto(prefix, texts, ops, k), |prefix|, texts, ops, k)
    decreases |ops| - k
  {
    if k < |ops| {
      var longer := prefix + texts[k] + Spaced(ops[k]);
      JoinIsLaidOut(longer, texts, ops, k + 1);
      LayOut(JoinOnto(longer, texts, ops, k + 1), prefix, texts, ops, k);
    }
  }

  ghost predicate Blank(cmd: string, lo: nat, hi: nat) {
    lo <= hi <= |cmd| && forall k :: lo <= k < hi ==> IsSpace(cmd[k])
  }

  /** The chain from its k-th command on stands at `p`, after blanks from `start`. */
  ghost predicate Placed(cmd: string, start: nat, p: nat, texts: seq<string>, ops: seq<Op>, k: nat) {
    |texts| == |ops| + 1 && k <= |ops| && AllAtomic(texts) && Blank(cmd, start, p) && LaidOut(cmd, p, texts, ops, k)
  }

  /** Its commands and operators are read from there. */
  ghost predicate Yields(cmd: string, start: nat, p: nat, texts: seq<string>, ops: seq<Op>, k: nat) {
    && |texts| == |ops| + 1 && k <= |ops| && start <= p <= |cmd|
    && Crop(cmd, Cuts(cmd, start, p, NEUTRAL)) == Zip(texts, ops, k)
  }

  lemma NextPlaced(cmd: string, start: nat, p: nat, texts: seq<string>, ops: seq<Op>, k: nat, m: nat)
    requires Placed(cmd, start, p, texts, ops, k) && k < |ops| && m == p + |texts[k]|
    ensures Placed(cmd, m + 3, m + 4, texts, ops, k + 1)
  {
  }

  lemma FirstYields(cmd: string, start: nat, p: nat, texts: seq<string>, ops: seq<Op>, k: nat, m: nat)
    requires Placed(cmd, start, p, texts, ops, k) && k < |ops| && m == p + |texts[k]|
    requires Yields(cmd, m + 3, m + 4, texts, ops, k + 1)
    ensures Yields(cmd, start, p, texts, ops, k)
  {
    assert Atomic(texts[k]);
    FirstCut(cmd, start, p, m, texts[k], ops[k]);
  }

  lemma LastYields(cmd: string, start: nat, p: nat, texts: seq<string>, ops: seq<Op>, k: nat)
    requires Placed(cmd, start, p, texts, ops, k) && k == |ops|
    ensures Yields(cmd, start, p, texts, ops, k)
  {
    assert Atomic(texts[k]);
    OnlyCut(cmd, start, p, texts[k]);
  }

  lemma {:induction false} JoinedCuts(cmd: string, start: nat, p: nat, texts: seq<string>, ops: seq<Op>, k: nat)
    requires Placed(cmd, start, p, texts, ops, k)
    ensures Yields(cmd, start, p, texts, ops, k)
    decreases |ops| - k
  {
    if k == |ops| {
      LastYields(cmd, start, p, texts, ops, k);
    } else {
      var m := p + |texts[k]|;
      NextPlaced(cmd, start, p, texts, ops, k, m);
      JoinedCuts(cmd, m + 3, m + 4, texts, ops, k + 1);
      FirstYields(cmd, start, p, texts, ops, k, m);
    }
  }

  /** Parsing a chain written with its operators gives back exactly its commands and operators. */
  lemma ParseInvertsJoin(texts: seq<string>, ops: seq<Op>)
    requires |texts| == |ops| + 1 && AllAtomic(texts)
    ensures Parse(Join(texts, ops)).segments == Zip(texts, ops, 0)
  {
    JoinIsLaidOut("", texts, ops, 0);
    JoinedCuts(Join(texts, ops), 0, 0, texts, ops, 0);
  }

  // ----- quoting makes any text a command without operators -----

  /** Inside quotes of one kind, everything but that quote (and a backslash, in double quotes) is passed over. */
  lemma {:induction false} InsideQuotes(cmd: string, i: nat, q: Quoting, j: nat)
    requires i <= j <= |cmd| && (q.single || q.double) && !(q.single && q.double)
    requires forall k :: i <= k < j ==> cmd[k] != (if q.single then '\'' else '"')
    requires q.double ==> forall k :: i <= k < j ==> cmd[k] != '\\'
    ensures ScanTo(cmd, i, q, j) == (j, q) && Calm(cmd, i, q, j, true)
    decreases j - i
  {
    if i < j {
      assert Lex(cmd, i, q) == Lexed(1, q, Plain);
      InsideQuotes(cmd, i + 1, q, j);
    }
  }

  /** A text between quotes at the start of a command, as it is scanned. */
  lemma QuotedScan(cmd: string, n: nat, mark: char)
    requires n + 2 <= |cmd| && (mark == '\'' || mark == '"') && cmd[0] == mark && cmd[n + 1] == mark
    requires forall k :: 1 <= k < n + 1 ==> cmd[k] != mark && (mark == '"' ==> cmd[k] != '\\')
    ensures Calm(cmd, 0, NEUTRAL, n + 2, true) && ScanTo(cmd, 0, NEUTRAL, n + 2) == (n + 2, NEUTRAL)
  {
    var inside := Quoting(mark == '\'', mark == '"', 0);
    assert Lex(cmd, 0, NEUTRAL) == Lexed(1, inside, Plain);
    InsideQuotes(cmd, 1, inside, n + 1);
    assert Lex(cmd, n + 1, inside) == Lexed(1, NEUTRAL, Plain);
    ScanSplit(cmd, 1, inside, n + 1, n + 2, true);
  }

  /** Whatever operators, parentheses or backslashes a text holds, single quotes make it one command. */
  lemma SingleQuotedAtomic(t: string)
    requires '\'' !in t
    ensures Atomic("'" + t + "'")
  {
    var cmd := "'" + t + "'" + " ";
    assert forall k :: 1 <= k < |t| + 1 ==> cmd[k] == t[k - 1];
    QuotedScan(cmd, |t|, '\'');
  }

  lemma DoubleQuotedAtomic(t: string)
    requires '"' !in t && '\\' !in t
    ensures Atomic("\"" + t + "\"")
  {
    var cmd := "\"" + t + "\"" + " ";
    assert forall k :: 1 <= k < |t| + 1 ==> cmd[k] == t[k - 1];
    QuotedScan(cmd, |t|, '"');
  }

  /** A backslash takes the meaning from any character, quotes, parentheses and operators included. */
  lemma EscapedAtomic(ch: char)
    requires !IsSpace(ch)
    ensures Atomic(['\\', ch])
  {
    var cmd := ['\\', ch] + " ";
    assert Lex(cmd, 0, NEUTRAL) == Lexed(2, NEUTRAL, Plain);
    assert ScanTo(cmd, 2, NEUTRAL, 2) == (2, NEUTRAL);
  }
}
