/** The dominant newline of a text and its LF-normalized view (common/fileutil.go, lineending.go). */
module LineEndingMaps {
  import opened LineEndings

  // ----- the dominant form -----

  ghost predicate MostFrequent(c: string, k: Ending) {
    forall k' :: k' != NoEnding ==> Count(c, k', 0, |c|) <= Count(c, k, 0, |c|)
  }

  function Rank(k: Ending): int {
    match k case NoEnding => 0 case CRLF => 1 case LF => 2 case CR => 3
  }

  /** The most frequent form; the form of the first newline among equals, else CRLF before LF before CR. */
  ghost predicate Dominates(c: string, first: Ending, k: Ending) {
    && k != NoEnding && MostFrequent(c, k)
    && (MostFrequent(c, first) ==> k == first)
    && (!MostFrequent(c, first) ==> forall k' :: k' != NoEnding && MostFrequent(c, k') ==> Rank(k) <= Rank(k'))
  }

  /** The dominant form is unique: the form of the first newline when it is as frequent as any, else the first of CRLF,
      LF and CR that is. */
  lemma DominatesIs(c: string, first: Ending, k: Ending)
    requires Dominates(c, first, k)
    ensures k == if MostFrequent(c, first) && first != NoEnding then first
                 else if MostFrequent(c, CRLF) then CRLF
                 else if MostFrequent(c, LF) then LF
                 else CR
  {
  }

  function Prefer(best: Tally, f: Tally, first: Ending): Tally {
    if f.count > best.count || (f.count == best.count && f.form == first) then f else best
  }

  method DetectLineEnding(content: string) returns (dominant: Ending)
    ensures Plain(content, 0, |content|) ==> dominant == LF
    ensures forall i :: FirstFrom(content, 0, i) ==> Dominates(content, FormAt(content, i), dominant)
  {
    var lf, crlf, cr := Tally(LF, 0, 0), Tally(CRLF, 0, 0), Tally(CR, 0, 0);
    var first := NoEnding;
    var i := 0;
    while i < |content|
      invariant 0 <= i <= |content| && Scanned(content, 0, |content|, i, crlf, lf, cr)
      invariant first == NoEnding <==> Plain(content, 0, i)
      invariant first != NoEnding ==> exists a :: FirstFrom(content, 0, a) && first == FormAt(content, a)
    {
      ScanAdvance(content, 0, |content|, i, crlf, lf, cr);
      assert first == NoEnding && NewlineAt(content, i) ==> FirstFrom(content, 0, i);
      if first == NoEnding {
        first := FormAt(content, i);
      }
      if content[i] == '\r' {
        if i + 1 < |content| && content[i + 1] == '\n' {
          crlf := Bump(crlf, i);
          i := i + 1;
        } else {
          cr := Bump(cr, i);
        }
      } else if content[i] == '\n' {
        lf := Bump(lf, i);
      }
      i := i + 1;
    }
    dominant := Prefer(Prefer(Prefer(Tally(LF, 0, 0), crlf, first), lf, first), cr, first).form;
    if i > 0 { PreferDominates(content, crlf, lf, cr, first); }
  }

  lemma PreferDominates(c: string, crlf: Tally, lf: Tally, cr: Tally, first: Ending)
    requires c != [] && Tallies(c, 0, |c|, crlf, lf, cr)
    requires first == NoEnding <==> Plain(c, 0, |c|)
    requires first != NoEnding ==> exists a :: FirstFrom(c, 0, a) && first == FormAt(c, a)
    ensures var k := Prefer(Prefer(Prefer(Tally(LF, 0, 0), crlf, first), lf, first), cr, first).form;
            && (Plain(c, 0, |c|) ==> k == LF)
            && forall i :: FirstFrom(c, 0, i) ==> Dominates(c, FormAt(c, i), k)
  {
    NothingTallied(c, 0, |c|, crlf, lf, cr);
    var k := Prefer(Prefer(Prefer(Tally(LF, 0, 0), crlf, first), lf, first), cr, first).form;
    assert lf.count == Count(c, LF, 0, |c|) && crlf.count == Count(c, CRLF, 0, |c|) && cr.count == Count(c, CR, 0, |c|);
    forall i | FirstFrom(c, 0, i) ensures Dominates(c, FormAt(c, i), k) {
      var b :| FirstFrom(c, 0, b) && first == FormAt(c, b);
      assert i == b;
    }
  }

  // ----- normalization -----

  /** strings.ReplaceAll for a nonempty pattern: leftmost matches, none overlapping. */
  function ReplaceAll(s: string, old_: string, new_: string): string
    requires old_ != []
  {
    if |s| < |old_| then s
    else if s[..|old_|] == old_ then new_ + ReplaceAll(s[|old_|..], old_, new_)
    else [s[0]] + ReplaceAll(s[1..], old_, new_)
  }

  /** NormalizeLineEndings(text, "\n"). */
  function NormalizeLF(c: string): string {
    ReplaceAll(ReplaceAll(c, "\r\n", "\n"), "\r", "\n")
  }

  /** Bytes of the first character of the normalized view. */
  function Width(c: string): nat {
    if FirstHalf(c, 0) then 2 else 1
  }

  function Head(c: string): char
    requires c != []
  {
    if c[0] == '\r' then '\n' else c[0]
  }

  /** The text with every CRLF and lone CR collapsed to LF. */
  function Collapse(c: string): string {
    if c == [] then [] else [Head(c)] + Collapse(c[Width(c)..])
  }

  /** The offset in the text of offset `n` in its collapsed form. */
  function Offset(c: string, n: nat): nat
    decreases n
  {
    if n == 0 || c == [] then 0 else Width(c) + Offset(c[Width(c)..], n - 1)
  }

  /** The one-pass view is what the two library replacements compute. */
  lemma {:induction false} CollapseIsNormalize(c: string)
    ensures Collapse(c) == NormalizeLF(c)
  {
    if c == [] {
    } else {
      var rest := c[Width(c)..];
      CollapseIsNormalize(rest);
      var inner := ReplaceAll(rest, "\r\n", "\n");
      if FirstHalf(c, 0) {
        assert c[..2] == "\r\n";
        assert (['\n'] + inner)[1..] == inner && (['\n'] + inner)[..1] == ['\n'];
      } else {
        assert |c| >= 2 ==> (c[..2] == "\r\n" <==> c[0] == '\r' && c[1] == '\n');
        assert |c| == 1 ==> rest == [] && c == [c[0]];
        assert ([c[0]] + inner)[1..] == inner && ([c[0]] + inner)[..1] == [c[0]];
        assert ReplaceAll(c, "\r\n", "\n") == [c[0]] + inner;
        assert "\n" + ReplaceAll(inner, "\r", "\n") == ['\n'] + ReplaceAll(inner, "\r", "\n");
      }
    }
  }

  /** A CRLF forms where the two texts meet. */
  predicate Seam(x: string, y: string) {
    x != [] && y != [] && x[|x| - 1] == '\r' && y[0] == '\n'
  }

  /** Collapsing distributes over concatenation, except that a seam loses exactly one character. */
  lemma {:induction false} CollapseConcat(x: string, y: string)
    ensures |Collapse(x + y)| == |Collapse(x)| + |Collapse(y)| - (if Seam(x, y) then 1 else 0)
    ensures !Seam(x, y) ==> Collapse(x + y) == Collapse(x) + Collapse(y)
    decreases |x|
  {
    if x == [] {
      assert x + y == y;
    } else if x == "\r" && Seam(x, y) {
      assert (x + y)[2..] == y[1..] && y[Width(y)..] == y[1..] && x[1..] == [];
    } else {
      var w := Width(x);
      assert Width(x + y) == w && Head(x + y) == Head(x);
      assert (x + y)[w..] == x[w..] + y;
      CollapseConcat(x[w..], y);
      assert Seam(x, y) == Seam(x[w..], y);
    }
  }

  lemma {:induction false} OffsetStep(c: string, n: nat)
    requires n < |Collapse(c)|
    ensures Offset(c, n) < |c|
    ensures Offset(c, n + 1) == Offset(c, n) + Width(c[Offset(c, n)..])
    ensures Offset(c, n + 1) <= |c|
    decreases n
  {
    var rest := c[Width(c)..];
    if n == 0 {
      assert Offset(rest, 0) == 0 && c[0..] == c;
    } else {
      OffsetStep(rest, n - 1);
      assert rest[Offset(rest, n - 1)..] == c[Offset(c, n)..];
    }
  }

  lemma DropTwice(c: string, a: nat, b: nat)
    requires a + b <= |c|
    ensures c[a..][b..] == c[a + b..]
  {
  }


  lemma TakeAfterDrop(c: string, l: nat, k: nat)
    requires l + k <= |c|
    ensures c[l..][..k] == c[l..l + k]
  {
  }

  lemma MoveHead(s: string, x: char, t: string)
    ensures s + ([x] + t) == (s + [x]) + t
  {
  }

  /** Offsets compose: the image of a + k is reached from the image of a. */
  lemma {:induction false} OffsetShift(c: string, a: nat, k: nat)
    requires a <= |Collapse(c)|
    ensures Offset(c, a) <= |c| && Offset(c, a + k) == Offset(c, a) + Offset(c[Offset(c, a)..], k)
    decreases a
  {
    if a == 0 {
      assert c[0..] == c;
    } else {
      var w, rest := Width(c), c[Width(c)..];
      OffsetShift(rest, a - 1, k);
      DropTwice(c, w, Offset(rest, a - 1));
      assert Offset(c, a) == w + Offset(rest, a - 1);
      assert Offset(c, a + k) == w + Offset(rest, a - 1 + k);
    }
  }

  /** What follows offset `n` in the view is the view of what follows its image in the text. */
  lemma {:induction false} OffsetSuffix(c: string, n: nat)
    requires n <= |Collapse(c)|
    ensures Offset(c, n) <= |c| && Collapse(c[Offset(c, n)..]) == Collapse(c)[n..]
    decreases n
  {
    if n == 0 {
      assert c[0..] == c;
    } else {
      OffsetStep(c, n - 1);
      OffsetSuffix(c, n - 1);
      var o, t := Offset(c, n - 1), Collapse(c)[n - 1..];
      CollapseAt(c, o);
      assert Collapse(c[Offset(c, n)..]) == t[1..];
      DropTwice(Collapse(c), n - 1, 1);
    }
  }

  lemma OffsetEnd(c: string)
    ensures Offset(c, |Collapse(c)|) == |c|
  {
    OffsetSuffix(c, |Collapse(c)|);
    var tail := c[Offset(c, |Collapse(c)|)..];
    assert Collapse(tail) == [];
    assert tail == [];
  }

  /** An offset of the view never falls between the two bytes of a CRLF. */
  lemma {:induction false} OffsetNeverSplits(c: string, n: nat)
    requires n <= |Collapse(c)|
    ensures !SecondHalf(c, Offset(c, n))
    decreases n
  {
    if n > 0 {
      var rest := c[Width(c)..];
      OffsetNeverSplits(rest, n - 1);
      var o := Offset(rest, n - 1);
      assert o > 0 && o < |rest| ==> rest[o] == c[Offset(c, n)] && rest[o - 1] == c[Offset(c, n) - 1];
    }
  }

  lemma {:induction false} OffsetIncreases(c: string, a: nat, b: nat)
    requires a < b <= |Collapse(c)|
    ensures Offset(c, a) < Offset(c, b)
    decreases b
  {
    OffsetStep(c, b - 1);
    if a < b - 1 {
      OffsetIncreases(c, a, b - 1);
    }
  }

  lemma OffsetPrefix(c: string, n: nat)
    requires n <= |Collapse(c)|
    ensures Offset(c, n) <= |c| && Collapse(c[..Offset(c, n)]) == Collapse(c)[..n]
  {
    OffsetSuffix(c, n);
    OffsetNeverSplits(c, n);
    var o := Offset(c, n);
    var left, right := c[..o], c[o..];
    assert c == left + right;
    assert !Seam(left, right);
    CollapseConcat(left, right);
    assert |Collapse(left)| == n;
  }

  /** The parts of a span put together. */
  lemma SpanOf(c: string, view: string, tail: string, o: nat, k: nat, a: nat, n: nat)
    requires o + k <= |c| && tail == c[o..] && a + n <= |view| && view[a..] == Collapse(tail)
    requires Collapse(tail[..k]) == Collapse(tail)[..n]
    ensures Collapse(c[o..o + k]) == view[a..a + n]
  {
    TakeAfterDrop(c, o, k);
    TakeAfterDrop(view, a, n);
  }

  /** The text after the image of `a`, and how far its next n view characters reach. */
  lemma SpanParts(c: string, a: nat, n: nat) returns (o: nat, k: nat)
    requires a + n <= |Collapse(c)|
    ensures o == Offset(c, a) && o + k == Offset(c, a + n) && o + k <= |c|
    ensures Collapse(c)[a..] == Collapse(c[o..]) && Collapse(c[o..][..k]) == Collapse(c[o..])[..n]
  {
    OffsetSuffix(c, a);
    OffsetShift(c, a, n);
    o := Offset(c, a);
    k := Offset(c[o..], n);
    OffsetPrefix(c[o..], n);
  }

  /** A span of the view is the view of the matching span of the text. */
  lemma OffsetSlice(c: string, a: nat, b: nat)
    requires a <= b <= |Collapse(c)|
    ensures Offset(c, a) <= Offset(c, b) <= |c| && Collapse(c[Offset(c, a)..Offset(c, b)]) == Collapse(c)[a..b]
  {
    var o, k := SpanParts(c, a, b - a);
    SpanOf(c, Collapse(c), c[o..], o, k, a, b - a);
  }

  /** Splicing replacement text into the original and into the view agree exactly when no CRLF forms at a seam. */
  lemma SpliceCommutes(c: string, a: nat, b: nat, mid: string)
    requires a <= b <= |Collapse(c)|
    ensures Offset(c, a) <= Offset(c, b) <= |c|
    ensures var left, right := c[..Offset(c, a)], c[Offset(c, b)..];
            Collapse(left + mid + right) == Collapse(c)[..a] + Collapse(mid) + Collapse(c)[b..]
            <==> !Seam(left, mid + right) && !Seam(mid, right)
  {
    OffsetSlice(c, a, b);
    OffsetPrefix(c, a);
    OffsetSuffix(c, b);
    var left, right := c[..Offset(c, a)], c[Offset(c, b)..];
    assert left + mid + right == left + (mid + right);
    CollapseConcat(left, mid + right);
    CollapseConcat(mid, right);
    assert Collapse(c)[..a] + Collapse(mid) + Collapse(c)[b..] == Collapse(left) + (Collapse(mid) + Collapse(right));
  }

  // ----- the map -----

  class LineEndingMap {
    const original: string
    const norm: string
    const dominant: Ending
    const region: LineEndingCursor
    var curNorm: nat
    var curOrig: nat

    ghost predicate Valid()
      reads this, region
    {
      && norm == Collapse(original) && curNorm <= |norm| && curOrig == Offset(original, curNorm)
      && region.Valid() && region.content == original && region.fallback == dominant
    }

    constructor (content: string)
      ensures Valid() && original == content && norm == NormalizeLF(content) && fresh(region)
      ensures Plain(content, 0, |content|) ==> dominant == LF
      ensures forall i :: FirstFrom(content, 0, i) ==> Dominates(content, FormAt(content, i), dominant)
    {
      original := content;
      var form := DetectLineEnding(content);
      dominant := form;
      var cursor := new LineEndingCursor(content, form);
      region := cursor;
      var view := BuildNorm(content);
      norm := view;
      curNorm, curOrig := 0, 0;
      CollapseIsNormalize(content);
    }

    static method BuildNorm(content: string) returns (sb: string)
      ensures sb == Collapse(content)
    {
      if '\r' !in content {
        NoCrIsItself(content);
        return content;
      }
      sb := [];
      var i := 0;
      assert content[0..] == content;
      while i < |content|
        invariant 0 <= i <= |content| && Collapse(content) == sb + Collapse(content[i..])
      {
        CollapseAt(content, i);
        var ch := if content[i] == '\r' then '\n' else content[i];
        MoveHead(sb, ch, Collapse(content[Past(content, i)..]));
        sb := sb + [ch];
        i := if content[i] == '\r' && i + 1 < |content| && content[i + 1] == '\n' then i + 2 else i + 1;
      }
    }

    /** The answer depends on the query alone, although a cursor is kept between queries. */
    method OrigOffset(n: int) returns (o: nat)
      requires Valid()
      modifies this`curNorm, this`curOrig
      ensures Valid()
      ensures o == Offset(original, Clip(n, |norm|))
    {
      var target := Clip(n, |norm|);
      if |norm| == |original| {
        NothingCollapsed(original, target);
        return target;
      }
      if target < curNorm {
        curNorm, curOrig := 0, 0;
      }
      while curNorm < target
        invariant Valid() && curNorm <= target
      {
        OffsetStep(original, curNorm);
        if original[curOrig] == '\r' && curOrig + 1 < |original| && original[curOrig + 1] == '\n' {
          curOrig := curOrig + 2;
        } else {
          curOrig := curOrig + 1;
        }
        curNorm := curNorm + 1;
      }
      o := curOrig;
    }

    method LocalLineEnding(start: int, end: int) returns (r: Ending)
      requires Valid()
      modifies this`curNorm, this`curOrig, region
      ensures Valid()
      ensures Resolves(original, dominant, Offset(original, Clip(start, |norm|)),
                       Offset(original, Clip(end, |norm|)), r)
    {
      var s := OrigOffset(start);
      var e := OrigOffset(end);
      r := region.At(s, e);
    }
  }

  lemma CollapseAt(c: string, i: nat)
    requires i < |c|
    ensures Past(c, i) <= |c|
    ensures Collapse(c[i..]) == [if c[i] == '\r' then '\n' else c[i]] + Collapse(c[Past(c, i)..])
  {
    assert c[i..][Width(c[i..])..] == c[Past(c, i)..];
  }

  function Clip(n: int, hi: nat): nat {
    if n < 0 then 0 else if n > hi then hi else n
  }

  /** The nearest offset. */
  lemma ClipIsNearest(n: int, hi: nat, m: nat)
    requires m <= hi
    ensures Clip(n, hi) <= hi
    ensures if n < m then n <= Clip(n, hi) <= m || Clip(n, hi) == 0 else m <= Clip(n, hi) <= n
  {
  }

  lemma {:induction false} NoCrIsItself(c: string)
    requires '\r' !in c
    ensures Collapse(c) == c
  {
    if c != [] {
      NoCrIsItself(c[1..]);
    }
  }

  lemma {:induction false} CollapseShrinks(c: string)
    ensures |Collapse(c)| <= |c|
  {
    if c != [] { CollapseShrinks(c[Width(c)..]); }
  }

  lemma {:induction false} NothingCollapsed(c: string, n: nat)
    requires |Collapse(c)| == |c| && n <= |c|
    ensures Offset(c, n) == n
    decreases n
  {
    if n > 0 {
      CollapseShrinks(c[Width(c)..]);
      NothingCollapsed(c[1..], n - 1);
    }
  }
}
