/** Newline forms, the newline cursor and the LF-normalized view of a text (common/lineending.go, fileutil.go). */
module LineEndings {

  datatype Ending = NoEnding | LF | CRLF | CR

  predicate IsNewline(ch: char) {
    ch == '\r' || ch == '\n'
  }

  predicate NewlineAt(c: string, i: int) {
    0 <= i < |c| && IsNewline(c[i])
  }

  /** The LF half of a CRLF pair. */
  predicate SecondHalf(c: string, i: int) {
    0 < i < |c| && c[i] == '\n' && c[i - 1] == '\r'
  }

  predicate FirstHalf(c: string, i: int) {
    0 <= i && i + 1 < |c| && c[i] == '\r' && c[i + 1] == '\n'
  }

  /** The form of the newline the character at `i` belongs to. */
  function FormAt(c: string, i: int): Ending {
    if !NewlineAt(c, i) then NoEnding
    else if FirstHalf(c, i) || SecondHalf(c, i) then CRLF
    else if c[i] == '\n' then LF else CR
  }

  /** The form of the newline that starts at `i`. */
  function TokenAt(c: string, i: int): Ending {
    if SecondHalf(c, i) then NoEnding else FormAt(c, i)
  }

  /** A token stands where its characters begin, and CR LF is one token. */
  lemma TokensSpell(c: string, i: nat)
    requires i < |c|
    ensures TokenAt(c, i) == CRLF <==> "\r\n" <= c[i..]
    ensures TokenAt(c, i) == LF <==> c[i] == '\n' && !(c[..i] != "" && c[i - 1] == '\r')
    ensures TokenAt(c, i) == CR <==> c[i] == '\r' && !("\r\n" <= c[i..])
  {
  }

  ghost predicate Plain(c: string, lo: int, hi: int) {
    forall i :: lo <= i < hi ==> !NewlineAt(c, i)
  }

  // ----- the stateless answer -----

  /** How many newlines of form `k` start in [lo, hi). */
  ghost function Count(c: string, k: Ending, lo: int, hi: int): nat
    decreases hi - lo
  {
    if hi <= lo then 0 else Count(c, k, lo, hi - 1) + if TokenAt(c, hi - 1) == k then 1 else 0
  }

  /** Some `k` newline starts in [lo, hi) before every `k'` newline. */
  ghost predicate Earlier(c: string, lo: int, hi: int, k: Ending, k': Ending) {
    exists a :: lo <= a < hi && TokenAt(c, a) == k && forall j :: lo <= j <= a ==> TokenAt(c, j) != k'
  }

  ghost predicate Beats(c: string, lo: int, hi: int, k: Ending, k': Ending) {
    || Count(c, k, lo, hi) > Count(c, k', lo, hi)
    || (Count(c, k, lo, hi) == Count(c, k', lo, hi) && Earlier(c, lo, hi, k, k'))
  }

  /** `k` is the most frequent form starting in [lo, hi), the earliest one among equals. */
  ghost predicate Majority(c: string, lo: int, hi: int, k: Ending) {
    k != NoEnding && Count(c, k, lo, hi) > 0 && forall k' :: k' != k && k' != NoEnding ==> Beats(c, lo, hi, k, k')
  }

  /** A span that begins on the LF half of a CRLF counts that CRLF. */
  function SpanStart(c: string, start: int): int {
    if SecondHalf(c, start) then start - 1 else start
  }

  ghost predicate FirstFrom(c: string, e: int, i: int) {
    e <= i && NewlineAt(c, i) && Plain(c, e, i)
  }

  ghost predicate LastBefore(c: string, s: int, i: int) {
    i < s && NewlineAt(c, i) && Plain(c, i + 1, s)
  }

  /** The newline form for text replacing the clamped span [s, e): the majority inside it, else the newline that
      ends its line, else the newline that opened its line. */
  ghost predicate SpanResolves(c: string, s: int, e: int, r: Ending) {
    if !Plain(c, s, e) then Majority(c, SpanStart(c, s), e, r)
    else if !Plain(c, e, |c|) then exists i :: FirstFrom(c, e, i) && r == FormAt(c, i)
    else exists i :: LastBefore(c, s, i) && r == FormAt(c, i)
  }

  function Clamp(c: string, start: int, end: int): (int, int) {
    var s := if start < 0 then 0 else start;
    var e := if end > |c| then |c| else end;
    (s, if e < s then s else e)
  }

  /** A span inside the text is left alone; what lies outside the text does not count. */
  lemma ClampLeavesSpans(c: string, start: int, end: int)
    ensures 0 <= start <= end <= |c| ==> Clamp(c, start, end) == (start, end)
    ensures start <= 0 <= end ==> Clamp(c, start, end) == Clamp(c, 0, end)
    ensures start <= |c| <= end ==> Clamp(c, start, end) == Clamp(c, start, |c|)
    ensures 0 <= start && end <= start ==> Clamp(c, start, end) == (start, start)
  {
  }

  ghost predicate Resolves(c: string, fallback: Ending, start: int, end: int, r: Ending) {
    var (s, e) := Clamp(c, start, end);
    if Plain(c, 0, |c|) then r == fallback else SpanResolves(c, s, e, r)
  }

  lemma BeatsAsymmetric(c: string, lo: int, hi: int, k: Ending, k': Ending)
    requires k != k'
    ensures !(Beats(c, lo, hi, k, k') && Beats(c, lo, hi, k', k))
  {
  }

  lemma MajorityUnique(c: string, lo: int, hi: int, k: Ending, k': Ending)
    requires Majority(c, lo, hi, k) && Majority(c, lo, hi, k')
    ensures k == k'
  {
    if k != k' {
      BeatsAsymmetric(c, lo, hi, k, k');
    }
  }

  /** The stateless answer is unique, so answers that satisfy it cannot depend on earlier queries. */
  lemma ResolvesUnique(c: string, fallback: Ending, start: int, end: int, r: Ending, r': Ending)
    requires Resolves(c, fallback, start, end, r) && Resolves(c, fallback, start, end, r')
    ensures r == r'
  {
    var (s, e) := Clamp(c, start, end);
    if !Plain(c, 0, |c|) {
      if !Plain(c, s, e) {
        MajorityUnique(c, SpanStart(c, s), e, r, r');
      } else if !Plain(c, e, |c|) {
        var i :| FirstFrom(c, e, i) && r == FormAt(c, i);
        var i' :| FirstFrom(c, e, i') && r' == FormAt(c, i');
        assert i == i';
      } else {
        var i :| LastBefore(c, s, i) && r == FormAt(c, i);
        var i' :| LastBefore(c, s, i') && r' == FormAt(c, i');
        assert i == i';
      }
    }
  }

  // ----- counting -----

  /** One form's running count and first position while a text is scanned. */
  datatype Tally = Tally(form: Ending, count: nat, at: int)

  ghost predicate Tallied(c: string, lo: int, hi: int, f: Tally) {
    && f.count == Count(c, f.form, lo, hi)
    && (f.count > 0 ==>
          && lo <= f.at < hi && TokenAt(c, f.at) == f.form
          && forall j :: lo <= j < f.at ==> TokenAt(c, j) != f.form)
    && (f.count == 0 ==> forall j :: lo <= j < hi ==> TokenAt(c, j) != f.form)
  }

  function Bump(f: Tally, at: int): Tally {
    f.(count := f.count + 1, at := if f.count == 0 then at else f.at)
  }

  function Pick(best: Tally, f: Tally): Tally {
    if f.count == 0 then best
    else if f.count > best.count || (f.count == best.count && f.at < best.at) then f
    else best
  }

  lemma TallyNext(c: string, lo: int, hi: int, f: Tally)
    requires Tallied(c, lo, hi, f) && lo <= hi
    ensures Tallied(c, lo, hi + 1, if TokenAt(c, hi) == f.form then Bump(f, hi) else f)
  {
  }

  lemma TallyBeats(c: string, lo: int, hi: int, f: Tally, g: Tally)
    requires Tallied(c, lo, hi, f) && Tallied(c, lo, hi, g) && f.count > 0 && f.form != g.form
    ensures f.count > g.count || (f.count == g.count && f.at < g.at) <==> Pick(g, f) == f
    ensures f.count > g.count || (f.count == g.count && f.at < g.at) ==> Beats(c, lo, hi, f.form, g.form)
    ensures f.count == g.count ==> f.at != g.at
  {
  }

  ghost predicate Tallies(c: string, lo: int, hi: int, crlf: Tally, lf: Tally, cr: Tally) {
    && crlf.form == CRLF && lf.form == LF && cr.form == CR
    && Tallied(c, lo, hi, crlf) && Tallied(c, lo, hi, lf) && Tallied(c, lo, hi, cr)
  }

  lemma ScanStep(c: string, lo: int, i: int, crlf: Tally, lf: Tally, cr: Tally)
    requires lo <= i && Tallies(c, lo, i, crlf, lf, cr)
    ensures match TokenAt(c, i)
            case NoEnding => Tallies(c, lo, i + 1, crlf, lf, cr)
            case CRLF => Tallies(c, lo, i + 1, Bump(crlf, i), lf, cr)
            case LF => Tallies(c, lo, i + 1, crlf, Bump(lf, i), cr)
            case CR => Tallies(c, lo, i + 1, crlf, lf, Bump(cr, i))
  {
    TallyNext(c, lo, i, crlf);
    TallyNext(c, lo, i, lf);
    TallyNext(c, lo, i, cr);
  }

  /** What the span scan knows at `i`: it never stands on the second half of a CRLF, except at the start. */
  ghost predicate Scanned(c: string, start: int, end: int, i: int, crlf: Tally, lf: Tally, cr: Tally) {
    if i == start then lf == Tally(LF, 0, 0) && crlf == Tally(CRLF, 0, 0) && cr == Tally(CR, 0, 0)
    else Tallies(c, SpanStart(c, start), if i <= end then i else end, crlf, lf, cr) && (i <= end ==> !SecondHalf(c, i))
  }

  lemma ScanAdvance(c: string, start: int, end: int, i: int, crlf: Tally, lf: Tally, cr: Tally)
    requires 0 <= start <= i < end <= |c| && Scanned(c, start, end, i, crlf, lf, cr)
    ensures FirstHalf(c, i) ==> Scanned(c, start, end, i + 2, Bump(crlf, i), lf, cr)
    ensures SecondHalf(c, i) ==> Scanned(c, start, end, i + 1, Bump(crlf, i - 1), lf, cr)
    ensures !FirstHalf(c, i) && !SecondHalf(c, i) ==>
              Scanned(c, start, end, i + 1, crlf, if c[i] == '\n' then Bump(lf, i) else lf,
                      if c[i] == '\r' then Bump(cr, i) else cr)
  {
    var lo := SpanStart(c, start);
    if SecondHalf(c, i) {
      assert Tallies(c, lo, lo, crlf, lf, cr);
      ScanStep(c, lo, lo, crlf, lf, cr);
      ScanStep(c, lo, i, Bump(crlf, lo), lf, cr);
    } else {
      assert i == start ==> Tallies(c, lo, i, crlf, lf, cr);
      ScanStep(c, lo, i, crlf, lf, cr);
      if FirstHalf(c, i) { ScanStep(c, lo, i + 1, Bump(crlf, i), lf, cr); }
    }
  }

  lemma NothingTallied(c: string, start: int, end: int, crlf: Tally, lf: Tally, cr: Tally)
    requires 0 <= start < end <= |c| && Tallies(c, SpanStart(c, start), end, crlf, lf, cr)
    ensures lf.count + crlf.count + cr.count == 0 <==> Plain(c, start, end)
  {
    var lo := SpanStart(c, start);
    if lf.count + crlf.count + cr.count == 0 {
      forall i | start <= i < end ensures !NewlineAt(c, i) {
        assert TokenAt(c, i) == NoEnding && (lo <= i - 1 ==> TokenAt(c, i - 1) != CRLF);
      }
    } else {
      var f := if crlf.count > 0 then crlf else if lf.count > 0 then lf else cr;
      assert NewlineAt(c, if f.at < start then start else f.at);
    }
  }

  /** The three-way comparison of the tallies finds the majority. */
  lemma PickMajority(c: string, lo: int, hi: int, crlf: Tally, lf: Tally, cr: Tally)
    requires Tallies(c, lo, hi, crlf, lf, cr) && lf.count + crlf.count + cr.count > 0
    ensures Majority(c, lo, hi, Pick(Pick(Pick(Tally(NoEnding, 0, 0), crlf), lf), cr).form)
  {
    var best := Pick(Pick(Pick(Tally(NoEnding, 0, 0), crlf), lf), cr);
    forall k' | k' != best.form && k' != NoEnding ensures Beats(c, lo, hi, best.form, k') {
      var g := if k' == CRLF then crlf else if k' == LF then lf else cr;
      TallyBeats(c, lo, hi, best, g);
      if g.count > 0 { TallyBeats(c, lo, hi, g, best); }
    }
  }

  // ----- the cursor -----

  /** Where the lookahead resumes after the newline at `i`. */
  function Past(c: string, i: int): int {
    if FirstHalf(c, i) then i + 2 else i + 1
  }

  ghost predicate Increasing(trail: seq<int>) {
    forall i, j :: 0 <= i < j < |trail| ==> trail[i] < trail[j]
  }

  /** The offsets a scan from `lo` up to `hi` examines, in order. */
  ghost function Range(lo: int, hi: int): seq<int> {
    seq(if lo < hi then hi - lo else 0, k => lo + k)
  }

  lemma Examined(trail: seq<int>, lo: int, hi: int)
    requires Increasing(trail) && forall p :: p in trail ==> p < lo
    ensures Increasing(trail + Range(lo, hi))
    ensures forall p :: p in trail + Range(lo, hi) ==> p in trail || lo <= p < hi
  {
    var all := trail + Range(lo, hi);
    forall i, j | 0 <= i < j < |all| ensures all[i] < all[j] {
      if i < |trail| { assert trail[i] in trail; }
    }
  }

  class LineEndingCursor {
    const content: string
    const hasNL: bool
    var fallback: Ending
    var scan: int
    var foundPos: int
    var foundKind: Ending
    var lastEnd: int
    var finalKind: Ending
    var finalDone: bool
    /** The bytes the terminator lookahead has examined since the walk last started over. */
    ghost var trail: seq<int>

    ghost predicate Valid()
      reads this
    {
      && (hasNL <==> !Plain(content, 0, |content|))
      && -2 <= foundPos && 0 <= scan && 0 <= lastEnd
      && (foundPos == -2 ==> scan == 0)
      && (foundPos == -1 ==> Plain(content, lastEnd, |content|))
      && (foundPos >= 0 ==>
            && NewlineAt(content, foundPos) && foundKind == FormAt(content, foundPos)
            && scan == Past(content, foundPos) && Plain(content, lastEnd, foundPos))
      && (finalDone ==>
            if hasNL then exists i :: LastBefore(content, |content|, i) && finalKind == FormAt(content, i)
            else finalKind == NoEnding)
      && Increasing(trail) && forall p :: p in trail ==> 0 <= p < scan && p < |content|
    }

    constructor (text: string, fallback: Ending)
      ensures Valid() && content == text && this.fallback == fallback && trail == [] && lastEnd == 0
    {
      content := text;
      this.fallback := fallback;
      hasNL := exists i :: 0 <= i < |text| && NewlineAt(text, i);
      scan, foundPos, lastEnd := 0, -2, 0;
      foundKind, finalKind, finalDone := NoEnding, NoEnding, false;
      trail := [];
    }

    /** The answer is the stateless one whatever was asked before; while the queries move forward the lookahead
        examines each byte at most once. */
    method At(start: int, end: int) returns (r: Ending)
      requires Valid()
      modifies this
      ensures Valid() && fallback == old(fallback)
      ensures Resolves(content, fallback, start, end, r)
      ensures Clamp(content, start, end).1 >= old(lastEnd) ==> old(trail) <= trail
    {
      if !hasNL {
        return fallback;
      }
      var (s, e) := Clamp(content, start, end);
      if e < lastEnd {
        scan, foundPos, foundKind := 0, -2, NoEnding;
        trail := [];
      }
      lastEnd := e;
      r := SpanMajority(s, e);
      if r != NoEnding {
        return;
      }
      r := Terminator(e);
      if r != NoEnding {
        return;
      }
      r := Final();
      if r != NoEnding {
        assert Plain(content, s, |content|);
        return;
      }
      r := fallback;
    }

    method SpanMajority(start: int, end: int) returns (r: Ending)
      requires 0 <= start <= end && (start < end ==> end <= |content|)
      ensures r == NoEnding <==> Plain(content, start, end)
      ensures r != NoEnding ==> Majority(content, SpanStart(content, start), end, r)
    {
      var lf, crlf, cr := Tally(LF, 0, 0), Tally(CRLF, 0, 0), Tally(CR, 0, 0);
      ghost var lo := SpanStart(content, start);
      var i := start;
      while i < end
        invariant start <= i && (start < end ==> i <= end + 1) && (start == end ==> i == start)
        invariant Scanned(content, start, end, i, crlf, lf, cr)
        decreases end - i
      {
        ScanAdvance(content, start, end, i, crlf, lf, cr);
        if content[i] == '\r' {
          if i + 1 < |content| && content[i + 1] == '\n' {
            crlf := Bump(crlf, i);
            i := i + 1;
          } else {
            cr := Bump(cr, i);
          }
        } else if content[i] == '\n' {
          if i > 0 && content[i - 1] == '\r' {
            crlf := Bump(crlf, i - 1);
          } else {
            lf := Bump(lf, i);
          }
        }
        i := i + 1;
      }
      if start < end { NothingTallied(content, start, end, crlf, lf, cr); }
      if lf.count + crlf.count + cr.count == 0 {
        return NoEnding;
      }
      PickMajority(content, lo, end, crlf, lf, cr);
      r := Pick(Pick(Pick(Tally(NoEnding, 0, 0), crlf), lf), cr).form;
    }

    /** The forward scan: the first newline at or after `from`. */
    method NextNewline(from: int) returns (i: int)
      requires 0 <= from
      ensures from <= i && Plain(content, from, i)
      ensures i < |content| ==> NewlineAt(content, i)
      ensures from >= |content| ==> i == from
    {
      i := from;
      while i < |content|
        invariant from <= i && Plain(content, from, i) && (from >= |content| ==> i == from)
      {
        if content[i] == '\n' || content[i] == '\r' {
          return;
        }
        i := i + 1;
      }
    }

    method Terminator(end: int) returns (r: Ending)
      requires Valid() && lastEnd == end && hasNL
      modifies this`scan, this`foundPos, this`foundKind, this`trail
      ensures Valid() && old(trail) <= trail
      ensures r == NoEnding <==> Plain(content, end, |content|)
      ensures r != NoEnding ==> exists i :: FirstFrom(content, end, i) && r == FormAt(content, i)
    {
      if foundPos == -1 {
        return NoEnding;
      }
      if foundPos >= 0 && scan > end {
        assert FirstFrom(content, end, if end <= foundPos then foundPos else end);
        return foundKind;
      }
      var from := if scan > end then scan else end;
      var i := NextNewline(from);
      Examined(trail, from, if i < |content| then i + 1 else |content|);
      trail := trail + Range(from, if i < |content| then i + 1 else |content|);
      if i < |content| {
        assert FirstFrom(content, end, i);
        foundPos, foundKind, scan := i, FormAt(content, i), Past(content, i);
        return foundKind;
      }
      foundPos, foundKind, scan := -1, NoEnding, |content|;
      return NoEnding;
    }

    method Final() returns (r: Ending)
      requires Valid() && hasNL
      modifies this`finalDone, this`finalKind
      ensures Valid() && exists i :: LastBefore(content, |content|, i) && r == FormAt(content, i)
    {
      if finalDone {
        return finalKind;
      }
      finalDone := true;
      var i := |content| - 1;
      while i >= 0 && content[i] != '\n' && content[i] != '\r'
        invariant -1 <= i < |content| && Plain(content, i + 1, |content|)
      {
        i := i - 1;
      }
      assert LastBefore(content, |content|, i);
      finalKind := if content[i] == '\r' then CR else if i > 0 && content[i - 1] == '\r' then CRLF else LF;
      assert !NewlineAt(content, i + 1);
      assert finalKind == FormAt(content, i);
      r := finalKind;
    }
  }
}
