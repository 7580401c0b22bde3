/** When the order in which symbols are inserted into a function table shows (tools/analyze/callgraph.go). */
module InsertOrder {
  import Sorting
  import opened FuncTable

  /** Some range begins above `s`. */
  ghost predicate Above(t: seq<Range>, s: nat) {
    exists k :: 0 <= k < |t| && t[k].begin > s
  }

  /** The range that starts at `b` after `z` was inserted: cut when it held `z`. */
  function Cut(r: Range, z: nat): Range {
    if r.begin < z < r.end then Range(r.begin, z) else r
  }

  // ----- one insertion -----

  /** Where a new start goes and where its range ends. */
  lemma InsertedIs(t: seq<Range>, z: nat, sections: seq<Section>) returns (idx: nat, end: nat)
    requires Ordered(t) && !Starts(t, z)
    ensures idx <= |t| && end == if idx < |t| then t[idx].begin else SectionEnd(sections, z)
    ensures (forall k :: 0 <= k < idx ==> t[k].begin < z) && (forall k :: idx <= k < |t| ==> z < t[k].begin)
    ensures Above(t, z) <==> idx < |t|
    ensures Inserted(t, z, sections) == if end <= z then t else Spliced(t, idx, Range(z, end))
  {
    idx := Split(t, z, 0);
    end := if idx < |t| then t[idx].begin else SectionEnd(sections, z);
    FirstAboveIs(t, z, 0, idx);
    assert !(exists k :: 0 <= k < |t| && t[k].begin == z);
  }

  lemma {:induction false} Split(t: seq<Range>, z: nat, i: nat) returns (idx: nat)
    requires Ordered(t) && !Starts(t, z) && i <= |t| && forall k :: 0 <= k < i ==> t[k].begin < z
    ensures idx <= |t|
    ensures (forall k :: 0 <= k < idx ==> t[k].begin < z) && (forall k :: idx <= k < |t| ==> z < t[k].begin)
    decreases |t| - i
  {
    if i < |t| && t[i].begin < z {
      idx := Split(t, z, i + 1);
    } else {
      idx := i;
      forall k | idx <= k < |t| ensures z < t[k].begin {
        if k > i {
          assert t[i].end <= t[k].begin && t[i].begin < t[i].end;
        }
      }
    }
  }

  lemma AlreadyThere(t: seq<Range>, z: nat, sections: seq<Section>)
    requires Starts(t, z)
    ensures Inserted(t, z, sections) == t
  {
    var k :| 0 <= k < |t| && t[k].begin == z;
  }

  /** With nothing above and no room below the section's end, nothing happens. */
  lemma NoRoom(t: seq<Range>, z: nat, sections: seq<Section>)
    requires Ordered(t) && !Above(t, z) && SectionEnd(sections, z) <= z
    ensures Inserted(t, z, sections) == t
  {
    if Starts(t, z) {
      AlreadyThere(t, z, sections);
    } else {
      var idx, end := InsertedIs(t, z, sections);
    }
  }

  /** The ranges after an insertion: those before, cut, and the new one. */
  lemma CutKept(t: seq<Range>, idx: nat, z: nat, end: nat, k: nat)
    requires Ordered(t) && idx <= |t| && k < |t|
    requires (forall j :: 0 <= j < idx ==> t[j].begin < z) && (forall j :: idx <= j < |t| ==> z < t[j].begin)
    ensures Cut(t[k], z) == (if k == idx - 1 then CutAt(t[k], z) else t[k])
    ensures Cut(t[k], z) in Spliced(t, idx, Range(z, end))
  {
    if k < idx - 1 {
      assert t[k].end <= t[idx - 1].begin;
    }
    var j := if k < idx then k else k + 1;
    SplicedAt(t, idx, Range(z, end), j);
    assert Spliced(t, idx, Range(z, end))[j] == Cut(t[k], z);
  }

  lemma OnlyCuts(t: seq<Range>, idx: nat, z: nat, end: nat, r: Range)
    requires Ordered(t) && idx <= |t| && r in Spliced(t, idx, Range(z, end)) && r.begin != z
    requires (forall j :: 0 <= j < idx ==> t[j].begin < z) && (forall j :: idx <= j < |t| ==> z < t[j].begin)
    ensures exists k :: 0 <= k < |t| && r == Cut(t[k], z)
  {
    var s := Spliced(t, idx, Range(z, end));
    var j :| 0 <= j < |s| && s[j] == r;
    SplicedAt(t, idx, Range(z, end), 0);
    SplicedAt(t, idx, Range(z, end), j);
    var k := if j < idx then j else j - 1;
    CutKept(t, idx, z, end, k);
    assert r == Cut(t[k], z);
  }

  // ----- insertion in a given order -----

  ghost function InsertSeq(t: seq<Range>, order: seq<nat>, n: nat, sections: seq<Section>): seq<Range>
    requires n <= |order|
  {
    if n == 0 then t else Inserted(InsertSeq(t, order, n - 1, sections), order[n - 1], sections)
  }

  /** Every symbol has room in its section, or nothing lies above it, as at the last 32-bit address. */
  ghost predicate Placed(base: seq<Range>, symbols: set<nat>, sections: seq<Section>) {
    forall s :: s in symbols && SectionEnd(sections, s) <= s ==> !Above(base, s) && forall x :: x in symbols ==> x <= s
  }

  /** The symbols that find room. */
  ghost function Roomy(symbols: set<nat>, sections: seq<Section>): set<nat> {
    set s | s in symbols && SectionEnd(sections, s) > s
  }

  /** What may be said of the table whatever the order: a base range ends where it did or at a new start, a new one at a
      start or, unless a base start lies above it, at its section's end. */
  ghost predicate EndFits(t: seq<Range>, base: seq<Range>, inserted: set<nat>, sections: seq<Section>, r: Range) {
    && (forall e :: Range(r.begin, e) in base ==> r.end <= e && (r.end == e || r.end in inserted))
    && (!Starts(base, r.begin) ==>
          && (r.end == SectionEnd(sections, r.begin) || Starts(t, r.end))
          && (Above(base, r.begin) ==> Starts(t, r.end)))
  }

  ghost predicate Fits(t: seq<Range>, base: seq<Range>, inserted: set<nat>, sections: seq<Section>) {
    && Ordered(t)
    && (forall b: nat :: Starts(t, b) <==> Starts(base, b) || b in inserted)
    && (forall r :: r in t ==> EndFits(t, base, inserted, sections, r))
  }

  lemma SplicedStartsOnly(t: seq<Range>, idx: nat, z: nat, end: nat, b: nat)
    requires Ordered(t) && idx <= |t|
    requires (forall j :: 0 <= j < idx ==> t[j].begin < z) && (forall j :: idx <= j < |t| ==> z < t[j].begin)
    ensures Starts(Spliced(t, idx, Range(z, end)), b) <==> Starts(t, b) || b == z
  {
    var s := Spliced(t, idx, Range(z, end));
    if Starts(t, b) || b == z {
      SplicedStarts(t, idx, Range(z, end), b);
    } else if Starts(s, b) {
      var j :| 0 <= j < |s| && s[j].begin == b;
      OnlyCuts(t, idx, z, end, s[j]);
    }
  }

  /** A range ends at or below every start above its own. */
  lemma EndBelow(t: seq<Range>, r: Range, x: nat)
    requires Ordered(t) && r in t && Starts(t, x) && x > r.begin
    ensures r.end <= x
  {
    var j :| 0 <= j < |t| && t[j] == r;
    var k :| 0 <= k < |t| && t[k].begin == x;
    if k < j {
      assert t[k].end <= t[j].begin && t[k].begin < t[k].end;
    }
  }

  lemma BeginsAscend(t: seq<Range>)
    requires Ordered(t)
    ensures forall j, k :: 0 <= j < k < |t| ==> t[j].begin < t[k].begin
  {
    forall j, k | 0 <= j < k < |t| ensures t[j].begin < t[k].begin {
      assert t[j].begin < t[j].end <= t[k].begin;
    }
  }

  lemma OneRange(t: seq<Range>, r: Range, s: Range)
    requires Ordered(t) && r in t && s in t && r.begin == s.begin
    ensures r == s
  {
    BeginsAscend(t);
    var j :| 0 <= j < |t| && t[j] == r;
    var k :| 0 <= k < |t| && t[k] == s;
    assert j == k;
  }

  lemma ListedStarts(t: seq<Range>, r: Range)
    requires r in t
    ensures Starts(t, r.begin)
  {
    var k :| 0 <= k < |t| && t[k] == r;
  }

  lemma StartNotAbove(t: seq<Range>, x: nat, z: nat)
    requires Starts(t, x)
    ensures x > z ==> Above(t, z)
  {
  }

  lemma AboveIsStart(base: seq<Range>, t: seq<Range>, z: nat)
    requires Above(base, z) && forall b: nat :: Starts(base, b) ==> Starts(t, b)
    ensures Above(t, z)
  {
    var k :| 0 <= k < |base| && base[k].begin > z;
    assert Starts(base, base[k].begin);
    var j :| 0 <= j < |t| && t[j].begin == base[k].begin;
  }

  /** The new range fits. */
  lemma NewFits(t: seq<Range>, t': seq<Range>, base: seq<Range>, inserted: set<nat>, sections: seq<Section>, idx: nat,
                r: Range)
    requires Fits(t, base, inserted, sections) && !Starts(t, r.begin) && idx <= |t|
    requires r.end == (if idx < |t| then t[idx].begin else SectionEnd(sections, r.begin))
    requires Above(t, r.begin) <==> idx < |t|
    requires forall b: nat :: Starts(t, b) ==> Starts(t', b)
    ensures EndFits(t', base, inserted + {r.begin}, sections, r)
  {
    assert !Starts(base, r.begin);
    assert forall e :: Range(r.begin, e) !in base by {
      if e :| Range(r.begin, e) in base {
        ListedStarts(base, Range(r.begin, e));
      }
    }
    if idx < |t| {
      assert Starts(t, t[idx].begin);
    }
    if Above(base, r.begin) {
      AboveIsStart(base, t, r.begin);
    }
  }

  /** A range that was there fits after it was cut. */
  lemma CutFits(t: seq<Range>, t': seq<Range>, base: seq<Range>, inserted: set<nat>, sections: seq<Section>, z: nat,
                r: Range)
    requires EndFits(t, base, inserted, sections, r) && Starts(t', z) && forall b: nat :: Starts(t, b) ==> Starts(t', b)
    ensures EndFits(t', base, inserted + {z}, sections, Cut(r, z))
  {
  }

  lemma SplicedFits(t: seq<Range>, t': seq<Range>, base: seq<Range>, inserted: set<nat>, sections: seq<Section>,
                    idx: nat, z: nat, end: nat, r: Range)
    requires Fits(t, base, inserted, sections) && !Starts(t, z) && idx <= |t| && t' == Spliced(t, idx, Range(z, end))
    requires Ordered(t')
    requires (forall j :: 0 <= j < idx ==> t[j].begin < z) && (forall j :: idx <= j < |t| ==> z < t[j].begin)
    requires end == (if idx < |t| then t[idx].begin else SectionEnd(sections, z)) && (Above(t, z) <==> idx < |t|)
    requires Starts(t', z) && (forall b: nat :: Starts(t, b) ==> Starts(t', b)) && Range(z, end) in t' && r in t'
    ensures EndFits(t', base, inserted + {z}, sections, r)
  {
    if r.begin == z {
      OneRange(t', r, Range(z, end));
      NewFits(t, t', base, inserted, sections, idx, r);
    } else {
      OnlyCuts(t, idx, z, end, r);
      var k :| 0 <= k < |t| && r == Cut(t[k], z);
      CutFits(t, t', base, inserted, sections, z, t[k]);
    }
  }

  lemma FitsNew(t: seq<Range>, base: seq<Range>, inserted: set<nat>, sections: seq<Section>, z: nat)
    requires Fits(t, base, inserted, sections) && SectionEnd(sections, z) > z && !Starts(t, z)
    ensures Fits(Inserted(t, z, sections), base, inserted + {z}, sections)
  {
    var idx, end := InsertedIs(t, z, sections);
    var t' := Spliced(t, idx, Range(z, end));
    SplicedOrdered(t, idx, Range(z, end));
    forall b: nat ensures Starts(t', b) <==> Starts(t, b) || b == z {
      SplicedStartsOnly(t, idx, z, end, b);
    }
    SplicedAt(t, idx, Range(z, end), idx);
    assert t'[idx] == Range(z, end);
    forall r | r in t' ensures EndFits(t', base, inserted + {z}, sections, r) {
      SplicedFits(t, t', base, inserted, sections, idx, z, end, r);
    }
  }

  lemma FitsNext(t: seq<Range>, base: seq<Range>, inserted: set<nat>, sections: seq<Section>, z: nat)
    requires Fits(t, base, inserted, sections) && SectionEnd(sections, z) > z
    ensures Fits(Inserted(t, z, sections), base, inserted + {z}, sections)
  {
    if Starts(t, z) {
      AlreadyThere(t, z, sections);
    } else {
      FitsNew(t, base, inserted, sections, z);
    }
  }

  ghost predicate Orders(order: seq<nat>, symbols: set<nat>) {
    (forall s :: s in order <==> s in symbols) && forall i, j :: 0 <= i < j < |order| ==> order[i] != order[j]
  }

  /** The symbols among the first n that find room. */
  ghost function Seen(order: seq<nat>, n: nat, sections: seq<Section>): set<nat>
    requires n <= |order|
  {
    if n == 0 then {}
    else if SectionEnd(sections, order[n - 1]) > order[n - 1] then Seen(order, n - 1, sections) + {order[n - 1]}
    else Seen(order, n - 1, sections)
  }

  lemma {:induction false} SeenIs(order: seq<nat>, n: nat, sections: seq<Section>, s: nat)
    requires n <= |order|
    ensures s in Seen(order, n, sections) <==> SectionEnd(sections, s) > s && s in order[..n]
  {
    if n > 0 {
      SeenIs(order, n - 1, sections, s);
      assert order[..n] == order[..n - 1] + [order[n - 1]];
    }
  }

  /** A symbol without room has nothing above it at any time. */
  lemma NothingAbove(t: seq<Range>, base: seq<Range>, symbols: set<nat>, inserted: set<nat>, sections: seq<Section>,
                     z: nat)
    requires Fits(t, base, inserted, sections) && Placed(base, symbols, sections) && inserted <= symbols
    requires z in symbols && SectionEnd(sections, z) <= z
    ensures !Above(t, z)
  {
    forall k | 0 <= k < |t| ensures t[k].begin <= z {
      assert Starts(t, t[k].begin);
      if Starts(base, t[k].begin) {
        StartNotAbove(base, t[k].begin, z);
      }
    }
  }

  lemma {:induction false} SeqFits(base: seq<Range>, order: seq<nat>, symbols: set<nat>, n: nat, sections: seq<Section>)
    requires Ordered(base) && Orders(order, symbols) && Placed(base, symbols, sections) && n <= |order|
    ensures Fits(InsertSeq(base, order, n, sections), base, Seen(order, n, sections), sections)
    ensures Seen(order, n, sections) <= symbols
  {
    if n == 0 {
      BaseFits(base, sections);
    } else {
      SeqFits(base, order, symbols, n - 1, sections);
      var z, t := order[n - 1], InsertSeq(base, order, n - 1, sections);
      assert z in order;
      if SectionEnd(sections, z) > z {
        FitsNext(t, base, Seen(order, n - 1, sections), sections, z);
      } else {
        NothingAbove(t, base, symbols, Seen(order, n - 1, sections), sections, z);
        NoRoom(t, z, sections);
      }
    }
  }

  lemma BaseFits(base: seq<Range>, sections: seq<Section>)
    requires Ordered(base)
    ensures Fits(base, base, {}, sections)
  {
    forall r | r in base ensures EndFits(base, base, {}, sections, r) {
      var k :| 0 <= k < |base| && base[k] == r;
      assert Starts(base, r.begin);
      forall e | Range(r.begin, e) in base ensures e == r.end {
        OneRange(base, r, Range(r.begin, e));
      }
    }
  }

  // ----- when all orders agree -----

  /** `y` is the next symbol above `x`. */
  ghost predicate Next(symbols: set<nat>, x: nat, y: nat) {
    x in symbols && y in symbols && x < y && forall z :: z in symbols ==> !(x < z < y)
  }

  /** A new symbol with no base start above it. */
  ghost predicate Open(base: seq<Range>, x: nat) {
    !Starts(base, x) && !Above(base, x)
  }

  /** For every new symbol without a base start above it, the next symbol lies no further than its section's end. */
  ghost predicate NearEnough(base: seq<Range>, symbols: set<nat>, sections: seq<Section>) {
    forall x: nat, y: nat :: Next(Roomy(symbols, sections), x, y) && Open(base, x) ==> y <= SectionEnd(sections, x)
  }

  lemma BaseEndDetermined(t: seq<Range>, u: seq<Range>, base: seq<Range>, inserted: set<nat>, sections: seq<Section>,
                          r: Range, s: Range)
    requires Fits(t, base, inserted, sections) && Fits(u, base, inserted, sections)
    requires r in t && s in u && r.begin == s.begin && Starts(base, r.begin)
    ensures r.end <= s.end
  {
    var k :| 0 <= k < |base| && base[k].begin == r.begin;
    var e := base[k].end;
    assert base[k] == Range(r.begin, e) == Range(s.begin, e);
    assert EndFits(t, base, inserted, sections, r) && EndFits(u, base, inserted, sections, s);
    if s.end != e {
      assert Starts(t, s.end);
      RangeNonempty(u, s);
      EndBelow(t, r, s.end);
    }
  }

  lemma RangeNonempty(t: seq<Range>, r: Range)
    requires Ordered(t) && r in t
    ensures r.begin < r.end
  {
    var k :| 0 <= k < |t| && t[k] == r;
  }

  /** A new range that ends at a start ends at the next one. */
  lemma EndsAtNext(u: seq<Range>, base: seq<Range>, inserted: set<nat>, sections: seq<Section>, s: Range)
    requires Fits(u, base, inserted, sections) && s in u && Open(base, s.begin) && Starts(u, s.end)
    ensures Next(inserted, s.begin, s.end)
  {
    RangeNonempty(u, s);
    ListedStarts(u, s);
    if Starts(base, s.end) {
      StartNotAbove(base, s.end, s.begin);
    }
    forall z | z in inserted ensures !(s.begin < z < s.end) {
      assert Starts(u, z);
      if z > s.begin {
        EndBelow(u, s, z);
      }
    }
  }

  lemma NewEndDetermined(t: seq<Range>, u: seq<Range>, base: seq<Range>, symbols: set<nat>, sections: seq<Section>,
                         r: Range, s: Range)
    requires Fits(t, base, Roomy(symbols, sections), sections) && Fits(u, base, Roomy(symbols, sections), sections)
    requires NearEnough(base, symbols, sections) && r in t && s in u && r.begin == s.begin && !Starts(base, r.begin)
    ensures r.end <= s.end
  {
    var inserted, b := Roomy(symbols, sections), r.begin;
    assert EndFits(t, base, inserted, sections, r) && EndFits(u, base, inserted, sections, s);
    RangeNonempty(u, s);
    if Starts(u, s.end) {
      assert Starts(t, s.end);
      EndBelow(t, r, s.end);
    } else if Starts(t, r.end) {
      EndsAtNext(t, base, inserted, sections, r);
    }
  }

  lemma SameEnds(t: seq<Range>, u: seq<Range>, base: seq<Range>, symbols: set<nat>, sections: seq<Section>, r: Range)
    requires Fits(t, base, Roomy(symbols, sections), sections) && Fits(u, base, Roomy(symbols, sections), sections)
    requires NearEnough(base, symbols, sections) && r in t
    ensures r in u
  {
    var inserted := Roomy(symbols, sections);
    ListedStarts(t, r);
    assert Starts(u, r.begin);
    var k :| 0 <= k < |u| && u[k].begin == r.begin;
    if Starts(base, r.begin) {
      BaseEndDetermined(t, u, base, inserted, sections, r, u[k]);
      BaseEndDetermined(u, t, base, inserted, sections, u[k], r);
    } else {
      NewEndDetermined(t, u, base, symbols, sections, r, u[k]);
      NewEndDetermined(u, t, base, symbols, sections, u[k], r);
    }
    assert u[k] == r;
  }

  lemma SameRanges(t: seq<Range>, u: seq<Range>)
    requires Ordered(t) && Ordered(u) && forall r :: r in t <==> r in u
    ensures t == u
  {
    BeginsAscend(t);
    BeginsAscend(u);
    var a, b := Begins(t), Begins(u);
    forall x ensures x in a <==> x in b {
      if x in a {
        var k :| 0 <= k < |a| && a[k] == x;
        assert t[k] in u;
        var j :| 0 <= j < |u| && u[j] == t[k];
        assert b[j] == x;
      }
      if x in b {
        var k :| 0 <= k < |b| && b[k] == x;
        assert u[k] in t;
        var j :| 0 <= j < |t| && t[j] == u[k];
        assert a[j] == x;
      }
    }
    Sorting.AscendingUnique(a, b);
    forall k | 0 <= k < |t| ensures t[k] == u[k] {
      assert a[k] == b[k] && t[k] in u && u[k] in u;
      OneRange(u, t[k], u[k]);
    }
  }

  lemma SeenAll(order: seq<nat>, symbols: set<nat>, sections: seq<Section>)
    requires Orders(order, symbols)
    ensures Seen(order, |order|, sections) == Roomy(symbols, sections)
  {
    forall s ensures s in Seen(order, |order|, sections) <==> s in Roomy(symbols, sections) {
      if s >= 0 {
        SeenIs(order, |order|, sections, s);
        assert order[..|order|] == order;
      }
    }
  }

  ghost predicate Agree(base: seq<Range>, sections: seq<Section>, p: seq<nat>, q: seq<nat>) {
    InsertSeq(base, p, |p|, sections) == InsertSeq(base, q, |q|, sections)
  }

  lemma NearOrdersAgree(base: seq<Range>, symbols: set<nat>, sections: seq<Section>, p: seq<nat>, q: seq<nat>)
    requires Ordered(base) && Placed(base, symbols, sections) && NearEnough(base, symbols, sections)
    requires Orders(p, symbols) && Orders(q, symbols)
    ensures Agree(base, sections, p, q)
  {
    var t, u := InsertSeq(base, p, |p|, sections), InsertSeq(base, q, |q|, sections);
    SeqFits(base, p, symbols, |p|, sections);
    SeqFits(base, q, symbols, |q|, sections);
    SeenAll(p, symbols, sections);
    SeenAll(q, symbols, sections);
    forall r ensures r in t <==> r in u {
      if r in t {
        SameEnds(t, u, base, symbols, sections, r);
      }
      if r in u {
        SameEnds(u, t, base, symbols, sections, r);
      }
    }
    SameRanges(t, u);
  }

  // ----- when two orders differ -----

  /** A range stays or is cut at the inserted symbol. */
  lemma After(t: seq<Range>, z: nat, sections: seq<Section>, r: Range) returns (e: nat)
    requires Ordered(t) && r in t && r.begin != z
    ensures Range(r.begin, e) in Inserted(t, z, sections)
    ensures e == r.end || r.begin < e == z < r.end
  {
    e := r.end;
    if Starts(t, z) {
      AlreadyThere(t, z, sections);
    } else {
      var idx, end := InsertedIs(t, z, sections);
      if end > z {
        var k :| 0 <= k < |t| && t[k] == r;
        CutKept(t, idx, z, end, k);
        e := Cut(r, z).end;
      }
    }
  }

  /** From then on it is only cut, at symbols inserted later. */
  lemma {:induction false} AfterMany(base: seq<Range>, order: seq<nat>, symbols: set<nat>, m: nat, n: nat,
                                     sections: seq<Section>, r: Range)
    returns (e: nat)
    requires Ordered(base) && Orders(order, symbols) && Placed(base, symbols, sections) && m <= n <= |order|
    requires r in InsertSeq(base, order, m, sections) && r.begin !in order[m..n]
    ensures Range(r.begin, e) in InsertSeq(base, order, n, sections)
    ensures e == r.end || (r.begin < e < r.end && e in symbols)
  {
    e := r.end;
    if m < n {
      assert order[m..n] == order[m..n - 1] + [order[n - 1]];
      var f := AfterMany(base, order, symbols, m, n - 1, sections, r);
      SeqFits(base, order, symbols, n - 1, sections);
      assert order[n - 1] in order;
      e := After(InsertSeq(base, order, n - 1, sections), order[n - 1], sections, Range(r.begin, f));
    }
  }

  lemma {:induction false} AnOrder(symbols: set<nat>) returns (order: seq<nat>)
    ensures Orders(order, symbols)
    decreases |symbols|
  {
    order := [];
    if symbols != {} {
      var s := Member(symbols);
      var rest := AnOrder(symbols - {s});
      OrderGrows(rest, symbols - {s}, s);
      order := [s] + rest;
      assert symbols - {s} + {s} == symbols;
    }
  }

  lemma Member<T>(xs: set<T>) returns (x: T)
    requires xs != {}
    ensures x in xs
  {
    x :| x in xs;
  }

  lemma OrderGrows(order: seq<nat>, symbols: set<nat>, s: nat)
    requires Orders(order, symbols) && s !in symbols
    ensures Orders([s] + order, symbols + {s})
  {
    var p := [s] + order;
    forall i, j | 0 <= i < j < |p| ensures p[i] != p[j] {
      assert p[j] == order[j - 1] && order[j - 1] in order;
    }
  }

  /** A symbol inserted into a table with nothing above it runs to the end of its section. */
  lemma AloneEnds(t: seq<Range>, x: nat, sections: seq<Section>)
    requires Ordered(t) && Open(t, x) && SectionEnd(sections, x) > x
    ensures Range(x, SectionEnd(sections, x)) in Inserted(t, x, sections)
  {
    var idx, end := InsertedIs(t, x, sections);
    SplicedAt(t, idx, Range(x, end), idx);
    assert Spliced(t, idx, Range(x, end))[idx] == Range(x, end);
  }

  /** A symbol inserted below the only start above it runs up to that start. */
  lemma EndsBelow(t: seq<Range>, x: nat, y: nat, sections: seq<Section>)
    requires Ordered(t) && !Starts(t, x) && Starts(t, y) && x < y
    requires forall k :: 0 <= k < |t| ==> t[k].begin < x || t[k].begin == y
    ensures Range(x, y) in Inserted(t, x, sections)
  {
    StartNotAbove(t, y, x);
    var idx, end := InsertedIs(t, x, sections);
    assert t[idx].begin == y;
    SplicedAt(t, idx, Range(x, end), idx);
    assert Spliced(t, idx, Range(x, end))[idx] == Range(x, end);
  }

  /** A symbol inserted first ends within its section. */
  lemma FirstEnds(base: seq<Range>, p: seq<nat>, symbols: set<nat>, sections: seq<Section>) returns (e: nat)
    requires Ordered(base) && Placed(base, symbols, sections) && Orders(p, symbols) && p != []
    requires Open(base, p[0]) && SectionEnd(sections, p[0]) > p[0]
    ensures e <= SectionEnd(sections, p[0]) && Range(p[0], e) in InsertSeq(base, p, |p|, sections)
  {
    AloneEnds(base, p[0], sections);
    assert InsertSeq(base, p, 0, sections) == base;
    assert InsertSeq(base, p, 1, sections) == Inserted(base, p[0], sections);
    e := AfterMany(base, p, symbols, 1, |p|, sections, Range(p[0], SectionEnd(sections, p[0])));
  }

  /** A symbol inserted right after the next one above it ends there. */
  lemma SecondEnds(base: seq<Range>, q: seq<nat>, symbols: set<nat>, sections: seq<Section>)
    requires Ordered(base) && Placed(base, symbols, sections) && Orders(q, symbols) && |q| >= 2
    requires Open(base, q[1]) && Next(Roomy(symbols, sections), q[1], q[0])
    ensures Range(q[1], q[0]) in InsertSeq(base, q, |q|, sections)
  {
    var x, y, t := q[1], q[0], InsertSeq(base, q, 1, sections);
    SeqFits(base, q, symbols, 1, sections);
    assert Seen(q, 0, sections) == {};
    assert Seen(q, 1, sections) == {y};
    assert Starts(t, y) && !Starts(t, x);
    forall k | 0 <= k < |t| ensures t[k].begin < x || t[k].begin == y {
      assert Starts(t, t[k].begin);
      if Starts(base, t[k].begin) {
        StartNotAbove(base, t[k].begin, x);
      }
    }
    EndsBelow(t, x, y, sections);
    assert InsertSeq(base, q, 2, sections) == Inserted(t, x, sections);
    var e := AfterMany(base, q, symbols, 2, |q|, sections, Range(x, y));
    assert e in symbols && e < y ==> e in Roomy(symbols, sections);
  }

  lemma FarOrdersDiffer(base: seq<Range>, symbols: set<nat>, sections: seq<Section>, x: nat, y: nat)
    returns (p: seq<nat>, q: seq<nat>)
    requires Ordered(base) && Placed(base, symbols, sections)
    requires Next(Roomy(symbols, sections), x, y) && Open(base, x) && y > SectionEnd(sections, x)
    ensures Orders(p, symbols) && Orders(q, symbols) && !Agree(base, sections, p, q)
  {
    var rest := symbols - {x} - {y};
    var r := AnOrder(rest);
    OrderGrows(r, rest, y);
    OrderGrows([y] + r, rest + {y}, x);
    OrderGrows(r, rest, x);
    OrderGrows([x] + r, rest + {x}, y);
    p, q := [x] + ([y] + r), [y] + ([x] + r);
    assert rest + {y} + {x} == symbols && rest + {x} + {y} == symbols;
    var e := FirstEnds(base, p, symbols, sections);
    SecondEnds(base, q, symbols, sections);
    SeqFits(base, q, symbols, |q|, sections);
    if Agree(base, sections, p, q) {
      OneRange(InsertSeq(base, q, |q|, sections), Range(x, e), Range(x, y));
    }
  }

  /** All orders of inserting the symbols give the same table exactly when, for every new symbol that has no base start
      above it, the next symbol above lies no further than the end of its section. */
  lemma OrdersAgreeIff(base: seq<Range>, symbols: set<nat>, sections: seq<Section>)
    requires Ordered(base) && Placed(base, symbols, sections)
    ensures (forall p, q :: Orders(p, symbols) && Orders(q, symbols) ==> Agree(base, sections, p, q))
            <==> NearEnough(base, symbols, sections)
  {
    if NearEnough(base, symbols, sections) {
      forall p, q | Orders(p, symbols) && Orders(q, symbols) ensures Agree(base, sections, p, q) {
        NearOrdersAgree(base, symbols, sections, p, q);
      }
    } else {
      var x: nat, y: nat :| Next(Roomy(symbols, sections), x, y) && Open(base, x) && y > SectionEnd(sections, x);
      var p, q := FarOrdersDiffer(base, symbols, sections, x, y);
    }
  }

  // ----- the symbols the loader inserts -----

  /** Symbols that lie in a section leave no doubt but at the last 32-bit address, above which nothing lies. */
  lemma InSectionsPlaced(base: seq<Range>, symbols: set<nat>, sections: seq<Section>)
    requires forall k :: 0 <= k < |base| ==> base[k].begin <= MAX
    requires forall s :: s in symbols ==> s <= MAX && InSome(sections, s)
    ensures Placed(base, symbols, sections)
  {
    forall s | s in symbols && SectionEnd(sections, s) <= s ensures s == MAX {
      InSomeEnds(sections, s);
    }
  }

  lemma {:induction false} InSomeEnds(sections: seq<Section>, s: nat)
    requires s <= MAX && InSome(sections, s)
    ensures SectionEnd(sections, s) > s || s == MAX
  {
    if !sections[0].Has(s) {
      var i :| 0 <= i < |sections| && sections[i].Has(s);
      assert sections[1..][i - 1] == sections[i];
      InSomeEnds(sections[1..], s);
    }
  }

  /** Symbols that all end with the same section may come in any order. */
  lemma SameSectionIsNear(base: seq<Range>, symbols: set<nat>, sections: seq<Section>)
    requires forall x, y :: x in symbols && y in symbols ==> SectionEnd(sections, x) == SectionEnd(sections, y)
    ensures NearEnough(base, symbols, sections)
  {
  }

  /** With one code section they do. */
  lemma OneSectionIsNear(base: seq<Range>, symbols: set<nat>, sec: Section)
    requires forall s :: s in symbols ==> sec.Has(s)
    ensures NearEnough(base, symbols, [sec])
  {
    forall s | s in symbols ensures SectionEnd([sec], s) == sec.End() {
      SoleEnd(sec, s);
    }
    SameSectionIsNear(base, symbols, [sec]);
  }

  /** The tables of two symbols inserted into an empty one, in either order. */
  lemma TwoTables(x: nat, y: nat, sections: seq<Section>)
    requires x < y && SectionEnd(sections, x) > x && SectionEnd(sections, y) > y
    ensures var end := SectionEnd(sections, x);
      InsertSeq([], [x, y], 2, sections) == [Range(x, if y < end then y else end), Range(y, SectionEnd(sections, y))]
    ensures InsertSeq([], [y, x], 2, sections) == [Range(x, y), Range(y, SectionEnd(sections, y))]
  {
    var low, high := [Range(x, SectionEnd(sections, x))], [Range(y, SectionEnd(sections, y))];
    FirstAboveIs(low, y, 0, 1);
    FirstAboveIs(high, x, 0, 0);
    TwoSteps(x, y, sections);
    TwoSteps(y, x, sections);
  }

  lemma TwoSteps(x: nat, y: nat, sections: seq<Section>)
    requires SectionEnd(sections, x) > x
    ensures InsertSeq([], [x, y], 2, sections) == Inserted([Range(x, SectionEnd(sections, x))], y, sections)
  {
    var p := [x, y];
    assert InsertSeq([], p, 0, sections) == [];
    assert InsertSeq([], p, 1, sections) == Inserted([], x, sections) == [Range(x, SectionEnd(sections, x))];
  }

  /** Two new symbols may come in either order exactly when the higher one lies no further than the section's end. */
  lemma TwoSymbols(x: nat, y: nat, sections: seq<Section>)
    requires x < y && SectionEnd(sections, x) > x && SectionEnd(sections, y) > y
    ensures Agree([], sections, [x, y], [y, x]) <==> y <= SectionEnd(sections, x)
  {
    TwoTables(x, y, sections);
  }

  const TWO_SECTIONS := [Section(0x1000, 0x10), Section(0x2000, 0x10)]

  /** With two code sections the order shows: a start inserted after one of the next section runs up to it, a start
      inserted first ends with its own section. */
  lemma OrderShows()
    ensures InsertSeq([], [0x1000, 0x2000], 2, TWO_SECTIONS) == [Range(0x1000, 0x1010), Range(0x2000, 0x2010)]
    ensures InsertSeq([], [0x2000, 0x1000], 2, TWO_SECTIONS) == [Range(0x1000, 0x2000), Range(0x2000, 0x2010)]
  {
    assert TWO_SECTIONS[1..] == [Section(0x2000, 0x10)];
    SoleEnd(Section(0x2000, 0x10), 0x2000);
    TwoTables(0x1000, 0x2000, TWO_SECTIONS);
  }

  // ----- the loader's loop -----

  /** The symbols that lie in a section. */
  ghost function Located(symbols: set<nat>, sections: seq<Section>): set<nat> {
    set s | s in symbols && InSome(sections, s)
  }

  lemma {:induction false} InsertSeqPrefix(t: seq<Range>, order: seq<nat>, more: seq<nat>, n: nat,
                                           sections: seq<Section>)
    requires n <= |order|
    ensures InsertSeq(t, order + more, n, sections) == InsertSeq(t, order, n, sections)
  {
    if n > 0 {
      InsertSeqPrefix(t, order, more, n - 1, sections);
    }
  }

  lemma OrderEnds(order: seq<nat>, symbols: set<nat>, s: nat)
    requires Orders(order, symbols) && s !in symbols
    ensures Orders(order + [s], symbols + {s})
  {
    var p := order + [s];
    forall i, j | 0 <= i < j < |p| ensures p[i] != p[j] {
      assert p[i] == order[i] && order[i] in order;
    }
  }

  lemma OneMore(t: seq<Range>, order: seq<nat>, s: nat, sections: seq<Section>)
    ensures InsertSeq(t, order + [s], |order| + 1, sections)
            == Inserted(InsertSeq(t, order, |order|, sections), s, sections)
  {
    InsertSeqPrefix(t, order, [s], |order|, sections);
  }

  /** A symbol in a section is inserted unless it starts a range already. */
  method InsertOne(table: seq<Range>, s: nat, sections: seq<Section>) returns (result: seq<Range>)
    requires Ordered(table)
    ensures Ordered(result) && result == Inserted(table, s, sections)
  {
    result := table;
    var fn := FindFunc(table, s);
    if fn.None? || fn.value.begin != s {
      result := InsertFunc(table, s, sections, {});
    } else {
      AlreadyThere(table, s, sections);
    }
  }

  /** The table after the located symbols among those met so far were inserted in the order they were met. */
  ghost predicate InsertedInOrder(result: seq<Range>, table: seq<Range>, order: seq<nat>, symbols: set<nat>,
                                  sections: seq<Section>) {
    Orders(order, Located(symbols, sections)) && result == InsertSeq(table, order, |order|, sections)
  }

  lemma MetOne(t: seq<Range>, table: seq<Range>, order: seq<nat>, symbols: set<nat>, s: nat, sections: seq<Section>)
    requires InsertedInOrder(t, table, order, symbols, sections) && s !in symbols
    ensures InSome(sections, s) ==>
              InsertedInOrder(Inserted(t, s, sections), table, order + [s], symbols + {s}, sections)
    ensures !InSome(sections, s) ==> InsertedInOrder(t, table, order, symbols + {s}, sections)
  {
    var done := Located(symbols, sections);
    if InSome(sections, s) {
      OrderEnds(order, done, s);
      OneMore(table, order, s, sections);
      assert Located(symbols + {s}, sections) == done + {s};
    } else {
      assert Located(symbols + {s}, sections) == done;
    }
  }

  /** The symbols are inserted in whatever order the map yields them. */
  method InsertAsMet(table: seq<Range>, symbols: set<nat>, sections: seq<Section>)
    returns (result: seq<Range>, ghost order: seq<nat>)
    requires Ordered(table)
    ensures Ordered(result) && InsertedInOrder(result, table, order, symbols, sections)
  {
    result, order := table, [];
    var rest := symbols;
    while rest != {}
      invariant rest <= symbols && Ordered(result) && InsertedInOrder(result, table, order, symbols - rest, sections)
      decreases |rest|
    {
      var s := Sorting.Pick(rest);
      MetOne(result, table, order, symbols - rest, s, sections);
      assert symbols - (rest - {s}) == symbols - rest + {s};
      var inside := InExecSection(sections, s);
      if inside {
        result := InsertOne(result, s, sections);
        order := order + [s];
      }
      rest := rest - {s};
    }
    assert symbols - rest == symbols;
  }

  /** The table is one that some order gives; it is the one that every order gives when the symbols are near enough. */
  method InsertSymbols(table: seq<Range>, symbols: set<nat>, sections: seq<Section>) returns (result: seq<Range>)
    requires Ordered(table) && forall k :: 0 <= k < |table| ==> table[k].begin <= MAX
    requires forall s :: s in symbols ==> s <= MAX
    ensures Ordered(result) && exists order :: InsertedInOrder(result, table, order, symbols, sections)
    ensures NearEnough(table, Located(symbols, sections), sections) ==>
      forall q :: Orders(q, Located(symbols, sections)) ==> InsertedInOrder(result, table, q, symbols, sections)
  {
    ghost var order;
    result, order := InsertAsMet(table, symbols, sections);
    InSectionsPlaced(table, Located(symbols, sections), sections);
    if NearEnough(table, Located(symbols, sections), sections) {
      forall q | Orders(q, Located(symbols, sections)) ensures InsertedInOrder(result, table, q, symbols, sections) {
        NearOrdersAgree(table, Located(symbols, sections), sections, order, q);
      }
    }
  }
}
