/** Sorted tables of function ranges built from sets of function starts (tools/analyze/callgraph.go). */
module FuncTable {
  import opened Wrappers
  import opened Sorting

  const MAX := 0xFFFF_FFFF

  /** An executable section: its address and its length in bytes. */
  datatype Section = Section(rva: nat, len: nat) {
    predicate Has(a: nat) { rva <= a < rva + len }
    function End(): nat { if rva + len > MAX then MAX else rva + len }
  }

  datatype Range = Range(begin: nat, end: nat) {
    predicate Has(a: nat) { begin <= a < end }
  }

  /** The end of the first section that holds `s`, 0 when none does. */
  function SectionEnd(sections: seq<Section>, s: nat): nat {
    if sections == [] then 0
    else if sections[0].Has(s) then sections[0].End()
    else SectionEnd(sections[1..], s)
  }

  /** The first section that holds `s` is the k-th one. */
  ghost predicate FirstHolding(sections: seq<Section>, s: nat, k: int) {
    && 0 <= k < |sections| && sections[k].rva <= s < sections[k].rva + sections[k].len
    && forall j :: 0 <= j < k ==> !(sections[j].rva <= s < sections[j].rva + sections[j].len)
  }

  /** It ends where its bytes do, or at the last 32-bit address. */
  lemma {:induction false} SectionEndIs(sections: seq<Section>, s: nat)
    ensures forall k :: FirstHolding(sections, s, k) ==>
              var end := sections[k].rva + sections[k].len; SectionEnd(sections, s) == if end < MAX then end else MAX
    ensures (forall j :: 0 <= j < |sections| ==> !sections[j].Has(s)) ==> SectionEnd(sections, s) == 0
  {
    if sections != [] && !sections[0].Has(s) {
      var rest := sections[1..];
      SectionEndIs(rest, s);
      forall k | FirstHolding(sections, s, k)
        ensures FirstHolding(rest, s, k - 1) && rest[k - 1] == sections[k]
      {
        assert forall j :: 0 <= j < |rest| ==> rest[j] == sections[j + 1];
      }
      assert forall j :: 0 <= j < |rest| ==> rest[j] == sections[j + 1];
    }
  }

  /** Nonempty ranges in ascending order, no two overlapping. */
  ghost predicate Ordered(table: seq<Range>) {
    && (forall k :: 0 <= k < |table| ==> table[k].begin < table[k].end)
    && (forall j, k :: 0 <= j < k < |table| ==> table[j].end <= table[k].begin)
  }

  /** A function runs to the next start or to the end of its section, whichever comes first. */
  ghost predicate IsEnd(starts: set<int>, limit: nat, s: nat, end: nat) {
    && end <= limit && (end == limit || end in starts)
    && forall x :: x in starts && x > s ==> end <= x
  }

  /** The table of a set of starts: one range for each start that lies in a section. */
  ghost predicate IsTable(table: seq<Range>, starts: set<int>, sections: seq<Section>) {
    && Ordered(table)
    && (forall k :: 0 <= k < |table| ==>
          table[k].begin in starts && IsEnd(starts, SectionEnd(sections, table[k].begin), table[k].begin, table[k].end))
    && (forall s: nat :: s in starts && SectionEnd(sections, s) > s ==> Starts(table, s))
  }

  ghost predicate Starts(table: seq<Range>, s: nat) {
    exists k :: 0 <= k < |table| && table[k].begin == s
  }

  lemma EndUnique(starts: set<int>, limit: nat, s: nat, a: nat, b: nat)
    requires IsEnd(starts, limit, s, a) && IsEnd(starts, limit, s, b) && a > s && b > s
    ensures a == b
  {
  }

  lemma SameRange(t: seq<Range>, u: seq<Range>, starts: set<int>, sections: seq<Section>, k: nat)
    requires IsTable(t, starts, sections) && IsTable(u, starts, sections) && k < |t|
    ensures t[k] in u
  {
    var s := t[k].begin;
    assert Starts(u, s);
    var j :| 0 <= j < |u| && u[j].begin == s;
    EndUnique(starts, SectionEnd(sections, s), s, t[k].end, u[j].end);
    assert u[j] == t[k];
  }

  ghost function Begins(t: seq<Range>): seq<int> {
    seq(|t|, k requires 0 <= k < |t| => t[k].begin)
  }

  lemma BeginsOf(t: seq<Range>, u: seq<Range>, starts: set<int>, sections: seq<Section>)
    requires IsTable(t, starts, sections) && IsTable(u, starts, sections)
    ensures Ascending(Begins(t)) && forall x :: x in Begins(t) ==> x in Begins(u)
  {
    forall x | x in Begins(t) ensures x in Begins(u) {
      var k :| 0 <= k < |t| && Begins(t)[k] == x;
      SameRange(t, u, starts, sections, k);
      var j :| 0 <= j < |u| && u[j] == t[k];
      assert Begins(u)[j] == x;
    }
  }

  /** A set of starts has one table, so the order in which it was gathered cannot show. */
  lemma TableUnique(t: seq<Range>, u: seq<Range>, starts: set<int>, sections: seq<Section>)
    requires IsTable(t, starts, sections) && IsTable(u, starts, sections)
    ensures t == u
  {
    BeginsOf(t, u, starts, sections);
    BeginsOf(u, t, starts, sections);
    AscendingUnique(Begins(t), Begins(u));
    assert |t| == |Begins(t)| == |Begins(u)| == |u|;
    forall k | 0 <= k < |t| ensures t[k] == u[k] {
      assert Begins(t)[k] == Begins(u)[k];
      SameRange(t, u, starts, sections, k);
      var j :| 0 <= j < |u| && u[j] == t[k];
      assert j == k;
    }
  }

  // ----- building the table from a sorted list of starts -----

  method EndOfSection(sections: seq<Section>, s: nat) returns (end: nat)
    ensures end == SectionEnd(sections, s)
  {
    for i := 0 to |sections|
      invariant SectionEnd(sections, s) == SectionEnd(sections[i..], s)
    {
      if sections[i].Has(s) {
        return sections[i].End();
      }
    }
    return 0;
  }

  method InExecSection(sections: seq<Section>, s: nat) returns (found: bool)
    ensures found == exists i :: 0 <= i < |sections| && sections[i].Has(s)
  {
    for i := 0 to |sections|
      invariant forall j :: 0 <= j < i ==> !sections[j].Has(s)
    {
      if sections[i].Has(s) {
        return true;
      }
    }
    return false;
  }

  ghost predicate Lists(sorted: seq<int>, starts: set<int>) {
    Ascending(sorted) && (forall x :: x in sorted <==> x in starts) && forall x :: x in starts ==> x >= 0
  }

  /** The ranges of the first n starts are as they will stay. */
  ghost predicate Built(table: seq<Range>, sorted: seq<int>, starts: set<int>, n: nat, sections: seq<Section>)
    requires n <= |sorted| && Lists(sorted, starts)
  {
    && Ordered(table)
    && (forall k :: 0 <= k < |table| ==>
          && table[k].begin in starts && (n < |sorted| ==> table[k].begin < sorted[n])
          && IsEnd(starts, SectionEnd(sections, table[k].begin), table[k].begin, table[k].end))
    && (forall j :: 0 <= j < n && sorted[j] >= 0 && SectionEnd(sections, sorted[j]) > sorted[j] ==>
          Starts(table, sorted[j]))
  }

  /** The next start above sorted[n] is sorted[n + 1]. */
  lemma NextStart(sorted: seq<int>, starts: set<int>, n: nat, x: int)
    requires Lists(sorted, starts) && n < |sorted| && x in starts && x > sorted[n]
    ensures n + 1 < |sorted| && sorted[n + 1] <= x
  {
    assert x in sorted;
    var j :| 0 <= j < |sorted| && sorted[j] == x;
    assert j > n;
  }

  lemma EndFound(sorted: seq<int>, starts: set<int>, n: nat, limit: nat, end: nat)
    requires Lists(sorted, starts) && n < |sorted|
    requires end == (if n + 1 < |sorted| && sorted[n + 1] < limit then sorted[n + 1] else limit)
    ensures sorted[n] in starts && sorted[n] >= 0 && IsEnd(starts, limit, sorted[n], end)
  {
    assert sorted[n] in sorted;
    forall x | x in starts && x > sorted[n] ensures end <= x {
      NextStart(sorted, starts, n, x);
    }
    if n + 1 < |sorted| {
      assert sorted[n + 1] in sorted;
    }
  }

  lemma StartsKept(table: seq<Range>, r: Range, s: nat)
    requires Starts(table, s) || s == r.begin
    ensures Starts(table + [r], s)
  {
    var more := table + [r];
    if Starts(table, s) {
      var k :| 0 <= k < |table| && table[k].begin == s;
      assert more[k] == table[k];
    } else {
      assert more[|table|] == r;
    }
  }

  lemma OrderedPush(table: seq<Range>, r: Range)
    requires Ordered(table) && r.begin < r.end && forall k :: 0 <= k < |table| ==> table[k].end <= r.begin
    ensures Ordered(table + [r])
  {
  }

  lemma BuiltPush(table: seq<Range>, sorted: seq<int>, starts: set<int>, n: nat, sections: seq<Section>, s: nat,
                  end: nat)
    requires Lists(sorted, starts) && n < |sorted| && Built(table, sorted, starts, n, sections) && s == sorted[n]
    requires IsEnd(starts, SectionEnd(sections, s), s, end) && end > s
    ensures Built(table + [Range(s, end)], sorted, starts, n + 1, sections)
  {
    assert s in sorted;
    var r := Range(s, end);
    var more := table + [r];
    OrderedPush(table, r);
    forall k | 0 <= k < |more|
      ensures more[k].begin in starts && (n + 1 < |sorted| ==> more[k].begin < sorted[n + 1])
      ensures IsEnd(starts, SectionEnd(sections, more[k].begin), more[k].begin, more[k].end)
    {
      assert k < |table| ==> more[k] == table[k];
    }
    forall j | 0 <= j < n + 1 && sorted[j] >= 0 && SectionEnd(sections, sorted[j]) > sorted[j]
      ensures Starts(more, sorted[j])
    {
      StartsKept(table, r, sorted[j]);
    }
  }

  lemma BuiltSkip(table: seq<Range>, sorted: seq<int>, starts: set<int>, n: nat, sections: seq<Section>)
    requires Lists(sorted, starts) && n < |sorted| && Built(table, sorted, starts, n, sections)
    requires sorted[n] >= 0 && SectionEnd(sections, sorted[n]) <= sorted[n]
    ensures Built(table, sorted, starts, n + 1, sections)
  {
    assert n + 1 < |sorted| ==> sorted[n] < sorted[n + 1];
  }

  lemma BuiltAll(table: seq<Range>, sorted: seq<int>, starts: set<int>, sections: seq<Section>)
    requires Lists(sorted, starts) && Built(table, sorted, starts, |sorted|, sections)
    ensures IsTable(table, starts, sections)
  {
    forall s: nat | s in starts && SectionEnd(sections, s) > s ensures Starts(table, s) {
      assert s in sorted;
      var j :| 0 <= j < |sorted| && sorted[j] == s;
    }
  }

  /** The loop shared by the table builders. */
  method RangeTable(starts: set<int>, sections: seq<Section>) returns (table: seq<Range>)
    requires forall s :: s in starts ==> s >= 0
    ensures IsTable(table, starts, sections)
  {
    var sorted := SortSet(starts);
    table := [];
    for i := 0 to |sorted|
      invariant Built(table, sorted, starts, i, sections)
    {
      assert sorted[i] in sorted;
      var s: nat := sorted[i];
      var secEnd := EndOfSection(sections, s);
      var end := secEnd;
      if i + 1 < |sorted| && sorted[i + 1] > s && sorted[i + 1] < secEnd {
        end := sorted[i + 1];
      }
      EndFound(sorted, starts, i, secEnd, end);
      if end > s {
        BuiltPush(table, sorted, starts, i, sections, s, end);
        table := table + [Range(s, end)];
      } else {
        BuiltSkip(table, sorted, starts, i, sections);
      }
    }
    BuiltAll(table, sorted, starts, sections);
  }

  ghost predicate InSome(sections: seq<Section>, s: nat) {
    exists i :: 0 <= i < |sections| && sections[i].Has(s)
  }

  /** The starts of a table together with the extra ones that lie in a section. */
  ghost function Union(base: seq<Range>, extra: seq<nat>, sections: seq<Section>): set<int> {
    (set k | 0 <= k < |base| :: base[k].begin) + (set k | 0 <= k < |extra| && InSome(sections, extra[k]) :: extra[k])
  }

  method MergeStarts(base: seq<Range>, extraStarts: seq<nat>, sections: seq<Section>) returns (table: seq<Range>)
    ensures IsTable(table, Union(base, extraStarts, sections), sections)
  {
    var starts: set<int> := {};
    for i := 0 to |base|
      invariant starts == set k | 0 <= k < i :: base[k].begin
    {
      starts := starts + {base[i].begin};
    }
    ghost var own := starts;
    for i := 0 to |extraStarts|
      invariant starts == own + set k | 0 <= k < i && InSome(sections, extraStarts[k]) :: extraStarts[k]
    {
      var inside := InExecSection(sections, extraStarts[i]);
      if inside {
        starts := starts + {extraStarts[i]};
      }
    }
    table := RangeTable(starts, sections);
  }

  // ----- looking up and inserting -----

  /** The binary search of sort.Search: the first range that begins after `rva`. */
  method Search(table: seq<Range>, rva: nat) returns (idx: nat)
    requires Ordered(table)
    ensures idx <= |table|
    ensures forall k :: 0 <= k < idx ==> table[k].begin <= rva
    ensures forall k :: idx <= k < |table| ==> table[k].begin > rva
  {
    var i, j := 0, |table|;
    while i < j
      invariant 0 <= i <= j <= |table|
      invariant forall k :: 0 <= k < i ==> table[k].begin <= rva
      invariant forall k :: j <= k < |table| ==> table[k].begin > rva
    {
      var h := i + (j - i) / 2;
      if table[h].begin <= rva {
        i := h + 1;
      } else {
        j := h;
      }
    }
    return i;
  }

  /** The one range that holds `rva`, or none when no range does. */
  method FindFunc(table: seq<Range>, rva: nat) returns (found: Option<Range>)
    requires Ordered(table)
    ensures found.Some? ==> found.value in table && found.value.begin <= rva < found.value.end
    ensures found.Some? ==> forall k :: 0 <= k < |table| && table[k].Has(rva) ==> table[k] == found.value
    ensures found.None? ==> forall k :: 0 <= k < |table| ==> rva < table[k].begin || table[k].end <= rva
  {
    var idx := Search(table, rva);
    if idx == 0 {
      return None;
    }
    var fn := table[idx - 1];
    if rva >= fn.begin && rva < fn.end {
      return Some(fn);
    }
    return None;
  }

  /** The range before the new one gives up the part the new one takes. */
  function CutAt(r: Range, rva: nat): Range {
    if r.end > rva then Range(r.begin, rva) else r
  }

  function Spliced(table: seq<Range>, idx: nat, r: Range): seq<Range>
    requires idx <= |table|
  {
    if idx == 0 then [r] + table else table[..idx - 1] + [CutAt(table[idx - 1], r.begin), r] + table[idx..]
  }

  lemma SplicedAt(table: seq<Range>, idx: nat, r: Range, k: nat)
    requires idx <= |table| && k <= |table|
    ensures |Spliced(table, idx, r)| == |table| + 1
    ensures Spliced(table, idx, r)[k] == if k == idx then r
                                         else if k > idx then table[k - 1]
                                         else if k == idx - 1 then CutAt(table[k], r.begin) else table[k]
  {
  }

  lemma SplicedOrdered(table: seq<Range>, idx: nat, r: Range)
    requires Ordered(table) && idx <= |table| && r.begin < r.end
    requires forall k :: 0 <= k < idx ==> table[k].begin < r.begin
    requires forall k :: idx <= k < |table| ==> r.end <= table[k].begin
    ensures Ordered(Spliced(table, idx, r))
  {
    var t := Spliced(table, idx, r);
    forall k | 0 <= k < |t| ensures t[k].begin < t[k].end {
      SplicedAt(table, idx, r, k);
    }
    forall j, k | 0 <= j < k < |t| ensures t[j].end <= t[k].begin {
      SplicedAt(table, idx, r, j);
      SplicedAt(table, idx, r, k);
      if j < idx - 1 && k == idx {
        assert table[j].end <= table[idx - 1].begin;
      }
    }
  }

  lemma SplicedStarts(table: seq<Range>, idx: nat, r: Range, s: nat)
    requires idx <= |table| && (Starts(table, s) || s == r.begin)
    ensures Starts(Spliced(table, idx, r), s)
  {
    if s == r.begin {
      SplicedAt(table, idx, r, idx);
    } else {
      var k :| 0 <= k < |table| && table[k].begin == s;
      SplicedAt(table, idx, r, if k < idx then k else k + 1);
    }
  }

  /** A table of starts that all lie in the one code section. */
  ghost predicate SoleTable(table: seq<Range>, starts: set<int>, sec: Section) {
    IsTable(table, starts, [sec]) && forall x :: x in starts ==> x >= 0 && sec.Has(x)
  }

  lemma SoleEnd(sec: Section, s: nat)
    ensures SectionEnd([sec], s) == if sec.Has(s) then sec.End() else 0
  {
    assert SectionEnd([], s) == 0;
  }

  /** A start that is already there changes nothing, nor does one with no room below the address limit. */
  lemma SoleUnchanged(table: seq<Range>, starts: set<int>, sec: Section, rva: nat)
    requires SoleTable(table, starts, sec) && sec.Has(rva) && (rva in starts || sec.End() <= rva)
    ensures SoleTable(table, starts + {rva}, sec)
  {
    var more := starts + {rva};
    if rva in starts {
      assert more == starts;
    } else {
      forall k | 0 <= k < |table| ensures IsEnd(more, SectionEnd([sec], table[k].begin), table[k].begin, table[k].end) {
        SoleEnd(sec, table[k].begin);
      }
      SoleEnd(sec, rva);
    }
  }

  /** Where the inserted range ends: at the next range, or at the section's end. */
  ghost predicate EndsAt(table: seq<Range>, idx: nat, sec: Section, end: nat) {
    idx <= |table| && end == if idx < |table| then table[idx].begin else sec.End()
  }

  /** A start begins a range, or lies at the address limit. */
  lemma StartIsListed(table: seq<Range>, starts: set<int>, sec: Section, x: nat)
    requires SoleTable(table, starts, sec) && x in starts
    ensures x >= sec.End() || Starts(table, x)
  {
    SoleEnd(sec, x);
  }

  /** A range that begins above the place of insertion does not begin before the inserted one ends. */
  lemma ListedAbove(table: seq<Range>, sec: Section, rva: nat, idx: nat, end: nat, x: nat)
    requires Ordered(table) && EndsAt(table, idx, sec, end) && Starts(table, x) && x > rva
    requires forall k :: 0 <= k < idx ==> table[k].begin < rva
    ensures end <= x
  {
    var k :| 0 <= k < |table| && table[k].begin == x;
    assert k >= idx;
    if k > idx {
      assert table[idx].end <= table[k].begin && table[idx].begin < table[idx].end;
    }
  }

  lemma InsertedEnd(table: seq<Range>, starts: set<int>, sec: Section, rva: nat, idx: nat, end: nat)
    requires SoleTable(table, starts, sec) && sec.Has(rva) && EndsAt(table, idx, sec, end)
    requires forall k :: 0 <= k < idx ==> table[k].begin < rva
    ensures IsEnd(starts + {rva}, sec.End(), rva, end)
  {
    if idx < |table| {
      SoleEnd(sec, table[idx].begin);
      assert table[idx].begin < table[idx].end;
    }
    forall x: int | x in starts && x > rva ensures end <= x {
      StartIsListed(table, starts, sec, x);
      if Starts(table, x) {
        ListedAbove(table, sec, rva, idx, end, x);
      }
    }
  }

  lemma OldEnd(table: seq<Range>, starts: set<int>, sec: Section, rva: nat, idx: nat, k: nat)
    requires SoleTable(table, starts, sec) && idx <= |table| && k < |table|
    requires forall j :: 0 <= j < idx ==> table[j].begin < rva
    requires forall j :: idx <= j < |table| ==> rva < table[j].begin
    ensures var r := if k == idx - 1 then CutAt(table[k], rva) else table[k];
            IsEnd(starts + {rva}, sec.End(), r.begin, r.end)
  {
    SoleEnd(sec, table[k].begin);
    if k < idx - 1 {
      assert table[k].end <= table[idx - 1].begin;
    }
  }

  lemma SplicedEnd(table: seq<Range>, starts: set<int>, sec: Section, rva: nat, idx: nat, end: nat, k: nat)
    requires SoleTable(table, starts, sec) && sec.Has(rva) && EndsAt(table, idx, sec, end) && end > rva && k <= |table|
    requires forall k :: 0 <= k < idx ==> table[k].begin < rva
    requires forall k :: idx <= k < |table| ==> rva < table[k].begin
    ensures |Spliced(table, idx, Range(rva, end))| == |table| + 1
    ensures var r := Spliced(table, idx, Range(rva, end))[k];
            r.begin in starts + {rva} && IsEnd(starts + {rva}, SectionEnd([sec], r.begin), r.begin, r.end)
  {
    SplicedAt(table, idx, Range(rva, end), k);
    if k == idx {
      SoleEnd(sec, rva);
      InsertedEnd(table, starts, sec, rva, idx, end);
    } else {
      var j := if k > idx then k - 1 else k;
      SoleEnd(sec, table[j].begin);
      OldEnd(table, starts, sec, rva, idx, j);
    }
  }

  lemma SoleInserted(table: seq<Range>, starts: set<int>, sec: Section, rva: nat, idx: nat, end: nat)
    requires SoleTable(table, starts, sec) && sec.Has(rva) && EndsAt(table, idx, sec, end) && end > rva
    requires forall k :: 0 <= k < idx ==> table[k].begin < rva
    requires forall k :: idx <= k < |table| ==> rva < table[k].begin
    ensures SoleTable(Spliced(table, idx, Range(rva, end)), starts + {rva}, sec)
  {
    var r, more := Range(rva, end), starts + {rva};
    var t := Spliced(table, idx, r);
    SplicedOrdered(table, idx, r);
    forall k | 0 <= k < |t|
      ensures t[k].begin in more && IsEnd(more, SectionEnd([sec], t[k].begin), t[k].begin, t[k].end)
    {
      SplicedEnd(table, starts, sec, rva, idx, end, k);
    }
    forall s: nat | s in more && SectionEnd([sec], s) > s ensures Starts(t, s) {
      SplicedStarts(table, idx, r, s);
    }
  }

  /** The place of the first range from the i-th on that begins after `rva`. */
  function FirstAbove(table: seq<Range>, rva: nat, i: nat): nat
    requires i <= |table|
    decreases |table| - i
  {
    if i < |table| && table[i].begin <= rva then FirstAbove(table, rva, i + 1) else i
  }

  lemma {:induction false} FirstAboveIs(table: seq<Range>, rva: nat, i: nat, idx: nat)
    requires i <= idx <= |table| && (forall k :: i <= k < idx ==> table[k].begin <= rva)
    requires idx < |table| ==> table[idx].begin > rva
    ensures FirstAbove(table, rva, i) == idx
    decreases idx - i
  {
    if i < idx {
      FirstAboveIs(table, rva, i + 1, idx);
    }
  }

  /** The table with a start inserted: unchanged when the start is there or nothing fits between it and the next start
      or section end. */
  function Inserted(table: seq<Range>, rva: nat, sections: seq<Section>): seq<Range> {
    var idx := FirstAbove(table, rva, 0);
    var end := if idx < |table| then table[idx].begin else SectionEnd(sections, rva);
    if (exists k :: 0 <= k < |table| && table[k].begin == rva) || end <= rva || idx > |table| then table
    else Spliced(table, idx, Range(rva, end))
  }

  /** The order of the table is kept whatever the sections; with one code section the result is the table of the
      enlarged set of starts. */
  method InsertFunc(table: seq<Range>, rva: nat, sections: seq<Section>, ghost starts: set<int>)
    returns (result: seq<Range>)
    requires Ordered(table)
    ensures Ordered(result) && result == Inserted(table, rva, sections)
    ensures |sections| == 1 && sections[0].Has(rva) && SoleTable(table, starts, sections[0]) ==>
              SoleTable(result, starts + {rva}, sections[0])
  {
    var fn := FindFunc(table, rva);
    ghost var sole := |sections| == 1 && sections[0].Has(rva) && SoleTable(table, starts, sections[0]);
    if fn.Some? && fn.value.begin == rva {
      if sole {
        SoleUnchanged(table, starts, sections[0], rva);
      }
      return table;
    }
    var idx := Search(table, rva);
    StrictlyBefore(table, rva, idx);
    FirstAboveIs(table, rva, 0, idx);
    var end := 0;
    if idx < |table| {
      end := table[idx].begin;
    } else {
      end := EndOfSection(sections, rva);
    }
    if sole {
      assert sections == [sections[0]];
      SoleEnd(sections[0], rva);
    }
    if end <= rva {
      if sole {
        SoleUnchanged(table, starts, sections[0], rva);
      }
      return table;
    }
    // appended, sorted into place, and the range before it cut
    SplicedOrdered(table, idx, Range(rva, end));
    if sole {
      SoleInserted(table, starts, sections[0], rva, idx, end);
    }
    return Spliced(table, idx, Range(rva, end));
  }

  lemma StrictlyBefore(table: seq<Range>, rva: nat, idx: nat)
    requires Ordered(table) && idx <= |table| && forall k :: 0 <= k < idx ==> table[k].begin <= rva
    requires forall k :: 0 <= k < |table| && table[k].Has(rva) ==> table[k].begin != rva
    ensures forall k :: 0 <= k < idx ==> table[k].begin < rva
  {
    forall k | 0 <= k < idx ensures table[k].begin < rva {
      assert table[k].begin < table[k].end;
    }
  }

  /** The starts with the symbols that lie in the section. */
  ghost function Enlarged(starts: set<int>, symbols: set<nat>, sec: Section): set<int> {
    starts + set s | s in symbols && sec.Has(s)
  }

  /** A symbol in the section is inserted unless it starts a range already. */
  method InsertSymbol(table: seq<Range>, rva: nat, sec: Section, ghost starts: set<int>) returns (result: seq<Range>)
    requires SoleTable(table, starts, sec) && sec.Has(rva)
    ensures SoleTable(result, starts + {rva}, sec)
  {
    result := table;
    var fn := FindFunc(table, rva);
    if fn.None? || fn.value.begin != rva {
      result := InsertFunc(table, rva, [sec], starts);
    } else {
      SoleUnchanged(table, starts, sec, rva);
    }
  }

  /** Symbols are inserted in whatever order the map yields them. */
  method InsertAll(table: seq<Range>, symbols: set<nat>, sec: Section, ghost starts: set<int>)
    returns (result: seq<Range>)
    requires SoleTable(table, starts, sec)
    ensures SoleTable(result, Enlarged(starts, symbols, sec), sec)
  {
    result := table;
    var rest := symbols;
    ghost var held := starts;
    while rest != {}
      invariant rest <= symbols && SoleTable(result, held, sec)
      invariant held == Enlarged(starts, symbols - rest, sec)
      decreases |rest|
    {
      var rva := Pick(rest);
      if sec.Has(rva) {
        result := InsertSymbol(result, rva, sec, held);
        held := held + {rva};
      }
      rest := rest - {rva};
    }
    assert symbols - rest == symbols;
  }

  ghost function BeginSet(table: seq<Range>): set<int> {
    set k | 0 <= k < |table| :: table[k].begin
  }

  lemma UnionInSection(base: seq<Range>, extra: seq<nat>, sec: Section)
    ensures Union(base, extra, [sec]) == Enlarged(BeginSet(base), (set s | s in extra), sec)
  {
    forall s: nat ensures InSome([sec], s) <==> sec.Has(s) {
      assert [sec][0] == sec;
    }
  }

  /** Inserting the symbols one by one in any order, or merging them all at once, gives the same table. */
  lemma InsertingIsMerging(base: seq<Range>, extra: seq<nat>, sec: Section, merged: seq<Range>, inserted: seq<Range>)
    requires IsTable(merged, Union(base, extra, [sec]), [sec])
    requires SoleTable(inserted, Enlarged(BeginSet(base), (set s | s in extra), sec), sec)
    ensures merged == inserted
  {
    UnionInSection(base, extra, sec);
    TableUnique(merged, inserted, Union(base, extra, [sec]), [sec]);
  }
}
