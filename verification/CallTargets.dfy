/** Call targets of one function, collected along its control flow (tools/analyze/callgraph.go). */
module CallTargets {
  import opened Wrappers
  import opened Reachability
  import opened ControlFlow
  import opened Words

  const SCAN_BUDGET: nat := 200000
  const TWO32: nat := 0x1_0000_0000

  /** Reduction to an unsigned 32-bit address, also for negative sums. */
  function U32(x: int): nat {
    x % TWO32
  }

  function Signed32(x: nat): int {
    if x < 0x8000_0000 then x else x - TWO32
  }

  /** An executable section, with the image base and width needed to read call operands. */
  datatype CodeSection = CodeSection(rva: nat, img: Image, imageBase: nat, is64: bool)

  datatype Target = Target(rva: nat, indirect: bool)

  /** The decoder never reports an instruction longer than the bytes it was given. */
  ghost predicate WellDecoded(img: Image) {
    forall pos :: InRange(img, pos) && Decodes(img, pos) ==> pos + img.decode(pos).value.len <= |img.data|
  }

  /** The call made by the instruction at `pos`: E8 rel32, or FF 15 through an import slot. */
  function CallSite(sec: CodeSection, pos: int): Option<Target>
    requires WellDecoded(sec.img) && InRange(sec.img, pos)
  {
    var data := sec.img.data;
    if !Decodes(sec.img, pos) then None
    else
      var len := sec.img.decode(pos).value.len;
      var rva := U32(sec.rva + pos);
      if data[pos] == 0xE8 && len == 5 then
        Some(Target(U32(rva + 5 + Signed32(Little32(data, pos + 1))), false))
      else if data[pos] == 0xFF && len >= 6 && data[pos + 1] == 0x15 then
        if sec.is64 then Some(Target(U32(rva + len + Signed32(Little32(data, pos + 2))), true))
        else if Little32(data, pos + 2) >= U32(sec.imageBase) then
          Some(Target(Little32(data, pos + 2) - U32(sec.imageBase), true))
        else None
      else None
  }

  predicate Holds(sec: CodeSection, rva: nat) {
    sec.rva <= rva < sec.rva + |sec.img.data|
  }

  predicate Wall(sec: CodeSection, starts: set<nat>, begin: int, pos: int) {
    pos != begin && U32(sec.rva + pos) in starts
  }

  /** Control flow of the function at `begin`; switch tables are not followed here. */
  ghost function Body(sec: CodeSection, starts: set<nat>, begin: int): (int, int) -> bool {
    (p: int, q: int) => FlowsTo(sec.img.(switches := None), p, q) && !Wall(sec, starts, begin, q)
  }

  ghost predicate OnPath(sec: CodeSection, starts: set<nat>, begin: int, pos: int) {
    InRange(sec.img, pos) && Reaches(Body(sec, starts, begin), begin, pos)
  }

  /** `t` is the call made at some offset on the function's control flow. */
  ghost predicate Calls(sec: CodeSection, starts: set<nat>, begin: int, t: Target)
    requires WellDecoded(sec.img)
  {
    exists pos :: OnPath(sec, starts, begin, pos) && CallSite(sec, pos) == Some(t)
  }

  /** No offset on the function's control flow but its own start is at the address of a known start. */
  lemma PathMeetsNoStart(sec: CodeSection, starts: set<nat>, begin: int, pos: int)
    requires OnPath(sec, starts, begin, pos) && pos != begin
    ensures (sec.rva + pos) % 0x1_0000_0000 !in starts
  {
    var edge := Body(sec, starts, begin);
    var path :| Walk(edge, begin, path, pos);
    assert edge(Before(begin, path), pos);
  }

  /** And control flow is followed to every offset that is not at a known start, or back to the function's own. */
  lemma PathGoesOn(sec: CodeSection, starts: set<nat>, begin: int, p: int, q: int)
    requires OnPath(sec, starts, begin, p) && FlowsTo(sec.img.(switches := None), p, q)
    requires q == begin || (sec.rva + q) % 0x1_0000_0000 !in starts
    ensures OnPath(sec, starts, begin, q)
  {
    var edge := Body(sec, starts, begin);
    assert edge(p, q);
    ReachesExtends(edge, begin, p, q);
  }

  ghost predicate Listed(ts: seq<Target>, rva: nat) {
    exists t :: t in ts && t.rva == rva
  }

  /** The function has as many distinct offsets on its control flow as the walk may decode. */
  ghost predicate OverBudget(sec: CodeSection, starts: set<nat>, begin: int) {
    exists visited: set<int> :: |visited| == SCAN_BUDGET && forall p :: p in visited ==> OnPath(sec, starts, begin, p)
  }

  /** The result lists the distinct call targets of the function, in address order. */
  ghost predicate Exact(sec: CodeSection, starts: set<nat>, begin: int, ts: seq<Target>)
    requires WellDecoded(sec.img)
  {
    forall t :: Calls(sec, starts, begin, t) ==> Listed(ts, t.rva)
  }

  ghost predicate Sorted(ts: seq<Target>) {
    forall i, j :: 0 <= i < j < |ts| ==> ts[i].rva < ts[j].rva
  }

  /** The targets were found at distinct addresses, so sorting them by address has one outcome. */
  method SortTargets(found: seq<Target>) returns (ts: seq<Target>)
    requires forall i, j :: 0 <= i < j < |found| ==> found[i].rva != found[j].rva
    ensures Sorted(ts) && forall x :: x in ts <==> x in found
  {
    ts := [];
    for k := 0 to |found|
      invariant Sorted(ts) && forall x :: x in ts <==> x in found[..k]
    {
      var i := 0;
      while i < |ts| && ts[i].rva < found[k].rva
        invariant 0 <= i <= |ts|
        invariant forall j :: 0 <= j < i ==> ts[j].rva < found[k].rva
      {
        i := i + 1;
      }
      assert found[..k + 1] == found[..k] + [found[k]];
      assert i < |ts| ==> ts[i] in found[..k] && ts[i].rva != found[k].rva;
      assert forall x :: x in ts <==> x in ts[..i] || x in ts[i..];
      ts := ts[..i] + [found[k]] + ts[i..];
    }
    assert found[..|found|] == found;
  }

  /** What has been recorded agrees with the calls made at the visited offsets. */
  ghost predicate Recorded(sec: CodeSection, visited: set<int>, found: seq<Target>, seen: set<nat>)
    requires WellDecoded(sec.img)
  {
    && (forall p :: p in visited ==> InRange(sec.img, p))
    && (forall i, j :: 0 <= i < j < |found| ==> found[i].rva != found[j].rva)
    && (forall rva :: rva in seen <==> Listed(found, rva))
    && (forall t :: t in found ==> exists p :: p in visited && CallSite(sec, p) == Some(t))
    && (forall p :: p in visited && CallSite(sec, p).Some? ==> CallSite(sec, p).value.rva in seen)
  }

  method Record(sec: CodeSection, pos: int, ghost visited: set<int>, found0: seq<Target>, seen0: set<nat>)
    returns (found: seq<Target>, seen: set<nat>)
    requires WellDecoded(sec.img) && InRange(sec.img, pos) && Recorded(sec, visited, found0, seen0)
    ensures Recorded(sec, visited + {pos}, found, seen)
  {
    found, seen := found0, seen0;
    var site := CallSite(sec, pos);
    if site.Some? && site.value.rva !in seen {
      seen := seen + {site.value.rva};
      found := found + [site.value];
      forall rva ensures rva in seen <==> Listed(found, rva) {
        if Listed(found0, rva) {
          var t :| t in found0 && t.rva == rva;
          assert t in found;
        }
        assert site.value in found;
      }
      forall i | 0 <= i < |found0| ensures found[i].rva != site.value.rva {
        assert Listed(found0, found0[i].rva);
      }
    }
  }

  method FindSection(sections: seq<CodeSection>, rva: nat) returns (k: int)
    ensures -1 <= k < |sections|
    ensures k >= 0 ==> Holds(sections[k], rva) && forall j :: 0 <= j < k ==> !Holds(sections[j], rva)
    ensures k == -1 ==> forall j :: 0 <= j < |sections| ==> !Holds(sections[j], rva)
  {
    for i := 0 to |sections|
      invariant forall j :: 0 <= j < i ==> !Holds(sections[j], rva)
    {
      if Holds(sections[i], rva) {
        return i;
      }
    }
    return -1;
  }

  /** Walks the section from offset `begin`; `visited` is the set of offsets decoded. */
  method ScanSection(sec: CodeSection, begin: int, starts: set<nat>) returns (ts: seq<Target>)
    requires WellDecoded(sec.img) && InRange(sec.img, begin)
    ensures Sorted(ts)
    ensures forall t :: t in ts ==> Calls(sec, starts, begin, t)
    ensures Exact(sec, starts, begin, ts) || OverBudget(sec, starts, begin)
  {
    var img := sec.img.(switches := None);
    ghost var edge := Body(sec, starts, begin);
    var seen: set<nat> := {};
    var found: seq<Target> := [];
    var visited: set<int> := {};
    var stack := [begin];
    var budget := SCAN_BUDGET;
    ReachesSelf(edge, begin);
    while |stack| > 0 && budget > 0
      invariant 0 <= budget == SCAN_BUDGET - |visited|
      invariant forall p :: p in visited ==> OnPath(sec, starts, begin, p)
      invariant forall p :: p in stack && InRange(img, p) && !Wall(sec, starts, begin, p) ==> Reaches(edge, begin, p)
      invariant begin in visited || begin in stack
      invariant forall p, q :: p in visited && edge(p, q) ==> q in visited || q in stack
      invariant Recorded(sec, visited, found, seen)
      decreases budget, |stack|
    {
      ghost var before := stack;
      var pos := stack[|stack| - 1];
      stack := stack[..|stack| - 1];
      assert before == stack + [pos];
      if !InRange(img, pos) || pos in visited {
        continue;
      }
      if Wall(sec, starts, begin, pos) {
        continue;
      }
      found, seen := Record(sec, pos, visited, found, seen);
      visited := visited + {pos};
      budget := budget - 1;
      if !Passable(img, pos) {
        continue;
      }
      ghost var rest := stack;
      stack := stack + Pushes(img, pos, visited);
      forall q | q in stack && InRange(img, q) && !Wall(sec, starts, begin, q)
        ensures Reaches(edge, begin, q)
      {
        if q !in rest {
          assert edge(pos, q);
          ReachesExtends(edge, begin, pos, q);
        }
      }
    }
    ts := SortTargets(found);
    RecordedCalls(sec, starts, begin, visited, found, seen, ts);
    if |stack| == 0 {
      ClosedIsExact(sec, starts, begin, visited, found, seen, ts);
    } else {
      assert OverBudget(sec, starts, begin);
    }
  }

  lemma RecordedCalls(sec: CodeSection, starts: set<nat>, begin: int, visited: set<int>, found: seq<Target>,
                      seen: set<nat>, ts: seq<Target>)
    requires WellDecoded(sec.img) && Recorded(sec, visited, found, seen)
    requires forall p :: p in visited ==> OnPath(sec, starts, begin, p)
    requires forall x :: x in ts <==> x in found
    ensures forall t :: t in ts ==> Calls(sec, starts, begin, t)
  {
    forall t | t in ts ensures Calls(sec, starts, begin, t) {
      var p :| p in visited && CallSite(sec, p) == Some(t);
      assert OnPath(sec, starts, begin, p);
    }
  }

  lemma ClosedIsExact(sec: CodeSection, starts: set<nat>, begin: int, visited: set<int>, found: seq<Target>,
                      seen: set<nat>, ts: seq<Target>)
    requires WellDecoded(sec.img) && Recorded(sec, visited, found, seen)
    requires begin in visited && forall p, q :: p in visited && Body(sec, starts, begin)(p, q) ==> q in visited
    requires forall x :: x in ts <==> x in found
    ensures Exact(sec, starts, begin, ts)
  {
    forall t | Calls(sec, starts, begin, t) ensures Listed(ts, t.rva) {
      var pos :| OnPath(sec, starts, begin, pos) && CallSite(sec, pos) == Some(t);
      ClosedHoldsReachable(Body(sec, starts, begin), begin, pos, visited);
      assert Listed(found, t.rva);
      var x :| x in found && x.rva == t.rva;
      assert x in ts;
    }
  }

  /** The section is the first one that holds the function's address. */
  ghost predicate Owner(sections: seq<CodeSection>, rva: nat, k: int) {
    && 0 <= k < |sections| && sections[k].rva <= rva < sections[k].rva + |sections[k].img.data|
    && forall j :: 0 <= j < k ==> !(sections[j].rva <= rva < sections[j].rva + |sections[j].img.data|)
  }

  method ScanCallTargets(sections: seq<CodeSection>, funcBegin: nat, starts: set<nat>) returns (ts: seq<Target>)
    requires forall k :: 0 <= k < |sections| ==> WellDecoded(sections[k].img)
    ensures Sorted(ts)
    ensures (forall k :: 0 <= k < |sections| ==> !(0 <= funcBegin - sections[k].rva < |sections[k].img.data|)) ==>
              ts == []
    ensures forall k, t :: Owner(sections, funcBegin, k) && t in ts ==>
              Calls(sections[k], starts, funcBegin - sections[k].rva, t)
    ensures forall k :: Owner(sections, funcBegin, k) ==>
              || Exact(sections[k], starts, funcBegin - sections[k].rva, ts)
              || OverBudget(sections[k], starts, funcBegin - sections[k].rva)
  {
    var k := FindSection(sections, funcBegin);
    if k < 0 {
      return [];
    }
    ts := ScanSection(sections[k], funcBegin - sections[k].rva, starts);
    assert forall j :: Owner(sections, funcBegin, j) ==> j == k;
  }
}
