/** Control-flow traversal of x86 code (tools/analyze/exports_anchor.go, callgraph.go).
    The instruction decoder and the switch-table resolver are parameters of the image. */
module ControlFlow {
  import opened Wrappers
  import opened Reachability

  const INT3: byte := 0xCC

  /** functionContains gives up after this many visited offsets. */
  const VISIT_CAP: nat := 60000
  /** discoverFunctionStarts decodes at most this many instructions. */
  const DECODE_BUDGET: nat := 16000000

  datatype Op = Return | Jump | Call | Plain

  /** `rel` is the PC-relative operand of a direct branch. */
  datatype Inst = Inst(len: nat, op: Op, rel: Option<int>)

  /** A code section: its bytes, the decoder at each offset, and the jump-table resolver if there is one. */
  datatype Image = Image(data: seq<byte>, decode: int -> Option<Inst>, switches: Option<int -> seq<int>>)

  predicate InRange(img: Image, pos: int) {
    0 <= pos < |img.data|
  }

  function BranchTarget(inst: Inst, pos: int): Option<int> {
    match inst.rel
    case None => None
    case Some(rel) => Some(pos + inst.len + rel)
  }

  /** The traversal continues past `pos` only if it decodes and is not int3 padding. */
  predicate Passable(img: Image, pos: int) {
    InRange(img, pos) && Decodes(img, pos) && img.data[pos] != INT3
  }

  predicate Decodes(img: Image, pos: int) {
    img.decode(pos).Some? && img.decode(pos).value.len != 0
  }

  function SwitchTargets(img: Image, pos: int): seq<int> {
    if img.switches.Some? then img.switches.value(pos) else []
  }

  /** Intra-function control flow: fallthrough, direct branches and resolved switch cases. */
  ghost predicate FlowsTo(img: Image, p: int, q: int) {
    Passable(img, p) && InRange(img, q) &&
    var inst := img.decode(p).value;
    match inst.op
    case Return => false
    case Jump => if inst.rel.Some? then BranchTarget(inst, p) == Some(q) else q in SwitchTargets(img, p)
    case Call => q == p + inst.len
    case Plain => q == p + inst.len || BranchTarget(inst, p) == Some(q)
  }

  /** `p` is a direct CALL of `t`. */
  ghost predicate CallsTo(img: Image, p: int, t: int) {
    Passable(img, p) && InRange(img, t) &&
    img.decode(p).value.op == Call && BranchTarget(img.decode(p).value, p) == Some(t)
  }

  /** What one visit of a passable `pos` pushes on the stack. */
  function Pushes(img: Image, pos: int, visited: set<int>): (next: seq<int>)
    requires Passable(img, pos)
    ensures forall q :: FlowsTo(img, pos, q) ==> q in next || q in visited
    ensures forall q :: q in next && InRange(img, q) ==> FlowsTo(img, pos, q)
  {
    var inst := img.decode(pos).value;
    var fall := pos + inst.len;
    match inst.op
    case Return => []
    case Jump =>
      if inst.rel.Some? then [BranchTarget(inst, pos).value]
      else Unvisited(img, SwitchTargets(img, pos), visited)
    case Call => [fall]
    case Plain =>
      if inst.rel.Some? then [BranchTarget(inst, pos).value, fall] else [fall]
  }

  function Unvisited(img: Image, cases: seq<int>, visited: set<int>): (kept: seq<int>)
    ensures forall q :: q in kept <==> q in cases && InRange(img, q) && q !in visited
  {
    if cases == [] then []
    else
      var rest := Unvisited(img, cases[1..], visited);
      if InRange(img, cases[0]) && cases[0] !in visited then [cases[0]] + rest else rest
  }

  // ----- functionContains -----

  /** Control flow that stays inside the function at `start`: other known starts are walls. */
  ghost function Inside(img: Image, walls: set<int>, start: int): (int, int) -> bool {
    (p: int, q: int) => FlowsTo(img, p, q) && (q == start || q !in walls)
  }

  ghost predicate Contains(img: Image, walls: set<int>, start: int, query: int) {
    0 <= start <= query < |img.data| && Reaches(Inside(img, walls, start), start, query)
  }

  /** Nothing that a function contains but its own start is another function's start. */
  lemma ContainsNoWall(img: Image, walls: set<int>, start: int, query: int)
    requires Contains(img, walls, start, query) && query != start
    ensures query !in walls && exists p :: FlowsTo(img, p, query) && Reaches(Inside(img, walls, start), start, p)
  {
    var edge := Inside(img, walls, start);
    var path :| Walk(edge, start, path, query);
    var n := |path| - 1;
    assert Walk(edge, start, path[..n], Before(start, path)) && edge(Before(start, path), query);
  }

  /** And control flow goes on from what it contains to every offset above its start that is no other start. */
  lemma ContainsGoesOn(img: Image, walls: set<int>, start: int, p: int, q: int)
    requires Contains(img, walls, start, p) && FlowsTo(img, p, q) && start <= q && (q == start || q !in walls)
    ensures Contains(img, walls, start, q)
  {
    var edge := Inside(img, walls, start);
    assert edge(p, q);
    ReachesExtends(edge, start, p, q);
  }

  /** Control flow leads to `p` from a visited offset, or `p` is where the walk began. */
  ghost predicate Entered(img: Image, walls: set<int>, start: int, visited: set<int>, p: int) {
    p == start || exists u :: u in visited && Inside(img, walls, start)(u, p)
  }

  /** Offsets of the function, each entered from another one. */
  ghost predicate Walked(img: Image, walls: set<int>, start: int, visited: set<int>) {
    && (forall p :: p in visited ==> InRange(img, p) && Reaches(Inside(img, walls, start), start, p))
    && (forall p {:trigger Entered(img, walls, start, visited, p)} ::
          p in visited ==> Entered(img, walls, start, visited, p))
  }

  /** The walk filled its visited set with offsets of the function other than the query. */
  ghost predicate Exhausted(img: Image, walls: set<int>, start: int, query: int, visited: set<int>) {
    |visited| == VISIT_CAP && query !in visited && Walked(img, walls, start, visited)
  }

  lemma WalkedGrows(img: Image, walls: set<int>, start: int, visited: set<int>, pos: int)
    requires Walked(img, walls, start, visited) && InRange(img, pos)
    requires Reaches(Inside(img, walls, start), start, pos) && Entered(img, walls, start, visited, pos)
    ensures Walked(img, walls, start, visited + {pos})
  {
    var more := visited + {pos};
    forall p | p in more ensures Entered(img, walls, start, more, p) {
      assert Entered(img, walls, start, visited, p);
    }
  }

  /** What may be on the stack: offsets that are skipped, or that control flow leads to. */
  ghost predicate Pending(img: Image, walls: set<int>, start: int, visited: set<int>, stack: seq<int>) {
    forall p :: p in stack && InRange(img, p) && (p == start || p !in walls) ==>
      Reaches(Inside(img, walls, start), start, p) && Entered(img, walls, start, visited, p)
  }

  lemma PendingGrows(img: Image, walls: set<int>, start: int, visited: set<int>, stack: seq<int>, pos: int,
                     next: seq<int>)
    requires Pending(img, walls, start, visited, stack) && Reaches(Inside(img, walls, start), start, pos)
    requires forall q :: q in next && InRange(img, q) ==> FlowsTo(img, pos, q)
    ensures Pending(img, walls, start, visited + {pos}, stack + next)
  {
    var more := visited + {pos};
    forall q | q in stack + next && InRange(img, q) && (q == start || q !in walls)
      ensures Reaches(Inside(img, walls, start), start, q) && Entered(img, walls, start, more, q)
    {
      if q in stack {
        assert Entered(img, walls, start, visited, q);
      } else {
        assert Inside(img, walls, start)(pos, q);
        ReachesExtends(Inside(img, walls, start), start, pos, q);
      }
    }
  }

  method FunctionContains(img: Image, start: int, query: int, walls: set<int>) returns (found: bool)
    ensures found ==> Contains(img, walls, start, query)
    ensures Contains(img, walls, start, query) ==>
              found || exists visited :: Exhausted(img, walls, start, query, visited)
    ensures |img.data| <= VISIT_CAP ==> (found <==> Contains(img, walls, start, query))
  {
    if start < 0 || query < start || query >= |img.data| {
      return false;
    }
    ghost var edge := Inside(img, walls, start);
    var visited: set<int> := {};
    var stack := [start];
    ReachesSelf(edge, start);
    while |stack| > 0 && |visited| < VISIT_CAP
      invariant |visited| <= VISIT_CAP && query !in visited
      invariant Walked(img, walls, start, visited) && Pending(img, walls, start, visited, stack)
      invariant start in visited || start in stack
      invariant forall p, q :: p in visited && edge(p, q) ==> q in visited || q in stack
      decreases VISIT_CAP - |visited|, |stack|
    {
      ghost var before := stack;
      var pos := stack[|stack| - 1];
      stack := stack[..|stack| - 1];
      assert forall q :: q in before ==> q in stack || q == pos;
      if !InRange(img, pos) || pos in visited {
        continue;
      }
      if pos != start && pos in walls {
        continue;
      }
      if pos == query {
        return true;
      }
      WalkedGrows(img, walls, start, visited, pos);
      if !Passable(img, pos) {
        PendingGrows(img, walls, start, visited, stack, pos, []);
        visited := visited + {pos};
        assert stack + [] == stack;
        continue;
      }
      var next := Pushes(img, pos, visited + {pos});
      PendingGrows(img, walls, start, visited, stack, pos, next);
      visited := visited + {pos};
      stack := stack + next;
    }
    if |visited| < VISIT_CAP {
      if Reaches(edge, start, query) {
        ClosedHoldsReachable(edge, start, query, visited);
        assert false;
      }
    } else {
      assert Exhausted(img, walls, start, query, visited);
      if |img.data| <= VISIT_CAP {
        OffsetsBounded(visited + {query}, |img.data|);
        assert false;
      }
    }
    found := false;
  }

  // ----- discoverFunctionStarts -----

  /** Everything the discovery may walk: control flow together with direct calls, with no walls at all. */
  ghost function Explore(img: Image): (int, int) -> bool {
    (p: int, q: int) => FlowsTo(img, p, q) || CallsTo(img, p, q)
  }

  ghost predicate Explored(img: Image, seeds: seq<int>, p: int) {
    exists s :: s in seeds && InRange(img, s) && Reaches(Explore(img), s, p)
  }

  /** The order-free meaning of the result: seeds, and callees of anything explored. */
  ghost predicate IsStart(img: Image, seeds: seq<int>, t: int) {
    InRange(img, t) && (t in seeds || exists c :: Explored(img, seeds, c) && CallsTo(img, c, t))
  }

  lemma ExploredExtends(img: Image, seeds: seq<int>, p: int, q: int)
    requires Explored(img, seeds, p) && (FlowsTo(img, p, q) || CallsTo(img, p, q))
    ensures Explored(img, seeds, q)
  {
    var s :| s in seeds && InRange(img, s) && Reaches(Explore(img), s, p);
    ReachesExtends(Explore(img), s, p, q);
  }

  lemma StartIsExplored(img: Image, seeds: seq<int>, t: int)
    requires IsStart(img, seeds, t)
    ensures Explored(img, seeds, t)
  {
    if t in seeds {
      ReachesSelf(Explore(img), t);
    } else {
      var c :| Explored(img, seeds, c) && CallsTo(img, c, t);
      ExploredExtends(img, seeds, c, t);
    }
  }

  /** A start is a seed or was called from a decoded offset. */
  ghost predicate Called(img: Image, seeds: seq<int>, seen: set<int>, t: int) {
    t in seeds || exists c :: c in seen && CallsTo(img, c, t)
  }

  /** A decoded offset is a start or control flows to it from a decoded offset. */
  ghost predicate Led(img: Image, starts: set<int>, seen: set<int>, v: int) {
    v in starts || exists u :: u in seen && FlowsTo(img, u, v)
  }

  ghost predicate Grounded(img: Image, seeds: seq<int>, starts: set<int>, seen: set<int>) {
    && (forall t :: t in starts ==> InRange(img, t))
    && (forall v :: v in seen ==> InRange(img, v))
    && (forall t {:trigger Called(img, seeds, seen, t)} :: t in starts ==> Called(img, seeds, seen, t))
    && (forall v {:trigger Led(img, starts, seen, v)} :: v in seen ==> Led(img, starts, seen, v))
    && (forall v {:trigger Explored(img, seeds, v)} :: v in seen ==> Explored(img, seeds, v))
  }

  /** No successor of a decoded offset is forgotten: it is decoded, a start, or still on the stack. */
  ghost predicate Remembered(img: Image, starts: set<int>, seen: set<int>, stack: seq<int>) {
    && (forall v, q :: v in seen && FlowsTo(img, v, q) ==> q in seen || q in starts || q in stack)
    && (forall v, t :: v in seen && CallsTo(img, v, t) ==> t in starts)
  }

  ghost predicate Progress(img: Image, seeds: seq<int>, starts: set<int>, seen: set<int>, stack: seq<int>) {
    && Grounded(img, seeds, starts, seen)
    && Remembered(img, starts, seen, stack)
    && (forall p {:trigger Led(img, starts, seen, p)} :: p in stack && InRange(img, p) ==> Led(img, starts, seen, p))
  }

  lemma GroundedIsStart(img: Image, seeds: seq<int>, starts: set<int>, seen: set<int>, t: int)
    requires Grounded(img, seeds, starts, seen) && t in starts
    ensures IsStart(img, seeds, t)
  {
    assert Called(img, seeds, seen, t);
    if t !in seeds {
      var c :| c in seen && CallsTo(img, c, t);
      assert Explored(img, seeds, c);
    }
  }

  lemma LedIsExplored(img: Image, seeds: seq<int>, starts: set<int>, seen: set<int>, v: int)
    requires Grounded(img, seeds, starts, seen) && Led(img, starts, seen, v) && InRange(img, v)
    ensures Explored(img, seeds, v)
  {
    if v in starts {
      GroundedIsStart(img, seeds, starts, seen, v);
      StartIsExplored(img, seeds, v);
    } else {
      var u :| u in seen && FlowsTo(img, u, v);
      assert Explored(img, seeds, u);
      ExploredExtends(img, seeds, u, v);
    }
  }

  lemma LedGrows(img: Image, starts: set<int>, seen: set<int>, starts': set<int>, seen': set<int>, v: int)
    requires starts <= starts' && seen <= seen' && Led(img, starts, seen, v)
    ensures Led(img, starts', seen', v)
  {
  }

  lemma CalledGrows(img: Image, seeds: seq<int>, seen: set<int>, seen': set<int>, t: int)
    requires seen <= seen' && Called(img, seeds, seen, t)
    ensures Called(img, seeds, seen', t)
  {
  }

  /** Decoding `pos` keeps the ground under everything recorded, with its call target if it has one. */
  lemma VisitGrounded(img: Image, seeds: seq<int>, starts: set<int>, seen: set<int>, pos: int, starts': set<int>)
    requires Grounded(img, seeds, starts, seen) && Led(img, starts, seen, pos) && InRange(img, pos)
    requires starts <= starts' && forall t :: t in starts' && t !in starts ==> CallsTo(img, pos, t)
    ensures Grounded(img, seeds, starts', seen + {pos})
  {
    var seen' := seen + {pos};
    LedIsExplored(img, seeds, starts, seen, pos);
    forall t | t in starts' ensures Called(img, seeds, seen', t) {
      if t in starts { CalledGrows(img, seeds, seen, seen', t); }
    }
    forall v | v in seen' ensures Led(img, starts', seen', v) {
      LedGrows(img, starts, seen, starts', seen', v);
    }
  }

  lemma SettledIsEverything(img: Image, seeds: seq<int>, starts: set<int>, seen: set<int>, t: int)
    requires forall s :: s in seeds && InRange(img, s) ==> s in starts
    requires starts <= seen && Remembered(img, starts, seen, [])
    requires IsStart(img, seeds, t)
    ensures t in starts
  {
    if t !in seeds {
      var c :| Explored(img, seeds, c) && CallsTo(img, c, t);
      var s :| s in seeds && InRange(img, s) && Reaches(Explore(img), s, c);
      ClosedHoldsReachable(Explore(img), s, c, seen);
    }
  }

  lemma AllStarts(img: Image, seeds: seq<int>, starts: set<int>, seen: set<int>)
    requires Grounded(img, seeds, starts, seen)
    ensures forall t :: t in starts ==> IsStart(img, seeds, t)
  {
    forall t | t in starts ensures IsStart(img, seeds, t) {
      GroundedIsStart(img, seeds, starts, seen, t);
    }
  }

  lemma NoOtherStarts(img: Image, seeds: seq<int>, starts: set<int>, seen: set<int>)
    requires forall s :: s in seeds && InRange(img, s) ==> s in starts
    requires starts <= seen && Remembered(img, starts, seen, [])
    ensures forall t :: IsStart(img, seeds, t) ==> t in starts
  {
    forall t | IsStart(img, seeds, t) ensures t in starts {
      SettledIsEverything(img, seeds, starts, seen, t);
    }
  }

  lemma SeedsProgress(img: Image, seeds: seq<int>, starts: set<int>)
    requires forall t :: t in starts ==> t in seeds && InRange(img, t)
    ensures Grounded(img, seeds, starts, {}) && Remembered(img, starts, {}, [])
  {
  }

  /** What `walks` traversals of at most n instructions each can cost. */
  ghost function Cost(walks: nat, n: nat): nat {
    if walks == 0 then 0 else Cost(walks - 1, n) + n
  }

  lemma {:induction false} CostGrows(walks: nat, more: nat, n: nat)
    requires walks <= more
    ensures Cost(walks, n) <= Cost(more, n)
    decreases more
  {
    if walks < more {
      CostGrows(walks, more - 1, n);
    }
  }

  lemma OneMore(a: int, n: int)
    ensures (a + 1) * n == a * n + n
  {
  }

  lemma {:induction false} CostIsProduct(walks: nat, n: nat)
    ensures Cost(walks, n) == walks * n
  {
    if walks > 0 {
      CostIsProduct(walks - 1, n);
      OneMore(walks - 1, n);
    }
  }

  /** A section below this size cannot exhaust the budget: its square is smaller. */
  const SMALL_SECTION: nat := 4000

  lemma SmallIsCheap(n: nat)
    requires n < SMALL_SECTION
    ensures Cost(n, n) < DECODE_BUDGET
  {
    CostIsProduct(n, n);
    Times(n, n, SMALL_SECTION - 1);
    Times(SMALL_SECTION - 1, n, SMALL_SECTION - 1);
  }

  lemma Times(a: nat, b: nat, c: nat)
    requires b <= c
    ensures a * b <= a * c
  {
  }

  method SeedStarts(img: Image, seeds: seq<int>) returns (starts: set<int>, work: seq<int>)
    ensures forall t :: t in starts <==> t in seeds && InRange(img, t)
    ensures forall t :: t in starts <==> t in work
    ensures |work| == |starts|
  {
    starts, work := {}, [];
    for k := 0 to |seeds|
      invariant forall t :: t in starts <==> t in seeds[..k] && InRange(img, t)
      invariant forall t :: t in starts <==> t in work
      invariant |work| == |starts|
    {
      assert seeds[..k + 1] == seeds[..k] + [seeds[k]];
      if InRange(img, seeds[k]) && seeds[k] !in starts {
        starts := starts + {seeds[k]};
        work := work + [seeds[k]];
      }
    }
    assert seeds[..|seeds|] == seeds;
  }

  /** Decodes one fresh offset: records the target of a direct CALL and pushes the continuations. */
  method Visit(img: Image, ghost seeds: seq<int>, pos: int, visited: set<int>, stack0: seq<int>, starts0: set<int>,
               work0: seq<int>, ghost seen0: set<int>)
    returns (stack: seq<int>, starts: set<int>, work: seq<int>)
    requires InRange(img, pos) && Progress(img, seeds, starts0, seen0, stack0 + [pos])
    requires visited <= seen0 + {pos}
    ensures Progress(img, seeds, starts, seen0 + {pos}, stack)
    ensures starts0 <= starts && work0 <= work && |starts| - |starts0| == |work| - |work0|
    ensures forall t :: t in work ==> t in work0 || t in starts
    ensures forall t :: t in starts ==> t in starts0 || t in work
  {
    stack, starts, work := stack0, starts0, work0;
    ghost var seen := seen0 + {pos};
    assert pos in stack0 + [pos] && Led(img, starts0, seen0, pos);
    assert forall q :: q in stack0 ==> q in stack0 + [pos];
    if Passable(img, pos) {
      var inst := img.decode(pos).value;
      if inst.op == Call {
        var target := BranchTarget(inst, pos);
        if target.Some? && InRange(img, target.value) && target.value !in starts {
          starts := starts + {target.value};
          work := work + [target.value];
        }
      }
      stack := stack + Pushes(img, pos, visited);
    }
    VisitGrounded(img, seeds, starts0, seen0, pos, starts);
    forall q | q in stack && InRange(img, q) ensures Led(img, starts, seen, q) {
      if q in stack0 {
        LedGrows(img, starts0, seen0, starts, seen, q);
      } else {
        assert FlowsTo(img, pos, q);
      }
    }
  }

  /** Walks one function body, starting with `fn`; `seen` holds every offset decoded so far by the whole discovery. */
  method WalkBody(img: Image, ghost seeds: seq<int>, fn: int, starts0: set<int>, work0: seq<int>, budget0: nat,
                  ghost seen0: set<int>)
    returns (starts: set<int>, work: seq<int>, budget: nat, ghost seen: set<int>)
    requires fn in starts0 && 0 < budget0 && |seen0| + budget0 <= DECODE_BUDGET
    requires Grounded(img, seeds, starts0, seen0) && Remembered(img, starts0, seen0, [])
    ensures Grounded(img, seeds, starts, seen) && fn in seen && seen0 <= seen && |seen| + budget <= DECODE_BUDGET
    ensures budget0 - |img.data| <= budget < budget0 && (budget > 0 ==> Remembered(img, starts, seen, []))
    ensures starts0 <= starts && work0 <= work && |starts| - |starts0| == |work| - |work0|
    ensures forall t :: t in work ==> t in work0 || t in starts
    ensures forall t :: t in starts ==> t in starts0 || t in work
  {
    starts, work, budget, seen := starts0, work0, budget0, seen0;
    var visited: set<int> := {};
    var stack := [fn];
    while |stack| > 0 && budget > 0
      invariant Progress(img, seeds, starts, seen, stack)
      invariant visited <= seen && seen0 <= seen && |seen| + budget <= DECODE_BUDGET && |visited| == budget0 - budget
      invariant (fn in seen && budget < budget0) || (stack == [fn] && visited == {} && budget == budget0)
      invariant starts0 <= starts && work0 <= work && |starts| - |starts0| == |work| - |work0|
      invariant forall t :: t in work ==> t in work0 || t in starts
      invariant forall t :: t in starts ==> t in starts0 || t in work
      decreases budget, |stack|
    {
      var pos := stack[|stack| - 1];
      ghost var before := stack;
      stack := stack[..|stack| - 1];
      assert before == stack + [pos];
      if !InRange(img, pos) || pos in visited {
        continue;
      }
      if pos != fn && pos in starts {
        continue;
      }
      visited := visited + {pos};
      budget := budget - 1;
      stack, starts, work := Visit(img, seeds, pos, visited, stack, starts, work, seen);
      seen := seen + {pos};
    }
    OffsetsBounded(visited, |img.data|);
  }

  /** `left` is the unspent budget and `decoded` the offsets decoded; the source returns neither. */
  method DiscoverFunctionStarts(img: Image, seeds: seq<int>)
    returns (starts: set<int>, complete: bool, ghost left: nat, ghost decoded: set<int>)
    ensures forall t :: t in starts ==> IsStart(img, seeds, t)
    ensures left > 0 ==> complete && forall t :: IsStart(img, seeds, t) ==> t in starts
    ensures Cost(|starts|, |img.data|) < DECODE_BUDGET ==> left > 0
    ensures |img.data| < SMALL_SECTION ==> left > 0
    ensures |starts| <= 1 ==> complete
    ensures |decoded| + left <= DECODE_BUDGET && Grounded(img, seeds, starts, decoded)
    ensures forall s :: s in seeds && InRange(img, s) ==> s in starts
  {
    var work;
    starts, work := SeedStarts(img, seeds);
    var budget: nat := DECODE_BUDGET;
    ghost var done: set<int> := {};
    ghost var walked: nat := 0;
    decoded := {};
    SeedsProgress(img, seeds, starts);
    while |work| > 0 && budget > 0
      invariant walked == |starts| - |work| && budget + Cost(walked, |img.data|) >= DECODE_BUDGET
      invariant |starts| >= |work| && (done != {} ==> |starts| > |work|) && (done == {} ==> budget > 0)
      invariant forall t :: t in work ==> t in starts
      invariant forall t :: t in starts ==> t in done || t in work
      invariant forall s :: s in seeds && InRange(img, s) ==> s in starts
      invariant done <= decoded && |decoded| + budget <= DECODE_BUDGET
      invariant Grounded(img, seeds, starts, decoded)
      invariant budget > 0 ==> Remembered(img, starts, decoded, [])
      decreases budget, |work|
    {
      ghost var before := work;
      var fn := work[|work| - 1];
      work := work[..|work| - 1];
      assert before == work + [fn];
      walked := walked + 1;
      starts, work, budget, decoded := WalkBody(img, seeds, fn, starts, work, budget, decoded);
      done := done + {fn};
    }
    complete := |work| == 0;
    left := budget;
    CostGrows(walked, |starts|, |img.data|);
    OffsetsBounded(starts, |img.data|);
    CostGrows(|starts|, |img.data|, |img.data|);
    if |img.data| < SMALL_SECTION {
      SmallIsCheap(|img.data|);
    }
    AllStarts(img, seeds, starts, decoded);
    if left > 0 {
      assert work == [];
      assert forall t :: t in starts ==> t in done;
      NoOtherStarts(img, seeds, starts, decoded);
    }
  }

  // ----- the completeness flag -----

  /** `n` one-byte instructions, then a CALL of the function at `target`, then a return. */
  function Sled(n: nat, target: int): Image {
    Image(seq(n + 6, i => if i < n then 0x90 else if i == n then 0xE8 else 0xC3),
          pos => if 0 <= pos < n then Some(Inst(1, Plain, None))
                 else if pos == n then Some(Inst(5, Call, Some(target - n - 5)))
                 else if pos == n + 5 then Some(Inst(1, Return, None))
                 else None,
          None)
  }

  lemma SledEdges(n: nat, target: int, p: int, q: int)
    requires 0 <= target < n + 6
    ensures FlowsTo(Sled(n, target), p, q) <==> (0 <= p < n && q == p + 1) || (p == n && q == n + 5)
    ensures CallsTo(Sled(n, target), p, q) <==> p == n && q == target
  {
  }

  lemma {:induction false} SledReaches(n: nat, target: int, img: Image, seed: int, k: nat)
    requires k <= n && 0 <= target < n + 6 && img == Sled(n, target) && seed == 0
    ensures Reaches(Explore(img), seed, k)
  {
    if k == 0 {
      ReachesSelf(Explore(img), seed);
    } else {
      SledReaches(n, target, img, seed, k - 1);
      SledEdges(n, target, k - 1, k);
      ReachesExtends(Explore(img), seed, k - 1, k);
    }
  }

  lemma {:induction false} SledDecodedBelow(n: nat, target: int, starts: set<int>, seen: set<int>, k: nat)
    requires Grounded(Sled(n, target), [0], starts, seen) && n in seen && k <= n
    requires target == 1 <= k || n < target < n + 6
    ensures k in seen
    decreases n - k
  {
    if k < n {
      SledDecodedBelow(n, target, starts, seen, k + 1);
      assert Led(Sled(n, target), starts, seen, k + 1);
      if k + 1 in starts {
        assert Called(Sled(n, target), [0], seen, k + 1);
        var c :| c in seen && CallsTo(Sled(n, target), c, k + 1);
        SledEdges(n, target, c, k + 1);
      } else {
        var u :| u in seen && FlowsTo(Sled(n, target), u, k + 1);
        SledEdges(n, target, u, k + 1);
      }
    }
  }

  /** With fewer than n decoded instructions nothing in the sled is known beyond its seed. */
  lemma SledHidesCall(n: nat, target: int, starts: set<int>, seen: set<int>)
    requires Grounded(Sled(n, target), [0], starts, seen) && |seen| < n && (target == 1 || n < target < n + 6)
    ensures starts <= {0}
  {
    if n in seen {
      forall k | 0 <= k < n + 1 ensures k in seen + {0} {
        if k > 0 {
          SledDecodedBelow(n, target, starts, seen, k);
        }
      }
      PrefixCounted(seen + {0}, n + 1);
    }
    forall t | t in starts ensures t == 0 {
      assert Called(Sled(n, target), [0], seen, t);
      if t != 0 {
        var c :| c in seen && CallsTo(Sled(n, target), c, t);
        SledEdges(n, target, c, t);
      }
    }
  }

  lemma SledCalls(n: nat, target: int)
    requires 0 <= target < n + 6
    ensures IsStart(Sled(n, target), [0], target)
  {
    var img := Sled(n, target);
    SledReaches(n, target, img, 0, n);
    SledEdges(n, target, n, target);
    assert Explored(img, [0], n);
  }

  /** The returned flag looks only at the work list, so it can be true although the budget ran out and a start is
      missing. */
  method CompleteFlagMisleads() returns (img: Image, starts: set<int>, complete: bool, missing: int)
    ensures complete && IsStart(img, [0], missing) && missing !in starts
  {
    var n := DECODE_BUDGET + 1;
    img, missing := Sled(n, n + 5), n + 5;
    ghost var left, decoded;
    starts, complete, left, decoded := DiscoverFunctionStarts(img, [0]);
    SledHidesCall(n, n + 5, starts, decoded);
    SubsetSize(starts, {0});
    SledCalls(n, n + 5);
  }
}
