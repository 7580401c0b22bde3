/** Direct branches as their bytes encode them, against the targets that the traversals follow
    (tools/analyze/exports_anchor.go, callgraph.go). */
module BranchEncoding {
  import opened Wrappers
  import opened Reachability
  import opened ControlFlow
  import opened CallTargets
  import opened Words

  // ----- operands -----

  function Signed8(x: nat): int {
    if x < 0x80 then x else x - 0x100
  }

  /** The signed operand is the one number in the signed range that has these 32 bits. */
  lemma Signed32Is(x: nat, r: int)
    requires x < TWO32
    ensures Signed32(x) == r <==> -0x8000_0000 <= r < 0x8000_0000 && (r == x || r == x - TWO32)
  {
  }

  // ----- targets -----

  /** Operand 0 targets the next instruction, and the target moves with the operand and with the instruction. */
  lemma BranchTargetMoves(inst: Inst, pos: int, d: int)
    ensures BranchTarget(inst.(rel := Some(0)), pos) == Some(pos + inst.len)
    ensures inst.rel.None? ==> BranchTarget(inst, pos).None?
    ensures inst.rel.Some? ==>
              && BranchTarget(inst, pos).Some?
              && BranchTarget(inst.(rel := Some(inst.rel.value + d)), pos) == Some(BranchTarget(inst, pos).value + d)
              && BranchTarget(inst, pos + d) == Some(BranchTarget(inst, pos).value + d)
  {
  }

  /** A branch instruction: how many bytes it takes, and its operand. */
  datatype Branch = Branch(size: nat, op: Op, operand: int)

  /** The direct branch that the bytes at `p` encode, prefixes aside: CALL and JMP with four bytes of operand, JMP and
      Jcc with one, Jcc with four. */
  function Encoded(data: seq<byte>, p: nat): Option<Branch>
    requires p < |data|
  {
    var b, left := data[p], |data| - p;
    if b == 0xE8 && left >= 5 then Some(Branch(5, Call, Signed32(Little32(data, p + 1))))
    else if b == 0xE9 && left >= 5 then Some(Branch(5, Jump, Signed32(Little32(data, p + 1))))
    else if b == 0xEB && left >= 2 then Some(Branch(2, Jump, Signed8(data[p + 1] as int)))
    else if 0x70 <= b <= 0x7F && left >= 2 then Some(Branch(2, Plain, Signed8(data[p + 1] as int)))
    else if b == 0x0F && left >= 6 && 0x80 <= data[p + 1] <= 0x8F
    then Some(Branch(6, Plain, Signed32(Little32(data, p + 2))))
    else None
  }

  /** The decoder reports the direct branch at `p` as its bytes encode it. */
  ghost predicate ReadsBranch(img: Image, p: int) {
    && InRange(img, p) && Encoded(img.data, p).Some?
    && var b := Encoded(img.data, p).value; img.decode(p) == Some(Inst(b.size, b.op, Some(b.operand)))
  }

  /** The address a branch leads to: it counts from the byte after its own last one. */
  function Destination(img: Image, p: int): int
    requires InRange(img, p) && Encoded(img.data, p).Some?
  {
    var b := Encoded(img.data, p).value;
    var encoding := img.data[p..p + b.size];
    p + |encoding| + b.operand
  }

  /** Control flow leaves a direct branch for its destination when it is no call, and for the byte after it when it is
      no unconditional jump; a call calls its destination. */
  lemma BranchLeads(img: Image, p: int, q: int)
    requires ReadsBranch(img, p)
    ensures var op := Encoded(img.data, p).value.op;
            var next := p + Encoded(img.data, p).value.size;
            && (FlowsTo(img, p, q) <==>
                  InRange(img, q) && ((op != Call && q == Destination(img, p)) || (op != Jump && q == next)))
            && (CallsTo(img, p, q) <==> InRange(img, q) && op == Call && q == Destination(img, p))
  {
  }

  /** Control flow ends at returns, at padding and where nothing decodes. From an instruction without a direct operand
      it goes on with the next one, and from an indirect jump with the cases of its switch. */
  lemma OtherLeads(img: Image, p: int, q: int)
    ensures !InRange(img, p) || !Decodes(img, p) || img.data[p] == 0xCC ==> !FlowsTo(img, p, q) && !CallsTo(img, p, q)
    ensures Passable(img, p) && img.decode(p).value.op == Return ==> !FlowsTo(img, p, q) && !CallsTo(img, p, q)
    ensures Passable(img, p) && img.decode(p).value.rel.None? && img.decode(p).value.op in {Call, Plain} ==>
              !CallsTo(img, p, q) && (FlowsTo(img, p, q) <==> InRange(img, q) && q == p + img.decode(p).value.len)
    ensures Passable(img, p) && img.decode(p).value.rel.None? && img.decode(p).value.op == Jump ==>
              !CallsTo(img, p, q) && (FlowsTo(img, p, q) <==> InRange(img, q) && q in SwitchTargets(img, p))
  {
  }

  // ----- the two ways of reading a call -----

  lemma SameResidue(x: int, y: int)
    ensures U32(x) == U32(y) <==> exists k: int :: x - y == k * TWO32
  {
    if U32(x) == U32(y) {
      var k := x / TWO32 - y / TWO32;
      assert x - y == k * TWO32;
    }
    if k: int :| x - y == k * TWO32 {
      ShiftResidue(y, k);
      assert x == y + k * TWO32;
    }
  }

  lemma ShiftResidue(y: int, k: int)
    ensures U32(y + k * TWO32) == U32(y)
  {
    var a, b := y + k * TWO32, y / TWO32 + k;
    assert a == b * TWO32 + U32(y);
    DivisionUnique(a, b, U32(y));
  }

  lemma DivisionUnique(a: int, b: int, r: nat)
    requires a == b * TWO32 + r && r < TWO32
    ensures U32(a) == r
  {
    var c := a / TWO32 - b;
    assert c * TWO32 == r - a % TWO32;
    assert -1 < c < 1;
  }

  /** A direct call is recorded under the address of the offset that start discovery takes for its target. */
  lemma CallSiteIsTarget(sec: CodeSection, p: int, t: int)
    requires WellDecoded(sec.img) && ReadsBranch(sec.img, p) && sec.img.data[p] == 0xE8 && CallsTo(sec.img, p, t)
    ensures CallSite(sec, p) == Some(Target(U32(sec.rva + t), false))
  {
    CallAddress(sec, p);
  }

  lemma CallAddress(sec: CodeSection, p: int)
    requires WellDecoded(sec.img) && ReadsBranch(sec.img, p) && sec.img.data[p] == 0xE8
    ensures CallSite(sec, p) == Some(Target(U32(sec.rva + Destination(sec.img, p)), false))
  {
    var at, rel := sec.rva + p, Signed32(Little32(sec.img.data, p + 1));
    assert U32(at) - at == -(at / TWO32) * TWO32;
    SameResidue(U32(at) + 5 + rel, at + 5 + rel);
  }

  /** And the other way round, in sections of at most two gigabytes: a recorded address inside the section is the
      target. */
  lemma TargetIsCallSite(sec: CodeSection, p: int, t: int)
    requires WellDecoded(sec.img) && ReadsBranch(sec.img, p) && sec.img.data[p] == 0xE8 && InRange(sec.img, t)
    requires |sec.img.data| <= 0x8000_0000
    ensures CallsTo(sec.img, p, t) <==> CallSite(sec, p).value.rva == U32(sec.rva + t)
  {
    CallAddress(sec, p);
    var d := Destination(sec.img, p);
    SameResidue(sec.rva + d, sec.rva + t);
    if k: int :| sec.rva + d - (sec.rva + t) == k * TWO32 {
      assert d - t < TWO32 && t - d < TWO32;
      assert -1 < k < 1;
    }
  }

  /** A call through a slot, FF 15: in 64-bit code the slot's distance from the next instruction is given, in 32-bit
      code its address, which counts from the image base. */
  lemma SlotCallSite(sec: CodeSection, p: int)
    requires WellDecoded(sec.img) && InRange(sec.img, p) && Decodes(sec.img, p) && sec.img.decode(p).value.len >= 6
    requires sec.img.data[p] == 0xFF && sec.img.data[p + 1] == 0x15
    ensures var next, operand := p + sec.img.decode(p).value.len, Little32(sec.img.data, p + 2);
            CallSite(sec, p) ==
            if sec.is64 then Some(Target(U32(sec.rva + next + Signed32(operand)), true))
            else if operand < U32(sec.imageBase) then None
            else Some(Target(operand - U32(sec.imageBase), true))
  {
    if sec.is64 {
      var at, rest := sec.rva + p, sec.img.decode(p).value.len + Signed32(Little32(sec.img.data, p + 2));
      assert U32(at) - at == -(at / TWO32) * TWO32;
      SameResidue(U32(at) + rest, at + rest);
    }
  }

  /** Nothing else is a call: only E8 with four bytes of operand, and FF 15. */
  lemma OnlyCallsAreSites(sec: CodeSection, p: int)
    requires WellDecoded(sec.img) && InRange(sec.img, p) && CallSite(sec, p).Some?
    ensures var data, len := sec.img.data, sec.img.decode(p).value.len;
            || (data[p] == 0xE8 && len == 5 && !CallSite(sec, p).value.indirect)
            || (len >= 6 && data[p] == 0xFF && data[p + 1] == 0x15 && CallSite(sec, p).value.indirect)
  {
  }

  // ----- a short jump over padding -----

  const SHORT_JUMP: seq<byte> := [0xEB, 2, INT3, INT3, 0xC3]

  /** A short jump over two bytes of padding: the byte behind them belongs to the function. */
  lemma ShortJumpContains(img: Image)
    requires img.data == SHORT_JUMP && ReadsBranch(img, 0)
    ensures Contains(img, {0}, 0, 4)
  {
    BranchLeads(img, 0, 4);
    var edge := Inside(img, {0}, 0);
    ReachesSelf(edge, 0);
    assert edge(0, 4);
    ReachesExtends(edge, 0, 0, 4);
  }
}
