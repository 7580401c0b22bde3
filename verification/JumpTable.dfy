/** Reading the cases of a compiled switch (tools/analyze/jumptable.go). */
module JumpTable {
  import opened Wrappers
  import opened ControlFlow
  import opened Words

  const MAX_ENTRIES: nat := 1024

  datatype TableSection = TableSection(rva: nat, data: seq<byte>) {
    predicate Has(a: nat) { rva <= a < rva + |data| }
  }

  /** The executable section the cases must lie in. */
  datatype Target = Target(rva: nat, len: nat, imageBase: nat)

  /** The k-th entry of a table at `off` is the address of code in the section. */
  predicate IsCase(data: seq<byte>, off: nat, k: nat, exec: Target) {
    && off + 4 * k + 4 <= |data|
    && exec.imageBase + exec.rva <= Little32(data, off + 4 * k) < exec.imageBase + exec.rva + exec.len
  }

  function Case(data: seq<byte>, off: nat, k: nat, exec: Target): (t: nat)
    requires IsCase(data, off, k, exec)
    ensures t < exec.len
  {
    Little32(data, off + 4 * k) - exec.imageBase - exec.rva
  }

  /** The cases from the k-th on: up to the first entry that is not code, and to the cap. */
  function CasesFrom(data: seq<byte>, off: nat, k: nat, exec: Target): (targets: seq<int>)
    requires k <= MAX_ENTRIES
    decreases MAX_ENTRIES - k
  {
    if k < MAX_ENTRIES && IsCase(data, off, k, exec)
    then [Case(data, off, k, exec)] + CasesFrom(data, off, k + 1, exec)
    else []
  }

  /** The first section at or after the i-th that holds the address. */
  function Holder(sections: seq<TableSection>, i: nat, a: nat): Option<TableSection>
    requires i <= |sections|
    decreases |sections| - i
  {
    if i == |sections| then None else if sections[i].Has(a) then Some(sections[i]) else Holder(sections, i + 1, a)
  }

  /** The switch cases of a table at an absolute address: none below the image base or outside every section. */
  function Cases(sections: seq<TableSection>, exec: Target, tableVA: nat): seq<int> {
    if tableVA < exec.imageBase then []
    else
      var trva := tableVA - exec.imageBase;
      match Holder(sections, 0, trva)
      case None => []
      case Some(s) => if s.Has(trva) then CasesFrom(s.data, trva - s.rva, 0, exec) else []
  }

  lemma {:induction false} HolderHas(sections: seq<TableSection>, i: nat, a: nat)
    requires i <= |sections|
    ensures Holder(sections, i, a).Some? ==>
              Holder(sections, i, a).value.Has(a) && Holder(sections, i, a).value in sections
    ensures Holder(sections, i, a).None? <==> forall j :: i <= j < |sections| ==> !sections[j].Has(a)
    decreases |sections| - i
  {
    if i < |sections| && !sections[i].Has(a) {
      HolderHas(sections, i + 1, a);
    }
  }

  /** The longest run of entries that are code addresses, at most 1024, read as offsets in the section. */
  lemma {:induction false} CasesAre(data: seq<byte>, off: nat, k: nat, exec: Target)
    requires k <= MAX_ENTRIES
    ensures var targets := CasesFrom(data, off, k, exec);
            && k + |targets| <= MAX_ENTRIES
            && (forall i :: k <= i < k + |targets| ==>
                  IsCase(data, off, i, exec) && targets[i - k] == Case(data, off, i, exec))
            && (k + |targets| == MAX_ENTRIES || !IsCase(data, off, k + |targets|, exec))
    decreases MAX_ENTRIES - k
  {
    if k < MAX_ENTRIES && IsCase(data, off, k, exec) {
      CasesAre(data, off, k + 1, exec);
      var targets, rest := CasesFrom(data, off, k, exec), CasesFrom(data, off, k + 1, exec);
      forall i | k <= i < k + |targets|
        ensures IsCase(data, off, i, exec) && targets[i - k] == Case(data, off, i, exec)
      {
        if i > k {
          assert targets[i - k] == rest[i - (k + 1)];
        }
      }
    }
  }

  method FindTable(sections: seq<TableSection>, trva: nat) returns (s: nat)
    ensures s <= |sections| && Holder(sections, 0, trva) == if s < |sections| then Some(sections[s]) else None
    ensures s < |sections| ==> sections[s].Has(trva)
    ensures forall j :: 0 <= j < s ==> !sections[j].Has(trva)
  {
    s := 0;
    while s < |sections| && !sections[s].Has(trva)
      invariant s <= |sections| && forall j :: 0 <= j < s ==> !sections[j].Has(trva)
      invariant Holder(sections, 0, trva) == Holder(sections, s, trva)
    {
      s := s + 1;
    }
  }

  method ReadCases(data: seq<byte>, off: nat, exec: Target) returns (targets: seq<int>)
    ensures targets == CasesFrom(data, off, 0, exec)
  {
    targets := [];
    var k: nat := 0;
    while k < MAX_ENTRIES && IsCase(data, off, k, exec)
      invariant k <= MAX_ENTRIES && targets + CasesFrom(data, off, k, exec) == CasesFrom(data, off, 0, exec)
      decreases MAX_ENTRIES - k
    {
      targets := targets + [Case(data, off, k, exec)];
      k := k + 1;
    }
  }

  /** The s-th section is the first one that has a byte at the address. */
  ghost predicate FirstHolding(sections: seq<TableSection>, a: nat, s: int) {
    && 0 <= s < |sections| && sections[s].rva <= a < sections[s].rva + |sections[s].data|
    && forall j :: 0 <= j < s ==> !(sections[j].rva <= a < sections[j].rva + |sections[j].data|)
  }

  /** The k-th entry of a table at `off`, four bytes if they are there, is the address of offset `t` in the code
      section. */
  ghost predicate Names(data: seq<byte>, off: nat, k: nat, exec: Target, t: int) {
    && 0 <= t < exec.len && off + 4 * k + 4 <= |data|
    && exec.imageBase + exec.rva + t == Value(data[off + 4 * k..off + 4 * k + 4])
  }

  /** `targets` are the offsets that the entries name, up to the first entry that names none or the 1024th. */
  ghost predicate Switch(data: seq<byte>, off: nat, exec: Target, targets: seq<int>) {
    && |targets| <= 1024 && (forall k :: 0 <= k < |targets| ==> Names(data, off, k, exec, targets[k]))
    && (|targets| < 1024 ==> forall t :: !Names(data, off, |targets|, exec, t))
  }

  lemma NamesIff(data: seq<byte>, off: nat, k: nat, exec: Target, t: int)
    ensures Names(data, off, k, exec, t) <==> IsCase(data, off, k, exec) && t == Case(data, off, k, exec)
  {
    if off + 4 * k + 4 <= |data| {
      Little32IsValue(data, off + 4 * k);
    }
  }

  lemma EntryIsNamed(data: seq<byte>, off: nat, exec: Target, targets: seq<int>, k: nat)
    requires targets == CasesFrom(data, off, 0, exec) && k < |targets|
    ensures Names(data, off, k, exec, targets[k])
  {
    CasesAre(data, off, 0, exec);
    assert IsCase(data, off, k, exec) && targets[k - 0] == Case(data, off, k, exec);
    NamesIff(data, off, k, exec, targets[k]);
  }

  lemma SwitchEnds(data: seq<byte>, off: nat, exec: Target, targets: seq<int>, t: int)
    requires targets == CasesFrom(data, off, 0, exec) && |targets| < 1024
    ensures !Names(data, off, |targets|, exec, t)
  {
    CasesAre(data, off, 0, exec);
    NamesIff(data, off, |targets|, exec, t);
  }

  lemma SwitchIs(data: seq<byte>, off: nat, exec: Target, targets: seq<int>)
    requires targets == CasesFrom(data, off, 0, exec)
    ensures Switch(data, off, exec, targets)
  {
    CasesAre(data, off, 0, exec);
    forall k | 0 <= k < |targets| ensures Names(data, off, k, exec, targets[k]) {
      EntryIsNamed(data, off, exec, targets, k);
    }
    forall t | |targets| < 1024 ensures !Names(data, off, |targets|, exec, t) {
      SwitchEnds(data, off, exec, targets, t);
    }
  }

  method SwitchCases(sections: seq<TableSection>, exec: Target, tableVA: nat) returns (targets: seq<int>)
    ensures targets == Cases(sections, exec, tableVA)
    ensures var a := tableVA - exec.imageBase;
            if a < 0 then targets == []
            else
              && (forall s :: FirstHolding(sections, a, s) ==>
                    Switch(sections[s].data, a - sections[s].rva, exec, targets))
              && (targets != [] ==> exists s :: FirstHolding(sections, a, s))
  {
    if tableVA < exec.imageBase {
      return [];
    }
    var trva := tableVA - exec.imageBase;
    var s := FindTable(sections, trva);
    if s == |sections| {
      return [];
    }
    targets := ReadCases(sections[s].data, trva - sections[s].rva, exec);
    SwitchIs(sections[s].data, trva - sections[s].rva, exec, targets);
    assert FirstHolding(sections, trva, s);
  }

  // ----- as the switch edges of a section -----

  /** The resolver that the traversals are given: `tableOf` is the table address of an indirect jump that can be
      resolved. */
  function Resolver(sections: seq<TableSection>, exec: Target, tableOf: int -> Option<nat>): int -> seq<int> {
    pos => if tableOf(pos).Some? then Cases(sections, exec, tableOf(pos).value) else []
  }

  lemma CasesOf(sections: seq<TableSection>, exec: Target, tableVA: nat) returns (data: seq<byte>, off: nat)
    requires Cases(sections, exec, tableVA) != []
    ensures Cases(sections, exec, tableVA) == CasesFrom(data, off, 0, exec)
  {
    var trva := tableVA - exec.imageBase;
    HolderHas(sections, 0, trva);
    var s := Holder(sections, 0, trva).value;
    data, off := s.data, trva - s.rva;
  }

  lemma NamedInRange(data: seq<byte>, off: nat, exec: Target, targets: seq<int>, t: int)
    requires targets == CasesFrom(data, off, 0, exec) && t in targets
    ensures 0 <= t < exec.len
  {
    var k :| 0 <= k < |targets| && targets[k] == t;
    EntryIsNamed(data, off, exec, targets, k);
  }

  lemma CasesInRange(sections: seq<TableSection>, exec: Target, tableVA: nat, t: int)
    requires t in Cases(sections, exec, tableVA)
    ensures 0 <= t < exec.len
  {
    var data, off := CasesOf(sections, exec, tableVA);
    NamedInRange(data, off, exec, Cases(sections, exec, tableVA), t);
  }

  /** Every switch edge of a section with this resolver stays in the section. */
  lemma SwitchEdgesInRange(img: Image, sections: seq<TableSection>, exec: Target, tableOf: int -> Option<nat>, p: int,
                           q: int)
    requires img.switches == Some(Resolver(sections, exec, tableOf)) && exec.len == |img.data|
    requires q in SwitchTargets(img, p)
    ensures InRange(img, q)
  {
    CasesInRange(sections, exec, tableOf(p).value, q);
  }
}
