/** The byte patterns at which functions are taken to start, as tables (tools/analyze/heuristic.go,
    tools/analyze/exports_anchor.go), against the tests that the scans make. */
module PrologueTable {
  import opened Wrappers
  import opened FunctionAt

  /** The pattern stands at `p`. */
  predicate Occurs(data: seq<byte>, p: nat, pattern: seq<byte>) {
    p + |pattern| <= |data| && data[p..p + |pattern|] == pattern
  }

  /** The k-th known prologue. */
  function Prologue(k: nat): seq<byte>
    requires k < 12
  {
    match k
    case 0 => [0x55, 0x48, 0x89, 0xE5]
    case 1 => [0x55, 0x8B, 0xEC]
    case 2 => [0x48, 0x89, 0x5C, 0x24]
    case 3 => [0x48, 0x83, 0xEC]
    case 4 => [0x48, 0x81, 0xEC]
    case 5 => [0x40, 0x53]
    case 6 => [0x40, 0x55]
    case 7 => [0x40, 0x56]
    case 8 => [0x40, 0x57]
    case 9 => [0x56]
    case 10 => [0x57]
    case _ => [0x53]
  }

  /** The k-th entry sequence of 32-bit code. */
  function Idiom(k: nat): seq<byte>
    requires k < 8
  {
    match k
    case 0 => [0x8B, 0xFF, 0x55, 0x8B, 0xEC]
    case 1 => [0x55, 0x89, 0xE5]
    case 2 => [0x56, 0x8B, 0xF1]
    case 3 => [0x55, 0x8B, 0x6C, 0x24]
    case 4 => [0x53, 0x56, 0x57]
    case 5 => [0x8B, 0x44, 0x24]
    case 6 => [0x83, 0xEC]
    case _ => [0x81, 0xEC]
  }

  /** 64-bit code has no frame set up by 55 8B, and 32-bit code no REX prefix. */
  predicate Suits(pattern: seq<byte>, mode: Mode)
    requires pattern != []
  {
    match mode
    case X64 => !(|pattern| == 3 && pattern[0] == 0x55 && pattern[1] == 0x8B)
    case X86 => !(|pattern| >= 2 && (pattern[0] == 0x48 || pattern[0] == 0x40))
  }

  lemma OccursOne(data: seq<byte>, p: nat, a: byte)
    ensures Occurs(data, p, [a]) <==> At(data, p) == a as int
  {
  }

  lemma OccursTwo(data: seq<byte>, p: nat, a: byte, b: byte)
    ensures Occurs(data, p, [a, b]) <==> Two(data, p, a as int, b as int)
  {
  }

  lemma OccursThree(data: seq<byte>, p: nat, a: byte, b: byte, c: byte)
    ensures Occurs(data, p, [a, b, c]) <==> Three(data, p, a as int, b as int, c as int)
  {
  }

  lemma OccursFour(data: seq<byte>, p: nat, a: byte, b: byte, c: byte, d: byte)
    ensures Occurs(data, p, [a, b, c, d]) <==> Four(data, p, a as int, b as int, c as int, d as int)
  {
  }

  lemma OccursFive(data: seq<byte>, p: nat, a: byte, b: byte, c: byte, d: byte, e: byte)
    ensures Occurs(data, p, [a, b, c, d, e]) <==>
            Four(data, p, a as int, b as int, c as int, d as int) && At(data, p + 4) == e as int
  {
  }

  lemma PrologueTests(data: seq<byte>, p: nat)
    ensures Occurs(data, p, Prologue(0)) <==> Four(data, p, 0x55, 0x48, 0x89, 0xE5)
    ensures Occurs(data, p, Prologue(1)) <==> Three(data, p, 0x55, 0x8B, 0xEC)
    ensures Occurs(data, p, Prologue(9)) <==> At(data, p) == 0x56
    ensures Occurs(data, p, Prologue(10)) <==> At(data, p) == 0x57
    ensures Occurs(data, p, Prologue(11)) <==> At(data, p) == 0x53
  {
    OccursFour(data, p, 0x55, 0x48, 0x89, 0xE5);
    OccursThree(data, p, 0x55, 0x8B, 0xEC);
    OccursOne(data, p, 0x56);
    OccursOne(data, p, 0x57);
    OccursOne(data, p, 0x53);
  }

  /** Some prologue with a REX prefix occurs. */
  lemma RexTests(data: seq<byte>, p: nat)
    ensures RexPrologue(data, p) <==> exists k :: 2 <= k < 9 && Occurs(data, p, Prologue(k))
  {
    OccursFour(data, p, 0x48, 0x89, 0x5C, 0x24);
    OccursThree(data, p, 0x48, 0x83, 0xEC);
    OccursThree(data, p, 0x48, 0x81, 0xEC);
    OccursTwo(data, p, 0x40, 0x53);
    OccursTwo(data, p, 0x40, 0x55);
    OccursTwo(data, p, 0x40, 0x56);
    OccursTwo(data, p, 0x40, 0x57);
    assert Prologue(2) == [0x48, 0x89, 0x5C, 0x24] && Prologue(3) == [0x48, 0x83, 0xEC];
    assert Prologue(4) == [0x48, 0x81, 0xEC] && Prologue(5) == [0x40, 0x53] && Prologue(6) == [0x40, 0x55];
    assert Prologue(7) == [0x40, 0x56] && Prologue(8) == [0x40, 0x57];
  }

  /** The scans take a place for a prologue exactly when a pattern of the table that suits the mode occurs there. */
  lemma TableDecides(data: seq<byte>, p: nat, mode: Mode)
    ensures MatchesPrologue(data, p, mode) <==>
            exists k :: 0 <= k < 12 && Suits(Prologue(k), mode) && Occurs(data, p, Prologue(k))
  {
    PrologueTests(data, p);
    RexTests(data, p);
    if k :| 0 <= k < 12 && Suits(Prologue(k), mode) && Occurs(data, p, Prologue(k)) {
      if 2 <= k < 9 {
        assert mode.X64?;
      }
    }
  }

  /** Some entry sequence of 32-bit code occurs. */
  lemma IdiomTests(data: seq<byte>, p: nat)
    ensures X86Idiom(data, p) <==> exists k :: 0 <= k < 8 && Occurs(data, p, Idiom(k))
  {
    OccursFive(data, p, 0x8B, 0xFF, 0x55, 0x8B, 0xEC);
    OccursThree(data, p, 0x55, 0x89, 0xE5);
    OccursThree(data, p, 0x56, 0x8B, 0xF1);
    OccursFour(data, p, 0x55, 0x8B, 0x6C, 0x24);
    OccursThree(data, p, 0x53, 0x56, 0x57);
    OccursThree(data, p, 0x8B, 0x44, 0x24);
    OccursTwo(data, p, 0x83, 0xEC);
    OccursTwo(data, p, 0x81, 0xEC);
    assert Idiom(0) == [0x8B, 0xFF, 0x55, 0x8B, 0xEC] && Idiom(1) == [0x55, 0x89, 0xE5];
    assert Idiom(2) == [0x56, 0x8B, 0xF1];
    assert Idiom(3) == [0x55, 0x8B, 0x6C, 0x24] && Idiom(4) == [0x53, 0x56, 0x57] && Idiom(5) == [0x8B, 0x44, 0x24];
    assert Idiom(6) == [0x83, 0xEC] && Idiom(7) == [0x81, 0xEC];
  }

  /** A place is a strong prologue exactly when a pattern of two bytes or more occurs there, or in 32-bit code an entry
      sequence. */
  lemma StrongIs(data: seq<byte>, p: nat, mode: Mode)
    ensures StrongPrologue(data, p, mode) <==>
            || (exists k :: 0 <= k < 12 && |Prologue(k)| >= 2 && Occurs(data, p, Prologue(k)))
            || (mode.X86? && exists k :: 0 <= k < 8 && Occurs(data, p, Idiom(k)))
  {
    PrologueTests(data, p);
    RexTests(data, p);
    IdiomTests(data, p);
  }
}
