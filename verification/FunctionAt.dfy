/** Which function holds an address: byte-pattern guesses refined by proven control flow
    (tools/analyze/heuristic.go, tools/analyze/exports_anchor.go). */
module FunctionAt {
  import opened Wrappers
  import opened ControlFlow
  import opened Sorting
  import Reachability

  // ----- byte patterns -----

  const MAX_BACK_SCAN: nat := 4096
  const MAX_FORWARD_SCAN: nat := 65536

  const NOP: byte := 0x90
  const RET: byte := 0xC3
  const RET_IMM: byte := 0xC2

  datatype Mode = X86 | X64

  /** The byte at `i`, or -1 past the end. */
  function At(data: seq<byte>, i: nat): int {
    if i < |data| then data[i] else -1
  }

  predicate Two(data: seq<byte>, p: nat, a: int, b: int) {
    At(data, p) == a && At(data, p + 1) == b
  }

  predicate Three(data: seq<byte>, p: nat, a: int, b: int, c: int) {
    Two(data, p, a, b) && At(data, p + 2) == c
  }

  predicate Four(data: seq<byte>, p: nat, a: int, b: int, c: int, d: int) {
    Three(data, p, a, b, c) && At(data, p + 3) == d
  }

  /** Prologues with a REX prefix, which only 64-bit code has. */
  predicate RexPrologue(data: seq<byte>, p: nat) {
    || Four(data, p, 0x48, 0x89, 0x5C, 0x24) || Three(data, p, 0x48, 0x83, 0xEC) || Three(data, p, 0x48, 0x81, 0xEC)
    || Two(data, p, 0x40, 0x53) || Two(data, p, 0x40, 0x55) || Two(data, p, 0x40, 0x56) || Two(data, p, 0x40, 0x57)
  }

  /** The known prologues of the mode, bare pushes included. */
  predicate MatchesPrologue(data: seq<byte>, p: nat, mode: Mode) {
    || Four(data, p, 0x55, 0x48, 0x89, 0xE5)
    || (mode.X86? && Three(data, p, 0x55, 0x8B, 0xEC))
    || (mode.X64? && RexPrologue(data, p))
    || At(data, p) == 0x56 || At(data, p) == 0x57 || At(data, p) == 0x53
  }

  predicate Padding(b: byte) {
    b == INT3 || b == NOP
  }

  // ----- where the function ends -----

  /** The offset after a return instruction at `i`. */
  function ReturnEnd(data: seq<byte>, i: nat, limit: nat): (end: Option<nat>)
    requires i < limit <= |data|
    ensures end.Some? ==> i < end.value <= |data|
  {
    if data[i] == RET then Some(i + 1)
    else if data[i] == RET_IMM && i + 2 < limit then Some(i + 3)
    else None
  }

  /** Padding, another prologue or the end of the data confirms that the function ends at `end`. */
  predicate Confirmed(data: seq<byte>, end: nat, mode: Mode) {
    end < |data| ==> Padding(data[end]) || MatchesPrologue(data, end, mode)
  }

  predicate EndsAfter(data: seq<byte>, i: nat, limit: nat, mode: Mode)
    requires i < limit <= |data|
  {
    ReturnEnd(data, i, limit).Some? && Confirmed(data, ReturnEnd(data, i, limit).value, mode)
  }

  function ForwardLimit(data: seq<byte>, pos: nat): (limit: nat)
    ensures limit <= |data|
  {
    if pos + MAX_FORWARD_SCAN > |data| then |data| else pos + MAX_FORWARD_SCAN
  }

  /** Opcode by opcode: the function may end after C3, or after C2 and its two operand bytes, when the data ends there
      or goes on with CC, 90 or a prologue. */
  lemma EndsAfterMeans(data: seq<byte>, i: nat, limit: nat, mode: Mode, end: nat)
    requires i < limit <= |data|
    ensures EndsAfter(data, i, limit, mode) && ReturnEnd(data, i, limit) == Some(end) <==>
            && ((data[i] == 0xC3 && end == i + 1) || (data[i] == 0xC2 && i + 2 < limit && end == i + 3))
            && (end == |data| || data[end] == 0xCC || data[end] == 0x90 || MatchesPrologue(data, end, mode))
  {
  }

  /** The scans look at 65536 bytes from the query on and at 4096 below it, as far as there are that many. */
  lemma ScanWindows(data: seq<byte>, pos: nat, i: nat)
    ensures pos <= i < ForwardLimit(data, pos) <==> pos <= i < |data| && i - pos < 65536
    ensures BackLimit(pos) <= i < pos <==> i < pos && pos - i <= 4096
    ensures BackLimit(pos) <= i < PrologueLimit(pos) <==> BackLimit(pos) <= i < pos && i - BackLimit(pos) < 16
  {
  }

  /** The end of the first confirmed return in [i, limit). */
  function Epilogue(data: seq<byte>, i: nat, limit: nat, mode: Mode): Option<nat>
    requires limit <= |data|
    decreases limit - i
  {
    if i >= limit then None
    else if EndsAfter(data, i, limit, mode) then ReturnEnd(data, i, limit)
    else Epilogue(data, i + 1, limit, mode)
  }

  /** `i` is the first offset of [from, limit) after which the function may end, and `end` is where. */
  ghost predicate FirstReturn(data: seq<byte>, from: nat, limit: nat, mode: Mode, i: nat, end: nat)
    requires limit <= |data|
  {
    && from <= i < limit && EndsAfter(data, i, limit, mode) && ReturnEnd(data, i, limit) == Some(end)
    && forall k :: from <= k < i ==> !EndsAfter(data, k, limit, mode)
  }

  method FindEpilogueForward(data: seq<byte>, pos: nat, mode: Mode) returns (r: Option<nat>)
    ensures r == Epilogue(data, pos, ForwardLimit(data, pos), mode)
    ensures r.Some? ==> exists i :: FirstReturn(data, pos, ForwardLimit(data, pos), mode, i, r.value)
    ensures r.Some? ==>
              && pos < r.value <= |data| && Confirmed(data, r.value, mode)
              && (data[r.value - 1] == RET || (r.value > 2 && data[r.value - 3] == RET_IMM))
    ensures r.None? ==>
              forall j :: pos <= j < ForwardLimit(data, pos) ==> !EndsAfter(data, j, ForwardLimit(data, pos), mode)
  {
    var limit := ForwardLimit(data, pos);
    var i := pos;
    while i < limit
      invariant pos <= i && Epilogue(data, i, limit, mode) == Epilogue(data, pos, limit, mode)
      invariant forall j :: pos <= j < i && j < limit ==> !EndsAfter(data, j, limit, mode)
    {
      var b := data[i];
      var endPos := -1;
      if b == RET {
        endPos := i + 1;
      } else if b == RET_IMM && i + 2 < limit {
        endPos := i + 3;
      }
      if endPos >= 0 {
        if endPos >= |data| || Padding(data[endPos]) || MatchesPrologue(data, endPos, mode) {
          assert FirstReturn(data, pos, limit, mode, i, endPos);
          return Some(endPos);
        }
      }
      i := i + 1;
    }
    return None;
  }

  // ----- where it starts -----

  function BackLimit(pos: nat): nat {
    if pos < MAX_BACK_SCAN then 0 else pos - MAX_BACK_SCAN
  }

  /** The start suggested by the byte at `i` below `pos`: just after padding or a return. */
  function StartAfter(data: seq<byte>, i: nat, pos: nat): (start: Option<nat>)
    requires i < pos <= |data|
    ensures start.Some? ==> i < start.value <= pos
  {
    if Padding(data[i]) || data[i] == RET then Some(i + 1)
    else if data[i] == RET_IMM && i + 2 < |data| && i + 3 <= pos then Some(i + 3)
    else None
  }

  /** Byte by byte: a start is suggested after CC, 90 and C3, and after C2 and its two operand bytes when the query is
      not below that. */
  lemma StartAfterMeans(data: seq<byte>, i: nat, pos: nat, start: nat)
    requires i < pos < |data|
    ensures StartAfter(data, i, pos) == Some(start) <==>
            || ((data[i] == 0xCC || data[i] == 0x90 || data[i] == 0xC3) && start == i + 1)
            || (data[i] == 0xC2 && start == i + 3 && start <= pos)
  {
  }

  /** The start suggested by the nearest boundary in [limit, i). */
  function Boundary(data: seq<byte>, limit: nat, i: nat, pos: nat): (start: Option<nat>)
    requires i <= pos <= |data|
    ensures start.Some? ==> limit < start.value <= pos
    decreases i
  {
    if i <= limit then None
    else if StartAfter(data, i - 1, pos).Some? then StartAfter(data, i - 1, pos)
    else Boundary(data, limit, i - 1, pos)
  }

  /** The first prologue in [i, stop). */
  function FirstPrologue(data: seq<byte>, i: nat, stop: nat, mode: Mode): (start: Option<nat>)
    ensures start.Some? ==> i <= start.value < stop
    decreases stop - i
  {
    if i >= stop then None
    else if MatchesPrologue(data, i, mode) then Some(i)
    else FirstPrologue(data, i + 1, stop, mode)
  }

  /** The query itself at a prologue; else the nearest boundary below it; else a prologue near the scan limit. */
  function GuessedStart(data: seq<byte>, pos: nat, mode: Mode): (start: Option<nat>)
    requires pos < |data|
    ensures start.Some? ==> start.value <= pos
  {
    var limit := BackLimit(pos);
    if MatchesPrologue(data, pos, mode) then Some(pos)
    else if Boundary(data, limit, pos, pos).Some? then Boundary(data, limit, pos, pos)
    else FirstPrologue(data, limit, PrologueLimit(pos), mode)
  }

  /** The offsets looked at for a prologue when no boundary is near, those just above the scan limit. */
  function PrologueLimit(pos: nat): nat {
    if BackLimit(pos) + 16 < pos then BackLimit(pos) + 16 else pos
  }

  /** No byte of [from, pos) suggests a start. */
  ghost predicate NoBoundary(data: seq<byte>, from: nat, pos: nat)
    requires pos <= |data|
  {
    forall k :: from <= k < pos ==> StartAfter(data, k, pos).None?
  }

  /** Byte `i` is the nearest one below the query that suggests a start, and within the scan limit. */
  ghost predicate NearestBoundary(data: seq<byte>, pos: nat, i: nat, start: nat)
    requires pos <= |data|
  {
    BackLimit(pos) <= i < pos && StartAfter(data, i, pos) == Some(start) && NoBoundary(data, i + 1, pos)
  }

  /** Where the function is taken to start: in this order of preference. */
  ghost predicate StartsFor(data: seq<byte>, pos: nat, mode: Mode, r: Option<nat>)
    requires pos < |data|
  {
    if MatchesPrologue(data, pos, mode) then r == Some(pos)
    else if !NoBoundary(data, BackLimit(pos), pos) then r.Some? && exists i :: NearestBoundary(data, pos, i, r.value)
    else if r.Some? then
      && BackLimit(pos) <= r.value < PrologueLimit(pos) && MatchesPrologue(data, r.value, mode)
      && forall k :: BackLimit(pos) <= k < r.value ==> !MatchesPrologue(data, k, mode)
    else forall k :: BackLimit(pos) <= k < PrologueLimit(pos) ==> !MatchesPrologue(data, k, mode)
  }

  /** The first loop: down from the query to a byte that suggests a start. */
  method FindBoundary(data: seq<byte>, pos: nat) returns (r: Option<nat>)
    requires pos < |data|
    ensures r == Boundary(data, BackLimit(pos), pos, pos)
    ensures r.Some? ==> exists i :: NearestBoundary(data, pos, i, r.value)
    ensures r.None? ==> NoBoundary(data, BackLimit(pos), pos)
  {
    var limit := BackLimit(pos);
    var i := pos;
    while i > limit
      invariant limit <= i <= pos && Boundary(data, limit, i, pos) == Boundary(data, limit, pos, pos)
      invariant NoBoundary(data, i, pos)
    {
      i := i - 1;
      var b := data[i];
      var funcStart := -1;
      if Padding(b) || b == RET {
        funcStart := i + 1;
      } else if b == RET_IMM && i + 2 < |data| && i + 3 <= pos {
        funcStart := i + 3;
      }
      if funcStart >= 0 {
        assert NearestBoundary(data, pos, i, funcStart);
        return Some(funcStart);
      }
    }
    return None;
  }

  /** The second loop: up from the scan limit to a prologue. */
  method FindPrologueNearLimit(data: seq<byte>, pos: nat, mode: Mode) returns (r: Option<nat>)
    ensures r == FirstPrologue(data, BackLimit(pos), PrologueLimit(pos), mode)
    ensures r.Some? ==> MatchesPrologue(data, r.value, mode)
    ensures forall k :: BackLimit(pos) <= k < (if r.Some? then r.value else PrologueLimit(pos)) ==>
              !MatchesPrologue(data, k, mode)
  {
    var limit := BackLimit(pos);
    var i := limit;
    ghost var stop := PrologueLimit(pos);
    while i < limit + 16 && i < pos
      invariant limit <= i && FirstPrologue(data, i, stop, mode) == FirstPrologue(data, limit, stop, mode)
      invariant forall k :: limit <= k < i && k < stop ==> !MatchesPrologue(data, k, mode)
    {
      if MatchesPrologue(data, i, mode) {
        return Some(i);
      }
      i := i + 1;
    }
    return None;
  }

  method FindPrologueBackward(data: seq<byte>, pos: nat, mode: Mode) returns (r: Option<nat>)
    requires pos < |data|
    ensures r == GuessedStart(data, pos, mode) && StartsFor(data, pos, mode, r)
    ensures r.Some? ==>
              || MatchesPrologue(data, r.value, mode)
              || (r.value > 0 && (Padding(data[r.value - 1]) || data[r.value - 1] == RET))
              || (r.value > 2 && data[r.value - 3] == RET_IMM)
  {
    if MatchesPrologue(data, pos, mode) {
      return Some(pos);
    }
    r := FindBoundary(data, pos);
    if r.None? {
      r := FindPrologueNearLimit(data, pos, mode);
    }
  }

  // ----- the bounds reported -----

  const WORD: nat := 0x1_0000_0000

  /** Reduction to 32 bits. */
  function Wrap(x: nat): (c: nat)
    ensures c < WORD && (x < WORD ==> c == x)
  {
    if x < WORD then x else Wrap(x - WORD)
  }

  /** 32-bit unsigned addition. */
  function Plus(a: nat, b: nat): (c: nat)
    ensures c < WORD && (a + b < WORD ==> c == a + b)
  {
    Wrap(a + b)
  }

  datatype Confidence = Exact | High | Medium | Low

  datatype Source = Unset | Export | CallTarget | Prologue | Heuristic | Misaligned

  datatype Bounds = Bounds(startFileOff: nat, endFileOff: nat, start: nat, end: nat, confidence: Confidence,
                           source: Source, name: string, partial: bool, hint: Option<nat>)

  /** A code section as both lookups find it: its address, its place in the file and its bytes. */
  datatype Region = Region(rva: nat, fileOff: nat, img: Image) {
    /** Its addresses, its end included, fit 32 bits. */
    predicate InMemory() { rva + |img.data| < WORD }
    predicate InFile() { fileOff + |img.data| < WORD }
  }

  /** The record for a guessed range; a long scan lowers the confidence. */
  function Guess(sec: Region, pos: nat, startPos: nat, endPos: nat): Bounds {
    Bounds(Plus(sec.fileOff, startPos), Plus(sec.fileOff, endPos), Plus(sec.rva, startPos), Plus(sec.rva, endPos),
           if pos - startPos > 2048 || endPos - pos > 32768 then Low else Medium, Unset, "", false, None)
  }

  lemma GuessFits(sec: Region, pos: nat, startPos: nat, endPos: nat)
    requires startPos <= pos < endPos <= |sec.img.data|
    ensures BoundsFor(sec, pos, Guess(sec, pos, startPos, endPos))
  {
  }

  /** A guess is of medium confidence exactly when its start lies within 2048 bytes of the query and its end within
      32768. */
  lemma GuessConfidence(sec: Region, pos: nat, startPos: nat, endPos: nat)
    ensures var c := Guess(sec, pos, startPos, endPos).confidence;
            (c == Medium <==> pos <= startPos + 2048 && endPos <= pos + 32768) && (c == Medium || c == Low)
  {
  }

  method HeuristicFuncBounds(sec: Region, queryFileOff: nat, mode: Mode) returns (r: Option<Bounds>)
    ensures r.Some? ==>
              sec.fileOff <= queryFileOff < sec.fileOff + |sec.img.data| && r.value.source == Unset && Modest(r.value)
    ensures r.Some? ==> BoundsFor(sec, queryFileOff - sec.fileOff, r.value)
    ensures r.Some? ==>
              var pos := queryFileOff - sec.fileOff;
              var s, e := GuessedStart(sec.img.data, pos, mode),
                          Epilogue(sec.img.data, pos, ForwardLimit(sec.img.data, pos), mode);
              && s.Some? && e.Some? && r.value == Guess(sec, pos, s.value, e.value)
              && (sec.rva + pos < WORD && |sec.img.data| < WORD ==>
                    (sec.rva + pos < r.value.end <==> sec.rva + e.value < WORD))
    ensures r.None? ==>
              var pos := queryFileOff - sec.fileOff;
              || !(0 <= pos < |sec.img.data|) || GuessedStart(sec.img.data, pos, mode).None?
              || Epilogue(sec.img.data, pos, ForwardLimit(sec.img.data, pos), mode).None?
  {
    var data := sec.img.data;
    if |data| == 0 || queryFileOff < sec.fileOff {
      return None;
    }
    var posInSec := queryFileOff - sec.fileOff;
    if posInSec >= |data| {
      return None;
    }
    var startPos := FindPrologueBackward(data, posInSec, mode);
    var endPos := FindEpilogueForward(data, posInSec, mode);
    if startPos.None? || endPos.None? || endPos.value <= startPos.value {
      return None;
    }
    GuessFits(sec, posInSec, startPos.value, endPos.value);
    if sec.rva + posInSec < WORD && |data| < WORD {
      WrapsBelow(sec.rva, posInSec, endPos.value);
    }
    return Some(Guess(sec, posInSec, startPos.value, endPos.value));
  }

  /** Code up to the last address: the end wraps to zero and the guess does not hold its query. */
  method GuessWraps() returns (sec: Region, r: Option<Bounds>)
    ensures sec.rva == WORD - 2 && sec.img.data == [0x56, RET]
    ensures r.Some? && r.value.start == sec.rva && r.value.end == 0
  {
    sec := Region(WORD - 2, 0x400, Image([0x56, RET], pos => None, None));
    PushAndReturn(sec.img.data);
    r := HeuristicFuncBounds(sec, 0x400, X86);
    WrapsBelow(sec.rva, 0, 2);
  }

  lemma PushAndReturn(data: seq<byte>)
    requires data == [0x56, RET]
    ensures GuessedStart(data, 0, X86) == Some(0) && Epilogue(data, 0, ForwardLimit(data, 0), X86) == Some(2)
  {
    assert !EndsAfter(data, 0, 2, X86) && EndsAfter(data, 1, 2, X86);
    assert Epilogue(data, 1, 2, X86) == Some(2);
  }

  /** A guess never claims more than medium confidence. */
  predicate Modest(b: Bounds) {
    b.confidence == Medium || b.confidence == Low
  }

  /** A guess for a query in this section holds the query when the section's addresses fit 32 bits. */
  ghost predicate BoundsFor(sec: Region, queryOff: nat, b: Bounds) {
    && Modest(b)
    && (sec.InMemory() ==> sec.rva <= b.start <= sec.rva + queryOff < b.end <= sec.rva + |sec.img.data|)
    && (sec.InMemory() && sec.InFile() ==> Aligned(sec, b))
  }

  /** File offsets and addresses name the same bytes of the section. */
  ghost predicate Aligned(sec: Region, b: Bounds) {
    b.startFileOff - sec.fileOff == b.start - sec.rva && b.endFileOff - sec.fileOff == b.end - sec.rva
  }

  /** The offset at which the function is taken to end when there is no guess. */
  function Stop(data: seq<byte>, queryOff: nat, mode: Mode): nat {
    var found := Epilogue(data, queryOff, ForwardLimit(data, queryOff), mode);
    if found.Some? then found.value else |data|
  }

  /** Where the function is taken to end before the next start is considered. */
  function UncappedEnd(sec: Region, queryOff: nat, bounds: Option<Bounds>, mode: Mode): nat {
    if bounds.Some? && bounds.value.end > sec.rva then bounds.value.end
    else Plus(sec.rva, Stop(sec.img.data, queryOff, mode))
  }

  method ComputeFuncEnd(sec: Region, queryOff: nat, bounds: Option<Bounds>, nextOff: Option<nat>, mode: Mode)
    returns (end: nat)
    requires queryOff < |sec.img.data|
    ensures sec.InMemory() && (bounds.Some? ==> BoundsFor(sec, queryOff, bounds.value))
            && (nextOff.Some? ==> queryOff < nextOff.value < |sec.img.data|) ==>
              && sec.rva + queryOff < end <= sec.rva + |sec.img.data|
              && (nextOff.Some? ==> end <= sec.rva + nextOff.value)
    ensures end == UncappedEnd(sec, queryOff, bounds, mode) || (nextOff.Some? && end == Plus(sec.rva, nextOff.value))
    ensures end <= UncappedEnd(sec, queryOff, bounds, mode)
    ensures bounds.None? && nextOff.None? && sec.rva + queryOff < WORD && |sec.img.data| < WORD ==>
              (sec.rva + queryOff < end <==> sec.rva + Stop(sec.img.data, queryOff, mode) < WORD)
  {
    if bounds.Some? && bounds.value.end > sec.rva {
      end := bounds.value.end;
    } else {
      var endPos := FindEpilogueForward(sec.img.data, queryOff, mode);
      if endPos.Some? {
        end := Plus(sec.rva, endPos.value);
      } else {
        end := Plus(sec.rva, |sec.img.data|);
      }
    }
    if nextOff.Some? && end > Plus(sec.rva, nextOff.value) {
      end := Plus(sec.rva, nextOff.value);
    }
    StopBounds(sec.img.data, queryOff, mode);
    if sec.rva + queryOff < WORD && |sec.img.data| < WORD {
      WrapsBelow(sec.rva, queryOff, Stop(sec.img.data, queryOff, mode));
    }
  }

  lemma {:induction false} EpilogueBounds(data: seq<byte>, i: nat, limit: nat, mode: Mode)
    requires limit <= |data|
    ensures Epilogue(data, i, limit, mode).Some? ==> i < Epilogue(data, i, limit, mode).value <= |data|
    decreases limit - i
  {
    if i < limit && !EndsAfter(data, i, limit, mode) {
      EpilogueBounds(data, i + 1, limit, mode);
    }
  }

  lemma StopBounds(data: seq<byte>, queryOff: nat, mode: Mode)
    requires queryOff < |data|
    ensures queryOff < Stop(data, queryOff, mode) <= |data|
  {
    EpilogueBounds(data, queryOff, ForwardLimit(data, queryOff), mode);
  }

  lemma WrapsBelow(rva: nat, queryOff: nat, stop: nat)
    requires rva + queryOff < WORD && stop < WORD
    ensures rva + stop >= WORD ==> Plus(rva, stop) == rva + stop - WORD <= rva + queryOff
  {
    if rva + stop >= WORD {
      assert Wrap(rva + stop) == Wrap(rva + stop - WORD) == rva + stop - WORD;
    }
  }

  // ----- refining the start -----

  /** Entry sequences of 32-bit compilers. */
  predicate X86Idiom(data: seq<byte>, p: nat) {
    || Two(data, p, 0x83, 0xEC) || Two(data, p, 0x81, 0xEC)
    || (Four(data, p, 0x8B, 0xFF, 0x55, 0x8B) && At(data, p + 4) == 0xEC) || Three(data, p, 0x55, 0x89, 0xE5)
    || Three(data, p, 0x56, 0x8B, 0xF1) || Four(data, p, 0x55, 0x8B, 0x6C, 0x24) || Three(data, p, 0x53, 0x56, 0x57)
    || Three(data, p, 0x8B, 0x44, 0x24)
  }

  /** A prologue of two bytes or more, of either mode, or a 32-bit entry sequence. */
  predicate StrongPrologue(data: seq<byte>, p: nat, mode: Mode) {
    || Four(data, p, 0x55, 0x48, 0x89, 0xE5) || Three(data, p, 0x55, 0x8B, 0xEC) || RexPrologue(data, p)
    || (mode.X86? && X86Idiom(data, p))
  }

  predicate PrecededByGap(data: seq<byte>, off: nat) {
    2 <= off <= |data| && data[off - 1] == INT3 && data[off - 2] == INT3
  }

  predicate Int3RunBetween(data: seq<byte>, a: nat, b: nat) {
    exists i :: a <= i < |data| - 1 && i + 1 < b && data[i] == INT3 && data[i + 1] == INT3
  }

  /** `s` is the greatest start at or below the query. */
  ghost predicate Greatest(starts: set<int>, query: int, s: int) {
    s in starts && s <= query && forall t :: t in starts && t <= query ==> t <= s
  }

  /** `s` is the least start above the query. */
  ghost predicate Least(starts: set<int>, query: int, s: int) {
    s in starts && s > query && forall t :: t in starts && t > query ==> s <= t
  }

  ghost predicate BestOf(seen: set<int>, query: nat, best: Option<nat>) {
    if best.Some? then Greatest(seen, query, best.value) else forall t :: t in seen ==> t > query
  }

  ghost predicate NextOf(seen: set<int>, query: nat, next: Option<nat>) {
    if next.Some? then Least(seen, query, next.value) else forall t :: t in seen ==> t <= query
  }

  method Consider(off: nat, query: nat, best0: Option<nat>, next0: Option<nat>, ghost seen: set<int>)
    returns (best: Option<nat>, next: Option<nat>)
    requires BestOf(seen, query, best0) && NextOf(seen, query, next0)
    ensures BestOf(seen + {off}, query, best) && NextOf(seen + {off}, query, next)
  {
    best, next := best0, next0;
    if off <= query {
      if best.None? || off > best.value {
        best := Some(off);
      }
    } else if next.None? || off < next.value {
      next := Some(off);
    }
  }

  /** One pass over the starts in any order. */
  method NearestStarts(starts: set<int>, query: nat) returns (best: Option<nat>, next: Option<nat>)
    requires forall t :: t in starts ==> t >= 0
    ensures BestOf(starts, query, best) && NextOf(starts, query, next)
  {
    best, next := None, None;
    var rest := starts;
    ghost var seen: set<int> := {};
    while rest != {}
      invariant seen + rest == starts
      invariant BestOf(seen, query, best) && NextOf(seen, query, next)
      decreases |rest|
    {
      var off := Pick(rest);
      best, next := Consider(off, query, best, next, seen);
      seen := seen + {off};
      rest := rest - {off};
    }
    assert seen == starts;
  }

  predicate FromKnownStart(b: Bounds) {
    b.source == Export || b.source == CallTarget
  }

  /** The answer names the greatest known start at or below the query, control flow proves that it holds the query, and
      its end lies after the query and not beyond the next known start. */
  ghost predicate Anchored(sec: Region, starts: set<int>, queryOff: nat, b: Bounds) {
    && Greatest(starts, queryOff, b.start - sec.rva)
    && Contains(sec.img, starts, b.start - sec.rva, queryOff)
    && b.start <= sec.rva + queryOff < b.end <= sec.rva + |sec.img.data|
    && (forall t :: t in starts && t > queryOff ==> b.end <= sec.rva + t)
  }

  /** A guessed start earns medium confidence only as a strong prologue that is not inside a known function's body. */
  predicate Credible(data: seq<byte>, startOff: nat, best: Option<nat>, mode: Mode) {
    var enclosed := best.Some? && best.value < startOff && !Int3RunBetween(data, best.value, startOff);
    (PrecededByGap(data, startOff) || !enclosed) && StrongPrologue(data, startOff, mode)
  }

  /** Two bytes of padding that the processor traps on. */
  predicate PaddingPair(data: seq<byte>, i: int) {
    0 <= i && i + 1 < |data| && data[i] == 0xCC && data[i + 1] == 0xCC
  }

  /** A guess is credible exactly when it is a strong prologue and no known start lies below it, or two bytes of padding
      lie between the two or right before it. */
  lemma CredibleIff(data: seq<byte>, startOff: nat, best: Option<nat>, mode: Mode)
    requires startOff <= |data|
    ensures Credible(data, startOff, best, mode) <==>
            && StrongPrologue(data, startOff, mode)
            && (|| best.None? || best.value >= startOff
                || exists i :: PaddingPair(data, i) && i + 2 <= startOff && (best.value <= i || i + 2 == startOff))
  {
    if PrecededByGap(data, startOff) {
      assert PaddingPair(data, startOff - 2);
    }
    if best.Some? && Int3RunBetween(data, best.value, startOff) {
      var i :| best.value <= i < |data| - 1 && i + 1 < startOff && data[i] == INT3 && data[i + 1] == INT3;
      assert PaddingPair(data, i);
    }
  }

  /** Control flow proves that the guessed start holds the query, and the start is credible. */
  ghost predicate Warranted(sec: Region, startOff: nat, queryOff: nat, best: Option<nat>, starts: set<int>,
                            mode: Mode) {
    Contains(sec.img, starts, startOff, queryOff) && Credible(sec.img.data, startOff, best, mode)
  }

  method Weigh(sec: Region, startOff: nat, queryOff: nat, best: Option<nat>, starts: set<int>, mode: Mode)
    returns (source: Source, confidence: Confidence)
    ensures source == Prologue || source == Heuristic || source == Misaligned
    ensures source == Prologue ==> Warranted(sec, startOff, queryOff, best, starts, mode)
    ensures confidence == (if source == Prologue then Medium else Low)
    ensures |sec.img.data| <= VISIT_CAP ==> (source == Misaligned <==> !Contains(sec.img, starts, startOff, queryOff))
    ensures |sec.img.data| <= VISIT_CAP ==>
              (source == Prologue <==> Warranted(sec, startOff, queryOff, best, starts, mode))
  {
    var contains := FunctionContains(sec.img, startOff, queryOff, starts);
    if !contains {
      return Misaligned, Low;
    }
    var credible := Credible(sec.img.data, startOff, best, mode);
    if credible {
      return Prologue, Medium;
    }
    return Heuristic, Low;
  }

  /** Step 2: a guess is kept as a guess. */
  method JudgeGuess(sec: Region, queryOff: nat, guess: Bounds, best: Option<nat>, starts: set<int>, partial: bool,
                    mode: Mode)
    returns (r: Bounds)
    ensures !FromKnownStart(r) && r.partial == partial && r.start == guess.start && r.end == guess.end
    ensures r.startFileOff == guess.startFileOff && r.endFileOff == guess.endFileOff
    ensures r.confidence == guess.confidence || r.confidence == Medium || r.confidence == Low
    ensures r.source == Prologue ==>
              guess.start >= sec.rva && Warranted(sec, guess.start - sec.rva, queryOff, best, starts, mode)
    ensures guess.start < sec.rva ==> r.source == Heuristic && r.confidence == guess.confidence
    ensures guess.start >= sec.rva ==> r.confidence == (if r.source == Prologue then Medium else Low)
    ensures guess.start >= sec.rva && |sec.img.data| <= VISIT_CAP ==>
              && (r.source == Prologue <==> Warranted(sec, guess.start - sec.rva, queryOff, best, starts, mode))
              && (r.source == Misaligned <==> !Contains(sec.img, starts, guess.start - sec.rva, queryOff))
    ensures r.source == Prologue || r.source == Heuristic || r.source == Misaligned
    ensures r.hint == (if best.Some? then Some(Plus(sec.rva, best.value)) else guess.hint) && r.name == guess.name
  {
    var hint := if best.Some? then Some(Plus(sec.rva, best.value)) else guess.hint;
    var source, confidence := Heuristic, guess.confidence;
    if guess.start >= sec.rva {
      source, confidence := Weigh(sec, guess.start - sec.rva, queryOff, best, starts, mode);
    }
    r := Bounds(guess.startFileOff, guess.endFileOff, guess.start, guess.end, confidence, source, guess.name, partial,
                hint);
  }

  /** The guess, if any, was made for the same section and query. */
  ghost predicate SameQuery(sec: Region, queryOff: nat, bounds: Option<Bounds>) {
    bounds.Some? ==> BoundsFor(sec, queryOff, bounds.value)
  }

  /** Step 1: an answer from a known start that control flow proves to hold the query. */
  method Anchor(sec: Region, queryOff: nat, bounds: Option<Bounds>, names: map<int, string>, best: nat,
                next: Option<nat>, partial: bool, mode: Mode, ghost starts: set<int>) returns (r: Bounds)
    requires queryOff < |sec.img.data| && (forall t :: t in starts ==> 0 <= t < |sec.img.data|)
    requires Greatest(starts, queryOff, best) && Contains(sec.img, starts, best, queryOff)
    requires if next.Some? then Least(starts, queryOff, next.value) else forall t :: t in starts ==> t <= queryOff
    ensures SameQuery(sec, queryOff, bounds) && sec.InMemory() ==>
              Anchored(sec, starts, queryOff, r) && (sec.InFile() ==> Aligned(sec, r))
    ensures r.start == Plus(sec.rva, best) && r.end <= UncappedEnd(sec, queryOff, bounds, mode)
    ensures r.end == UncappedEnd(sec, queryOff, bounds, mode) || (next.Some? && r.end == Plus(sec.rva, next.value))
    ensures bounds.None? && next.None? && sec.rva + queryOff < WORD && |sec.img.data| < WORD ==>
              (sec.rva + queryOff < r.end <==> sec.rva + Stop(sec.img.data, queryOff, mode) < WORD)
    ensures r.source == (if best in names && names[best] != "" then Export else CallTarget)
    ensures r.partial == partial
    ensures r.confidence == (if partial then Medium else if r.source == Export then Exact else High)
  {
    var end := ComputeFuncEnd(sec, queryOff, bounds, next, mode);
    var name := if best in names then names[best] else "";
    var source, conf := CallTarget, High;
    if name != "" {
      source, conf := Export, Exact;
    }
    if partial && (conf == Exact || conf == High) {
      conf := Medium;
    }
    var endFileOff := Wrap(sec.fileOff + end + WORD - Wrap(sec.rva));
    r := Bounds(Plus(sec.fileOff, best), endFileOff, Plus(sec.rva, best), end, conf, source, name, partial, None);
  }

  /** The greatest known start at or below the query reaches it by control flow. */
  ghost predicate HasOwner(img: Image, starts: set<int>, query: int) {
    exists s :: Greatest(starts, query, s) && Contains(img, starts, s, query)
  }

  lemma OwnerIsGreatest(img: Image, starts: set<int>, query: int, best: int)
    requires Greatest(starts, query, best)
    ensures HasOwner(img, starts, query) <==> Contains(img, starts, best, query)
  {
  }

  // ----- the seeds -----

  /** Addresses at which functions may start: exports with their labels, pointers in data, and targets of a sweep over
      the section. */
  datatype Leads = Leads(exports: seq<nat>, labels: map<nat, string>, pointers: seq<nat>, swept: seq<nat>) {
    predicate Has(a: nat) { a in exports || a in pointers || a in swept }
    function Label(a: nat): string { if a in labels then labels[a] else "" }
  }

  /** The filter of the seeds, whose sum wraps. */
  predicate Keeps(sec: Region, a: nat) {
    sec.rva <= a < Plus(sec.rva, |sec.img.data|)
  }

  /** The offsets of the addresses that lie in the section. */
  function Offsets(sec: Region, addresses: seq<nat>): seq<int> {
    if addresses == [] then []
    else
      var rest, a := Offsets(sec, addresses[..|addresses| - 1]), addresses[|addresses| - 1];
      if Keeps(sec, a) then rest + [a - sec.rva] else rest
  }

  function Seeds(sec: Region, leads: Leads): seq<int> {
    Offsets(sec, leads.exports) + Offsets(sec, leads.pointers) + Offsets(sec, leads.swept)
  }

  lemma {:induction false} OffsetsAre(sec: Region, addresses: seq<nat>, off: int)
    ensures off in Offsets(sec, addresses) <==> off >= 0 && Keeps(sec, sec.rva + off) && sec.rva + off in addresses
  {
    if addresses != [] {
      var init, a := addresses[..|addresses| - 1], addresses[|addresses| - 1];
      assert addresses == init + [a];
      OffsetsAre(sec, init, off);
    }
  }

  /** A seed is an address of the leads that the filter keeps. */
  lemma SeedsAre(sec: Region, leads: Leads, off: int)
    ensures off in Seeds(sec, leads) <==> off >= 0 && Keeps(sec, sec.rva + off) && leads.Has(sec.rva + off)
  {
    OffsetsAre(sec, leads.exports, off);
    OffsetsAre(sec, leads.pointers, off);
    OffsetsAre(sec, leads.swept, off);
  }

  /** The filter keeps exactly the section's addresses when they fit 32 bits, and none at all otherwise. */
  lemma KeepsIff(sec: Region, a: nat)
    requires sec.rva < WORD && |sec.img.data| < WORD
    ensures Keeps(sec, a) <==> sec.InMemory() && sec.rva <= a < sec.rva + |sec.img.data|
  {
    if !sec.InMemory() {
      WrapsBelow(sec.rva, 0, |sec.img.data|);
    }
  }

  lemma StartNeedsSeed(img: Image, seeds: seq<int>, t: int) returns (s: int)
    requires IsStart(img, seeds, t)
    ensures s in seeds
  {
    if t in seeds {
      s := t;
    } else {
      var c :| Explored(img, seeds, c) && CallsTo(img, c, t);
      s :| s in seeds && InRange(img, s) && Reachability.Reaches(Explore(img), s, c);
    }
  }

  /** A section whose end wraps has no starts. */
  lemma StartNeedsMemory(sec: Region, leads: Leads, t: int)
    requires IsStart(sec.img, Seeds(sec, leads), t) && |sec.img.data| < WORD
    ensures sec.InMemory()
  {
    var s := StartNeedsSeed(sec.img, Seeds(sec, leads), t);
    SeedsAre(sec, leads, s);
    KeepsIff(sec, sec.rva + s);
  }

  /** The labels by offset. */
  ghost predicate Named(sec: Region, exports: seq<nat>, leads: Leads, names: map<int, string>) {
    forall off ::
      && (off in names <==> off in Offsets(sec, exports))
      && (off in names && off >= 0 ==> names[off] == leads.Label(sec.rva + off))
  }

  method GatherExports(sec: Region, leads: Leads) returns (seeds: seq<int>, names: map<int, string>)
    ensures seeds == Offsets(sec, leads.exports) && Named(sec, leads.exports, leads, names)
  {
    seeds, names := [], map[];
    for i := 0 to |leads.exports|
      invariant seeds == Offsets(sec, leads.exports[..i]) && Named(sec, leads.exports[..i], leads, names)
    {
      var a := leads.exports[i];
      assert leads.exports[..i + 1][..i] == leads.exports[..i];
      if Keeps(sec, a) {
        seeds := seeds + [a - sec.rva];
        names := names[a - sec.rva := leads.Label(a)];
      }
    }
    assert leads.exports[..|leads.exports|] == leads.exports;
  }

  method GatherMore(sec: Region, addresses: seq<nat>, gathered: seq<int>) returns (seeds: seq<int>)
    ensures seeds == gathered + Offsets(sec, addresses)
  {
    seeds := gathered;
    for i := 0 to |addresses|
      invariant seeds == gathered + Offsets(sec, addresses[..i])
    {
      assert addresses[..i + 1][..i] == addresses[..i];
      if Keeps(sec, addresses[i]) {
        seeds := seeds + [addresses[i] - sec.rva];
      }
    }
    assert addresses[..|addresses|] == addresses;
  }

  method GatherSeeds(sec: Region, leads: Leads) returns (seeds: seq<int>, names: map<int, string>)
    ensures seeds == Seeds(sec, leads) && Named(sec, leads.exports, leads, names)
  {
    seeds, names := GatherExports(sec, leads);
    seeds := GatherMore(sec, leads.pointers, seeds);
    seeds := GatherMore(sec, leads.swept, seeds);
  }

  /** The offset is that of a labelled export. */
  predicate Exported(sec: Region, leads: Leads, off: nat) {
    Keeps(sec, sec.rva + off) && sec.rva + off in leads.exports && leads.Label(sec.rva + off) != ""
  }

  lemma NamedIsExported(sec: Region, leads: Leads, names: map<int, string>, off: nat)
    requires Named(sec, leads.exports, leads, names)
    ensures off in names && names[off] != "" <==> Exported(sec, leads, off)
  {
    OffsetsAre(sec, leads.exports, off);
  }

  /** An answer from a known start is anchored, wherever the section lies. */
  method RefineFuncStart(sec: Region, queryOff: nat, bounds: Option<Bounds>, leads: Leads, mode: Mode)
    returns (r: Option<Bounds>, ghost starts: set<int>, ghost left: nat, ghost decoded: set<int>)
    ensures |decoded| + left <= DECODE_BUDGET && Grounded(sec.img, Seeds(sec, leads), starts, decoded)
    ensures forall s :: s in Seeds(sec, leads) && InRange(sec.img, s) ==> s in starts
    ensures forall t :: t in starts ==> IsStart(sec.img, Seeds(sec, leads), t)
    ensures left > 0 ==> forall t :: IsStart(sec.img, Seeds(sec, leads), t) ==> t in starts
    ensures r.Some? && FromKnownStart(r.value) && |sec.img.data| < WORD && SameQuery(sec, queryOff, bounds) ==>
              Anchored(sec, starts, queryOff, r.value) && (sec.InFile() ==> Aligned(sec, r.value))
    ensures r.Some? && FromKnownStart(r.value) ==> queryOff < |sec.img.data|
    ensures r.Some? && !FromKnownStart(r.value) ==>
              bounds.Some? && r.value.start == bounds.value.start && r.value.end == bounds.value.end
    ensures r.Some? && !Modest(r.value) && (bounds.Some? ==> Modest(bounds.value)) ==>
              FromKnownStart(r.value) && !r.value.partial
    ensures r.Some? && r.value.partial ==> left == 0 && |starts| > 1
    ensures r.Some? && FromKnownStart(r.value) ==>
              r.value.confidence
              == (if r.value.partial then Medium else if r.value.source == Export then Exact else High)
    ensures r.Some? && FromKnownStart(r.value) ==> exists s ::
              && Greatest(starts, queryOff, s) && 0 <= s && r.value.start == Plus(sec.rva, s)
              && (r.value.source == Export <==> Exported(sec, leads, s))
    ensures HasOwner(sec.img, starts, queryOff) ==>
              || (r.Some? && FromKnownStart(r.value))
              || exists s, visited :: Greatest(starts, queryOff, s) && Exhausted(sec.img, starts, s, queryOff, visited)
    ensures |sec.img.data| <= VISIT_CAP && HasOwner(sec.img, starts, queryOff) ==> r.Some? && FromKnownStart(r.value)
    ensures bounds.None? && r.Some? ==> FromKnownStart(r.value)
  {
    var seeds, names := GatherSeeds(sec, leads);
    var allStarts, complete;
    allStarts, complete, left, decoded := DiscoverFunctionStarts(sec.img, seeds);
    starts := allStarts;
    var partial := !complete;
    assert forall t :: t in allStarts ==> IsStart(sec.img, seeds, t) && 0 <= t < |sec.img.data|;
    var best, next := NearestStarts(allStarts, queryOff);
    var contains := false;
    if best.Some? {
      contains := FunctionContains(sec.img, best.value, queryOff, allStarts);
      if contains {
        NamedIsExported(sec, leads, names, best.value);
        if |sec.img.data| < WORD {
          StartNeedsMemory(sec, leads, best.value);
        }
        var anchored := Anchor(sec, queryOff, bounds, names, best.value, next, partial, mode, allStarts);
        return Some(anchored), starts, left, decoded;
      }
    }
    if best.Some? {
      OwnerIsGreatest(sec.img, starts, queryOff, best.value);
    }
    if bounds.None? {
      return None, starts, left, decoded;
    }
    var judged := JudgeGuess(sec, queryOff, bounds.value, best, allStarts, partial, mode);
    r := Some(judged);
  }

  // ----- confidence on the strength of the flag -----

  /** Every offset of the sled but its first is entered through offset 1. */
  lemma {:induction false} SledEntered(n: nat, visited: set<int>, p: int)
    requires n > 0 && Walked(Sled(n, 1), {0}, 0, visited) && p in visited && p != 0
    ensures 1 in visited
    decreases if p > n then n + 1 else p
  {
    assert Entered(Sled(n, 1), {0}, 0, visited, p);
    var u :| u in visited && Inside(Sled(n, 1), {0}, 0)(u, p);
    SledEdges(n, 1, u, p);
    if p != 1 {
      SledEntered(n, visited, u);
    }
  }

  lemma SledNotExhausted(n: nat, visited: set<int>)
    requires n > 0 && Walked(Sled(n, 1), {0}, 0, visited) && 1 !in visited
    ensures |visited| <= 1
  {
    forall p | p in visited ensures p == 0 {
      if p != 0 {
        SledEntered(n, visited, p);
      }
    }
    Reachability.SubsetSize(visited, {0});
  }

  lemma SledOwner(n: nat, starts: set<int>)
    requires n > 0 && starts == {0}
    ensures HasOwner(Sled(n, 1), starts, 1) && forall s :: Greatest(starts, 1, s) ==> s == 0
  {
    var edge := Inside(Sled(n, 1), starts, 0);
    Reachability.ReachesSelf(edge, 0);
    SledEdges(n, 1, 0, 1);
    assert edge(0, 1);
    Reachability.ReachesExtends(edge, 0, 0, 1);
    assert Greatest(starts, 1, 0) && Contains(Sled(n, 1), starts, 0, 1);
  }

  lemma OneSeed(sec: Region, leads: Leads)
    requires sec.InMemory() && sec.img.data != [] && leads.exports == [sec.rva] && leads.pointers == []
    requires leads.swept == []
    ensures Seeds(sec, leads) == [0]
  {
    KeepsIff(sec, sec.rva);
    assert Offsets(sec, leads.exports[..0]) == [];
    assert Offsets(sec, leads.exports) == [0];
  }

  /** A section whose discovery ran out of budget unnoticed: the answer claims high confidence for start 0 although the
      function that holds the query starts at 1. */
  method HighThoughIncomplete() returns (sec: Region, leads: Leads, r: Option<Bounds>)
    ensures sec.InMemory() && sec.InFile() && IsStart(sec.img, Seeds(sec, leads), 1)
    ensures r.Some? && r.value.confidence == High && r.value.start == sec.rva
  {
    var n := DECODE_BUDGET + 1;
    sec := Region(0x1000, 0x400, Sled(n, 1));
    leads := Leads([0x1000], map[], [], []);
    OneSeed(sec, leads);
    ghost var starts, left, decoded;
    r, starts, left, decoded := RefineFuncStart(sec, 1, None, leads, X86);
    SledHidesCall(n, 1, starts, decoded);
    SledCalls(n, 1);
    assert 0 in [0] && InRange(sec.img, 0);
    assert starts == {0};
    SledOwner(n, starts);
    forall s, visited | Greatest(starts, 1, s) ensures !Exhausted(sec.img, starts, s, 1, visited) {
      if Walked(sec.img, starts, s, visited) && 1 !in visited {
        SledNotExhausted(n, visited);
      }
    }
  }

  // ----- finding the section -----

  /** A section of the file; `img` is absent when its bytes cannot be read. */
  datatype PESection = PESection(rva: nat, virtualSize: nat, fileOff: nat, size: nat, executable: bool, code: bool,
                                 img: Option<Image>) {
    predicate HasRVA(a: nat) { rva <= a < rva + virtualSize }
    /** The guess compares in 32 bits. */
    predicate HasRVA32(a: nat) { rva <= a < Plus(rva, virtualSize) }
    predicate HasOffset32(o: nat) { fileOff <= o < Plus(fileOff, size) }
    predicate Readable() { (executable || code) && img.Some? }
    function Code(): Region
      requires img.Some?
    {
      Region(rva, fileOff, img.value)
    }
  }

  /** All fields fit 32 bits, each section lies in the file with as many bytes as it says, no two share bytes of the
      file, and one whose addresses leave 32 bits shares none of them. */
  ghost predicate LaidOut(sections: seq<PESection>) {
    && (forall i :: 0 <= i < |sections| ==>
          && sections[i].rva < WORD && sections[i].virtualSize < WORD && sections[i].fileOff + sections[i].size < WORD
          && (sections[i].img.Some? ==> |sections[i].img.value.data| == sections[i].size))
    && (forall i, j, o :: 0 <= i < j < |sections| ==> !(sections[i].HasOffset32(o) && sections[j].HasOffset32(o)))
    && (forall i, j, a :: 0 <= i < |sections| && 0 <= j < |sections| && i != j ==>
          sections[i].rva + sections[i].virtualSize < WORD || !(sections[i].HasRVA(a) && sections[j].HasRVA(a)))
  }

  ghost predicate FirstWith(sections: seq<PESection>, rva: nat, k: int) {
    0 <= k < |sections| && sections[k].HasRVA(rva) && forall i :: 0 <= i < k ==> !sections[i].HasRVA(rva)
  }

  method FindByRVA(sections: seq<PESection>, rva: nat) returns (k: nat)
    ensures k <= |sections| && (forall i :: 0 <= i < k ==> !sections[i].HasRVA(rva))
    ensures k < |sections| ==> sections[k].HasRVA(rva)
  {
    k := 0;
    while k < |sections| && !sections[k].HasRVA(rva)
      invariant k <= |sections| && forall i :: 0 <= i < k ==> !sections[i].HasRVA(rva)
    {
      k := k + 1;
    }
  }

  method FindByRVA32(sections: seq<PESection>, rva: nat) returns (k: nat)
    ensures k <= |sections| && (forall i :: 0 <= i < k ==> !sections[i].HasRVA32(rva))
    ensures k < |sections| ==> sections[k].HasRVA32(rva)
  {
    k := 0;
    while k < |sections| && !sections[k].HasRVA32(rva)
      invariant k <= |sections| && forall i :: 0 <= i < k ==> !sections[i].HasRVA32(rva)
    {
      k := k + 1;
    }
  }

  method FindByOffset(sections: seq<PESection>, off: nat) returns (k: nat)
    ensures k <= |sections| && (forall i :: 0 <= i < k ==> !sections[i].HasOffset32(off))
    ensures k < |sections| ==> sections[k].HasOffset32(off)
  {
    k := 0;
    while k < |sections| && !sections[k].HasOffset32(off)
      invariant k <= |sections| && forall i :: 0 <= i < k ==> !sections[i].HasOffset32(off)
    {
      k := k + 1;
    }
  }

  /** The 32-bit comparison finds a section exactly when its addresses do not leave 32 bits. */
  lemma HasRVA32Iff(sec: PESection, a: nat)
    requires sec.rva < WORD && sec.virtualSize < WORD
    ensures sec.HasRVA32(a) <==> sec.HasRVA(a) && sec.rva + sec.virtualSize < WORD
  {
    if sec.rva + sec.virtualSize >= WORD {
      WrapsBelow(sec.rva, 0, sec.virtualSize);
    }
  }

  /** No start is suggested at or below the query, or no return is confirmed after it. */
  ghost predicate NoGuess(sec: Region, pos: nat, mode: Mode) {
    pos < |sec.img.data| ==>
      || GuessedStart(sec.img.data, pos, mode).None?
      || Epilogue(sec.img.data, pos, ForwardLimit(sec.img.data, pos), mode).None?
  }

  /** A section that lies in the file has exactly its own offsets. */
  lemma HasOffset32Iff(sec: PESection, o: nat)
    requires sec.fileOff + sec.size < WORD
    ensures sec.HasOffset32(o) <==> sec.fileOff <= o < sec.fileOff + sec.size
  {
  }

  /** The two comparisons find the same section unless its addresses leave 32 bits, when the second finds none. */
  lemma SameSection(sections: seq<PESection>, rva: nat, k: int, j: int)
    requires LaidOut(sections) && FirstWith(sections, rva, k)
    requires 0 <= j <= |sections| && (forall i :: 0 <= i < j ==> !sections[i].HasRVA32(rva))
    requires j < |sections| ==> sections[j].HasRVA32(rva)
    ensures j == if sections[k].rva + sections[k].virtualSize < WORD then k else |sections|
  {
    HasRVA32Iff(sections[k], rva);
    if j < |sections| {
      HasRVA32Iff(sections[j], rva);
    }
  }

  /** The guess is looked for by file offset, which may fall in another section than the address does. */
  method HeuristicBoundsAt(sections: seq<PESection>, queryRVA: nat, mode: Mode) returns (r: Option<Bounds>)
    ensures r.Some? ==> Modest(r.value)
    ensures forall k :: LaidOut(sections) && FirstWith(sections, queryRVA, k)
                        && queryRVA - sections[k].rva < sections[k].size && r.Some? ==>
              sections[k].img.Some? && BoundsFor(sections[k].Code(), queryRVA - sections[k].rva, r.value)
    ensures forall k :: LaidOut(sections) && FirstWith(sections, queryRVA, k)
                        && queryRVA - sections[k].rva < sections[k].size && r.None? ==>
              || sections[k].rva + sections[k].virtualSize >= WORD || !sections[k].executable || sections[k].img.None?
              || NoGuess(sections[k].Code(), queryRVA - sections[k].rva, mode)
  {
    var k := FindByRVA32(sections, queryRVA);
    forall i | LaidOut(sections) && FirstWith(sections, queryRVA, i)
      ensures k == if sections[i].rva + sections[i].virtualSize < WORD then i else |sections|
    {
      SameSection(sections, queryRVA, i, k);
    }
    if k == |sections| {
      return None;
    }
    var off := Plus(queryRVA - sections[k].rva, sections[k].fileOff);
    var j := FindByOffset(sections, off);
    if j == |sections| || !sections[j].executable || sections[j].img.None? {
      return None;
    }
    r := HeuristicFuncBounds(sections[j].Code(), off, mode);
    if LaidOut(sections) && queryRVA - sections[k].rva < sections[k].size {
      assert sections[k].HasOffset32(off);
      assert j == k;
    }
  }

  /** The answer for an address: sound whenever it comes from a known start. */
  method FunctionAt(sections: seq<PESection>, queryRVA: nat, leads: Leads, mode: Mode)
    returns (r: Option<Bounds>, ghost k: nat, ghost starts: set<int>)
    ensures k <= |sections|
    ensures r.Some? && FromKnownStart(r.value) ==>
              && k < |sections| && sections[k].rva <= queryRVA < sections[k].rva + sections[k].virtualSize
              && (sections[k].executable || sections[k].code) && sections[k].img.Some?
    ensures r.Some? && FromKnownStart(r.value) && LaidOut(sections) ==>
              Anchored(sections[k].Code(), starts, queryRVA - sections[k].rva, r.value)
              && Aligned(sections[k].Code(), r.value)
    ensures r.Some? && !Modest(r.value) ==> FromKnownStart(r.value) && !r.value.partial
    ensures k < |sections| && (sections[k].executable || sections[k].code) && sections[k].img.Some?
            && |sections[k].img.value.data| <= VISIT_CAP ==>
              var code := sections[k].Code();
              && sections[k].HasRVA(queryRVA)
              && (forall t :: t in starts ==> IsStart(code.img, Seeds(code, leads), t))
              && (HasOwner(code.img, starts, queryRVA - code.rva) ==> r.Some? && FromKnownStart(r.value))
    ensures k == |sections| ==> forall i :: 0 <= i < |sections| ==> !sections[i].HasRVA(queryRVA)
  {
    var bounds := HeuristicBoundsAt(sections, queryRVA, mode);
    var i := FindByRVA(sections, queryRVA);
    k, starts := i, {};
    if i == |sections| || !sections[i].Readable() {
      if bounds.Some? {
        return Some(bounds.value.(source := Heuristic)), k, starts;
      }
      return None, k, starts;
    }
    ghost var left, decoded;
    r, starts, left, decoded := RefineFuncStart(sections[i].Code(), queryRVA - sections[i].rva, bounds, leads, mode);
  }
}
