/** Numbers in little-endian bytes, as encoding/binary reads them. */
module Words {
  import opened Wrappers

  function Little32(data: seq<byte>, p: nat): nat
    requires p + 4 <= |data|
  {
    var b0: int, b1: int, b2: int, b3: int := data[p], data[p + 1], data[p + 2], data[p + 3];
    b0 + 0x100 * b1 + 0x1_0000 * b2 + 0x100_0000 * b3
  }

  /** The number that bytes stand for, least significant first. */
  function Value(bytes: seq<byte>): nat {
    if bytes == [] then 0 else bytes[0] as int + 0x100 * Value(bytes[1..])
  }

  lemma ValueCons(b: byte, rest: seq<byte>)
    ensures Value([b] + rest) == b as int + 0x100 * Value(rest)
  {
    assert ([b] + rest)[1..] == rest;
  }

  lemma Little32IsValue(data: seq<byte>, p: nat)
    requires p + 4 <= |data|
    ensures Little32(data, p) == Value(data[p..p + 4])
  {
    var b0, b1, b2, b3 := data[p], data[p + 1], data[p + 2], data[p + 3];
    ValueCons(b3, []);
    ValueCons(b2, [b3]);
    ValueCons(b1, [b2, b3]);
    ValueCons(b0, [b1, b2, b3]);
    assert [b2] + [b3] == [b2, b3] && [b1] + [b2, b3] == [b1, b2, b3];
    assert data[p..p + 4] == [b0] + [b1, b2, b3];
  }
}
