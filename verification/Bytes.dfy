// Bytes, big-endian integers and the option type shared by every component.
module Bytes {

  newtype byte = x: int | 0 <= x < 256

  const TWO_TO_THE_32: int := 0x1_0000_0000

  // A 32-bit unsigned word, as the checksum and the length field of a record hold it.
  type u32 = n: int | 0 <= n < TWO_TO_THE_32

  datatype Option<+T> = None | Some(value: T)

  lemma Assoc<T>(a: seq<T>, b: seq<T>, c: seq<T>)
    ensures (a + b) + c == a + (b + c)
  {
  }

  // The four big-endian bytes of a 32-bit word.
  function Be32(n: u32): (b: seq<byte>)
    ensures |b| == 4
  {
    [(n / 0x100_0000) as byte, (n / 0x1_0000 % 0x100) as byte, (n / 0x100 % 0x100) as byte, (n % 0x100) as byte]
  }

  function FromBe32(b: seq<byte>): (n: u32)
    requires |b| == 4
  {
    b[0] as int * 0x100_0000 + b[1] as int * 0x1_0000 + b[2] as int * 0x100 + b[3] as int
  }

  // Writing a word and reading it back gives the word.
  lemma WordRoundTrip(n: u32)
    ensures FromBe32(Be32(n)) == n
  {
    var q, q' := n / 0x100, n / 0x1_0000;
    assert q / 0x100 == q' && q' / 0x100 == n / 0x100_0000;
  }

  // Reading four bytes and writing them back gives the bytes.
  lemma BytesRoundTrip(b: seq<byte>)
    requires |b| == 4
    ensures Be32(FromBe32(b)) == b
  {
    var w := FromBe32(b);
    var q := b[0] as int * 0x1_0000 + b[1] as int * 0x100 + b[2] as int;
    assert w == q * 0x100 + b[3] as int;
    assert w / 0x100 == q && w % 0x100 == b[3] as int;
    var q' := b[0] as int * 0x100 + b[1] as int;
    assert q == q' * 0x100 + b[2] as int;
    assert w / 0x1_0000 == q / 0x100 == q';
    assert w / 0x100_0000 == q' / 0x100 == b[0] as int;
  }
}
