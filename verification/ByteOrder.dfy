/** Bytes, and integers in the byte order of the machine. */
module ByteOrder {

  type byte = x: int | 0 <= x < 256

  /** Four bytes, least significant first. */
  function Le32(n: nat): (b: seq<byte>)
    ensures |b| == 4
  {
    [n % 256, n / 256 % 256, n / 256 / 256 % 256, n / 256 / 256 / 256 % 256]
  }

  function FromLe32(b: seq<byte>): nat
    requires |b| == 4
  {
    b[0] as int + 256 * (b[1] as int + 256 * (b[2] as int + 256 * (b[3] as int)))
  }

  lemma Le32RoundTrip(n: nat)
    requires n < 0x1_0000_0000
    ensures FromLe32(Le32(n)) == n
  {
    DivMod(n);
    DivMod(n / 256);
    DivMod(n / 256 / 256);
    assert n / 256 / 256 / 256 < 256;
  }

  /** At `k` stands `v`, the least significant byte first. */
  predicate Word32At(b: seq<byte>, k: nat, v: nat) {
    && k + 4 <= |b|
    && b[k] as int + 0x100 * (b[k + 1] as int) + 0x1_0000 * (b[k + 2] as int) + 0x100_0000 * (b[k + 3] as int) == v
  }

  lemma Le32Means(n: nat)
    requires n < 0x1_0000_0000
    ensures Word32At(Le32(n), 0, n)
  {
    hide Le32;
    Le32RoundTrip(n);
  }

  lemma DivMod(n: nat)
    ensures n == n % 256 + 256 * (n / 256)
  {
  }

  lemma Digit(low: nat, high: nat)
    requires low < 256
    ensures (low + 256 * high) % 256 == low && (low + 256 * high) / 256 == high
  {
  }

  lemma FromLe32RoundTrip(b: seq<byte>)
    requires |b| == 4
    ensures Le32(FromLe32(b)) == b
  {
    var b0, b1, b2, b3 := b[0] as int, b[1] as int, b[2] as int, b[3] as int;
    Digit(b0, b1 + 256 * (b2 + 256 * b3));
    Digit(b1, b2 + 256 * b3);
    Digit(b2, b3);
    Digit(b3, 0);
  }

  /** memcpy into the buffer. */
  method Copy(buffer: array<byte>, at: nat, b: seq<byte>) returns (end: nat)
    requires at + |b| <= buffer.Length
    modifies buffer
    ensures end == at + |b| && buffer[..end] == old(buffer[..at]) + b && buffer[end..] == old(buffer[end..])
  {
    end := at + |b|;
    for i := 0 to |b|
      invariant buffer[..at] == old(buffer[..at]) && buffer[at..at + i] == b[..i]
      invariant buffer[at + i..] == old(buffer[at + i..])
    {
      ghost var was := buffer[..];
      buffer[at + i] := b[i];
      assert buffer[..at] == was[..at] && buffer[at..at + i] == was[at..at + i];
      assert buffer[at + i + 1..] == was[at + i..][1..];
    }
    assert buffer[..end] == buffer[..at] + buffer[at..end];
  }
}
