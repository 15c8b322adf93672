/** Byte-level vocabulary shared by both register transports: Go's `uint8`
    and `uint32`, the big-endian layout of a 32-bit register value on the
    wire, and the running XOR used by the UART checksum. */
module Wire {

  /** Go `uint8` / `byte`: bitwise operators are needed on it. */
  type byte = bv8

  /** Go `uint8` where it is only compared or used as a map key (driver
      addresses, pin numbers): collections of bit-vectors are avoided. */
  type uint8 = x: int | 0 <= x < 0x100

  /** Go `uint32` as a register value: 32 bits, most significant first on
      the wire. */
  type word = bv32

  datatype Option<+T> = None | Some(value: T)

  /** The four bytes of `v`, most significant first:
      `byte(v >> 24), byte(v >> 16), byte(v >> 8), byte(v)`. */
  function Be32Bytes(v: word): (b: seq<byte>)
    ensures |b| == 4
    ensures (b[0] as word) << 24 == v & 0xFF00_0000
    ensures (b[1] as word) << 16 == v & 0x00FF_0000
    ensures (b[2] as word) << 8 == v & 0x0000_FF00
    ensures b[3] as word == v & 0x0000_00FF
  {
    [(v >> 24) as byte, ((v >> 16) & 0xFF) as byte, ((v >> 8) & 0xFF) as byte, (v & 0xFF) as byte]
  }

  /** `uint32(b[0])<<24 | uint32(b[1])<<16 | uint32(b[2])<<8 | uint32(b[3])`. */
  function Be32Value(b: seq<byte>): (v: word)
    requires |b| == 4
    ensures Be32Bytes(v) == b
  {
    ((b[0] as word) << 24) | ((b[1] as word) << 16) | ((b[2] as word) << 8) | (b[3] as word)
  }

  /** Decoding the big-endian bytes of a value gives the value back. */
  lemma Be32RoundTrip(v: word)
    ensures Be32Value(Be32Bytes(v)) == v
  {
  }

  /** XOR of all bytes of `s`, accumulated from the left as the checksum
      loops do: `checksum := 0; for each b { checksum ^= b }`. */
  function XorAll(s: seq<byte>): (r: byte)
    ensures forall j: byte :: j < 8 ==> (Bit(r, j) <==> BitCount(s, j) % 2 == 1)
  {
    if s == [] then 0
    else
      var x := XorAll(s[..|s| - 1]);
      BitParityStep(x, s);
      x ^ s[|s| - 1]
  }

  /** Bit `j` (0 to 7) of `x`, counting from the least significant. */
  predicate Bit(x: byte, j: byte)
    requires j < 8
  {
    (x >> j) & 1 == 1
  }

  /** How many bytes of `s` have bit `j` set. */
  function BitCount(s: seq<byte>, j: byte): nat
    requires j < 8
  {
    if s == [] then 0
    else BitCount(s[..|s| - 1], j) + (if Bit(s[|s| - 1], j) then 1 else 0)
  }

  /** Adding the last byte of `s` to the parity of the rest gives the
      parity of `s`, bit by bit. */
  lemma BitParityStep(x: byte, s: seq<byte>)
    requires s != []
    requires forall j: byte :: j < 8 ==> (Bit(x, j) <==> BitCount(s[..|s| - 1], j) % 2 == 1)
    ensures forall j: byte :: j < 8 ==> (Bit(x ^ s[|s| - 1], j) <==> BitCount(s, j) % 2 == 1)
  {
    forall j: byte | j < 8
      ensures Bit(x ^ s[|s| - 1], j) <==> BitCount(s, j) % 2 == 1
    {
      BitOfXor(x, s[|s| - 1], j);
    }
  }

  /** A bit of `x ^ y` is set exactly when it is set in one of them. */
  lemma BitOfXor(x: byte, y: byte, j: byte)
    requires j < 8
    ensures Bit(x ^ y, j) <==> Bit(x, j) != Bit(y, j)
  {
  }

  /** XOR over a concatenation is the XOR of the two parts' XORs. */
  lemma {:induction false} XorAllAppend(s: seq<byte>, t: seq<byte>)
    ensures XorAll(s + t) == XorAll(s) ^ XorAll(t)
    decreases |t|
  {
    if t == [] {
      assert s + t == s;
    } else {
      var t' := t[..|t| - 1];
      assert (s + t)[..|s + t| - 1] == s + t';
      XorAllAppend(s, t');
    }
  }

  /** Replacing byte `i` by `b` changes the XOR of the whole sequence by
      exactly `s[i] ^ b`, so any single-byte change alters the XOR. */
  lemma {:induction false} XorAllUpdate(s: seq<byte>, i: nat, b: byte)
    requires i < |s|
    ensures XorAll(s[i := b]) == XorAll(s) ^ s[i] ^ b
  {
    var pre, post := s[..i], s[i + 1..];
    assert s == pre + [s[i]] + post;
    assert s[i := b] == pre + [b] + post;
    XorAllSplit(pre, s[i], post);
    XorAllSplit(pre, b, post);
    XorCancel(XorAll(pre), XorAll(post), s[i], b);
  }

  lemma {:induction false} XorAllSplit(pre: seq<byte>, x: byte, post: seq<byte>)
    ensures XorAll(pre + [x] + post) == XorAll(pre) ^ x ^ XorAll(post)
  {
    XorAllAppend(pre + [x], post);
    XorAllAppend(pre, [x]);
    XorAllSingle(x);
  }

  lemma XorAllSingle(x: byte)
    ensures XorAll([x]) == x
  {
    assert [x][..0] == [];
  }

  lemma XorCancel(p: byte, q: byte, x: byte, y: byte)
    ensures p ^ y ^ q == (p ^ x ^ q) ^ x ^ y
  {
  }

  /** The checksum loop of the source, over the first `n` bytes of `buf`. */
  method XorChecksum(buf: seq<byte>, n: nat) returns (checksum: byte)
    requires n <= |buf|
    ensures checksum == XorAll(buf[..n])
  {
    checksum := 0;
    var i := 0;
    while i < n
      invariant i <= n
      invariant checksum == XorAll(buf[..i])
    {
      assert buf[..i + 1][..i] == buf[..i];
      checksum := checksum ^ buf[i];
      i := i + 1;
    }
  }
}
