// Integers on the wire: the byte swap of atp_config.h, the host's little-endian memory,
// and the read primitive whose error value is also a legal integer.

module Wire {

  type Byte = bv8
  type Bytes = seq<Byte>

  /** htonll and ntohll, mask by mask. */
  function Swap64(x: bv64): bv64 {
    ((x & 0xff00_0000_0000_0000) >> 56)
    | ((x & 0x00ff_0000_0000_0000) >> 40)
    | ((x & 0x0000_ff00_0000_0000) >> 24)
    | ((x & 0x0000_00ff_0000_0000) >> 8)
    | ((x & 0x0000_0000_ff00_0000) << 8)
    | ((x & 0x0000_0000_00ff_0000) << 24)
    | ((x & 0x0000_0000_0000_ff00) << 40)
    | ((x & 0x0000_0000_0000_00ff) << 56)
  }

  /** htonl and ntohl on a little-endian host. */
  function Swap32(x: bv32): bv32 {
    ((x & 0xff00_0000) >> 24) | ((x & 0x00ff_0000) >> 8) | ((x & 0x0000_ff00) << 8) | ((x & 0x0000_00ff) << 24)
  }

  lemma SwapInvolution(x: bv64, y: bv32)
    ensures Swap64(Swap64(x)) == x && Swap32(Swap32(y)) == y
  {
  }

  /** The bytes memcpy takes from an integer variable. */
  function Memory64(x: bv64): (m: Bytes)
    ensures |m| == 8
  {
    [(x & 0xff) as bv8, ((x >> 8) & 0xff) as bv8, ((x >> 16) & 0xff) as bv8, ((x >> 24) & 0xff) as bv8,
     ((x >> 32) & 0xff) as bv8, ((x >> 40) & 0xff) as bv8, ((x >> 48) & 0xff) as bv8, ((x >> 56) & 0xff) as bv8]
  }

  function Memory32(x: bv32): (m: Bytes)
    ensures |m| == 4
  {
    [(x & 0xff) as bv8, ((x >> 8) & 0xff) as bv8, ((x >> 16) & 0xff) as bv8, ((x >> 24) & 0xff) as bv8]
  }

  /** The integer variable after memcpy into it. */
  function Load64(m: Bytes): bv64
    requires |m| >= 8
  {
    (m[0] as bv64) | (m[1] as bv64 << 8) | (m[2] as bv64 << 16) | (m[3] as bv64 << 24)
    | (m[4] as bv64 << 32) | (m[5] as bv64 << 40) | (m[6] as bv64 << 48) | (m[7] as bv64 << 56)
  }

  function Load32(m: Bytes): bv32
    requires |m| >= 4
  {
    (m[0] as bv32) | (m[1] as bv32 << 8) | (m[2] as bv32 << 16) | (m[3] as bv32 << 24)
  }

  lemma LoadMemory(x: bv64, y: bv32)
    ensures Load64(Memory64(x)) == x && Load32(Memory32(y)) == y
  {
  }

  function Wire64(x: bv64): (m: Bytes) ensures |m| == 8 { Memory64(Swap64(x)) }
  function Wire32(x: bv32): (m: Bytes) ensures |m| == 4 { Memory32(Swap32(x)) }

  // ---------- network byte order ----------

  /** The bytes of an integer, most significant first. */
  function BigBytes64(x: bv64): (m: Bytes)
    ensures |m| == 8
  {
    [((x >> 56) & 0xff) as bv8, ((x >> 48) & 0xff) as bv8, ((x >> 40) & 0xff) as bv8, ((x >> 32) & 0xff) as bv8,
     ((x >> 24) & 0xff) as bv8, ((x >> 16) & 0xff) as bv8, ((x >> 8) & 0xff) as bv8, (x & 0xff) as bv8]
  }

  function BigBytes32(x: bv32): (m: Bytes)
    ensures |m| == 4
  {
    [((x >> 24) & 0xff) as bv8, ((x >> 16) & 0xff) as bv8, ((x >> 8) & 0xff) as bv8, (x & 0xff) as bv8]
  }

  /** The integer whose bytes, most significant first, start a sequence. */
  function Big64(s: Bytes): bv64
    requires |s| >= 8
  {
    (s[0] as bv64 << 56) | (s[1] as bv64 << 48) | (s[2] as bv64 << 40) | (s[3] as bv64 << 32)
    | (s[4] as bv64 << 24) | (s[5] as bv64 << 16) | (s[6] as bv64 << 8) | (s[7] as bv64)
  }

  function Big32(s: Bytes): bv32
    requires |s| >= 4
  {
    (s[0] as bv32 << 24) | (s[1] as bv32 << 16) | (s[2] as bv32 << 8) | (s[3] as bv32)
  }

  /** What is copied from a swapped integer is its bytes in network order. */
  lemma WireIsBigEndian(x: bv64)
    ensures Wire64(x) == BigBytes64(x)
  {
  }

  lemma Wire32IsBigEndian(x: bv32)
    ensures Wire32(x) == BigBytes32(x)
  {
  }

  /** The integer in host order at the front of a buffer. */
  function Parse64(s: Bytes): bv64
    requires |s| >= 8
  {
    Swap64(Load64(s[..8]))
  }

  function Parse32(s: Bytes): bv32
    requires |s| >= 4
  {
    Swap32(Load32(s[..4]))
  }

  /** What is swapped after a copy is the integer in network order. */
  lemma ParseIsBigEndian64(s: Bytes)
    requires |s| >= 8
    ensures Parse64(s) == Big64(s)
  {
  }

  lemma ParseIsBigEndian32(s: Bytes)
    requires |s| >= 4
    ensures Parse32(s) == Big32(s)
  {
  }

  lemma ParseWire(x: bv64, y: bv32, rest: Bytes)
    ensures Parse64(Wire64(x) + rest) == x && Parse32(Wire32(y) + rest) == y
  {
    assert (Wire64(x) + rest)[..8] == Wire64(x);
    assert (Wire32(y) + rest)[..4] == Wire32(y);
    LoadMemory(Swap64(x), Swap32(y));
    SwapInvolution(x, y);
  }

  // ---------- reading integers ----------

  const MINUS_ONE_64: bv64 := 0xffff_ffff_ffff_ffff
  const MINUS_ONE_32: bv32 := 0xffff_ffff

  /** readInt64: -1 means both "too few bytes" and the integer -1, and in neither case is
      anything consumed. */
  function Read64(s: Bytes): (bv64, Bytes) {
    if |s| < 8 then (MINUS_ONE_64, s)
    else
      var x := Parse64(s);
      if x == MINUS_ONE_64 then (x, s) else (x, s[8..])
  }

  function Read32(s: Bytes): (bv32, Bytes) {
    if |s| < 4 then (MINUS_ONE_32, s)
    else
      var x := Parse32(s);
      if x == MINUS_ONE_32 then (x, s) else (x, s[4..])
  }

  /** Fewer bytes than an integer has, or an integer -1: the answer is -1 and all stays; otherwise the
      integer in network order, and the bytes after it. */
  lemma ReadIsBigEndian64(s: Bytes)
    ensures Read64(s) == if |s| >= 8 && Big64(s) != MINUS_ONE_64 then (Big64(s), s[8..]) else (MINUS_ONE_64, s)
  {
    if |s| >= 8 { ParseIsBigEndian64(s); }
  }

  lemma ReadIsBigEndian32(s: Bytes)
    ensures Read32(s) == if |s| >= 4 && Big32(s) != MINUS_ONE_32 then (Big32(s), s[4..]) else (MINUS_ONE_32, s)
  {
    if |s| >= 4 { ParseIsBigEndian32(s); }
  }

  function WireAll64(xs: seq<bv64>): Bytes {
    if xs == [] then [] else Wire64(xs[0]) + WireAll64(xs[1..])
  }

  function WireAll32(xs: seq<bv32>): Bytes {
    if xs == [] then [] else Wire32(xs[0]) + WireAll32(xs[1..])
  }

  lemma WireAllTail64(s: Bytes, xs: seq<bv64>)
    ensures if xs == [] then s + WireAll64(xs) == s
            else s + Wire64(xs[0]) + WireAll64(xs[1..]) == s + WireAll64(xs)
  {
  }

  lemma WireAllTail32(s: Bytes, xs: seq<bv32>)
    ensures if xs == [] then s + WireAll32(xs) == s
            else s + Wire32(xs[0]) + WireAll32(xs[1..]) == s + WireAll32(xs)
  {
  }

  /** n reads in a row: the values, and what is left in the buffer. */
  function ReadAll64(s: Bytes, n: nat): (seq<bv64>, Bytes) {
    if n == 0 then ([], s)
    else
      var (x, s1) := Read64(s);
      var (xs, s2) := ReadAll64(s1, n - 1);
      ([x] + xs, s2)
  }

  function ReadAll32(s: Bytes, n: nat): (seq<bv32>, Bytes) {
    if n == 0 then ([], s)
    else
      var (x, s1) := Read32(s);
      var (xs, s2) := ReadAll32(s1, n - 1);
      ([x] + xs, s2)
  }

  lemma {:induction false} StuckAtMinusOne64(s: Bytes, n: nat)
    requires Read64(s).1 == s
    ensures ReadAll64(s, n).1 == s
  {
    if n > 0 { StuckAtMinusOne64(s, n - 1); }
  }

  lemma {:induction false} StuckAtMinusOne32(s: Bytes, n: nat)
    requires Read32(s).1 == s
    ensures ReadAll32(s, n).1 == s
  {
    if n > 0 { StuckAtMinusOne32(s, n - 1); }
  }

  /** Any list of 64-bit integers is read back whole, leaving nothing, exactly when none of them is -1. */
  lemma {:induction false} RoundTrip64Iff(xs: seq<bv64>)
    ensures ReadAll64(WireAll64(xs), |xs|) == (xs, []) <==> MINUS_ONE_64 !in xs
  {
    if xs != [] {
      var s, rest := WireAll64(xs), WireAll64(xs[1..]);
      ParseWire(xs[0], 0, rest);
      assert xs == [xs[0]] + xs[1..];
      if xs[0] == MINUS_ONE_64 {
        StuckAtMinusOne64(s, |xs|);
      } else {
        assert s[8..] == rest;
        RoundTrip64Iff(xs[1..]);
      }
    }
  }

  lemma {:induction false} RoundTrip32Iff(xs: seq<bv32>)
    ensures ReadAll32(WireAll32(xs), |xs|) == (xs, []) <==> MINUS_ONE_32 !in xs
  {
    if xs != [] {
      var s, rest := WireAll32(xs), WireAll32(xs[1..]);
      ParseWire(0, xs[0], rest);
      assert xs == [xs[0]] + xs[1..];
      if xs[0] == MINUS_ONE_32 {
        StuckAtMinusOne32(s, |xs|);
      } else {
        assert s[4..] == rest;
        RoundTrip32Iff(xs[1..]);
      }
    }
  }
}
