// Base64 against section 4 of RFC 4648, whose 24-bit quanta are the meeting point of
// the bytes and the text.

module Base64 {

  type Uint8 = x: int | 0 <= x < 256
  type Sextet = x: int | 0 <= x < 64

  const UPPER: string := "ABCDEFGHIJKLMNOPQRSTUVWXYZ"
  const LOWER: string := "abcdefghijklmnopqrstuvwxyz"
  const DIGITS: string := "0123456789"

  /** The table base64_code. */
  const CODE: string := UPPER + LOWER + DIGITS + "+/"

  // ---------- the alphabet ----------

  function Base2Char(n: int): char
    requires 0 <= n
  {
    var m := n % 64;
    if m < 26 then (m + 'A' as int) as char
    else if m < 52 then (m - 26 + 'a' as int) as char
    else if m < 62 then (m - 52 + '0' as int) as char
    else if m == 62 then '+'
    else '/'
  }

  function Char2Base(c: char): (n: int)
    ensures 0 <= n <= 64
  {
    if 'A' <= c <= 'Z' then c as int - 'A' as int
    else if 'a' <= c <= 'z' then c as int - 'a' as int + 26
    else if '0' <= c <= '9' then c as int - '0' as int + 52
    else if c == '+' then 62
    else if c == '/' then 63
    else 64
  }

  lemma UpperTable(k: int)
    requires 0 <= k < 26
    ensures UPPER[k] as int == k + 'A' as int
  {
  }

  lemma LowerTable(k: int)
    requires 0 <= k < 26
    ensures LOWER[k] as int == k + 'a' as int
  {
  }

  /** The table and the arithmetic of base2Char are the same alphabet. */
  lemma CodeTable(k: Sextet)
    ensures |CODE| == 64 && CODE[k] == Base2Char(k)
  {
    if k < 26 {
      UpperTable(k);
      assert CODE[k] == UPPER[k];
    } else if k < 52 {
      LowerTable(k - 26);
      assert CODE[k] == LOWER[k - 26];
    } else if k < 62 {
      assert CODE[k] == DIGITS[k - 52];
    }
  }

  /** The alphabet's two directions are inverse. */
  lemma AlphabetInverse(k: Sextet, c: char)
    ensures Char2Base(Base2Char(k)) == k && Base2Char(k) != '=' && Base2Char(k) != '\0'
    ensures Char2Base(c) < 64 ==> Base2Char(Char2Base(c)) == c
  {
  }

  /** Table 1 of RFC 4648 in ASCII codes: A-Z, a-z, 0-9, plus and slash. */
  lemma AlphabetIsRfc(k: Sextet)
    ensures Base2Char(k) as int ==
            if k < 26 then 65 + k else if k < 52 then 97 + (k - 26) else if k < 62 then 48 + (k - 52)
            else if k == 62 then 43 else 47
  {
  }

  predicate InAlphabet(c: char) { Char2Base(c) < 64 }

  /** What a character contributes to its quantum; padding contributes zero bits. */
  function Val(c: char): Sextet { if InAlphabet(c) then Char2Base(c) else 0 }

  // ---------- the reference ----------

  /** Three bytes concatenated to a 24-bit quantum. */
  function Word3(a: Uint8, b: Uint8, c: Uint8): (w: int)
    ensures 0 <= w < 0x100_0000
  {
    a * 65536 + b * 256 + c
  }

  /** Four 6-bit groups concatenated to a 24-bit quantum. */
  function Word4(a: Sextet, b: Sextet, c: Sextet, d: Sextet): (w: int)
    ensures 0 <= w < 0x100_0000
  {
    a * 262144 + b * 4096 + c * 64 + d
  }

  /** The bytes of a quantum, missing ones read as zero. */
  function ByteWord(b: seq<Uint8>): int
    requires 1 <= |b| <= 3
  {
    Word3(b[0], if |b| > 1 then b[1] else 0, if |b| > 2 then b[2] else 0)
  }

  function TextWord(q: string): int
    requires |q| == 4
  {
    Word4(Val(q[0]), Val(q[1]), Val(q[2]), Val(q[3]))
  }

  /** Section 4 of RFC 4648 for one quantum of 1 to 3 bytes: the same 24 bits, one more character
      of the alphabet than there are bytes, and '=' in the other places. */
  ghost predicate RfcQuantum(b: seq<Uint8>, q: string) {
    && 1 <= |b| <= 3 && |q| == 4
    && InAlphabet(q[0]) && InAlphabet(q[1])
    && (if |b| >= 2 then InAlphabet(q[2]) else q[2] == '=')
    && (if |b| == 3 then InAlphabet(q[3]) else q[3] == '=')
    && TextWord(q) == ByteWord(b)
  }

  /** `t` is the encoding of `s` by RFC 4648, section 4. */
  ghost predicate Rfc4648(s: seq<Uint8>, t: string) {
    if |s| == 0 then t == ""
    else if |s| <= 3 then RfcQuantum(s, t)
    else |t| >= 4 && RfcQuantum(s[..3], t[..4]) && Rfc4648(s[3..], t[4..])
  }

  // ---------- the encoder ----------

  /** The r-th 6-bit group of a quantum, by the masks and shifts of the code. */
  function Digit(w: int, r: nat): Sextet {
    if r == 0 then w / 262144 % 64 else if r == 1 then w / 4096 % 64 else if r == 2 then w / 64 % 64 else w % 64
  }

  function QuadChar(w: int, bytes: nat, r: nat): char {
    if r > bytes then '=' else Base2Char(Digit(w, r))
  }

  /** The four characters written for one quantum of 1 to 3 bytes. */
  function Quad(b: seq<Uint8>): string
    requires 1 <= |b| <= 3
  {
    seq(4, (r: nat) => QuadChar(ByteWord(b), |b|, r))
  }

  function Encoded(s: seq<Uint8>): string {
    if |s| == 0 then ""
    else if |s| <= 3 then Quad(s)
    else Quad(s[..3]) + Encoded(s[3..])
  }

  lemma WordFromDigits(w: int)
    requires 0 <= w < 0x100_0000
    ensures Word4(Digit(w, 0), Digit(w, 1), Digit(w, 2), Digit(w, 3)) == w
  {
    assert w / 64 == 64 * (w / 4096) + w / 64 % 64;
    assert w / 4096 == 64 * (w / 262144) + w / 4096 % 64;
  }

  lemma PaddedDigits(a: Uint8, b: Uint8)
    ensures Digit(Word3(a, b, 0), 3) == 0 && Digit(Word3(a, 0, 0), 2) == 0 && Digit(Word3(a, 0, 0), 3) == 0
  {
    assert Word3(a, b, 0) == 64 * (a * 1024 + b * 4);
    assert Word3(a, 0, 0) / 64 == 64 * (a * 16);
  }

  lemma DigitChar(w: int, r: nat)
    ensures InAlphabet(Base2Char(Digit(w, r))) && Val(Base2Char(Digit(w, r))) == Digit(w, r)
  {
    AlphabetInverse(Digit(w, r), 'A');
  }

  lemma QuadMeetsRfc(b: seq<Uint8>)
    requires 1 <= |b| <= 3
    ensures RfcQuantum(b, Quad(b))
  {
    var w := ByteWord(b);
    DigitChar(w, 0);
    DigitChar(w, 1);
    DigitChar(w, 2);
    DigitChar(w, 3);
    WordFromDigits(w);
    if |b| < 3 { PaddedDigits(b[0], if |b| > 1 then b[1] else 0); }
    assert Val('=') == 0;
  }

  /** The encoder produces the RFC's encoding... */
  lemma {:induction false} EncodedMeetsRfc(s: seq<Uint8>)
    ensures Rfc4648(s, Encoded(s))
  {
    if 1 <= |s| <= 3 {
      QuadMeetsRfc(s);
    } else if |s| > 3 {
      QuadMeetsRfc(s[..3]);
      EncodedMeetsRfc(s[3..]);
      assert Encoded(s)[..4] == Quad(s[..3]) && Encoded(s)[4..] == Encoded(s[3..]);
    }
  }

  lemma SameQuantum(a: Sextet, b: Sextet, c: Sextet, d: Sextet, a': Sextet, b': Sextet, c': Sextet, d': Sextet)
    requires Word4(a, b, c, d) == Word4(a', b', c', d')
    ensures a == a' && b == b' && c == c' && d == d'
  {
  }

  lemma SameChar(x: char, y: char)
    requires Val(x) == Val(y) && InAlphabet(x) && InAlphabet(y)
    ensures x == y
  {
    AlphabetInverse(0, x);
    AlphabetInverse(0, y);
  }

  lemma RfcQuantumUnique(b: seq<Uint8>, p: string, q: string)
    requires RfcQuantum(b, p) && RfcQuantum(b, q)
    ensures p == q
  {
    SameQuantum(Val(p[0]), Val(p[1]), Val(p[2]), Val(p[3]), Val(q[0]), Val(q[1]), Val(q[2]), Val(q[3]));
    SameChar(p[0], q[0]);
    SameChar(p[1], q[1]);
    if |b| >= 2 { SameChar(p[2], q[2]); }
    if |b| == 3 { SameChar(p[3], q[3]); }
  }

  /** ...and the RFC allows no other text. */
  lemma {:induction false} RfcIsUnique(s: seq<Uint8>, t: string, u: string)
    requires Rfc4648(s, t) && Rfc4648(s, u)
    ensures t == u
  {
    if 1 <= |s| <= 3 {
      RfcQuantumUnique(s, t, u);
    } else if |s| > 3 {
      RfcQuantumUnique(s[..3], t[..4], u[..4]);
      RfcIsUnique(s[3..], t[4..], u[4..]);
      assert t == t[..4] + t[4..] && u == u[..4] + u[4..];
    }
  }

  // ---------- the decoder ----------

  /** Decoding stops at the first '=' or NUL. */
  function Data(t: string): (d: string)
    ensures |d| <= |t| && d == t[..|d|]
    ensures forall i :: 0 <= i < |d| ==> t[i] != '=' && t[i] != '\0'
    ensures |d| < |t| ==> t[|d|] == '=' || t[|d|] == '\0'
  {
    if t == [] || t[0] == '=' || t[0] == '\0' then [] else [t[0]] + Data(t[1..])
  }

  /** Every character before the stop is in the alphabet. */
  predicate Decodable(t: string) {
    forall i :: 0 <= i < |Data(t)| ==> InAlphabet(t[i])
  }

  function Vals(t: string): (v: seq<Sextet>)
    ensures |v| == |t| && forall i :: 0 <= i < |t| ==> v[i] == Val(t[i])
  {
    seq(|t|, i requires 0 <= i < |t| => Val(t[i]))
  }

  /** The byte completed by the character at place r of its quantum, by the shifts of the code. */
  function Octet(left: Sextet, right: Sextet, r: nat): Uint8 {
    var l: int, m: int := left, right;
    if r == 1 then l * 4 + m / 16 else if r == 2 then l % 16 * 16 + m / 4 else l % 4 * 64 + m
  }

  /** The whole bytes in a string of values. */
  function Octets(v: seq<Sextet>): seq<Uint8> {
    if |v| <= 1 then []
    else if |v| == 2 then [Octet(v[0], v[1], 1)]
    else if |v| == 3 then [Octet(v[0], v[1], 1), Octet(v[1], v[2], 2)]
    else [Octet(v[0], v[1], 1), Octet(v[1], v[2], 2), Octet(v[2], v[3], 3)] + Octets(v[4..])
  }

  function Decoded(t: string): seq<Uint8> { Octets(Vals(Data(t))) }

  /** m characters before the stop decode to floor(3m/4) bytes. */
  lemma {:induction false} OctetsLength(v: seq<Sextet>)
    ensures |Octets(v)| == 3 * |v| / 4
  {
    if |v| > 3 { OctetsLength(v[4..]); }
  }

  lemma OctetsOfQuantum(a: Sextet, b: Sextet, c: Sextet, d: Sextet)
    ensures Octets([a, b]) == [Octet(a, b, 1)]
    ensures Octets([a, b, c]) == [Octet(a, b, 1), Octet(b, c, 2)]
    ensures Octets([a, b, c, d]) == [Octet(a, b, 1), Octet(b, c, 2), Octet(c, d, 3)]
  {
    assert Octets([a, b, c, d][4..]) == [];
  }

  lemma OctetsAppend(q: seq<Sextet>, v: seq<Sextet>)
    requires |q| == 4
    ensures Octets(q + v) == Octets(q) + Octets(v)
  {
    assert (q + v)[4..] == v && Octets(q[4..]) == [];
  }

  /** A string of values with zeros up to a whole number of quanta. */
  function Padded(v: seq<Sextet>): seq<Sextet> {
    if |v| == 0 then []
    else if |v| <= 4 then [v[0], if |v| > 1 then v[1] else 0, if |v| > 2 then v[2] else 0, if |v| > 3 then v[3] else 0]
    else v[..4] + Padded(v[4..])
  }

  /** A string that breaks off inside a quantum decodes to the beginning of what it decodes to with
      zeros in the missing places; OctetsLength says how much of it. */
  lemma {:induction false} BrokenOff(v: seq<Sextet>)
    ensures Octets(v) <= Octets(Padded(v)) && v <= Padded(v)
  {
    if 1 <= |v| <= 4 {
      var p := Padded(v);
      OctetsOfQuantum(p[0], p[1], p[2], p[3]);
      assert v == p[..|v|];
      if |v| == 1 {
        assert Octets(v) == [];
      } else if |v| == 2 {
        assert v == [p[0], p[1]];
      } else if |v| == 3 {
        assert v == [p[0], p[1], p[2]];
      } else {
        assert v == p;
      }
    } else if |v| > 4 {
      BrokenOff(v[4..]);
      OctetsAppend(v[..4], v[4..]);
      OctetsAppend(v[..4], Padded(v[4..]));
      assert v == v[..4] + v[4..];
    }
  }

  // ---------- round trips ----------

  lemma SameBytes(x: Uint8, y: Uint8, z: Uint8, x': Uint8, y': Uint8, z': Uint8)
    requires Word3(x, y, z) == Word3(x', y', z')
    ensures x == x' && y == y' && z == z'
  {
  }

  /** Three bytes and four sextets with the same 24 bits determine each other by the code's shifts. */
  lemma SplitQuantum(a: Sextet, b: Sextet, c: Sextet, d: Sextet, x: Uint8, y: Uint8, z: Uint8)
    ensures Word4(a, b, c, d) == Word3(x, y, z) <==>
            x == Octet(a, b, 1) && y == Octet(b, c, 2) && z == Octet(c, d, 3)
  {
    var x', y', z' := Octet(a, b, 1), Octet(b, c, 2), Octet(c, d, 3);
    assert Word3(x', y', z') == Word4(a, b, c, d) by {
      assert b == 16 * (b / 16) + b % 16 && c == 4 * (c / 4) + c % 4;
    }
    if Word3(x, y, z) == Word3(x', y', z') { SameBytes(x, y, z, x', y', z'); }
  }

  predicate FirstStop(t: string, n: nat) {
    && n <= |t|
    && (forall i :: 0 <= i < n ==> t[i] != '=' && t[i] != '\0')
    && (n < |t| ==> t[n] == '=' || t[n] == '\0')
  }

  lemma FirstStopUnique(t: string, m: nat, n: nat)
    requires FirstStop(t, m) && FirstStop(t, n)
    ensures m == n
  {
  }

  lemma DataAppend(q: string, t: string)
    requires forall i :: 0 <= i < |q| ==> InAlphabet(q[i])
    ensures Data(q + t) == q + Data(t)
  {
    var m := |q| + |Data(t)|;
    forall i | 0 <= i < m ensures (q + t)[i] != '=' && (q + t)[i] != '\0' {
      assert (q + t)[i] == if i < |q| then q[i] else t[i - |q|];
    }
    FirstStopUnique(q + t, m, |Data(q + t)|);
    assert (q + t)[..m] == q + t[..|Data(t)|];
  }

  /** The characters of a quantum that carry data. */
  lemma RfcQuantumData(b: seq<Uint8>, q: string)
    requires RfcQuantum(b, q)
    ensures Data(q) == q[..|b| + 1]
  {
    var d, n := Data(q), |b| + 1;
    assert forall i :: 0 <= i < n ==> InAlphabet(q[i]);
    DataAppend(q[..n], q[n..]);
    assert q == q[..n] + q[n..];
    assert Data(q[n..]) == [];
  }

  lemma RfcQuantumDecodes(b: seq<Uint8>, q: string)
    requires RfcQuantum(b, q)
    ensures Decoded(q) == b && Decodable(q)
  {
    RfcQuantumData(b, q);
    SplitQuantum(Val(q[0]), Val(q[1]), Val(q[2]), Val(q[3]),
                 b[0], if |b| > 1 then b[1] else 0, if |b| > 2 then b[2] else 0);
    OctetsOfQuantum(Val(q[0]), Val(q[1]), Val(q[2]), Val(q[3]));
    var v := Vals(Data(q));
    if |b| == 1 {
      assert v == [Val(q[0]), Val(q[1])];
    } else if |b| == 2 {
      assert v == [Val(q[0]), Val(q[1]), Val(q[2])];
    } else {
      assert v == [Val(q[0]), Val(q[1]), Val(q[2]), Val(q[3])];
    }
  }

  lemma DecodedQuad(q: string)
    requires |q| == 4 && forall i :: 0 <= i < 4 ==> InAlphabet(q[i])
    ensures Data(q) == q
    ensures Decoded(q) == [Octet(Val(q[0]), Val(q[1]), 1), Octet(Val(q[1]), Val(q[2]), 2), Octet(Val(q[2]), Val(q[3]), 3)]
  {
    DataAppend(q, []);
    assert q + [] == q;
    OctetsOfQuantum(Val(q[0]), Val(q[1]), Val(q[2]), Val(q[3]));
    assert Vals(q) == [Val(q[0]), Val(q[1]), Val(q[2]), Val(q[3])];
  }

  lemma ValsAppend(s: string, t: string)
    ensures Vals(s + t) == Vals(s) + Vals(t)
  {
  }

  lemma DecodedFull(q: string, t: string)
    requires |q| == 4 && forall i :: 0 <= i < 4 ==> InAlphabet(q[i])
    ensures Decoded(q + t) == Decoded(q) + Decoded(t)
  {
    DataAppend(q, t);
    assert Data(q) == q by { DecodedQuad(q); }
    OctetsAppend(Vals(q), Vals(Data(t)));
    ValsAppend(q, Data(t));
  }

  lemma DecodableFull(q: string, t: string)
    requires |q| == 4 && forall i :: 0 <= i < 4 ==> InAlphabet(q[i])
    ensures Decodable(q + t) <==> Decodable(t)
  {
    DataAppend(q, t);
    assert forall i :: 0 <= i < |Data(t)| ==> (q + t)[i + 4] == t[i];
    assert forall i :: 4 <= i < |Data(q + t)| ==> (q + t)[i] == t[i - 4];
  }

  lemma {:induction false} RfcDecodes(s: seq<Uint8>, t: string)
    requires Rfc4648(s, t)
    ensures Decodable(t) && Decoded(t) == s
  {
    if 1 <= |s| <= 3 {
      RfcQuantumDecodes(s, t);
    } else if |s| > 3 {
      RfcQuantumDecodes(s[..3], t[..4]);
      RfcDecodes(s[3..], t[4..]);
      DecodedFull(t[..4], t[4..]);
      DecodableFull(t[..4], t[4..]);
      assert t == t[..4] + t[4..] && s == s[..3] + s[3..];
    }
  }

  /** decode(encode(s)) == s for every byte string. */
  lemma DecodeEncode(s: seq<Uint8>)
    ensures Decodable(Encoded(s)) && Decoded(Encoded(s)) == s
  {
    EncodedMeetsRfc(s);
    RfcDecodes(s, Encoded(s));
  }

  /** A padded last quantum whose unused bits are zero. */
  predicate CanonicalTail(q: string)
    requires |q| == 4
  {
    && InAlphabet(q[0]) && InAlphabet(q[1]) && q[3] == '='
    && if q[2] == '=' then Val(q[1]) % 16 == 0 else InAlphabet(q[2]) && Val(q[2]) % 4 == 0
  }

  predicate FullQuantum(q: string)
    requires |q| == 4
  {
    InAlphabet(q[0]) && InAlphabet(q[1]) && InAlphabet(q[2]) && InAlphabet(q[3])
  }

  /** A canonical text in the sense of RFC 4648, section 3.5: whole quanta, '=' only as the
      padding of the last one, and zero in the bits the padding leaves unused. */
  predicate Canonical(t: string) {
    if |t| < 4 then t == ""
    else if |t| == 4 then FullQuantum(t) || CanonicalTail(t)
    else FullQuantum(t[..4]) && Canonical(t[4..])
  }

  lemma RfcQuantumCanonical(b: seq<Uint8>, q: string)
    requires RfcQuantum(b, q)
    ensures if |b| == 3 then FullQuantum(q) else CanonicalTail(q)
  {
    SplitQuantum(Val(q[0]), Val(q[1]), Val(q[2]), Val(q[3]),
                 b[0], if |b| > 1 then b[1] else 0, if |b| > 2 then b[2] else 0);
  }

  lemma {:induction false} RfcIsCanonical(s: seq<Uint8>, t: string)
    requires Rfc4648(s, t)
    ensures Canonical(t)
  {
    if 1 <= |s| <= 3 {
      RfcQuantumCanonical(s, t);
    } else if |s| > 3 {
      RfcQuantumCanonical(s[..3], t[..4]);
      RfcIsCanonical(s[3..], t[4..]);
    }
  }

  lemma FullQuantumRfc(q: string)
    requires |q| == 4 && FullQuantum(q)
    ensures RfcQuantum(Decoded(q), q) && |Decoded(q)| == 3
  {
    DecodedQuad(q);
    var d := Decoded(q);
    SplitQuantum(Val(q[0]), Val(q[1]), Val(q[2]), Val(q[3]), d[0], d[1], d[2]);
  }

  lemma TailRfc(q: string)
    requires |q| == 4 && CanonicalTail(q)
    ensures RfcQuantum(Decoded(q), q)
  {
    var n := if q[2] == '=' then 2 else 3;
    DataAppend(q[..n], q[n..]);
    assert q == q[..n] + q[n..] && Data(q[n..]) == [];
    OctetsOfQuantum(Val(q[0]), Val(q[1]), Val(q[2]), 0);
    var v, d := Vals(Data(q)), Decoded(q);
    assert v == if n == 2 then [Val(q[0]), Val(q[1])] else [Val(q[0]), Val(q[1]), Val(q[2])];
    SplitQuantum(Val(q[0]), Val(q[1]), Val(q[2]), Val(q[3]), d[0], if n == 3 then d[1] else 0, 0);
  }

  /** Every canonical text is the encoding of what it decodes to. */
  lemma {:induction false} CanonicalMeetsRfc(t: string)
    requires Canonical(t)
    ensures Rfc4648(Decoded(t), t)
  {
    if |t| == 4 {
      if FullQuantum(t) { FullQuantumRfc(t); } else { TailRfc(t); }
    } else if |t| > 4 {
      var q, u := t[..4], t[4..];
      FullQuantumRfc(q);
      CanonicalMeetsRfc(u);
      DecodedFull(q, u);
      assert t == q + u;
      assert Decoded(t)[..3] == Decoded(q) && Decoded(t)[3..] == Decoded(u);
    }
  }

  /** encode(decode(t)) == t exactly for the canonical texts, so encoding and decoding are
      inverse bijections between byte strings and canonical texts. */
  lemma EncodeDecodeIff(t: string)
    ensures Encoded(Decoded(t)) == t <==> Canonical(t)
  {
    EncodedMeetsRfc(Decoded(t));
    RfcIsCanonical(Decoded(t), Encoded(Decoded(t)));
    if Canonical(t) {
      CanonicalMeetsRfc(t);
      RfcIsUnique(Decoded(t), t, Encoded(Decoded(t)));
    }
  }

  // ---------- termination of the decoder ----------

  predicate Stops(t: string, i: nat) { i >= |t| || t[i] == '=' || t[i] == '\0' }

  /** One iteration of the decoder's loops at position i: a character of the alphabet is consumed,
      any other is read again by the inner do-while, whose condition nothing changes. */
  function NextIndex(t: string, i: nat): nat {
    if Stops(t, i) then i else if Char2Base(t[i]) < 64 then i + 1 else i
  }

  function IndexAfter(t: string, n: nat): nat {
    if n == 0 then 0 else NextIndex(t, IndexAfter(t, n - 1))
  }

  lemma {:induction false} IndexBounded(t: string, n: nat, bad: nat)
    requires bad < |Data(t)| && Char2Base(t[bad]) == 64
    ensures IndexAfter(t, n) <= bad
  {
    if n > 0 { IndexBounded(t, n - 1, bad); }
  }

  lemma {:induction false} IndexAdvances(t: string, n: nat)
    requires Decodable(t) && n <= |Data(t)|
    ensures IndexAfter(t, n) == n
  {
    if n > 0 { IndexAdvances(t, n - 1); }
  }

  /** The decoder terminates exactly when every character before the first '=' or NUL is in the
      alphabet. */
  lemma DecodeTerminatesIff(t: string)
    ensures (exists n :: Stops(t, IndexAfter(t, n))) <==> Decodable(t)
  {
    if Decodable(t) {
      IndexAdvances(t, |Data(t)|);
      assert Stops(t, IndexAfter(t, |Data(t)|));
    } else {
      var bad :| 0 <= bad < |Data(t)| && Char2Base(t[bad]) >= 64;
      forall n ensures !Stops(t, IndexAfter(t, n)) {
        IndexBounded(t, n, bad);
      }
    }
  }

  /** The text "A-" is read forever. */
  lemma {:induction false} DecoderLoops(n: nat)
    ensures !Stops("A-", IndexAfter("A-", n)) && IndexAfter("A-", n) <= 1
  {
    if n > 0 { DecoderLoops(n - 1); }
  }

  // ---------- the methods ----------

  function EncodeLen(n: nat): nat { (n + 2) / 3 * 4 + 1 }

  function DecodeLen(n: nat): nat { n / 4 * 3 + 2 }

  /** An encoding and its zero byte fill the buffer exactly. */
  lemma {:induction false} EncodeLenExact(s: seq<Uint8>)
    ensures |Encoded(s)| + 1 == EncodeLen(|s|)
  {
    if |s| > 3 { EncodeLenExact(s[3..]); }
  }

  /** The bytes in n characters fit the buffer, with at most two to spare. */
  lemma DecodeLenBounds(n: nat)
    ensures 3 * n / 4 <= DecodeLen(n) <= 3 * n / 4 + 2
  {
  }

  function Min(a: nat, b: nat): nat { if a < b then a else b }

  method Lookup(k: Sextet) returns (c: char)
    ensures c == Base2Char(k)
  {
    CodeTable(k);
    c := CODE[k];
  }

  lemma EncodedNext(s: seq<Uint8>)
    requires |s| > 0
    ensures Encoded(s) == Quad(s[..Min(3, |s|)]) + Encoded(s[Min(3, |s|)..])
  {
    if |s| <= 3 {
      assert s[..|s|] == s && s[|s|..] == [];
    }
  }

  /** One turn of the encoder's loop, for the quantum that starts at byte i. */
  method EncodeQuantum(src: seq<Uint8>, i: nat) returns (p: string)
    requires i < |src|
    ensures |p| == 4 && Encoded(src[i..]) == p + Encoded(src[Min(i + 3, |src|)..])
  {
    var c: int := src[i];
    c := c * 256;
    if i + 1 < |src| { c := c + src[i + 1]; }
    c := c * 256;
    if i + 2 < |src| { c := c + src[i + 2]; }
    ghost var b := src[i..Min(i + 3, |src|)];
    assert c == ByteWord(b);
    var p0 := Lookup(c / 262144 % 64);
    var p1 := Lookup(c / 4096 % 64);
    var p2 := Lookup(c / 64 % 64);
    var p3 := Lookup(c % 64);
    if i + 3 > |src| { p3 := '='; }
    if i + 3 > |src| + 1 { p2 := '='; }
    p := [p0, p1, p2, p3];
    assert p == Quad(b);
    ghost var rest := src[i..];
    EncodedNext(rest);
    assert rest[..Min(3, |rest|)] == b && rest[Min(3, |rest|)..] == src[Min(i + 3, |src|)..];
  }

  method Store(buf: array<char>, p: nat, q: string)
    requires |q| == 4 && p + 4 <= buf.Length
    modifies buf
    ensures buf[..p + 4] == old(buf[..p]) + q
  {
    buf[p], buf[p + 1], buf[p + 2], buf[p + 3] := q[0], q[1], q[2], q[3];
    assert buf[..p] == old(buf[..p]);
  }

  method EncodeTurn(src: seq<Uint8>, i: nat, buf: array<char>, p: nat)
    requires i < |src| && p + 4 <= buf.Length
    modifies buf
    ensures buf[..p + 4] + Encoded(src[Min(i + 3, |src|)..]) == old(buf[..p]) + Encoded(src[i..])
  {
    var q := EncodeQuantum(src, i);
    Store(buf, p, q);
    ghost var before, rest := old(buf[..p]), Encoded(src[Min(i + 3, |src|)..]);
    assert before + q + rest == before + (q + rest);
  }

  lemma EncodedEnd(src: seq<Uint8>, i: nat, t: string)
    requires i >= |src| && t + Encoded(src[Min(i, |src|)..]) == Encoded(src)
    ensures t == Encoded(src)
  {
    assert src[|src|..] == [] && t + [] == t;
  }

  /** The encoder's loop, in a buffer with room for n quanta and one more byte. */
  method EncodeLoop(src: seq<Uint8>, buf: array<char>, ghost n: nat) returns (p: nat)
    requires |src| <= 3 * n && buf.Length == 4 * n + 1
    modifies buf
    ensures p < buf.Length && buf[..p] == Encoded(src)
  {
    p := 0;
    var i := 0;
    ghost var g := 0;
    while i < |src|
      invariant i == 3 * g && p == 4 * g && 0 <= g <= n
      invariant buf[..p] + Encoded(src[Min(i, |src|)..]) == Encoded(src)
    {
      EncodeTurn(src, i, buf, p);
      i, p, g := i + 3, p + 4, g + 1;
    }
    EncodedEnd(src, i, buf[..p]);
  }

  /** The loop and its trailing zero. */
  method EncodeInto(src: seq<Uint8>, buf: array<char>, ghost n: nat) returns (p: nat)
    requires |src| <= 3 * n && buf.Length == 4 * n + 1
    modifies buf
    ensures p <= buf.Length && buf[..p] == Encoded(src)
  {
    p := EncodeLoop(src, buf, n);
    ghost var before := buf[..p];
    buf[p] := '\0';
    assert buf[..p] == before;
  }

  /** base64Encode: every write, the trailing zero included, is within the buffer of EncodeLen bytes. */
  method Encode(src: seq<Uint8>) returns (ok: bool, dst: string)
    ensures ok <==> src != []
    ensures ok ==> dst == Encoded(src)
  {
    dst := [];
    if |src| == 0 {
      return false, dst;
    }
    var buf := new char[EncodeLen(|src|)];
    var p := EncodeInto(src, buf, (|src| + 2) / 3);
    dst := buf[..p];
    ok := true;
  }

  /** What the decoder carries over to the next character: the low bits of the last one, shifted up. */
  function Carry(last: Sextet, r: nat): int {
    var l: int := last;
    if r == 1 then l * 4 else if r == 2 then l % 16 * 16 else l % 4 * 64
  }

  /** The byte that one more character completes, if any. */
  function Completed(v: seq<Sextet>, c: Sextet): seq<Uint8> {
    if |v| % 4 == 0 then [] else [Octet(v[|v| - 1], c, |v| % 4)]
  }

  lemma CompletedShort(v: seq<Sextet>, c: Sextet)
    ensures |v| == 1 ==> Completed(v, c) == [Octet(v[0], c, 1)]
    ensures |v| == 2 ==> Completed(v, c) == [Octet(v[1], c, 2)]
    ensures |v| == 3 ==> Completed(v, c) == [Octet(v[2], c, 3)]
  {
  }

  lemma CompletedLong(v: seq<Sextet>, c: Sextet)
    requires |v| >= 4
    ensures Completed(v[4..], c) == Completed(v, c)
  {
    assert |v[4..]| % 4 == |v| % 4;
  }

  lemma OctetsNext1(v: seq<Sextet>, c: Sextet)
    requires |v| == 1
    ensures Octets(v + [c]) == Octets(v) + [Octet(v[0], c, 1)]
  {
    OctetsOfQuantum(v[0], c, 0, 0);
    assert v + [c] == [v[0], c];
  }

  lemma OctetsNext2(v: seq<Sextet>, c: Sextet)
    requires |v| == 2
    ensures Octets(v + [c]) == Octets(v) + [Octet(v[1], c, 2)]
  {
    OctetsOfQuantum(v[0], v[1], c, 0);
    assert v + [c] == [v[0], v[1], c] && v == [v[0], v[1]];
  }

  lemma OctetsNext3(v: seq<Sextet>, c: Sextet)
    requires |v| == 3
    ensures Octets(v + [c]) == Octets(v) + [Octet(v[2], c, 3)]
  {
    OctetsOfQuantum(v[0], v[1], v[2], c);
    assert v + [c] == [v[0], v[1], v[2], c] && v == [v[0], v[1], v[2]];
  }

  lemma {:induction false} OctetsNext(v: seq<Sextet>, c: Sextet)
    ensures Octets(v + [c]) == Octets(v) + Completed(v, c)
  {
    if |v| == 0 {
    } else if |v| <= 3 {
      CompletedShort(v, c);
      if |v| == 1 { OctetsNext1(v, c); } else if |v| == 2 { OctetsNext2(v, c); } else { OctetsNext3(v, c); }
    } else {
      var q, u := v[..4], v[4..];
      OctetsNext(u, c);
      OctetsAppend(q, u);
      OctetsAppend(q, u + [c]);
      CompletedLong(v, c);
      assert q + u == v && q + (u + [c]) == v + [c];
    }
  }

  lemma NextPlace(i: nat)
    ensures (i + 1) % 4 == if i % 4 == 3 then 0 else i % 4 + 1
  {
  }

  lemma HighBitsFall(h: nat, l: nat)
    requires l < 256
    ensures (256 * h + l) % 256 == l
  {
  }

  lemma ShiftTruncates(c: Sextet)
    ensures c as int * 16 % 256 == c % 16 * 16 && c as int * 64 % 256 == c % 4 * 64
  {
    var d: int := c;
    assert d * 16 == 256 * (d / 16) + d % 16 * 16 && d * 64 == 256 * (d / 4) + d % 4 * 64;
    HighBitsFall(d / 16, d % 16 * 16);
    HighBitsFall(d / 4, d % 4 * 64);
  }

  /** One turn of the decoder's loop at place r of a quantum: the byte it writes, if any, and what
      it carries on.  The low bits of t that the next character fills are clear, so | is +. */
  method DecodeChar(c: Sextet, r: nat, t: int, ghost last: Sextet) returns (out: seq<Uint8>, t': int)
    requires r < 4 && (r != 0 ==> t == Carry(last, r))
    ensures out == if r == 0 then [] else [Octet(last, c, r)]
    ensures r < 3 ==> t' == Carry(c, r + 1)
  {
    ShiftTruncates(c);
    var d: int := c;
    if r == 0 {
      out, t' := [], d * 4;
    } else if r == 1 {
      out, t' := [t + d / 16], d * 16 % 256;
    } else if r == 2 {
      out, t' := [t + d / 4], d * 64 % 256;
    } else {
      out, t' := [t + d], t;
    }
  }

  lemma DecodeRoom(v: seq<Sextet>, c: Sextet, n: nat)
    requires |v| < n
    ensures |Octets(v)| + |Completed(v, c)| <= DecodeLen(n)
  {
    OctetsLength(v);
  }

  ghost predicate Carried(done: seq<Sextet>, t: int) {
    |done| % 4 != 0 ==> t == Carry(done[|done| - 1], |done| % 4)
  }

  method NextByte(c: Sextet, i: nat, t: int, ghost done: seq<Sextet>) returns (out: seq<Uint8>, t': int)
    requires |done| == i && Carried(done, t)
    ensures out == Completed(done, c) && Carried(done + [c], t')
  {
    NextPlace(i);
    out, t' := DecodeChar(c, i % 4, t, if i % 4 == 0 then 0 else done[i - 1]);
  }

  method Emit(buf: array<Uint8>, p: nat, out: seq<Uint8>) returns (p': nat)
    requires |out| <= 1 && p + |out| <= buf.Length
    modifies buf
    ensures p' == p + |out| && buf[..p'] == old(buf[..p]) + out
  {
    p' := p;
    if |out| == 1 {
      buf[p] := out[0];
      p' := p + 1;
    }
  }

  method DecodeTurn(c: Sextet, i: nat, t: int, buf: array<Uint8>, p: nat, ghost done: seq<Sextet>, ghost n: nat)
    returns (p': nat, t': int)
    requires |done| == i < n && Carried(done, t) && buf.Length == DecodeLen(n)
    requires p <= buf.Length && buf[..p] == Octets(done)
    modifies buf
    ensures Carried(done + [c], t')
    ensures p' <= buf.Length && buf[..p'] == Octets(done + [c])
  {
    var out;
    out, t' := NextByte(c, i, t, done);
    OctetsNext(done, c);
    DecodeRoom(done, c, n);
    p' := Emit(buf, p, out);
  }

  /** base64Decode on a text it terminates on: all writes are within the buffer of DecodeLen bytes. */
  method Decode(src: string) returns (ok: bool, dst: seq<Uint8>)
    requires Decodable(src)
    ensures ok <==> src != []
    ensures ok ==> dst == Decoded(src)
  {
    dst := [];
    if |src| == 0 {
      return false, dst;
    }
    ghost var v := Vals(Data(src));
    var buf := new Uint8[DecodeLen(|src|)];
    var p, t, i := 0, 0, 0;
    while i < |src|
      invariant 0 <= i <= |v| && Carried(v[..i], t)
      invariant 0 <= p <= buf.Length && buf[..p] == Octets(v[..i])
    {
      if src[i] == '=' { break; }
      var c := if src[i] != '\0' then Char2Base(src[i]) else 65;
      if c == 65 { break; }
      p, t := DecodeTurn(c, i, t, buf, p, v[..i], |src|);
      assert v[..i + 1] == v[..i] + [c];
      i := i + 1;
    }
    assert v[..i] == v;
    dst := buf[..p];
    ok := true;
  }
}
