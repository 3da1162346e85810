/**
 The FNV-1a chain of `tools/verify_canonical_decision_workflow.cpp`: bytes are mixed into a
 64-bit state by exclusive or and multiplication.  Every mix is a bijection on the state, so
 states that differ stay different under equal later input.
 */
module Fnv {
  import opened Words

  /** The FNV prime, and its inverse modulo two to the 64. */
  const PRIME := 1099511628211
  const INVERSE := 14886173955864302971

  // ---- Exclusive or of naturals, bit by bit ----

  function Xor(x: nat, y: nat): nat
    decreases x + y
  {
    if x == 0 && y == 0 then 0 else 2 * Xor(x / 2, y / 2) + (x % 2 + y % 2) % 2
  }

  function Pow2(n: nat): (p: nat)
    ensures p >= 1
  {
    if n == 0 then 1 else 2 * Pow2(n - 1)
  }

  lemma XorBits(x: nat, y: nat)
    ensures Xor(x, y) / 2 == Xor(x / 2, y / 2)
    ensures Xor(x, y) % 2 == (x % 2 + y % 2) % 2
  {
  }

  /** Bit `k` of the result is set exactly when one of the two bits is. */
  lemma {:induction false} XorBitwise(x: nat, y: nat, k: nat)
    ensures Xor(x, y) / Pow2(k) % 2 == 1 <==> x / Pow2(k) % 2 != y / Pow2(k) % 2
    decreases k
  {
    hide Xor;
    XorBits(x, y);
    if k > 0 {
      XorBitwise(x / 2, y / 2, k - 1);
      BitAbove(Xor(x, y), k);
      BitAbove(x, k);
      BitAbove(y, k);
    }
  }

  lemma BitAbove(x: nat, k: nat)
    requires k > 0
    ensures x / Pow2(k) == x / 2 / Pow2(k - 1)
  {
    QuotientOfQuotient(x, 2, Pow2(k - 1));
  }

  lemma {:induction false} XorUndone(x: nat, y: nat)
    ensures Xor(Xor(x, y), y) == x
    decreases x + y
  {
    if x != 0 || y != 0 {
      XorUndone(x / 2, y / 2);
      var z := Xor(x, y);
      XorBits(x, y);
      XorBits(z, y);
      BitUndone(x % 2, y % 2);
      SameHalves(Xor(z, y), x);
    }
  }

  lemma BitUndone(a: nat, b: nat)
    requires a < 2 && b < 2
    ensures ((a + b) % 2 + b) % 2 == a
  {
  }

  lemma SameHalves(x: nat, y: nat)
    requires x / 2 == y / 2 && x % 2 == y % 2
    ensures x == y
  {
  }

  lemma {:induction false} XorCancels(x: nat, y: nat, z: nat)
    requires Xor(x, y) == Xor(x, z)
    ensures y == z
    decreases x + y + z
  {
    if x != 0 || y != 0 || z != 0 {
      XorBits(x, y);
      XorBits(x, z);
      XorCancels(x / 2, y / 2, z / 2);
    }
  }

  lemma {:induction false} XorBound(x: nat, y: nat, n: nat)
    requires x < Pow2(n) && y < Pow2(n)
    ensures Xor(x, y) < Pow2(n)
    decreases n
  {
    if n > 0 { XorBound(x / 2, y / 2, n - 1); }
  }

  lemma Pow2Byte(n: nat)
    ensures Pow2(n + 8) == 256 * Pow2(n)
  {
    assert Pow2(n + 2) == 4 * Pow2(n);
    assert Pow2(n + 4) == 4 * Pow2(n + 2);
    assert Pow2(n + 6) == 4 * Pow2(n + 4);
    assert Pow2(n + 8) == 4 * Pow2(n + 6);
  }

  lemma Pow2Word()
    ensures Pow2(64) == TWO_TO_THE_64
  {
    Pow2Byte(0);
    Pow2Byte(8);
    Pow2Byte(16);
    Pow2Byte(24);
    Pow2Byte(32);
    Pow2Byte(40);
    Pow2Byte(48);
    Pow2Byte(56);
  }

  lemma XorFits(x: Uint64, y: Uint64)
    ensures Xor(x, y) < TWO_TO_THE_64
  {
    Pow2Word();
    XorBound(x, y, 64);
  }

  // ---- One byte ----

  function TimesPrime(x: Uint64): Uint64 { (x * PRIME) % TWO_TO_THE_64 }

  function TimesInverse(x: Uint64): Uint64 { (x * INVERSE) % TWO_TO_THE_64 }

  lemma InverseUndoesPrime(x: Uint64)
    ensures TimesInverse(TimesPrime(x)) == x && TimesPrime(TimesInverse(x)) == x
  {
    assert PRIME * INVERSE == 1 + 887285111055 * TWO_TO_THE_64;
    InverseModulo(x, PRIME, INVERSE, 887285111055, TWO_TO_THE_64);
    InverseModulo(x, INVERSE, PRIME, 887285111055, TWO_TO_THE_64);
  }

  function MixByte(h: Uint64, b: Byte): Uint64 {
    XorFits(h, b);
    TimesPrime(Xor(h, b))
  }

  /** FNV-1a: the byte goes in by exclusive or, and then comes the prime of 64-bit FNV. */
  lemma MixByteMeaning(h: Uint64, b: Byte)
    ensures MixByte(h, b) == Xor(h, b) * 1099511628211 % 0x1_0000_0000_0000_0000
  {
  }

  function UnmixByte(h: Uint64, b: Byte): Uint64 {
    XorFits(TimesInverse(h), b);
    Xor(TimesInverse(h), b)
  }

  lemma ByteIsBijective(h: Uint64, b: Byte)
    ensures UnmixByte(MixByte(h, b), b) == h
    ensures MixByte(UnmixByte(h, b), b) == h
  {
    XorFits(h, b);
    InverseUndoesPrime(Xor(h, b));
    XorUndone(h, b);
    XorUndone(TimesInverse(h), b);
    InverseUndoesPrime(h);
  }

  lemma DifferentBytesDiffer(h: Uint64, a: Byte, b: Byte)
    requires a != b
    ensures MixByte(h, a) != MixByte(h, b)
  {
    XorFits(h, a);
    XorFits(h, b);
    InverseUndoesPrime(Xor(h, a));
    InverseUndoesPrime(Xor(h, b));
    if MixByte(h, a) == MixByte(h, b) { XorCancels(h, a, b); }
  }

  // ---- Sequences of bytes ----

  function Mix(h: Uint64, bytes: seq<Byte>): Uint64
    decreases |bytes|
  {
    if bytes == [] then h else MixByte(Mix(h, bytes[..|bytes| - 1]), bytes[|bytes| - 1])
  }

  function Unmix(h: Uint64, bytes: seq<Byte>): Uint64
    decreases |bytes|
  {
    if bytes == [] then h else Unmix(UnmixByte(h, bytes[|bytes| - 1]), bytes[..|bytes| - 1])
  }

  /** The loop of `mix_string`. */
  method MixString(hash: Uint64, value: seq<Byte>) returns (h: Uint64)
    ensures h == Mix(hash, value)
  {
    h := hash;
    for i := 0 to |value|
      invariant h == Mix(hash, value[..i])
    {
      assert value[..i + 1][..i] == value[..i];
      XorFits(h, value[i]);
      h := Xor(h, value[i]);
      h := (h * PRIME) % TWO_TO_THE_64;
    }
    assert value[..|value|] == value;
  }

  /** The published FNV-1a vector for "a", from the published offset basis. */
  lemma PublishedVector()
    ensures Mix(14695981039346656037, [0x61]) == 0xaf63dc4c8601ec8c
  {
    hide Xor;
    assert [0x61][..0] == [];
    LowBits();
    XorOfByte(0xcbf29ce4842223, 0x25, 0x61);
  }

  lemma LowBits()
    ensures Xor(0x25, 0x61) == 0x44
  {
    hide Xor;
    XorWithZero(0);
    XorStep(0, 1, 0);
    XorStep(1, 3, 1);
    XorStep(2, 6, 2);
    XorStep(4, 12, 4);
    XorStep(9, 24, 8);
    XorStep(18, 48, 17);
    XorStep(37, 97, 34);
  }

  lemma XorStep(x: nat, y: nat, z: nat)
    requires Xor(x / 2, y / 2) == z
    ensures Xor(x, y) == 2 * z + (x % 2 + y % 2) % 2
  {
    hide Xor;
    XorBits(x, y);
  }

  lemma XorOfByte(high: nat, low: Byte, b: Byte)
    ensures Xor(256 * high + low, b) == 256 * high + Xor(low, b)
  {
    Pow2Byte(0);
    XorLeavesHigh(high, low, b, 8);
  }

  /** Bits above those of the smaller number stay as they are. */
  lemma {:induction false} XorLeavesHigh(high: nat, low: nat, y: nat, n: nat)
    requires low < Pow2(n) && y < Pow2(n)
    ensures Xor(Pow2(n) * high + low, y) == Pow2(n) * high + Xor(low, y)
    decreases n
  {
    hide Xor;
    if n == 0 {
      XorWithZero(high);
      XorWithZero(0);
    } else {
      var upper := Pow2(n - 1) * high;
      assert Pow2(n) * high == 2 * upper;
      XorLeavesHigh(high, low / 2, y / 2, n - 1);
      XorBits(2 * upper + low, y);
      XorBits(low, y);
      assert (2 * upper + low) / 2 == upper + low / 2 && (2 * upper + low) % 2 == low % 2;
      SameHalves(Xor(2 * upper + low, y), 2 * upper + Xor(low, y));
    }
  }

  lemma {:induction false} XorWithZero(x: nat)
    ensures Xor(x, 0) == x
    decreases x
  {
    if x > 0 { XorWithZero(x / 2); }
  }

  /** Mixing fixed bytes is a bijection on the state. */
  lemma {:induction false} MixIsBijective(h: Uint64, bytes: seq<Byte>)
    ensures Unmix(Mix(h, bytes), bytes) == h
    ensures Mix(Unmix(h, bytes), bytes) == h
    decreases |bytes|
  {
    if bytes != [] {
      var front, last := bytes[..|bytes| - 1], bytes[|bytes| - 1];
      ByteIsBijective(Mix(h, front), last);
      MixIsBijective(h, front);
      ByteIsBijective(h, last);
      MixIsBijective(UnmixByte(h, last), front);
    }
  }

  /** Different states stay different under equal later input. */
  lemma DifferentStatesStayDifferent(g: Uint64, h: Uint64, bytes: seq<Byte>)
    ensures Mix(g, bytes) == Mix(h, bytes) <==> g == h
  {
    MixIsBijective(g, bytes);
    MixIsBijective(h, bytes);
  }

  /** Mixing a concatenation is mixing the parts in turn. */
  lemma {:induction false} MixConcat(h: Uint64, a: seq<Byte>, b: seq<Byte>)
    ensures Mix(h, a + b) == Mix(Mix(h, a), b)
    decreases |b|
  {
    if b == [] {
      assert a + b == a;
    } else {
      assert (a + b)[..|a + b| - 1] == a + b[..|b| - 1];
      MixConcat(h, a, b[..|b| - 1]);
    }
  }

  /** Inputs of equal length that differ in exactly one byte always hash differently. */
  lemma OneByteDiffers(h: Uint64, before: seq<Byte>, x: Byte, y: Byte, after: seq<Byte>)
    requires x != y
    ensures Mix(h, before + [x] + after) != Mix(h, before + [y] + after)
  {
    SplitAtByte(h, before, x, after);
    SplitAtByte(h, before, y, after);
    DifferentBytesDiffer(Mix(h, before), x, y);
    DifferentStatesStayDifferent(MixByte(Mix(h, before), x), MixByte(Mix(h, before), y), after);
  }

  lemma SplitAtByte(h: Uint64, before: seq<Byte>, x: Byte, after: seq<Byte>)
    ensures Mix(h, before + [x] + after) == Mix(MixByte(Mix(h, before), x), after)
  {
    MixConcat(h, before + [x], after);
    assert (before + [x])[..|before|] == before;
  }

  // ---- Words ----

  function ByteAt(v: Uint64, shift: nat): Byte { (v / Pow2(shift)) % 256 }

  /** The first `n` bytes of a word, least significant first. */
  function Bytes(v: Uint64, n: nat): (bytes: seq<Byte>)
    ensures |bytes| == n
  {
    if n == 0 then [] else Bytes(v, n - 1) + [ByteAt(v, 8 * (n - 1))]
  }

  function WordBytes(v: Uint64): (bytes: seq<Byte>)
    ensures |bytes| == 8
  {
    Bytes(v, 8)
  }

  /** The loop of `mix_u64`; `mix_i64` mixes the same bits. */
  method MixU64(hash: Uint64, value: Uint64) returns (h: Uint64)
    ensures h == Mix(hash, WordBytes(value))
  {
    h := hash;
    var shift := 0;
    ghost var i := 0;
    while shift < 64
      invariant shift == 8 * i && i <= 8
      invariant h == Mix(hash, Bytes(value, i))
      decreases 64 - shift
    {
      var byte := ByteAt(value, shift);
      assert Bytes(value, i + 1)[..i] == Bytes(value, i);
      XorFits(h, byte);
      h := Xor(h, byte);
      h := (h * PRIME) % TWO_TO_THE_64;
      i := i + 1;
      shift := shift + 8;
    }
  }

  /** The eight bytes of a word, least significant first. */
  lemma WordBytesAre(v: Uint64)
    ensures WordBytes(v) == [v % 0x100, v / 0x100 % 0x100, v / 0x1_0000 % 0x100, v / 0x100_0000 % 0x100,
                             v / 0x1_0000_0000 % 0x100, v / 0x100_0000_0000 % 0x100,
                             v / 0x1_0000_0000_0000 % 0x100, v / 0x100_0000_0000_0000 % 0x100]
  {
    hide Pow2;
    PowersOf256();
    assert Bytes(v, 2) == [ByteAt(v, 0), ByteAt(v, 8)];
    assert Bytes(v, 4) == Bytes(v, 2) + [ByteAt(v, 16), ByteAt(v, 24)];
    assert Bytes(v, 6) == Bytes(v, 4) + [ByteAt(v, 32), ByteAt(v, 40)];
    assert Bytes(v, 8) == Bytes(v, 6) + [ByteAt(v, 48), ByteAt(v, 56)];
  }

  lemma PowersOf256()
    ensures Pow2(0) == 1 && Pow2(8) == 0x100 && Pow2(16) == 0x1_0000 && Pow2(24) == 0x100_0000
    ensures Pow2(32) == 0x1_0000_0000 && Pow2(40) == 0x100_0000_0000
    ensures Pow2(48) == 0x1_0000_0000_0000 && Pow2(56) == 0x100_0000_0000_0000
  {
  }

  lemma RemainderSplits(v: nat, m: nat)
    requires m >= 1
    ensures v % (256 * m) == v % m + m * (v / m % 256)
  {
    var q, r := v / m, v % m;
    var high, low := q / 256, q % 256;
    assert v == m * q + r && q == 256 * high + low;
    assert m * q == m * (256 * high) + m * low;
    assert m * (256 * high) == high * (256 * m);
    TimesMonotone(low, 255, m);
    assert 255 * m + m == 256 * m;
    QuotientIsUnique(v, 256 * m, high, r + m * low);
  }

  lemma {:induction false} BytesDetermineRemainder(v: Uint64, w: Uint64, n: nat)
    requires Bytes(v, n) == Bytes(w, n)
    ensures v % Pow2(8 * n) == w % Pow2(8 * n)
  {
    if n > 0 {
      var a, b, m := Bytes(v, n), Bytes(w, n), Pow2(8 * (n - 1));
      assert a[..n - 1] == Bytes(v, n - 1) && b[..n - 1] == Bytes(w, n - 1) && a[n - 1] == b[n - 1];
      BytesDetermineRemainder(v, w, n - 1);
      Pow2Byte(8 * (n - 1));
      RemainderSplits(v, m);
      RemainderSplits(w, m);
    }
  }

  /** A word is determined by the bytes it mixes. */
  lemma WordBytesDetermine(v: Uint64, w: Uint64)
    ensures WordBytes(v) == WordBytes(w) <==> v == w
  {
    hide Bytes, Pow2;
    if WordBytes(v) == WordBytes(w) {
      BytesDetermineRemainder(v, w, 8);
      Pow2Word();
    }
  }
}
