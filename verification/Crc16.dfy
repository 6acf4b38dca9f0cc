/**
 CRC16-XModem (polynomial 0x1021, initial value 0) as StrKey uses it.

 The specification divides the message, one bit at a time, by the generator
 polynomial x^16 + x^12 + x^5 + 1; its register is sixteen bits, most significant
 first. The loop in SoroLens folds eight bits at a time into a 16-bit word; it
 is proved to compute the same remainder.
 */
module Crc16 {
  import opened Base32

  type Register = r: seq<bool> | |r| == 16 witness Zeros(16)

  function Zeros(n: nat): (r: seq<bool>)
    ensures |r| == n
    ensures forall i :: 0 <= i < n ==> !r[i]
  {
    seq(n, i => false)
  }

  function Xor(a: seq<bool>, b: seq<bool>): (r: seq<bool>)
    requires |a| == |b|
    ensures |r| == |a|
    ensures forall i :: 0 <= i < |a| ==> r[i] == (a[i] != b[i])
  {
    seq(|a|, i requires 0 <= i < |a| => a[i] != b[i])
  }

  /** The generator's coefficients below x^16, at their place in the register. */
  predicate Tap(i: nat) {
    i == 3 || i == 10 || i == 15
  }

  /** Multiply the register by x modulo the generator polynomial. */
  function Shift(r: Register): (s: Register)
    ensures forall i :: 0 <= i < 16 ==> s[i] == ((i < 15 && r[i + 1]) != (r[0] && Tap(i)))
  {
    seq(16, i requires 0 <= i < 16 => (i < 15 && r[i + 1]) != (r[0] && Tap(i)))
  }

  function ShiftN(r: Register, n: nat): Register {
    if n == 0 then r else Shift(ShiftN(r, n - 1))
  }

  /** The register after the message bits have been fed in, most significant first. */
  function Feed(r: Register, bits: seq<bool>): Register {
    if bits == [] then r
    else
      var before := Feed(r, bits[..|bits| - 1]);
      Shift(before[0 := before[0] != bits[|bits| - 1]])
  }

  function Crc(bits: seq<bool>): Register {
    Feed(Zeros(16), bits)
  }

  // ----- linearity -----

  lemma ShiftLinear(r: Register, s: Register)
    ensures Shift(Xor(r, s)) == Xor(Shift(r), Shift(s))
  {
  }

  lemma ShiftNonzero(r: Register)
    ensures Shift(r) == Zeros(16) <==> r == Zeros(16)
  {
    if Shift(r) == Zeros(16) {
      assert Shift(r)[15] == r[0];
      forall j | 1 <= j < 16
        ensures !r[j]
      {
        assert Shift(r)[j - 1] == r[j];
      }
    }
  }

  lemma {:induction false} ShiftNNonzero(r: Register, n: nat)
    ensures ShiftN(r, n) == Zeros(16) <==> r == Zeros(16)
  {
    if n != 0 {
      ShiftNNonzero(r, n - 1);
      ShiftNonzero(ShiftN(r, n - 1));
    }
  }

  lemma {:induction false} FeedLinear(r: Register, s: Register, a: seq<bool>, b: seq<bool>)
    requires |a| == |b|
    ensures Feed(Xor(r, s), Xor(a, b)) == Xor(Feed(r, a), Feed(s, b))
  {
    if a != [] {
      var n := |a| - 1;
      assert Xor(a, b)[..n] == Xor(a[..n], b[..n]);
      FeedLinear(r, s, a[..n], b[..n]);
      var u, v := Feed(r, a[..n]), Feed(s, b[..n]);
      var u', v' := u[0 := u[0] != a[n]], v[0 := v[0] != b[n]];
      assert Xor(u, v)[0 := Xor(u, v)[0] != Xor(a, b)[n]] == Xor(u', v');
      ShiftLinear(u', v');
    }
  }

  /** The checksum of a bitwise difference is the difference of the checksums. */
  lemma CrcLinear(a: seq<bool>, b: seq<bool>)
    requires |a| == |b|
    ensures Crc(Xor(a, b)) == Xor(Crc(a), Crc(b))
  {
    assert Xor(Zeros(16), Zeros(16)) == Zeros(16);
    FeedLinear(Zeros(16), Zeros(16), a, b);
  }

  // ----- feeding in pieces -----

  lemma {:induction false} FeedAppend(r: Register, a: seq<bool>, b: seq<bool>)
    ensures Feed(r, a + b) == Feed(Feed(r, a), b)
  {
    if b == [] {
      assert a + b == a;
    } else {
      var n := |b| - 1;
      assert (a + b)[..|a| + n] == a + b[..n];
      FeedAppend(r, a, b[..n]);
    }
  }

  lemma {:induction false} FeedZeros(r: Register, n: nat)
    ensures Feed(r, Zeros(n)) == ShiftN(r, n)
  {
    if n != 0 {
      assert Zeros(n)[..n - 1] == Zeros(n - 1);
      FeedZeros(r, n - 1);
      var before := ShiftN(r, n - 1);
      assert before[0 := before[0] != false] == before;
    }
  }

  lemma {:induction false} ShiftFirst(r: Register, n: nat)
    requires n > 0
    ensures ShiftN(r, n) == ShiftN(Shift(r), n - 1)
  {
    if n > 1 {
      ShiftFirst(r, n - 1);
    }
  }

  /** Feeding up to 16 bits is XOR-ing them into the top of the register, then shifting. */
  lemma {:induction false} FeedWord(r: Register, bits: seq<bool>)
    requires |bits| <= 16
    ensures Feed(r, bits) == ShiftN(Xor(r, bits + Zeros(16 - |bits|)), |bits|)
    decreases |bits|
  {
    if bits == [] {
      assert Xor(r, Zeros(16)) == r;
      assert bits + Zeros(16) == Zeros(16);
    } else {
      var b, rest := bits[0], bits[1..];
      var first := Shift(r[0 := r[0] != b]);
      assert bits == [b] + rest;
      FeedAppend(r, [b], rest);
      assert [b][..0] == [];
      assert Feed(r, [b]) == first;
      FeedWord(first, rest);
      MixFirst(r, bits);
      ShiftFirst(Xor(r, bits + Zeros(16 - |bits|)), |bits|);
    }
  }

  lemma MixFirst(r: Register, bits: seq<bool>)
    requires 0 < |bits| <= 16
    ensures Shift(Xor(r, bits + Zeros(16 - |bits|)))
         == Xor(Shift(r[0 := r[0] != bits[0]]), bits[1..] + Zeros(16 - |bits[1..]|))
  {
    var word, next := bits + Zeros(16 - |bits|), bits[1..] + Zeros(16 - |bits[1..]|);
    assert forall i :: 0 <= i < 16 ==> next[i] == (i < 15 && word[i + 1]);
  }

  /** A nonzero error confined to 16 consecutive bits always changes the checksum. */
  lemma BurstNoticed(before: nat, burst: seq<bool>, after: nat)
    requires |burst| <= 16 && true in burst
    ensures Crc(Zeros(before) + burst + Zeros(after)) != Zeros(16)
  {
    FeedAppend(Zeros(16), Zeros(before) + burst, Zeros(after));
    FeedAppend(Zeros(16), Zeros(before), burst);
    FeedZeros(Zeros(16), before);
    ShiftNNonzero(Zeros(16), before);
    FeedWord(Zeros(16), burst);
    var word := burst + Zeros(16 - |burst|);
    assert Xor(Zeros(16), word) == word;
    var i :| 0 <= i < |burst| && burst[i];
    assert word[i];
    ShiftNNonzero(word, |burst|);
    var r := ShiftN(word, |burst|);
    FeedZeros(r, after);
    ShiftNNonzero(r, after);
  }

  // ----- parity -----

  function Ones(bits: seq<bool>): nat {
    if bits == [] then 0 else Ones(bits[..|bits| - 1]) + if bits[|bits| - 1] then 1 else 0
  }

  predicate Odd(bits: seq<bool>) {
    Ones(bits) % 2 == 1
  }

  lemma {:induction false} OnesOfZeros(n: nat)
    ensures Ones(Zeros(n)) == 0
  {
    if n != 0 {
      assert Zeros(n)[..n - 1] == Zeros(n - 1);
      OnesOfZeros(n - 1);
    }
  }

  lemma {:induction false} OddXor(a: seq<bool>, b: seq<bool>)
    requires |a| == |b|
    ensures Odd(Xor(a, b)) == (Odd(a) != Odd(b))
  {
    if a != [] {
      var n := |a| - 1;
      assert Xor(a, b)[..n] == Xor(a[..n], b[..n]);
      OddXor(a[..n], b[..n]);
    }
  }

  lemma {:induction false} OddAppend(a: seq<bool>, b: seq<bool>)
    ensures Odd(a + b) == (Odd(a) != Odd(b))
  {
    if b == [] {
      assert a + b == a;
    } else {
      var n := |b| - 1;
      assert (a + b)[..|a| + n] == a + b[..n];
      OddAppend(a, b[..n]);
    }
  }

  lemma OddOne(b: bool)
    ensures Odd([b]) == b
  {
    assert [b][..0] == [];
    assert Ones([]) == 0;
    assert Ones([b]) == if b then 1 else 0;
  }

  /** The generator has three coefficients below x^16. */
  lemma TapsAreOdd()
    ensures Odd(Zeros(3) + [true] + Zeros(6) + [true] + Zeros(4) + [true])
  {
    OnesOfZeros(3);
    OnesOfZeros(6);
    OnesOfZeros(4);
    OddOne(true);
    OddAppend(Zeros(3), [true]);
    OddAppend(Zeros(3) + [true], Zeros(6));
    OddAppend(Zeros(3) + [true] + Zeros(6), [true]);
    OddAppend(Zeros(3) + [true] + Zeros(6) + [true], Zeros(4));
    OddAppend(Zeros(3) + [true] + Zeros(6) + [true] + Zeros(4), [true]);
  }

  /** A shift drops one leading bit and, if it was set, flips three others. */
  lemma ShiftParity(r: Register)
    ensures Odd(Shift(r)) == Odd(r)
  {
    var moved: Register := r[1..] + [false];
    assert r == [r[0]] + r[1..];
    OddAppend([r[0]], r[1..]);
    OddAppend(r[1..], [false]);
    OddOne(r[0]);
    OddOne(false);
    if r[0] {
      var taps: Register := Zeros(3) + [true] + Zeros(6) + [true] + Zeros(4) + [true];
      assert Shift(r) == Xor(moved, taps);
      OddXor(moved, taps);
      TapsAreOdd();
    } else {
      assert Shift(r) == moved;
    }
  }

  lemma FlipParity(r: Register, b: bool)
    ensures Odd(r[0 := r[0] != b]) == (Odd(r) != b)
  {
    assert r == [r[0]] + r[1..];
    assert r[0 := r[0] != b] == [r[0] != b] + r[1..];
    OddAppend([r[0]], r[1..]);
    OddAppend([r[0] != b], r[1..]);
    OddOne(r[0]);
    OddOne(r[0] != b);
  }

  lemma {:induction false} FeedParity(r: Register, bits: seq<bool>)
    ensures Odd(Feed(r, bits)) == (Odd(r) != Odd(bits))
  {
    if bits != [] {
      var n := |bits| - 1;
      var before := Feed(r, bits[..n]);
      FeedParity(r, bits[..n]);
      FlipParity(before, bits[n]);
      ShiftParity(before[0 := before[0] != bits[n]]);
    }
  }

  /** The checksum has an odd number of one bits exactly if the message has. */
  lemma CrcParity(bits: seq<bool>)
    ensures Odd(Crc(bits)) == Odd(bits)
  {
    FeedParity(Zeros(16), bits);
    OnesOfZeros(16);
  }

  // ----- the loop over a 16-bit word -----

  type word = w: nat | w < 0x1_0000

  /** Bitwise exclusive or of two 16-bit words. */
  function XorWord(a: word, b: word): (r: word)
    ensures WordBits(r, 16) == Xor(WordBits(a, 16), WordBits(b, 16))
  {
    WordSize();
    WordBitsOfValue(Xor(WordBits(a, 16), WordBits(b, 16)));
    Value(Xor(WordBits(a, 16), WordBits(b, 16)))
  }

  lemma WordSize()
    ensures Pow2(15) == 0x8000 && Pow2(16) == 0x1_0000
  {
    assert Pow2(4) == 16 && Pow2(8) == 256 && Pow2(12) == 4096;
  }

  lemma {:induction false} ZeroBits(n: nat)
    ensures WordBits(0, n) == Zeros(n)
  {
    if n != 0 {
      ZeroBits(n - 1);
    }
  }

  lemma ScaledBits(x: nat, n: nat, k: nat)
    ensures WordBits(x * Pow2(k), n + k) == WordBits(x, n) + Zeros(k)
  {
    JoinWords(x, n, 0, k);
    ZeroBits(k);
  }

  lemma GeneratorBits()
    ensures WordBits(0x1021, 16) == Zeros(3) + [true] + Zeros(6) + [true] + Zeros(4) + [true]
  {
    ZeroBits(3);
    assert Pow2(4) == 16 && Pow2(6) == 64;
    ScaledBits(1, 4, 6);
    ScaledBits(0x81, 11, 4);
  }

  lemma LeadingBit(crc: word)
    ensures WordBits(crc, 16)[0] <==> crc >= 0x8000
    ensures WordBits(crc * 2 % 0x1_0000, 16) == WordBits(crc, 16)[1..] + [false]
  {
    WordSize();
    var high: nat, low: nat := if crc >= 0x8000 then 1 else 0, if crc >= 0x8000 then crc - 0x8000 else crc;
    SplitLeadingBit(high, low);
    DropLeadingBit(high, low);
    assert crc == high * 0x8000 + low;
  }

  lemma SplitLeadingBit(high: nat, low: nat)
    requires high <= 1 && low < 0x8000
    ensures WordBits(high * 0x8000 + low, 16) == [high == 1] + WordBits(low, 15)
  {
    WordSize();
    JoinWords(high, 1, low, 15);
    assert WordBits(high, 1) == [high == 1];
  }

  lemma DropLeadingBit(high: nat, low: nat)
    requires high <= 1 && low < 0x8000
    ensures WordBits((high * 0x8000 + low) * 2 % 0x1_0000, 16) == WordBits(low, 15) + [false]
  {
    assert (high * 0x8000 + low) * 2 % 0x1_0000 == low * 2;
    DoubledBits(low, 15);
  }

  lemma DoubledBits(low: nat, n: nat)
    ensures WordBits(low * 2, n + 1) == WordBits(low, n) + [false]
  {
    assert low * 2 / 2 == low;
  }

  lemma ShiftedRegister(r: Register, doubled: seq<bool>, generator: seq<bool>)
    requires doubled == r[1..] + [false]
    requires generator == Zeros(3) + [true] + Zeros(6) + [true] + Zeros(4) + [true]
    ensures Shift(r) == if r[0] then Xor(doubled, generator) else doubled
  {
  }

  /** One step of the inner loop: a left shift, and the generator when a bit falls out. */
  function FoldStep(crc: word): (r: word)
    ensures WordBits(r, 16) == Shift(WordBits(crc, 16))
  {
    LeadingBit(crc);
    GeneratorBits();
    var doubled: word := crc * 2 % 0x1_0000;
    ShiftedRegister(WordBits(crc, 16), WordBits(doubled, 16), WordBits(0x1021, 16));
    if crc >= 0x8000 then XorWord(doubled, 0x1021) else doubled
  }

  lemma ByteInWord(b: byte)
    ensures b * 256 < 0x1_0000
    ensures WordBits(b * 256, 16) == WordBits(b, 8) + Zeros(8)
  {
    PowersUsed();
    ScaledBits(b, 8, 8);
  }

  lemma OneMoreByte(data: seq<byte>, k: nat)
    requires k < |data|
    ensures ShiftN(Xor(Crc(ByteBits(data[..k])), WordBits(data[k], 8) + Zeros(8)), 8)
         == Crc(ByteBits(data[..k + 1]))
  {
    FeedWord(Crc(ByteBits(data[..k])), WordBits(data[k], 8));
    FeedAppend(Zeros(16), ByteBits(data[..k]), WordBits(data[k], 8));
    assert data[..k + 1][..k] == data[..k];
  }

  /** CRC16-XModem of a byte string, eight shifts a byte. */
  method Crc16XModem(data: seq<byte>) returns (crc: word)
    ensures WordBits(crc, 16) == Crc(ByteBits(data))
  {
    crc := 0;
    ZeroBits(16);
    for k := 0 to |data|
      invariant WordBits(crc, 16) == Crc(ByteBits(data[..k]))
    {
      var b: nat := data[k];
      ByteInWord(b);
      crc := XorWord(crc, b * 256);
      ghost var mixed := WordBits(crc, 16);
      OneMoreByte(data, k);
      for i := 0 to 8
        invariant WordBits(crc, 16) == ShiftN(mixed, i)
      {
        crc := FoldStep(crc);
      }
    }
    assert data[..|data|] == data;
  }
}
