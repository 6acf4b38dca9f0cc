/**
 The RFC 4648 base32 alphabet and the regrouping of 5-bit symbols into octets
 that every StrKey decoder of SoroLens performs.

 Bits are sequences of booleans, most significant first. The accumulator of the
 hand-written decoder stays below 2^12, so its shifts and masks are written as
 multiplication, division and remainder.
 */
module Base32 {

  type byte = b: nat | b < 256

  const ALPHABET: string := "ABCDEFGHIJKLMNOPQRSTUVWXYZ234567"

  function Pow2(k: nat): (r: nat)
    ensures r > 0
  {
    if k == 0 then 1 else 2 * Pow2(k - 1)
  }

  /** The low n bits of x. */
  function WordBits(x: nat, n: nat): (r: seq<bool>)
    ensures |r| == n
  {
    if n == 0 then [] else WordBits(x / 2, n - 1) + [x % 2 == 1]
  }

  /** The number a bit string denotes. */
  function Value(bits: seq<bool>): (r: nat)
    ensures r < Pow2(|bits|)
  {
    if bits == [] then 0
    else 2 * Value(bits[..|bits| - 1]) + (if bits[|bits| - 1] then 1 else 0)
  }

  lemma {:induction false} ValueOfWordBits(x: nat, n: nat)
    requires x < Pow2(n)
    ensures Value(WordBits(x, n)) == x
  {
    if n != 0 {
      assert WordBits(x, n)[..n - 1] == WordBits(x / 2, n - 1);
      ValueOfWordBits(x / 2, n - 1);
    }
  }

  lemma {:induction false} WordBitsOfValue(bits: seq<bool>)
    ensures WordBits(Value(bits), |bits|) == bits
  {
    if bits != [] {
      WordBitsOfValue(bits[..|bits| - 1]);
    }
  }

  lemma {:induction false} JoinWords(a: nat, m: nat, b: nat, k: nat)
    requires b < Pow2(k)
    ensures WordBits(a * Pow2(k) + b, m + k) == WordBits(a, m) + WordBits(b, k)
  {
    if k != 0 {
      var p := Pow2(k - 1);
      assert a * Pow2(k) == 2 * (a * p);
      assert (a * Pow2(k) + b) / 2 == a * p + b / 2;
      JoinWords(a, m, b / 2, k - 1);
    }
  }

  /** The word shifted right by k places. */
  function High(x: nat, k: nat): (q: nat)
    ensures q * Pow2(k) <= x < q * Pow2(k) + Pow2(k)
  {
    if k == 0 then x
    else
      var q := High(x / 2, k - 1);
      var p := Pow2(k - 1);
      assert q * Pow2(k) == 2 * (q * p);
      q
  }

  /** The low k bits of the word. */
  function Low(x: nat, k: nat): (r: nat)
    ensures r < Pow2(k) && x == High(x, k) * Pow2(k) + r
  {
    x - High(x, k) * Pow2(k)
  }

  lemma {:induction false} SplitWord(x: nat, m: nat, k: nat)
    ensures WordBits(x, m + k) == WordBits(High(x, k), m) + WordBits(x, k)
    ensures WordBits(Low(x, k), k) == WordBits(x, k)
  {
    JoinWords(High(x, k), m, Low(x, k), k);
    JoinWords(High(x, k), 0, Low(x, k), k);
  }

  /** Position of c in the alphabet, or -1. */
  function IndexByte(s: string, c: char): (r: int)
    ensures -1 <= r < |s|
    ensures r >= 0 ==> s[r] == c && c !in s[..r]
    ensures r < 0 ==> c !in s
  {
    if s == [] then -1
    else if s[|s| - 1] == c && IndexByte(s[..|s| - 1], c) < 0 then |s| - 1
    else IndexByte(s[..|s| - 1], c)
  }

  predicate IsSymbol(c: char) {
    'A' <= c <= 'Z' || '2' <= c <= '7'
  }

  /** The 5-bit value of a symbol. */
  function SymbolValue(c: char): (v: nat)
    requires IsSymbol(c)
    ensures v < 32 && Symbol(v) == c
  {
    if 'A' <= c then c as int - 'A' as int else 26 + c as int - '2' as int
  }

  function Symbol(v: nat): (c: char)
    requires v < 32
    ensures IsSymbol(c)
  {
    if v < 26 then (v + 'A' as int) as char else (v - 26 + '2' as int) as char
  }

  lemma SymbolValueAt(v: nat)
    requires v < 32
    ensures SymbolValue(Symbol(v)) == v
  {
  }

  lemma AlphabetAt(i: nat)
    requires i < 32
    ensures |ALPHABET| == 32
    ensures ALPHABET[i] == Symbol(i)
  {
  }

  /** Searching the alphabet, as the hand-written decoder does, finds a symbol's value. */
  lemma AlphabetSearch(c: char)
    ensures IndexByte(ALPHABET, c) == if IsSymbol(c) then SymbolValue(c) else -1
  {
    assert forall v :: 0 <= v < 32 ==> ALPHABET[v] == Symbol(v) by {
      forall v | 0 <= v < 32
        ensures ALPHABET[v] == Symbol(v)
      {
        AlphabetAt(v);
      }
    }
    var r := IndexByte(ALPHABET, c);
    if IsSymbol(c) {
      assert ALPHABET[SymbolValue(c)] == c;
      SymbolValueAt(r);
    }
  }

  predicate AllSymbols(s: string) {
    forall i :: 0 <= i < |s| ==> IsSymbol(s[i])
  }

  /** The bit stream spelled by a base32 string: five bits a symbol. */
  function SymbolBits(s: string): (r: seq<bool>)
    requires AllSymbols(s)
    ensures |r| == 5 * |s|
  {
    if s == [] then []
    else SymbolBits(s[..|s| - 1]) + WordBits(SymbolValue(s[|s| - 1]), 5)
  }

  /** The bit stream of a byte string: eight bits a byte. */
  function ByteBits(bs: seq<byte>): (r: seq<bool>)
    ensures |r| == 8 * |bs|
  {
    if bs == [] then []
    else ByteBits(bs[..|bs| - 1]) + WordBits(bs[|bs| - 1], 8)
  }

  lemma {:induction false} SymbolBitsAt(s: string, i: nat)
    requires AllSymbols(s) && i < |s|
    ensures SymbolBits(s)[5 * i..5 * i + 5] == WordBits(SymbolValue(s[i]), 5)
  {
    var init := s[..|s| - 1];
    if i < |s| - 1 {
      SymbolBitsAt(init, i);
      assert SymbolBits(s)[5 * i..5 * i + 5] == SymbolBits(init)[5 * i..5 * i + 5];
    }
  }

  lemma {:induction false} ByteBitsAt(bs: seq<byte>, i: nat)
    requires i < |bs|
    ensures ByteBits(bs)[8 * i..8 * i + 8] == WordBits(bs[i], 8)
  {
    var init := bs[..|bs| - 1];
    if i < |bs| - 1 {
      ByteBitsAt(init, i);
      assert ByteBits(bs)[8 * i..8 * i + 8] == ByteBits(init)[8 * i..8 * i + 8];
    }
  }

  lemma {:induction false} ByteBitsPrefix(bs: seq<byte>, k: nat)
    requires k <= |bs|
    ensures ByteBits(bs)[..8 * k] == ByteBits(bs[..k])
  {
    if k == |bs| {
      assert bs[..k] == bs;
    } else {
      var init := bs[..|bs| - 1];
      ByteBitsPrefix(init, k);
      assert init[..k] == bs[..k];
      assert ByteBits(bs)[..8 * k] == ByteBits(init)[..8 * k];
    }
  }

  /** The octets spelled by a bit string of whole octets. */
  function Octets(bits: seq<bool>): (r: seq<byte>)
    requires |bits| % 8 == 0
    ensures |r| == |bits| / 8
  {
    if bits == [] then []
    else
      var n := |bits| - 8;
      PowersUsed();
      Octets(bits[..n]) + [Value(bits[n..])]
  }

  /** The front of a bit string; up to seven left-over bits are dropped. */
  function WholeOctets(bits: seq<bool>): (r: seq<bool>)
    ensures |r| % 8 == 0 && |r| <= |bits| < |r| + 8 && r == bits[..|r|]
  {
    bits[..|bits| - |bits| % 8]
  }

  lemma PowersUsed()
    ensures Pow2(5) == 32 && Pow2(8) == 256
  {
    assert Pow2(4) == 16;
    assert Pow2(6) == 64;
  }

  lemma {:induction false} ByteBitsOfOctets(bits: seq<bool>)
    requires |bits| % 8 == 0
    ensures ByteBits(Octets(bits)) == bits
  {
    if bits != [] {
      var n := |bits| - 8;
      ByteBitsOfOctets(bits[..n]);
      OneMoreWord(bits[..n], bits[n..]);
      assert bits == bits[..n] + bits[n..];
    }
  }

  lemma OneMoreWord(bits: seq<bool>, last: seq<bool>)
    requires |bits| % 8 == 0 && |last| == 8 && ByteBits(Octets(bits)) == bits
    ensures ByteBits(Octets(bits + last)) == bits + last
  {
    PowersUsed();
    OctetsOfJoin(bits, last);
    ByteBitsOfJoin(Octets(bits), Value(last));
    WordBitsOfValue(last);
  }

  lemma OctetsOfJoin(bits: seq<bool>, last: seq<bool>)
    requires |bits| % 8 == 0 && |last| == 8
    ensures Octets(bits + last) == Octets(bits) + [Value(last)]
  {
    assert (bits + last)[..|bits|] == bits && (bits + last)[|bits|..] == last;
  }

  lemma ByteBitsOfJoin(init: seq<byte>, last: byte)
    ensures ByteBits(init + [last]) == ByteBits(init) + WordBits(last, 8)
  {
    assert (init + [last])[..|init|] == init;
  }

  lemma {:induction false} OctetsOfByteBits(bs: seq<byte>)
    ensures Octets(ByteBits(bs)) == bs
  {
    if bs != [] {
      var init, last := bs[..|bs| - 1], bs[|bs| - 1];
      OctetsOfByteBits(init);
      OneMoreOctet(init, last);
      assert bs == init + [last];
    }
  }

  lemma OneMoreOctet(init: seq<byte>, last: byte)
    requires Octets(ByteBits(init)) == init
    ensures Octets(ByteBits(init + [last])) == init + [last]
  {
    ByteBitsOfJoin(init, last);
    OctetsOfJoin(ByteBits(init), WordBits(last, 8));
    PowersUsed();
    ValueOfWordBits(last, 8);
  }

  /** A last group filled up with zero bits. */
  function Filled(group: seq<bool>): (r: seq<bool>)
    requires 0 < |group| <= 5
    ensures |r| == 5 && r[..|group|] == group
    ensures |group| == 5 ==> r == group
  {
    group + seq(5 - |group|, i => false)
  }

  /** Where the last, possibly partial, group of five starts. */
  function LastGroup(n: nat): (k: nat)
    requires n > 0
    ensures k < n <= k + 5 && k % 5 == 0
  {
    n - 1 - (n - 1) % 5
  }

  /** RFC 4648 section 6 without padding: the last group is filled up with zero bits. */
  function EncodeBits(bits: seq<bool>): (s: string)
    ensures |s| == (|bits| + 4) / 5
    ensures AllSymbols(s)
    decreases |bits|
  {
    if bits == [] then ""
    else
      var n := LastGroup(|bits|);
      PowersUsed();
      EncodeBits(bits[..n]) + [Symbol(Value(Filled(bits[n..])))]
  }

  /** A full last group of five bits needs no padding. */
  lemma EncodeLastGroup(bits: seq<bool>, front: seq<bool>, group: seq<bool>)
    requires bits != [] && |front| == LastGroup(|bits|) && |group| == 5 && Value(group) < 32
    requires bits[..|front|] == front && bits[|front|..] == group
    ensures EncodeBits(bits) == EncodeBits(front) + [Symbol(Value(group))]
  {
  }

  lemma SymbolBitsOfJoin(s: string, c: char)
    requires AllSymbols(s) && IsSymbol(c)
    ensures SymbolBits(s + [c]) == SymbolBits(s) + WordBits(SymbolValue(c), 5)
  {
    assert (s + [c])[..|s|] == s;
  }

  lemma {:induction false} SymbolBitsOfEncode(bits: seq<bool>)
    requires |bits| % 5 == 0
    ensures SymbolBits(EncodeBits(bits)) == bits
  {
    if bits != [] {
      var n := |bits| - 5;
      SymbolBitsOfEncode(bits[..n]);
      OneMoreGroup(bits, bits[..n], bits[n..]);
    }
  }

  lemma {:induction false} OneMoreGroup(bits: seq<bool>, front: seq<bool>, group: seq<bool>)
    requires |bits| == |front| + 5 && |front| % 5 == 0 && bits[..|front|] == front && bits[|front|..] == group
    requires SymbolBits(EncodeBits(front)) == front
    ensures SymbolBits(EncodeBits(bits)) == bits
  {
    PowersUsed();
    EncodeLastGroup(bits, front, group);
    SymbolBitsOfJoin(EncodeBits(front), Symbol(Value(group)));
    SymbolValueAt(Value(group));
    WordBitsOfValue(group);
    assert bits == front + group;
  }

  lemma {:induction false} SymbolBitsInjective(s: string, t: string)
    requires AllSymbols(s) && AllSymbols(t) && SymbolBits(s) == SymbolBits(t)
    ensures s == t
  {
    forall i | 0 <= i < |s|
      ensures s[i] == t[i]
    {
      SymbolBitsAt(s, i);
      SymbolBitsAt(t, i);
      PowersUsed();
      ValueOfWordBits(SymbolValue(s[i]), 5);
      ValueOfWordBits(SymbolValue(t[i]), 5);
    }
  }

  lemma {:induction false} EncodeOfSymbolBits(s: string)
    requires AllSymbols(s)
    ensures EncodeBits(SymbolBits(s)) == s
  {
    EncodeOfStream(SymbolBits(s), s);
  }

  lemma EncodeOfStream(bits: seq<bool>, s: string)
    requires AllSymbols(s) && bits == SymbolBits(s)
    ensures EncodeBits(bits) == s
  {
    SymbolBitsOfEncode(bits);
    SymbolBitsInjective(EncodeBits(bits), s);
  }
}
