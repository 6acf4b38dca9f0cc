/**
 StrKey contract ids (SEP-0023): what a contract id is, and the API's hand-written
 validator with its base32 bit accumulator.
 */
module StrKey {
  import opened Base32
  import opened Crc16

  const CONTRACT_VERSION := 0x10
  const ID_LENGTH := 56
  const RAW_LENGTH := 35

  /** The two checksum bytes are stored low byte first. */
  function LittleEndian(low: byte, high: byte): word {
    low + 256 * high
  }

  predicate ChecksumHolds(raw: seq<byte>)
    requires |raw| == RAW_LENGTH
  {
    Crc(ByteBits(raw[..33])) == WordBits(LittleEndian(raw[33], raw[34]), 16)
  }

  /** What a contract id is: 56 symbols whose 35 bytes carry the version byte and a correct checksum. */
  predicate IsContractId(s: string) {
    |s| == ID_LENGTH && s[0] == 'C' && AllSymbols(s) &&
    var raw := Octets(SymbolBits(s));
    raw[0] == CONTRACT_VERSION && ChecksumHolds(raw)
  }

  // ----- apps/api/rulelang/strkey.go -----

  method AlphabetIndex(c: char) returns (idx: int)
    ensures idx == if IsSymbol(c) then SymbolValue(c) else -1
  {
    AlphabetSearch(c);
    idx := IndexByte(ALPHABET, c);
  }

  /** Append the eight bits above the lowest rest ones. */
  method AppendByte(decoded: seq<byte>, bits: nat, rest: nat) returns (longer: seq<byte>)
    ensures ByteBits(longer) + WordBits(bits, rest) == ByteBits(decoded) + WordBits(bits, rest + 8)
  {
    EmitByte(decoded, bits, rest);
    longer := decoded + [Low(High(bits, rest), 8)];
  }

  /** Keep the lowest n bits. */
  method MaskLow(bits: nat, n: nat) returns (masked: nat)
    ensures masked < Pow2(n) && WordBits(masked, n) == WordBits(bits, n)
  {
    SplitWord(bits, 0, n);
    masked := Low(bits, n);
  }

  /** One turn of the accumulator: five bits in, and a byte out when eight have gathered. */
  method PushSymbol(decoded: seq<byte>, bits: nat, nbits: nat, idx: nat)
    returns (decoded': seq<byte>, bits': nat, nbits': nat)
    requires nbits < 8 && bits < Pow2(nbits) && idx < 32
    ensures nbits' < 8 && bits' < Pow2(nbits')
    ensures ByteBits(decoded') + WordBits(bits', nbits')
         == ByteBits(decoded) + WordBits(bits, nbits) + WordBits(idx, 5)
  {
    AccumulatorSmall(bits, nbits, idx);
    GatherSymbol(decoded, bits, nbits, idx);
    ghost var stream := ByteBits(decoded) + WordBits(bits, nbits) + WordBits(idx, 5);
    decoded', bits', nbits' := decoded, bits * 32 + idx, nbits + 5;
    while nbits' >= 8
      invariant nbits' < 13
      invariant ByteBits(decoded') + WordBits(bits', nbits') == stream
    {
      nbits' := nbits' - 8;
      decoded' := AppendByte(decoded', bits', nbits');
    }
    bits' := MaskLow(bits', nbits');
  }

  lemma OneMoreSymbol(s: string, i: nat)
    requires i < |s| && AllSymbols(s[..i]) && IsSymbol(s[i])
    ensures AllSymbols(s[..i + 1])
    ensures SymbolBits(s[..i + 1]) == SymbolBits(s[..i]) + WordBits(SymbolValue(s[i]), 5)
  {
    assert s[..i + 1][..i] == s[..i];
  }

  method DecodeSymbols(s: string) returns (ok: bool, decoded: seq<byte>)
    ensures ok <==> AllSymbols(s)
    ensures ok ==> decoded == Octets(WholeOctets(SymbolBits(s)))
  {
    var bits: nat, nbits: nat := 0, 0;
    decoded := [];
    for i := 0 to |s|
      invariant AllSymbols(s[..i])
      invariant nbits < 8 && bits < Pow2(nbits)
      invariant ByteBits(decoded) + WordBits(bits, nbits) == SymbolBits(s[..i])
    {
      var idx := AlphabetIndex(s[i]);
      if idx < 0 {
        assert !IsSymbol(s[i]);
        return false, [];
      }
      OneMoreSymbol(s, i);
      decoded, bits, nbits := PushSymbol(decoded, bits, nbits, idx);
    }
    assert s[..|s|] == s;
    FullyDecoded(decoded, bits, nbits, SymbolBits(s));
    ok := true;
  }

  method ValidContractID(s: string) returns (valid: bool)
    ensures valid <==> IsContractId(s)
  {
    if |s| != ID_LENGTH || s[0] != 'C' {
      return false;
    }
    var ok, decoded := DecodeSymbols(s);
    assert ok ==> WholeOctets(SymbolBits(s)) == SymbolBits(s);
    if !ok || |decoded| != RAW_LENGTH || decoded[0] != CONTRACT_VERSION {
      return false;
    }
    var want := LittleEndian(decoded[33], decoded[34]);
    var crc := Crc16XModem(decoded[..33]);
    SameWord(crc, want);
    return crc == want;
  }

  lemma SameWord(a: word, b: word)
    ensures WordBits(a, 16) == WordBits(b, 16) <==> a == b
  {
    WordSize();
    ValueOfWordBits(a, 16);
    ValueOfWordBits(b, 16);
  }

  lemma AccumulatorSmall(bits: nat, nbits: nat, v: nat)
    requires bits < Pow2(nbits) && v < 32
    ensures bits * 32 + v < Pow2(nbits + 5)
    ensures v < Pow2(5)
  {
    assert Pow2(nbits + 2) == 2 * Pow2(nbits + 1) == 4 * Pow2(nbits);
    assert Pow2(nbits + 5) == 2 * Pow2(nbits + 4) == 4 * Pow2(nbits + 3) == 8 * Pow2(nbits + 2);
  }

  lemma GatherSymbol(decoded: seq<byte>, bits: nat, nbits: nat, v: nat)
    requires v < 32
    ensures ByteBits(decoded) + WordBits(bits * 32 + v, nbits + 5)
         == ByteBits(decoded) + WordBits(bits, nbits) + WordBits(v, 5)
  {
    PowersUsed();
    JoinWords(bits, nbits, v, 5);
  }

  lemma FullyDecoded(decoded: seq<byte>, bits: nat, nbits: nat, stream: seq<bool>)
    requires nbits < 8
    requires ByteBits(decoded) + WordBits(bits, nbits) == stream
    ensures decoded == Octets(WholeOctets(stream))
  {
    OctetsOfByteBits(decoded);
  }

  lemma EmitByte(decoded: seq<byte>, bits: nat, rest: nat)
    ensures ByteBits(decoded + [Low(High(bits, rest), 8)]) + WordBits(bits, rest)
         == ByteBits(decoded) + WordBits(bits, rest + 8)
  {
    PowersUsed();
    var q := High(bits, rest);
    SplitWord(bits, 8, rest);
    SplitWord(q, 0, 8);
    var emitted := decoded + [Low(q, 8)];
    assert emitted[..|emitted| - 1] == decoded;
    assert WordBits(bits, rest + 8) == WordBits(bits, 8 + rest);
  }
}
