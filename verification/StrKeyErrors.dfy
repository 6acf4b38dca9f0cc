/**
 Which typing errors a contract id's checksum catches.

 Write an id as its 280 bits: 264 bits of version and payload, then the checksum
 with its low byte first. An id is accepted when the residue of those bits is
 zero, and the residue is linear, so an error goes unnoticed exactly when the
 residue of the error pattern is zero.
 */
module StrKeyErrors {
  import opened Base32
  import opened Crc16
  import opened StrKey

  const PAYLOAD_BITS := 264
  const ID_BITS := 280

  /** Computed checksum against stored checksum. */
  function Residue(bits: seq<bool>): Register
    requires |bits| == ID_BITS
  {
    Xor(Crc(bits[..PAYLOAD_BITS]), bits[272..] + bits[264..272])
  }

  lemma StoredChecksum(raw: seq<byte>)
    requires |raw| == RAW_LENGTH
    ensures ByteBits(raw)[..PAYLOAD_BITS] == ByteBits(raw[..33])
    ensures WordBits(LittleEndian(raw[33], raw[34]), 16) == ByteBits(raw)[272..] + ByteBits(raw)[264..272]
  {
    ByteBitsPrefix(raw, 33);
    ByteBitsAt(raw, 33);
    ByteBitsAt(raw, 34);
    HighThenLow(raw[33], raw[34]);
    JoinedWord(LittleEndian(raw[33], raw[34]), raw[34], raw[33], 8);
  }

  lemma HighThenLow(low: byte, high: byte)
    ensures low < Pow2(8) && LittleEndian(low, high) == high * Pow2(8) + low
  {
    PowersUsed();
  }

  lemma JoinedWord(x: nat, high: nat, low: nat, n: nat)
    requires low < Pow2(n) && x == high * Pow2(n) + low
    ensures WordBits(x, n + n) == WordBits(high, n) + WordBits(low, n)
  {
    JoinWords(high, n, low, n);
  }

  lemma XorZero(a: seq<bool>, b: seq<bool>)
    requires |a| == |b|
    ensures Xor(a, b) == Zeros(|a|) <==> a == b
  {
    if Xor(a, b) == Zeros(|a|) {
      forall i | 0 <= i < |a|
        ensures a[i] == b[i]
      {
        assert !Xor(a, b)[i];
      }
    }
  }

  /** The stored checksum is the computed one exactly when the residue is zero. */
  lemma ChecksumIsResidue(t: string)
    requires |t| == ID_LENGTH && AllSymbols(t)
    ensures ChecksumHolds(Octets(SymbolBits(t))) <==> Residue(SymbolBits(t)) == Zeros(16)
  {
    var bits := SymbolBits(t);
    ByteBitsOfOctets(bits);
    StoredChecksum(Octets(bits));
    XorZero(Crc(bits[..PAYLOAD_BITS]), bits[272..] + bits[264..272]);
  }

  lemma AcceptedHasNoResidue(s: string)
    requires IsContractId(s)
    ensures Residue(SymbolBits(s)) == Zeros(16)
  {
    ChecksumIsResidue(s);
  }

  lemma ResidueLinear(a: seq<bool>, b: seq<bool>)
    requires |a| == |b| == ID_BITS
    ensures Residue(Xor(a, b)) == Xor(Residue(a), Residue(b))
  {
    var e := Xor(a, b);
    assert e[..PAYLOAD_BITS] == Xor(a[..PAYLOAD_BITS], b[..PAYLOAD_BITS]);
    CrcLinear(a[..PAYLOAD_BITS], b[..PAYLOAD_BITS]);
    assert e[272..] + e[264..272] == Xor(a[272..] + a[264..272], b[272..] + b[264..272]);
  }

  /** The bits outside [from, to) are all zero. */
  predicate ConfinedTo(e: seq<bool>, from: nat, to: nat) {
    forall i :: 0 <= i < |e| && (i < from || to <= i) ==> !e[i]
  }

  // ----- errors inside the payload, or inside the checksum -----

  lemma PayloadErrorNoticed(e: seq<bool>, from: nat, to: nat)
    requires |e| == ID_BITS && true in e
    requires from <= to <= PAYLOAD_BITS && to - from <= 16 && ConfinedTo(e, from, to)
    ensures Residue(e) != Zeros(16)
  {
    var burst := e[from..to];
    var i :| 0 <= i < ID_BITS && e[i];
    assert burst[i - from];
    assert e[..PAYLOAD_BITS] == Zeros(from) + burst + Zeros(PAYLOAD_BITS - to);
    BurstNoticed(from, burst, PAYLOAD_BITS - to);
    assert e[272..] + e[264..272] == Zeros(16);
    XorZero(Crc(e[..PAYLOAD_BITS]), Zeros(16));
  }

  lemma ChecksumErrorNoticed(e: seq<bool>)
    requires |e| == ID_BITS && true in e && ConfinedTo(e, PAYLOAD_BITS, ID_BITS)
    ensures Residue(e) != Zeros(16)
  {
    assert e[..PAYLOAD_BITS] == Zeros(PAYLOAD_BITS);
    FeedZeros(Zeros(16), PAYLOAD_BITS);
    ShiftNNonzero(Zeros(16), PAYLOAD_BITS);
    var stored := e[272..] + e[264..272];
    var i :| 0 <= i < ID_BITS && e[i];
    assert stored[if i < 272 then i - 256 else i - 272];
    XorZero(Zeros(16), stored);
  }

  // ----- errors that straddle payload and checksum -----

  /** The bit that falls out of the register at the k-th shift: a coefficient of the quotient. */
  predicate Quotient(w: Register, k: int) {
    0 <= k && ShiftN(w, k)[0]
  }

  /** After n shifts the register holds the message's next bits plus the generator times the quotient. */
  lemma {:induction false} QuotientForm(w: Register, n: nat, i: nat)
    requires i < 16
    ensures ShiftN(w, n)[i] ==
      ((((i + n < 16 && w[i + n])
       != (i <= 3 && Quotient(w, n + i - 4)))
       != (i <= 10 && Quotient(w, n + i - 11)))
       != Quotient(w, n + i - 16))
  {
    if n != 0 && i < 15 {
      QuotientForm(w, n - 1, i + 1);
    }
  }

  /** If no generator multiple was ever subtracted the message was zero. */
  lemma {:induction false} NoQuotientNoMessage(w: Register, k: nat)
    requires k < 16
    requires forall j :: 0 <= j <= k ==> !Quotient(w, j)
    ensures !w[k]
  {
    assert !Quotient(w, k);
    QuotientForm(w, k, 0);
  }

  /**
   An error in the last t payload bits and the first u checksum bits, with
   t + u = 12. Reading the register from its low end forces every quotient bit
   beyond the fourth to vanish, and then the first four.
   */
  lemma StraddleQuotient(w: Register, t: nat, u: nat, j: nat)
    requires 1 <= t <= 11 && t + u == 12 && j < t
    requires forall i :: 0 <= i < 16 && (if u <= 8 then i < 8 || 8 + u <= i else u - 8 <= i < 8) ==> !ShiftN(w, t)[i]
    requires forall i :: t <= i < 16 ==> !w[i]
    ensures !Quotient(w, j)
    decreases if j < 4 then 12 else t - j
  {
    if u > 8 {
      QuotientForm(w, t, 4 + j - t);
    } else if 4 <= j {
      if j + 5 < t {
        StraddleQuotient(w, t, u, j + 5);
      }
      QuotientForm(w, t, j + 16 - t);
    } else if t <= 4 + j {
      QuotientForm(w, t, 4 + j - t);
    } else {
      if j + 7 < t {
        StraddleQuotient(w, t, u, j + 7);
      }
      QuotientForm(w, t, 11 + j - t);
    }
  }

  /** The same for nine payload bits and six checksum bits: three symbols starting at the 52nd. */
  lemma WideStraddleQuotient(w: Register, j: nat)
    requires j < 9 && forall i :: 9 <= i < 16 ==> !w[i]
    requires forall i :: 0 <= i < 16 && (i < 8 || 14 <= i) ==> !ShiftN(w, 9)[i]
    ensures !Quotient(w, j)
    decreases 9 - j
  {
    if 7 <= j {
      QuotientForm(w, 9, j + 7);
    } else if 5 <= j {
      QuotientForm(w, 9, j - 5);
    } else {
      if j <= 1 {
        WideStraddleQuotient(w, j + 7);
      }
      QuotientForm(w, 9, j + 2);
    }
  }

  /** Windows of the id in which every error pattern changes the residue. */
  predicate NoticedWindow(from: nat, to: nat) {
    from <= to <= ID_BITS &&
    (to - from <= 12 || (to <= PAYLOAD_BITS && to - from <= 16) || PAYLOAD_BITS <= from || (from == 255 && to == 270))
  }

  lemma StraddleNoticed(e: seq<bool>, from: nat, to: nat)
    requires |e| == ID_BITS && true in e && ConfinedTo(e, from, to)
    requires from < PAYLOAD_BITS < to <= ID_BITS
    requires from + 12 == to || (from == 255 && to == 270)
    ensures Residue(e) != Zeros(16)
  {
    var t := PAYLOAD_BITS - from;
    var tail := e[from..PAYLOAD_BITS];
    var w: Register := tail + Zeros(16 - t);
    var stored := e[272..] + e[264..272];
    TailCrc(e, from);
    if Residue(e) == Zeros(16) {
      XorZero(ShiftN(w, t), stored);
      forall k | 0 <= k < t
        ensures !Quotient(w, k)
      {
        if from + 12 == to {
          StraddleQuotient(w, t, 12 - t, k);
        } else {
          WideStraddleQuotient(w, k);
        }
      }
      forall k | 0 <= k < t
        ensures !w[k] && !tail[k]
      {
        NoQuotientNoMessage(w, k);
      }
      assert w == Zeros(16);
      ShiftNNonzero(w, t);
      NothingLeft(e, from, to);
    }
  }

  lemma NothingLeft(e: seq<bool>, from: nat, to: nat)
    requires |e| == ID_BITS && from < PAYLOAD_BITS && ConfinedTo(e, from, to)
    requires forall k :: 0 <= k < PAYLOAD_BITS - from ==> !e[from..PAYLOAD_BITS][k]
    requires e[272..] + e[264..272] == Zeros(16)
    ensures true !in e
  {
    forall i | 0 <= i < ID_BITS
      ensures !e[i]
    {
      if from <= i < PAYLOAD_BITS {
        assert !e[from..PAYLOAD_BITS][i - from];
      } else if PAYLOAD_BITS <= i {
        assert (e[272..] + e[264..272])[if i < 272 then i - 256 else i - 272] == e[i];
      }
    }
  }

  lemma ErrorNoticed(e: seq<bool>, from: nat, to: nat)
    requires |e| == ID_BITS && true in e && ConfinedTo(e, from, to)
    requires NoticedWindow(from, to)
    ensures Residue(e) != Zeros(16)
  {
    if to <= PAYLOAD_BITS && to - from <= 16 {
      PayloadErrorNoticed(e, from, to);
    } else if PAYLOAD_BITS <= from {
      assert ConfinedTo(e, PAYLOAD_BITS, ID_BITS);
      ChecksumErrorNoticed(e);
    } else if from == 255 && to == 270 {
      StraddleNoticed(e, from, to);
    } else if from + 12 <= ID_BITS {
      assert ConfinedTo(e, from, from + 12);
      StraddleNoticed(e, from, from + 12);
    }
  }

  // ----- errors in symbols -----

  /** s and t agree outside n consecutive symbols starting at i. */
  predicate DifferOnlyIn(s: string, t: string, i: nat, n: nat) {
    |s| == |t| && forall j :: 0 <= j < |s| && (j < i || i + n <= j) ==> s[j] == t[j]
  }

  lemma {:induction false} SymbolErrorConfined(s: string, t: string, i: nat, n: nat)
    requires AllSymbols(s) && AllSymbols(t) && DifferOnlyIn(s, t, i, n)
    ensures ConfinedTo(Xor(SymbolBits(s), SymbolBits(t)), 5 * i, 5 * (i + n))
  {
    var a, b := SymbolBits(s), SymbolBits(t);
    forall k | 0 <= k < |a| && (k < 5 * i || 5 * (i + n) <= k)
      ensures a[k] == b[k]
    {
      var j := k / 5;
      SymbolBitsAt(s, j);
      SymbolBitsAt(t, j);
      assert a[5 * j..5 * j + 5][k - 5 * j] == b[5 * j..5 * j + 5][k - 5 * j];
    }
  }

  /** Two accepted ids never differ only inside such a window. */
  lemma AcceptedIdsDiffer(s: string, t: string, i: nat, n: nat)
    requires IsContractId(s) && IsContractId(t) && s != t && DifferOnlyIn(s, t, i, n)
    requires i + n <= ID_LENGTH
    ensures !NoticedWindow(5 * i, 5 * (i + n))
  {
    var a, b := SymbolBits(s), SymbolBits(t);
    var e := Xor(a, b);
    if NoticedWindow(5 * i, 5 * (i + n)) {
      SymbolErrorConfined(s, t, i, n);
      AcceptedHasNoResidue(s);
      AcceptedHasNoResidue(t);
      ResidueLinear(a, b);
      XorZero(Residue(a), Residue(b));
      if true !in e {
        assert e == Zeros(ID_BITS);
        XorZero(a, b);
        SymbolBitsInjective(s, t);
      }
      ErrorNoticed(e, 5 * i, 5 * (i + n));
      assert false;
    }
  }

  /** Replacing any one character of an accepted id, by anything else, is rejected. */
  lemma ReplacedCharacterRejected(s: string, i: nat, c: char)
    requires IsContractId(s) && i < |s| && c != s[i]
    ensures !IsContractId(s[i := c])
  {
    if IsContractId(s[i := c]) {
      AcceptedIdsDiffer(s, s[i := c], i, 1);
    }
  }

  /** So is any change confined to two neighbouring characters, a transposition among them. */
  lemma NeighbouringCharactersRejected(s: string, t: string, i: nat)
    requires IsContractId(s) && i + 2 <= ID_LENGTH && s != t && DifferOnlyIn(s, t, i, 2)
    ensures !IsContractId(t)
  {
    if IsContractId(t) {
      AcceptedIdsDiffer(s, t, i, 2);
    }
  }

  // ----- errors of odd weight, anywhere -----

  /** The residue has an odd number of one bits exactly if the 280 bits have. */
  lemma ResidueParity(bits: seq<bool>)
    requires |bits| == ID_BITS
    ensures Odd(Residue(bits)) == Odd(bits)
  {
    var message, low, high := bits[..PAYLOAD_BITS], bits[264..272], bits[272..];
    CrcParity(message);
    OddXor(Crc(message), high + low);
    OddAppend(high, low);
    OddAppend(low, high);
    OddAppend(message, low + high);
    assert bits == message + (low + high);
  }

  /** Accepted ids have an even number of one bits. */
  lemma AcceptedIsEven(s: string)
    requires IsContractId(s)
    ensures Ones(SymbolBits(s)) % 2 == 0
  {
    AcceptedHasNoResidue(s);
    ResidueParity(SymbolBits(s));
    OnesOfZeros(16);
    assert !Odd(SymbolBits(s));
  }

  /** An error in an odd number of bits is rejected, wherever in the id they are. */
  lemma OddErrorRejected(s: string, t: string)
    requires IsContractId(s) && |t| == ID_LENGTH && AllSymbols(t)
    requires Ones(Xor(SymbolBits(s), SymbolBits(t))) % 2 == 1
    ensures !IsContractId(t)
  {
    AcceptedIsEven(s);
    OddXor(SymbolBits(s), SymbolBits(t));
    assert Odd(Xor(SymbolBits(s), SymbolBits(t))) && !Odd(SymbolBits(s));
    if IsContractId(t) {
      AcceptedIsEven(t);
    }
  }

  // ----- three neighbouring characters: the exact blind spots -----

  /** An error pattern that keeps the residue: three symbols from the 51st, or from the 53rd. */
  function BlindError(i: nat): (e: seq<bool>)
    requires i == 50 || i == 52
    ensures |e| == ID_BITS
  {
    if i == 50 then seq(ID_BITS, k => k in {251, 255, 256, 260, 262, 264})
    else seq(ID_BITS, k => k in {261, 264, 269, 273})
  }

  lemma QuotientZeroOnly(w: Register)
    requires forall k :: 0 <= k < 16 ==> (w[k] <==> k == 0)
    ensures forall i :: 0 <= i < 16 ==> (ShiftN(w, 3)[i] <==> i in {1, 8, 13})
  {
    QuotientForm(w, 0, 0);
    QuotientForm(w, 1, 0);
    QuotientForm(w, 2, 0);
    assert Quotient(w, 0) && !Quotient(w, 1) && !Quotient(w, 2);
    forall i | 0 <= i < 16
      ensures ShiftN(w, 3)[i] <==> i in {1, 8, 13}
    {
      QuotientForm(w, 3, i);
    }
  }

  lemma QuotientZeroAndFive(w: Register)
    requires forall k :: 0 <= k < 16 ==> (w[k] <==> k in {0, 4, 5, 9, 11})
    ensures forall i :: 0 <= i < 16 ==> (ShiftN(w, 13)[i] <==> i == 8)
  {
    QuotientsZeroAndFive(w);
    forall i | 0 <= i < 16
      ensures ShiftN(w, 13)[i] <==> i == 8
    {
      QuotientForm(w, 13, i);
    }
  }

  lemma QuotientsZeroAndFive(w: Register)
    requires forall k :: 0 <= k < 16 ==> (w[k] <==> k in {0, 4, 5, 9, 11})
    ensures forall k :: 0 <= k < 13 ==> (Quotient(w, k) <==> k in {0, 5})
  {
    for k := 0 to 13
      invariant forall j :: 0 <= j < k ==> (Quotient(w, j) <==> j in {0, 5})
    {
      QuotientForm(w, k, 0);
    }
  }

  lemma BlindErrorKeepsResidue(i: nat)
    requires i == 50 || i == 52
    ensures Residue(BlindError(i)) == Zeros(16)
  {
    var e := BlindError(i);
    var from := if i == 50 then 251 else 261;
    var t := PAYLOAD_BITS - from;
    var tail := e[from..PAYLOAD_BITS];
    var w: Register := tail + Zeros(16 - t);
    TailCrc(e, from);
    if i == 50 {
      QuotientZeroAndFive(w);
    } else {
      QuotientZeroOnly(w);
    }
    var stored := e[272..] + e[264..272];
    forall k | 0 <= k < 16
      ensures ShiftN(w, t)[k] == stored[k]
    {
      assert stored[k] == e[if k < 8 then 272 + k else 256 + k];
    }
    assert ShiftN(w, t) == stored;
    XorZero(ShiftN(w, t), stored);
  }

  /** An error that starts in the last 16 payload bits is XOR-ed into a clear register. */
  lemma TailCrc(e: seq<bool>, from: nat)
    requires |e| == ID_BITS && PAYLOAD_BITS - 16 <= from < PAYLOAD_BITS && ConfinedTo(e, from, ID_BITS)
    ensures var t := PAYLOAD_BITS - from;
      Crc(e[..PAYLOAD_BITS]) == ShiftN(e[from..PAYLOAD_BITS] + Zeros(16 - t), t)
  {
    var tail := e[from..PAYLOAD_BITS];
    var w: Register := tail + Zeros(16 - |tail|);
    assert e[..PAYLOAD_BITS] == Zeros(from) + tail;
    FeedAppend(Zeros(16), Zeros(from), tail);
    FeedZeros(Zeros(16), from);
    ShiftNNonzero(Zeros(16), from);
    FeedWord(Zeros(16), tail);
    assert Xor(Zeros(16), w) == w;
  }

  lemma SameSymbol(s: string, t: string, j: nat)
    requires AllSymbols(s) && AllSymbols(t) && j < |s| && j < |t|
    requires SymbolBits(s)[5 * j..5 * j + 5] == SymbolBits(t)[5 * j..5 * j + 5]
    ensures s[j] == t[j]
  {
    SymbolBitsAt(s, j);
    SymbolBitsAt(t, j);
    PowersUsed();
    ValueOfWordBits(SymbolValue(s[j]), 5);
    ValueOfWordBits(SymbolValue(t[j]), 5);
  }

  lemma FlippedElsewhere(s: string, t: string, i: nat, j: nat)
    requires i == 50 || i == 52
    requires AllSymbols(s) && AllSymbols(t) && |s| == |t| == ID_LENGTH
    requires SymbolBits(t) == Xor(SymbolBits(s), BlindError(i))
    requires j < ID_LENGTH && (j < i || i + 3 <= j)
    ensures s[j] == t[j]
  {
    var a, b := SymbolBits(s), SymbolBits(t);
    assert forall k :: 5 * j <= k < 5 * j + 5 ==> a[k] == b[k];
    assert a[5 * j..5 * j + 5] == b[5 * j..5 * j + 5];
    SameSymbol(s, t, j);
  }

  /** Every accepted id has a neighbour that is accepted too and differs from it only in those symbols. */
  lemma BlindNeighbour(s: string, i: nat) returns (t: string)
    requires IsContractId(s) && (i == 50 || i == 52)
    ensures t != s && DifferOnlyIn(s, t, i, 3) && IsContractId(t)
  {
    var a, e := SymbolBits(s), BlindError(i);
    t := EncodeBits(Xor(a, e));
    SymbolBitsOfEncode(Xor(a, e));
    forall j | 0 <= j < |s| && (j < i || i + 3 <= j)
      ensures s[j] == t[j]
    {
      FlippedElsewhere(s, t, i, j);
    }
    assert Xor(a, e)[264] != a[264];
    AcceptedHasNoResidue(s);
    BlindErrorKeepsResidue(i);
    ResidueLinear(a, e);
    XorZero(Zeros(16), Zeros(16));
    SameFirstByte(s, t, i);
    NoResidueIsAccepted(s, t);
  }

  lemma SameFirstByte(s: string, t: string, i: nat)
    requires i == 50 || i == 52
    requires AllSymbols(s) && AllSymbols(t) && |s| == |t| == ID_LENGTH
    requires SymbolBits(t) == Xor(SymbolBits(s), BlindError(i))
    ensures SymbolBits(s)[..8] == SymbolBits(t)[..8]
  {
    assert forall k :: 0 <= k < 8 ==> SymbolBits(s)[k] == SymbolBits(t)[k];
  }

  lemma NoResidueIsAccepted(s: string, t: string)
    requires IsContractId(s) && |t| == ID_LENGTH && AllSymbols(t) && t[0] == s[0]
    requires SymbolBits(s)[..8] == SymbolBits(t)[..8]
    requires Residue(SymbolBits(t)) == Zeros(16)
    ensures IsContractId(t)
  {
    FirstOctet(SymbolBits(s));
    FirstOctet(SymbolBits(t));
    ChecksumIsResidue(t);
  }

  lemma {:induction false} FirstOctet(bits: seq<bool>)
    requires |bits| == ID_BITS
    ensures Octets(bits)[0] == Value(bits[..8])
  {
    ByteBitsOfOctets(bits);
    ByteBitsAt(Octets(bits), 0);
    PowersUsed();
    ValueOfWordBits(Octets(bits)[0], 8);
  }

  /** A change confined to three neighbouring characters can slip through at two places and nowhere else. */
  lemma ThreeNeighbouringCharacters(s: string, i: nat)
    requires IsContractId(s) && i + 3 <= ID_LENGTH
    ensures (exists t :: t != s && DifferOnlyIn(s, t, i, 3) && IsContractId(t)) <==> i == 50 || i == 52
  {
    if i == 50 || i == 52 {
      var t := BlindNeighbour(s, i);
    } else {
      forall t | t != s && DifferOnlyIn(s, t, i, 3)
        ensures !IsContractId(t)
      {
        if IsContractId(t) {
          AcceptedIdsDiffer(s, t, i, 3);
        }
      }
    }
  }
}
