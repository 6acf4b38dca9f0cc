/**
 The command line's StrKey codec: encode, decode, the three kinds of key, and
 its agreement with the API's validator.

 Go's base32 decoder is taken as documented: it ignores carriage returns and
 line feeds, rejects every other character outside the alphabet, and without
 padding keeps the whole octets of the last group when that group has a length
 RFC 4648 can produce.
 */
module StrKeyCli {
  import opened Base32
  import opened Crc16
  import opened StrKey

  const VERSION_CONTRACT: byte := 16
  const VERSION_ACCOUNT: byte := 48
  const VERSION_SEED: byte := 144
  const PAYLOAD_LENGTH := 32

  datatype CodecError = EmptyString | WrongLength | BadBase32 | TooShort
    | BadChecksum | WrongVersion | WrongPayload | TooLong

  datatype Result<+T> = Ok(value: T) | Err(error: CodecError)

  datatype Key = Key(version: byte, payload: seq<byte>)

  function UpperChar(c: char): char {
    if 'a' <= c <= 'z' then (c as int - 'a' as int + 'A' as int) as char else c
  }

  function ToUpper(s: string): (r: string)
    ensures |r| == |s|
  {
    seq(|s|, i requires 0 <= i < |s| => UpperChar(s[i]))
  }

  function StripNewlines(s: string): (r: string)
    ensures |r| <= |s|
    ensures |r| == |s| <==> '\r' !in s && '\n' !in s
    ensures |r| == |s| ==> r == s
  {
    if s == [] then []
    else
      var rest := StripNewlines(s[1..]);
      if s[0] == '\r' || s[0] == '\n' then rest else [s[0]] + rest
  }

  /** Octets kept from a last group of n symbols. */
  function LastGroupOctets(n: nat): (r: nat)
    requires n < 8
    ensures 8 * r <= 5 * n
  {
    match n
    case 7 => 4
    case 5 => 3
    case 4 => 2
    case 2 => 1
    case _ => 0
  }

  /** Octets kept from n symbols: five for each full group of eight, and what the last group holds. */
  function OctetCount(n: nat): (r: nat)
    ensures 8 * r <= 5 * n
    ensures n == ID_LENGTH ==> r == RAW_LENGTH
  {
    5 * (n / 8) + LastGroupOctets(n % 8)
  }

  function Base32Decode(s: string): (r: Result<seq<byte>>)
    ensures r.Ok? <==> AllSymbols(StripNewlines(s))
    ensures r.Ok? ==> 8 * |r.value| <= 5 * |StripNewlines(s)|
  {
    var t := StripNewlines(s);
    if !AllSymbols(t) then Err(BadBase32)
    else
      var octets := Octets(WholeOctets(SymbolBits(t)));
      Ok(octets[..OctetCount(|t|)])
  }

  function DecodeString(s: string): Result<seq<byte>> {
    if s == "" then Err(EmptyString)
    else if |s| != ID_LENGTH then Err(WrongLength)
    else Base32Decode(ToUpper(s))
  }

  function StoredWord(raw: seq<byte>): word
    requires |raw| >= 2
  {
    LittleEndian(raw[|raw| - 2], raw[|raw| - 1])
  }

  function DecodeStrkey(s: string): Result<Key> {
    var decoded := DecodeString(s);
    if decoded.Err? then Err(decoded.error)
    else
      var raw := decoded.value;
      if |raw| < 3 then Err(TooShort)
      else if Crc(ByteBits(raw[..|raw| - 2])) != WordBits(StoredWord(raw), 16) then Err(BadChecksum)
      else Ok(Key(raw[0], raw[1..|raw| - 2]))
  }

  function EncodeStrkey(version: byte, payload: seq<byte>): Result<string> {
    if |payload| > PAYLOAD_LENGTH then Err(TooLong)
    else
      var raw := [version] + payload;
      Ok(EncodeBits(ByteBits(raw + ChecksumBytes(raw))))
  }

  /** The checksum, low byte first. */
  function ChecksumBytes(raw: seq<byte>): (r: seq<byte>)
    ensures |r| == 2
    ensures WordBits(LittleEndian(r[0], r[1]), 16) == Crc(ByteBits(raw))
  {
    var crc: nat := ChecksumWord(raw);
    [crc % 256, crc / 256]
  }

  function ChecksumWord(raw: seq<byte>): (crc: word)
    ensures WordBits(crc, 16) == Crc(ByteBits(raw))
  {
    WordSize();
    WordBitsOfValue(Crc(ByteBits(raw)));
    Value(Crc(ByteBits(raw)))
  }

  function ValidateKey(s: string, version: byte): Result<()> {
    var decoded := DecodeStrkey(s);
    if decoded.Err? then Err(decoded.error)
    else if decoded.value.version != version then Err(WrongVersion)
    else if |decoded.value.payload| != PAYLOAD_LENGTH then Err(WrongPayload)
    else Ok(())
  }

  function ValidateContractID(s: string): Result<()> {
    ValidateKey(s, VERSION_CONTRACT)
  }

  function ValidateSeed(s: string): Result<()> {
    ValidateKey(s, VERSION_SEED)
  }

  function ValidateAccountID(s: string): Result<()> {
    ValidateKey(s, VERSION_ACCOUNT)
  }

  function DeriveAccountAddress(seed: string): Result<string> {
    var valid := ValidateSeed(seed);
    if valid.Err? then Err(valid.error)
    else EncodeStrkey(VERSION_ACCOUNT, DecodeStrkey(seed).value.payload)
  }

  /** What is decoded: as many octets as the symbols hold, spelled by the front of their bits. */
  lemma DecodedBits(s: string)
    requires Base32Decode(s).Ok?
    ensures var t, raw := StripNewlines(s), Base32Decode(s).value;
      && |raw| == OctetCount(|t|)
      && AllSymbols(t) && ByteBits(raw) == SymbolBits(t)[..8 * |raw|]
  {
    OctetsInFront(SymbolBits(StripNewlines(s)), OctetCount(|StripNewlines(s)|));
  }

  lemma OctetsInFront(bits: seq<bool>, n: nat)
    requires n <= |Octets(WholeOctets(bits))|
    ensures 8 * n <= |bits| && ByteBits(Octets(WholeOctets(bits))[..n]) == bits[..8 * n]
  {
    var whole := WholeOctets(bits);
    ByteBitsOfOctets(whole);
    ByteBitsPrefix(Octets(whole), n);
    PrefixOfPrefix(bits, |whole|, 8 * n);
  }

  lemma PrefixOfPrefix(bits: seq<bool>, m: nat, n: nat)
    requires n <= m <= |bits|
    ensures bits[..m][..n] == bits[..n]
  {
  }

  // ----- encode, then decode -----

  lemma UpperOfSymbols(s: string)
    requires AllSymbols(s)
    ensures ToUpper(s) == s && StripNewlines(s) == s
  {
    forall i | 0 <= i < |s|
      ensures s[i] != '\r' && s[i] != '\n'
    {
      assert IsSymbol(s[i]);
    }
  }

  lemma EncodedLength(version: byte, payload: seq<byte>)
    requires |payload| <= PAYLOAD_LENGTH
    ensures |EncodeStrkey(version, payload).value| == ID_LENGTH <==> |payload| == PAYLOAD_LENGTH
  {
  }

  /** Decoding undoes encoding exactly for full-size payloads; a shorter key is too short to be read back. */
  lemma DecodeUndoesEncode(version: byte, payload: seq<byte>)
    requires |payload| <= PAYLOAD_LENGTH
    ensures DecodeStrkey(EncodeStrkey(version, payload).value) ==
      if |payload| == PAYLOAD_LENGTH then Ok(Key(version, payload)) else Err(WrongLength)
  {
    EncodedLength(version, payload);
    if |payload| == PAYLOAD_LENGTH {
      var body := [version] + payload;
      var raw := body + ChecksumBytes(body);
      DecodeOfEncodedBytes(raw);
      assert raw[..33] == body && raw[1..33] == payload;
    }
  }

  lemma DecodeOfEncodedBytes(raw: seq<byte>)
    requires |raw| == RAW_LENGTH
    ensures DecodeString(EncodeBits(ByteBits(raw))) == Ok(raw)
  {
    DecodeOfEncodedBits(ByteBits(raw), raw);
  }

  lemma DecodeOfEncodedBits(bits: seq<bool>, raw: seq<byte>)
    requires |raw| == RAW_LENGTH && bits == ByteBits(raw)
    ensures DecodeString(EncodeBits(bits)) == Ok(raw)
  {
    SymbolBitsOfEncode(bits);
    DecodeOfSymbolBits(EncodeBits(bits), raw);
  }

  lemma DecodeOfSymbolBits(s: string, raw: seq<byte>)
    requires |s| == ID_LENGTH && AllSymbols(s) && SymbolBits(s) == ByteBits(raw)
    ensures DecodeString(s) == Ok(raw)
  {
    OctetsOfByteBits(raw);
    DecodeOfSymbols(s);
  }

  lemma DecodeOfSymbols(s: string)
    requires |s| == ID_LENGTH && AllSymbols(s)
    ensures DecodeString(s) == Ok(Octets(SymbolBits(s)))
  {
    UpperOfSymbols(s);
    FullGroupsDecode(s);
  }

  lemma FullGroupsDecode(s: string)
    requires |s| == ID_LENGTH && AllSymbols(s) && StripNewlines(s) == s
    ensures Base32Decode(s) == Ok(Octets(SymbolBits(s)))
  {
    var bits := SymbolBits(s);
    assert WholeOctets(bits) == bits;
    var octets := Octets(bits);
    assert octets[..|octets|] == octets;
  }

  // ----- the two validators agree -----

  /** The first character is the version byte's leading five bits. */
  lemma FirstCharacter(s: string)
    requires |s| == ID_LENGTH && AllSymbols(s)
    requires Octets(SymbolBits(s))[0] == CONTRACT_VERSION
    ensures s[0] == 'C'
  {
    var bits := SymbolBits(s);
    var raw := Octets(bits);
    ByteBitsOfOctets(bits);
    ByteBitsAt(raw, 0);
    SymbolBitsAt(s, 0);
    FirstFiveBits(bits, raw[0], SymbolValue(s[0]));
    assert Symbol(2) == 'C';
  }

  lemma FirstFiveBits(bits: seq<bool>, b: byte, v: nat)
    requires |bits| >= 8 && v < 32
    requires bits[..8] == WordBits(b, 8) && bits[..5] == WordBits(v, 5)
    ensures v == b / 8
  {
    PowersUsed();
    assert Pow2(3) == 8;
    JoinWords(b / 8, 5, b % 8, 3);
    assert WordBits(b, 8)[..5] == WordBits(b / 8, 5);
    assert bits[..8][..5] == bits[..5];
    ValueOfWordBits(v, 5);
    ValueOfWordBits(b / 8, 5);
  }

  /** A character outside the alphabet is rejected; a line break leaves too few bytes. */
  lemma ForeignCharacters(s: string)
    requires |s| == ID_LENGTH && !AllSymbols(ToUpper(s))
    ensures ValidateContractID(s).Err?
  {
    var decoded := DecodeString(s);
    if decoded.Ok? {
      assert |StripNewlines(ToUpper(s))| < ID_LENGTH;
      assert |decoded.value| < RAW_LENGTH;
    }
  }

  /** On every ASCII string the command line accepts what the API accepts, after folding to upper case. */
  lemma ValidatorsAgree(s: string)
    ensures ValidateContractID(s).Ok? <==> IsContractId(ToUpper(s))
  {
    var t := ToUpper(s);
    if |s| == ID_LENGTH {
      if AllSymbols(t) {
        UpperOfSymbols(t);
        DecodeOfSymbols(t);
        var raw := Octets(SymbolBits(t));
        assert raw[..|raw| - 2] == raw[..33];
        if raw[0] == CONTRACT_VERSION {
          FirstCharacter(t);
        }
      } else {
        ForeignCharacters(s);
      }
    }
  }

  /** Without lower-case letters the two validators accept the same strings. */
  lemma ValidatorsAgreeOnUpperCase(s: string)
    requires forall i :: 0 <= i < |s| ==> !('a' <= s[i] <= 'z')
    ensures ValidateContractID(s).Ok? <==> IsContractId(s)
  {
    assert ToUpper(s) == s;
    ValidatorsAgree(s);
  }

  /** The two validators agree on a string exactly when it has no lower-case letters or is no id even without them. */
  lemma ValidatorsAgreeIff(s: string)
    ensures (ValidateContractID(s).Ok? <==> IsContractId(s)) <==> ToUpper(s) == s || !IsContractId(ToUpper(s))
  {
    ValidatorsAgree(s);
    if IsContractId(s) {
      UpperOfSymbols(s);
    }
  }

  /** The API accepts exactly the encodings of a 32-byte payload under the contract version. */
  lemma ContractIdsAreEncodings(s: string)
    ensures IsContractId(s) <==>
      exists payload: seq<byte> :: |payload| == PAYLOAD_LENGTH && EncodeStrkey(VERSION_CONTRACT, payload) == Ok(s)
  {
    if IsContractId(s) {
      var payload := IdPayload(s);
    }
    forall payload: seq<byte> | |payload| == PAYLOAD_LENGTH && EncodeStrkey(VERSION_CONTRACT, payload) == Ok(s)
      ensures IsContractId(s)
    {
      DecodeUndoesEncode(VERSION_CONTRACT, payload);
      UpperOfSymbols(s);
      ValidatorsAgree(s);
    }
  }

  /** The id of any 32-byte payload, its first letter in lower case, passes the command line and not the API. */
  lemma LowerCaseSpelling(payload: seq<byte>)
    requires |payload| == PAYLOAD_LENGTH
    ensures var s := EncodeStrkey(VERSION_CONTRACT, payload).value;
      && IsContractId(s)
      && ValidateContractID(s[0 := 'c']).Ok? && !IsContractId(s[0 := 'c'])
  {
    var s := EncodeStrkey(VERSION_CONTRACT, payload).value;
    ContractIdsAreEncodings(s);
    LowerCaseAccepted(s);
  }

  lemma LowerCaseAccepted(s: string)
    requires IsContractId(s)
    ensures ValidateContractID(s[0 := 'c']).Ok?
  {
    UpperOfSymbols(s);
    assert ToUpper(s[0 := 'c']) == s;
    ValidatorsAgree(s[0 := 'c']);
  }

  lemma IdPayload(s: string) returns (payload: seq<byte>)
    requires IsContractId(s)
    ensures |payload| == PAYLOAD_LENGTH && EncodeStrkey(VERSION_CONTRACT, payload) == Ok(s)
  {
    var raw := Octets(SymbolBits(s));
    payload := raw[1..33];
    var body := [VERSION_CONTRACT] + payload;
    assert body == raw[..33];
    SameChecksum(body, raw[33], raw[34]);
    assert body + ChecksumBytes(body) == raw;
    ByteBitsOfOctets(SymbolBits(s));
    EncodeOfSymbolBits(s);
  }

  lemma SameChecksum(body: seq<byte>, low: byte, high: byte)
    requires Crc(ByteBits(body)) == WordBits(LittleEndian(low, high), 16)
    ensures ChecksumBytes(body) == [low, high]
  {
    BytesOfWord(ChecksumBytes(body), low, high);
  }

  lemma BytesOfWord(r: seq<byte>, low: byte, high: byte)
    requires |r| == 2 && WordBits(LittleEndian(r[0], r[1]), 16) == WordBits(LittleEndian(low, high), 16)
    ensures r == [low, high]
  {
    SameWord(LittleEndian(r[0], r[1]), LittleEndian(low, high));
  }

  /** A seed's account address is a well-formed account id that carries the seed's own key material. */
  lemma DerivedAddressIsAccount(seed: string)
    ensures DeriveAccountAddress(seed).Ok? <==> ValidateSeed(seed).Ok?
    ensures DeriveAccountAddress(seed).Ok? ==>
      var address := DeriveAccountAddress(seed).value;
      ValidateAccountID(address).Ok? && DecodeStrkey(address).value.payload == DecodeStrkey(seed).value.payload
  {
    if ValidateSeed(seed).Ok? {
      DecodeUndoesEncode(VERSION_ACCOUNT, DecodeStrkey(seed).value.payload);
    }
  }
}
