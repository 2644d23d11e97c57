/** The compressed integers, tokens and signed integers of metadata signatures (cor.h), as ECMA-335
    Partition II section 23.2 defines them.

    Decoding undoes encoding on exactly the values that can be encoded, a concatenation of encodings
    decodes to the list that was encoded, and the two decoders agree on everything the
    length-checked one accepts.

    Shifts and masks are written as division and remainder by powers of two, and `|` of bits that do
    not overlap as a sum; a signed integer is its value, not its two's complement bits. */
module MetadataCodec {
  import opened Options

  type Byte = b: int | 0 <= b < 0x100
  type Word = w: int | 0 <= w < 0x1_0000_0000

  /** (ULONG) -1. */
  const FAILED: nat := 0xFFFF_FFFF
  const MAX_DATA: Word := 0x1FFF_FFFF

  // ---- Encoding ----

  function OneByte(n: Word): seq<Byte> {
    [n % 0x100]
  }

  /** The first byte starts with the bits 10. */
  function TwoBytes(n: Word): seq<Byte>
    requires n <= 0x3FFF
  {
    [0x80 + n / 0x100, n % 0x100]
  }

  /** The first byte starts with the bits 110. */
  function FourBytes(n: Word): seq<Byte>
    requires n <= MAX_DATA
  {
    [0xC0 + n / 0x100_0000, n / 0x1_0000 % 0x100, n / 0x100 % 0x100, n % 0x100]
  }

  function Compressed(n: Word): Option<seq<Byte>> {
    if n <= 0x7F then Some(OneByte(n))
    else if n <= 0x3FFF then Some(TwoBytes(n))
    else if n <= MAX_DATA then Some(FourBytes(n))
    else None
  }

  /** `out` holds `bytes` from `at` on, and is otherwise what it was. */
  predicate Written(before: seq<Byte>, after: seq<Byte>, at: nat, bytes: seq<Byte>) {
    at + |bytes| <= |before| && after == before[..at] + bytes + before[at + |bytes|..]
  }

  method StoreTwo(n: Word, pDataOut: array<Byte>, at: nat)
    requires n <= 0x3FFF && at + 2 <= pDataOut.Length
    modifies pDataOut
    ensures Written(old(pDataOut[..]), pDataOut[..], at, TwoBytes(n))
  {
    pDataOut[at] := n / 0x100 + 0x80;
    pDataOut[at + 1] := n % 0x100;
  }

  method StoreFour(n: Word, pDataOut: array<Byte>, at: nat)
    requires n <= MAX_DATA && at + 4 <= pDataOut.Length
    modifies pDataOut
    ensures Written(old(pDataOut[..]), pDataOut[..], at, FourBytes(n))
  {
    pDataOut[at] := n / 0x100_0000 + 0xC0;
    pDataOut[at + 1] := n / 0x1_0000 % 0x100;
    pDataOut[at + 2] := n / 0x100 % 0x100;
    pDataOut[at + 3] := n % 0x100;
  }

  method CorSigCompressData(iLen: Word, pDataOut: array<Byte>, at: nat) returns (cb: nat)
    requires at + 4 <= pDataOut.Length
    modifies pDataOut
    ensures match Compressed(iLen)
            case Some(bytes) => cb == |bytes| && Written(old(pDataOut[..]), pDataOut[..], at, bytes)
            case None => cb == FAILED && pDataOut[..] == old(pDataOut[..])
  {
    if iLen <= 0x7F {
      pDataOut[at] := iLen;
      return 1;
    }
    if iLen <= 0x3FFF {
      StoreTwo(iLen, pDataOut, at);
      return 2;
    }
    if iLen <= 0x1FFF_FFFF {
      StoreFour(iLen, pDataOut, at);
      return 4;
    }
    return FAILED;
  }

  // ---- Decoding ----

  function UncompressedDataSize(first: Byte): nat {
    if first < 0x80 then 1 else if first < 0xC0 then 2 else 4
  }

  predicate Whole(data: seq<Byte>) {
    data != [] && UncompressedDataSize(data[0]) <= |data|
  }

  /** Bytes put together, most significant first. */
  function Pair(a: int, b: int): int {
    a * 0x100 + b
  }

  function Quad(a: int, b: int, c: int, d: int): int {
    a * 0x100_0000 + b * 0x1_0000 + c * 0x100 + d
  }

  /** The integer a compressed form stands for. */
  function Value(data: seq<Byte>): Word
    requires Whole(data)
  {
    if data[0] < 0x80 then data[0]
    else if data[0] < 0xC0 then Pair(data[0] % 0x40, data[1])
    else Quad(data[0] % 0x20, data[1], data[2], data[3])
  }

  /** CorSigUncompressData and CorSigUncompressBigData on a moving pointer. */
  method StreamData(data: seq<Byte>, p: nat) returns (res: Word, next: nat)
    requires p < |data| && Whole(data[p..])
    ensures res == Value(data[p..]) && next == p + UncompressedDataSize(data[p])
  {
    if data[p] < 0x80 {
      return data[p], p + 1;
    }
    next := p;
    var byte: int := data[next];
    if byte < 0xC0 {
      res := byte % 0x40 * 0x100;
      next := next + 1;
      res := res + data[next];
      next := next + 1;
    } else {
      res := byte % 0x20 * 0x100_0000;
      next := next + 1;
      byte := data[next];
      res := res + byte * 0x1_0000;
      next := next + 1;
      byte := data[next];
      res := res + byte * 0x100;
      next := next + 1;
      res := res + data[next];
      next := next + 1;
    }
  }

  /** The first byte does not start with the bits 111. */
  predicate Recognized(first: Byte) {
    first < 0xE0
  }

  /** What the length-checked decoder accepts in a signature of `len` bytes. */
  predicate Accepts(data: seq<Byte>, len: nat)
    requires data != []
  {
    Recognized(data[0]) && UncompressedDataSize(data[0]) <= len
  }

  /** CorSigUncompressData with the remaining length: no value when the signature is bad. The first
      byte is looked at whatever the length says. */
  method CheckedData(data: seq<Byte>, len: nat) returns (dataOut: Option<Word>, dataLen: nat)
    requires data != [] && len <= |data|
    ensures dataOut.Some? <==> Accepts(data, len)
    ensures dataOut.Some? ==> dataOut.value == Value(data) && dataLen == UncompressedDataSize(data[0])
    ensures dataOut.None? ==> dataLen == 0
  {
    dataOut, dataLen := None, 0;
    if data[0] < 0x80 {
      if len >= 1 {
        return Some(data[0]), 1;
      }
    } else if data[0] < 0xC0 {
      if len >= 2 {
        return Some(Pair(data[0] % 0x40, data[1])), 2;
      }
    } else if data[0] < 0xE0 {
      if len >= 4 {
        return Some(Quad(data[0] % 0x20, data[1], data[2], data[3])), 4;
      }
    }
  }

  // ---- Round trip ----

  /** `bytes`, followed by anything, is accepted as a whole and stands for `n`. */
  predicate IsForm(bytes: seq<Byte>, rest: seq<Byte>, n: Word) {
    && bytes != []
    && Accepts(bytes + rest, |bytes|)
    && UncompressedDataSize(bytes[0]) == |bytes|
    && Value(bytes + rest) == n
  }

  lemma FourBytesSum(n: Word)
    ensures Quad(n / 0x100_0000, n / 0x1_0000 % 0x100, n / 0x100 % 0x100, n % 0x100) == n
  {
    assert n / 0x1_0000 == n / 0x100 / 0x100 && n / 0x100_0000 == n / 0x1_0000 / 0x100;
  }

  lemma FormsBack(n: Word, rest: seq<Byte>)
    ensures n <= 0x7F ==> IsForm(OneByte(n), rest, n)
    ensures n <= 0x3FFF ==> IsForm(TwoBytes(n), rest, n)
    ensures n <= MAX_DATA ==> IsForm(FourBytes(n), rest, n)
  {
    FourBytesSum(n);
  }

  /** Exactly the values up to 2^29 - 1 can be encoded, and each is read back, by both decoders, from
      its own bytes followed by anything. */
  lemma RoundTrip(n: Word, rest: seq<Byte>)
    ensures n <= MAX_DATA <==> Compressed(n).Some?
    ensures n <= MAX_DATA ==> IsForm(Compressed(n).value, rest, n)
  {
    FormsBack(n, rest);
  }

  /** Every accepted form stands for a value that can be encoded, and the encoder never needs more
      bytes; with as many bytes it gives the same form back. */
  lemma ShortestForm(data: seq<Byte>)
    requires data != [] && Accepts(data, |data|)
    ensures Value(data) <= MAX_DATA
    ensures var bytes, size := Compressed(Value(data)).value, UncompressedDataSize(data[0]);
            |bytes| <= size && (|bytes| == size ==> bytes == data[..size])
  {
    if UncompressedDataSize(data[0]) == 1 {
      assert data[..1] == [data[0]];
    } else if UncompressedDataSize(data[0]) == 2 {
      assert data[..2] == [data[0], data[1]];
    } else {
      FourBytesForth(data[0] % 0x20, data[1], data[2], data[3]);
      assert data[..4] == [data[0], data[1], data[2], data[3]];
    }
  }

  lemma FourBytesForth(a: Byte, b: Byte, c: Byte, d: Byte)
    requires a < 0x20
    ensures var n := Quad(a, b, c, d);
            && n <= MAX_DATA
            && n / 0x100_0000 == a && n / 0x1_0000 % 0x100 == b && n / 0x100 % 0x100 == c && n % 0x100 == d
  {
    var n := Quad(a, b, c, d);
    assert n / 0x100 == Quad(0, a, b, c);
    assert n / 0x1_0000 == Pair(a, b);
  }

  /** What the length-checked decoder does not recognize the streaming one reads as if the third bit
      were clear. */
  lemma UnrecognizedAlias(data: seq<Byte>)
    requires 4 <= |data| && !Recognized(data[0])
    ensures !Accepts(data, |data|)
    ensures var alias := [data[0] - 0x20] + data[1..]; Accepts(alias, |alias|) && Value(alias) == Value(data)
  {
  }

  // ---- Lists ----

  function CompressedAll(ns: seq<Word>): seq<Byte>
    requires forall i :: 0 <= i < |ns| ==> ns[i] <= MAX_DATA
  {
    if ns == [] then [] else Compressed(ns[0]).value + CompressedAll(ns[1..])
  }

  function UncompressedAll(data: seq<Byte>): Option<seq<Word>> {
    if data == [] then Some([])
    else if !Accepts(data, |data|) then None
    else
      match UncompressedAll(data[UncompressedDataSize(data[0])..])
      case None => None
      case Some(ns) => Some([Value(data)] + ns)
  }

  lemma {:induction false} ListRoundTrip(ns: seq<Word>)
    requires forall i :: 0 <= i < |ns| ==> ns[i] <= MAX_DATA
    ensures UncompressedAll(CompressedAll(ns)) == Some(ns)
  {
    if ns != [] {
      var first, rest := Compressed(ns[0]).value, CompressedAll(ns[1..]);
      RoundTrip(ns[0], rest);
      ListRoundTrip(ns[1..]);
      assert (first + rest)[|first|..] == rest;
      assert [ns[0]] + ns[1..] == ns;
    }
  }

  // ---- Tokens ----

  /** The kinds of token that have an encoding, by their top byte. */
  const TYPE_REF: Byte := 0x01
  const TYPE_DEF: Byte := 0x02
  const TYPE_SPEC: Byte := 0x1b
  const BASE_TYPE: Byte := 0x72

  function RidFromToken(tk: Word): nat {
    tk % 0x100_0000
  }

  function TypeFromToken(tk: Word): Byte {
    tk / 0x100_0000
  }

  function DecodeTokenType(encoded: nat): Byte {
    if encoded == 0 then TYPE_DEF
    else if encoded == 1 then TYPE_REF
    else if encoded == 2 then TYPE_SPEC
    else BASE_TYPE
  }

  function PackedToken(tk: Word): Word {
    RidFromToken(tk) * 4 +
      if TypeFromToken(tk) == TYPE_REF then 1
      else if TypeFromToken(tk) == TYPE_SPEC then 2
      else if TypeFromToken(tk) == BASE_TYPE then 3
      else 0
  }

  /** Bitwise or. */
  function Or(a: nat, b: nat): nat {
    if a == 0 && b == 0 then 0
    else Or(a / 2, b / 2) * 2 + if a % 2 == 1 || b % 2 == 1 then 1 else 0
  }

  lemma {:induction false} OrZero(b: nat)
    ensures Or(0, b) == b
  {
    if b != 0 {
      OrZero(b / 2);
    }
  }

  /** TokenFromRid: the row number, whose top bits fall into the kind's byte when a form has more than
      24 bits of it. */
  function UnpackedToken(w: Word): nat {
    var rid := w / 4;
    rid % 0x100_0000 + Or(rid / 0x100_0000, DecodeTokenType(w % 4)) * 0x100_0000
  }

  method CorSigCompressToken(tk: Word, pDataOut: array<Byte>, at: nat) returns (cb: nat)
    requires at + 4 <= pDataOut.Length
    modifies pDataOut
    ensures Compressed(PackedToken(tk)).Some?
    ensures var bytes := Compressed(PackedToken(tk)).value;
            cb == |bytes| && Written(old(pDataOut[..]), pDataOut[..], at, bytes)
  {
    var rid := RidFromToken(tk);
    var ulTyp := TypeFromToken(tk);
    assert rid <= 0x3FF_FFFF; // a row number has 24 bits, so the size check never fails
    rid := rid * 4;
    if ulTyp == DecodeTokenType(1) {
      rid := rid + 1;
    } else if ulTyp == DecodeTokenType(2) {
      rid := rid + 2;
    } else if ulTyp == DecodeTokenType(3) {
      rid := rid + 3;
    }
    cb := CorSigCompressData(rid, pDataOut, at);
  }

  method StreamToken(data: seq<Byte>, p: nat) returns (tk: nat, next: nat)
    requires p < |data| && Whole(data[p..])
    ensures tk == UnpackedToken(Value(data[p..])) && next == p + UncompressedDataSize(data[p])
  {
    tk, next := StreamData(data, p);
    var tkType := DecodeTokenType(tk % 4);
    tk := tk / 4 % 0x100_0000 + Or(tk / 4 / 0x100_0000, tkType) * 0x100_0000;
  }

  /** No token stands for mdTokenNil. */
  method CheckedToken(data: seq<Byte>, len: nat) returns (token: Option<nat>, tokenLength: nat)
    requires data != [] && len <= |data|
    ensures token.Some? <==> Accepts(data, len)
    ensures token.Some? ==> token.value == UnpackedToken(Value(data)) && tokenLength == UncompressedDataSize(data[0])
  {
    var tk;
    tk, tokenLength := CheckedData(data, len);
    match tk
    case Some(w) =>
      var tkType := DecodeTokenType(w % 4);
      token := Some(w / 4 % 0x100_0000 + Or(w / 4 / 0x100_0000, tkType) * 0x100_0000);
    case None => token := None;
  }

  predicate Encodable(kind: Byte) {
    kind == TYPE_DEF || kind == TYPE_REF || kind == TYPE_SPEC || kind == BASE_TYPE
  }

  lemma PackedBack(tk: Word)
    ensures UnpackedToken(PackedToken(tk))
         == RidFromToken(tk) + (if Encodable(TypeFromToken(tk)) then TypeFromToken(tk) else TYPE_DEF) * 0x100_0000
  {
    assert PackedToken(tk) / 4 == RidFromToken(tk);
    OrZero(DecodeTokenType(PackedToken(tk) % 4));
  }

  /** A token survives the round trip exactly when it is of one of the four encodable kinds; any other
      kind comes back as a type definition. */
  lemma TokenRoundTripIff(tk: Word, rest: seq<Byte>)
    ensures Compressed(PackedToken(tk)).Some?
    ensures IsForm(Compressed(PackedToken(tk)).value, rest, PackedToken(tk))
    ensures UnpackedToken(PackedToken(tk)) == tk <==> Encodable(TypeFromToken(tk))
    ensures !Encodable(TypeFromToken(tk)) ==>
              UnpackedToken(PackedToken(tk)) == RidFromToken(tk) + TYPE_DEF * 0x100_0000
  {
    RoundTrip(PackedToken(tk), rest);
    PackedBack(tk);
  }

  // ---- Signed integers ----

  type Int32 = i: int | -0x8000_0000 <= i < 0x8000_0000

  /** The bits of a form of 7, 14 or 29 bits that are not its sign. */
  function Magnitudes(size: nat): nat {
    if size == 1 then 0x40 else if size == 2 then 0x2000 else 0x1000_0000
  }

  /** The bits above those are all zero or all one. */
  predicate FitsMask(i: Int32, size: nat) {
    0 <= i + Magnitudes(size) < 2 * Magnitudes(size)
  }

  /** The low bits in two's complement, with the sign moved behind them. */
  function Rotated(i: Int32, size: nat): Word
    requires FitsMask(i, size)
  {
    i % Magnitudes(size) * 2 + if i < 0 then 1 else 0
  }

  function CompressedSigned(i: Int32): Option<seq<Byte>> {
    if FitsMask(i, 1) then Some(OneByte(Rotated(i, 1)))
    else if FitsMask(i, 2) then Some(TwoBytes(Rotated(i, 2)))
    else if FitsMask(i, 4) then Some(FourBytes(Rotated(i, 4)))
    else None
  }

  method CorSigCompressSignedInt(iData: Int32, pDataOut: array<Byte>, at: nat) returns (cb: nat)
    requires at + 4 <= pDataOut.Length
    modifies pDataOut
    ensures match CompressedSigned(iData)
            case Some(bytes) => cb == |bytes| && Written(old(pDataOut[..]), pDataOut[..], at, bytes)
            case None => cb == FAILED && pDataOut[..] == old(pDataOut[..])
  {
    var isSigned := if iData < 0 then 1 else 0;
    if -0x40 <= iData < 0x40 {
      pDataOut[at] := iData % 0x40 * 2 + isSigned;
      return 1;
    } else if -0x2000 <= iData < 0x2000 {
      StoreTwo(iData % 0x2000 * 2 + isSigned, pDataOut, at);
      return 2;
    } else if -0x1000_0000 <= iData < 0x1000_0000 {
      StoreFour(iData % 0x1000_0000 * 2 + isSigned, pDataOut, at);
      return 4;
    }
    return FAILED;
  }

  /** With the last bit set, all bits above the form's own are. */
  function SignExtended(w: Word, size: nat): int {
    if w % 2 == 0 then w / 2 else w / 2 - Magnitudes(size)
  }

  /** CorSigUncompressSignedInt; the length is unknown and taken to be large enough. */
  method UncompressSignedInt(data: seq<Byte>) returns (value: Option<int>, cb: nat)
    requires data != [] && (Recognized(data[0]) ==> Whole(data))
    ensures value.Some? <==> Recognized(data[0])
    ensures value.Some? ==> cb == UncompressedDataSize(data[0]) && value.value == SignExtended(Value(data), cb)
    ensures value.None? ==> cb == FAILED
  {
    var iData;
    iData, cb := CheckedData(data, |data|);
    if iData.None? {
      return None, FAILED;
    }
    var ulSigned := iData.value % 2;
    var w: int := iData.value / 2;
    if ulSigned != 0 {
      if cb == 1 {
        w := w - 0x40;
      } else if cb == 2 {
        w := w - 0x2000;
      } else {
        w := w - 0x1000_0000;
      }
    }
    value := Some(w);
  }

  lemma RotatedBack(i: Int32, size: nat)
    requires FitsMask(i, size)
    ensures Rotated(i, size) < 2 * Magnitudes(size) && SignExtended(Rotated(i, size), size) == i
  {
    if i < 0 {
      assert i % Magnitudes(size) == i + Magnitudes(size);
    }
  }

  /** Exactly the values from -2^28 to 2^28 - 1 can be encoded, and each is read back with its sign. */
  lemma SignedRoundTrip(i: Int32, rest: seq<Byte>)
    ensures -0x1000_0000 <= i < 0x1000_0000 <==> CompressedSigned(i).Some?
    ensures CompressedSigned(i).Some? ==>
              var bytes := CompressedSigned(i).value;
              && Whole(bytes + rest) && Accepts(bytes + rest, |bytes|)
              && UncompressedDataSize(bytes[0]) == |bytes|
              && SignExtended(Value(bytes + rest), |bytes|) == i
  {
    if CompressedSigned(i).Some? {
      var size := if FitsMask(i, 1) then 1 else if FitsMask(i, 2) then 2 else 4;
      RotatedBack(i, size);
      FormsBack(Rotated(i, size), rest);
    }
  }
}
