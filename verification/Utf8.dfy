/** The POSIX PalWideCharToMultiByte (pal_io.h) and its two-pass caller MethodCache.WideToUtf8.

    The conversion keeps unpaired surrogates as three bytes, so no name is lost: decoding gives back
    every input (`RoundTrip`), and the result is UTF-8 in the sense of RFC 3629 exactly for
    well-formed UTF-16 (`ValidIff`), all of it (`ValidAreEncodings`).

    Shifts and masks are written as division and remainder by powers of two, and `|` of bits that do
    not overlap as a sum. */
module Utf8 {
  import opened Options

  type Byte = b: int | 0 <= b < 0x100
  /** A UTF-16 code unit. */
  type Unit = u: int | 0 <= u < 0x1_0000
  type CodePoint = c: int | 0 <= c < 0x11_0000

  predicate High(u: int) {
    0xD800 <= u <= 0xDBFF
  }

  predicate Low(u: int) {
    0xDC00 <= u <= 0xDFFF
  }

  // ---- Code points ----

  predicate Paired(wide: seq<Unit>) {
    2 <= |wide| && High(wide[0]) && Low(wide[1])
  }

  function PairValue(hi: int, lo: int): int {
    0x10000 + (hi - 0xD800) * 0x400 + (lo - 0xDC00)
  }

  /** The first code point of `wide`: a surrogate pair, or one unit as it is. */
  function First(wide: seq<Unit>): CodePoint
    requires wide != []
  {
    if Paired(wide) then PairValue(wide[0], wide[1]) else wide[0]
  }

  function FirstUnits(wide: seq<Unit>): nat {
    if Paired(wide) then 2 else 1
  }

  function CodePoints(wide: seq<Unit>): seq<CodePoint> {
    if wide == [] then [] else [First(wide)] + CodePoints(wide[FirstUnits(wide)..])
  }

  // ---- Encoding ----

  function Bytes(cp: CodePoint): seq<Byte> {
    if cp < 0x80 then [cp]
    else if cp < 0x800 then [0xC0 + cp / 0x40, 0x80 + cp % 0x40]
    else if cp < 0x10000 then [0xE0 + cp / 0x1000, 0x80 + cp / 0x40 % 0x40, 0x80 + cp % 0x40]
    else [0xF0 + cp / 0x4_0000, 0x80 + cp / 0x1000 % 0x40, 0x80 + cp / 0x40 % 0x40, 0x80 + cp % 0x40]
  }

  function Flat(cps: seq<CodePoint>): seq<Byte> {
    if cps == [] then [] else Flat(cps[..|cps| - 1]) + Bytes(cps[|cps| - 1])
  }

  function Encoded(wide: seq<Unit>): seq<Byte> {
    Flat(CodePoints(wide))
  }

  /** What of the encoding goes into a buffer of `room` bytes: code points until one does not fit. */
  function Fits(cps: seq<CodePoint>, room: nat): (bytes: seq<Byte>)
    ensures |bytes| <= room
    ensures |Flat(cps)| <= room ==> bytes == Flat(cps)
  {
    if cps == [] then []
    else
      var before := Fits(cps[..|cps| - 1], room);
      if |Flat(cps)| <= room then before + Bytes(cps[|cps| - 1]) else before
  }

  /** What a terminated or counted string stands for. */
  function Input(wide: seq<Unit>, wideLen: int): seq<Unit>
    requires wideLen <= |wide| && (wideLen < 0 ==> 0 in wide)
  {
    if wideLen >= 0 then wide[..wideLen] else wide[..FirstNul(wide)]
  }

  function FirstNul(wide: seq<Unit>): (k: nat)
    requires 0 in wide
    ensures k < |wide| && wide[k] == 0 && forall j :: 0 <= j < k ==> wide[j] != 0
  {
    if wide[0] == 0 then 0 else 1 + FirstNul(wide[1..])
  }

  /** A counted string is that many units, zeros among them or not; a terminated one all before its first zero. */
  lemma InputMeans(wide: seq<Unit>, wideLen: int, before: seq<Unit>, after: seq<Unit>)
    ensures 0 <= wideLen == |before| && wide == before + after ==> Input(wide, wideLen) == before
    ensures wideLen < 0 && wide == before + [0] + after && 0 !in before ==> Input(wide, wideLen) == before
  {
    if 0 <= wideLen == |before| && wide == before + after {
      assert wide[..wideLen] == before;
    }
    if wideLen < 0 && wide == before + [0] + after && 0 !in before {
      assert wide[|before|] == 0;
      assert forall i :: 0 <= i < |before| ==> wide[i] == before[i];
      assert wide[..FirstNul(wide)] == before;
    }
  }

  // ---- The conversion ----

  lemma CodePointsStep(wide: seq<Unit>, i: nat)
    requires i < |wide|
    ensures var n := FirstUnits(wide[i..]);
            i + n <= |wide| && CodePoints(wide[i..]) == [First(wide[i..])] + CodePoints(wide[i + n..])
  {
    assert wide[i..][FirstUnits(wide[i..])..] == wide[i + FirstUnits(wide[i..])..];
  }

  lemma Regroup<T>(done: seq<T>, x: T, rest: seq<T>)
    ensures done + ([x] + rest) == done + [x] + rest
  {
  }

  lemma FlatSnoc(cps: seq<CodePoint>, cp: CodePoint)
    ensures Flat(cps + [cp]) == Flat(cps) + Bytes(cp)
  {
    assert (cps + [cp])[..|cps|] == cps;
  }

  lemma FitsSnoc(cps: seq<CodePoint>, cp: CodePoint, room: nat)
    ensures Fits(cps + [cp], room)
         == if |Flat(cps)| + |Bytes(cp)| <= room then Flat(cps) + Bytes(cp) else Fits(cps, room)
  {
    assert (cps + [cp])[..|cps|] == cps;
    FlatSnoc(cps, cp);
  }

  /** A buffer with `bytes` written at its start. */
  function Over(before: seq<Byte>, bytes: seq<Byte>): seq<Byte>
    requires |bytes| <= |before|
  {
    bytes + before[|bytes|..]
  }

  lemma OverMore(before: seq<Byte>, bytes: seq<Byte>, more: seq<Byte>, was: seq<Byte>, now: seq<Byte>)
    requires |bytes| + |more| <= |before| && was == Over(before, bytes)
    requires now == was[..|bytes|] + more + was[|bytes| + |more|..]
    ensures now == Over(before, bytes + more)
  {
  }

  /** One code point's bytes into the buffer. */
  method WriteBytes(mb: array<Byte>, at: nat, cp: CodePoint)
    requires at + |Bytes(cp)| <= mb.Length
    modifies mb
    ensures mb[..] == old(mb[..])[..at] + Bytes(cp) + old(mb[..])[at + |Bytes(cp)|..]
  {
    if cp < 0x80 {
      mb[at] := cp;
    } else if cp < 0x800 {
      mb[at] := 0xC0 + cp / 0x40;
      mb[at + 1] := 0x80 + cp % 0x40;
    } else if cp < 0x10000 {
      mb[at] := 0xE0 + cp / 0x1000;
      mb[at + 1] := 0x80 + cp / 0x40 % 0x40;
      mb[at + 2] := 0x80 + cp % 0x40;
    } else {
      mb[at] := 0xF0 + cp / 0x4_0000;
      mb[at + 1] := 0x80 + cp / 0x1000 % 0x40;
      mb[at + 2] := 0x80 + cp / 0x40 % 0x40;
      mb[at + 3] := 0x80 + cp % 0x40;
    }
  }

  /** The next code point is encoded into the buffer when there is one and it has room. */
  method Offer(mb: array?<Byte>, mbSize: nat, outLen: nat, cp: CodePoint,
               ghost before: seq<Byte>, ghost done: seq<CodePoint>)
    requires outLen == |Flat(done)|
    requires mb != null ==> mbSize <= mb.Length == |before| && mb[..] == Over(before, Fits(done, mbSize))
    modifies mb
    ensures mb != null ==> mb[..] == Over(before, Fits(done + [cp], mbSize))
  {
    if mb != null {
      FitsSnoc(done, cp, mbSize);
      if outLen + |Bytes(cp)| <= mbSize {
        ghost var was := mb[..];
        WriteBytes(mb, outLen, cp);
        OverMore(before, Flat(done), Bytes(cp), was, mb[..]);
      }
    }
  }

  method Next(units: seq<Unit>, i: nat) returns (cp: CodePoint, next: nat)
    requires i < |units|
    ensures cp == First(units[i..]) && next == i + FirstUnits(units[i..])
  {
    cp := units[i];
    next := i + 1;
    if 0xD800 <= cp <= 0xDBFF && i + 1 < |units| {
      var lo: int := units[i + 1];
      if 0xDC00 <= lo <= 0xDFFF {
        var hi: int := cp;
        cp := 0x10000 + (hi - 0xD800) * 0x400 + (lo - 0xDC00);
        next := next + 1;
      }
    }
  }

  method Convert(units: seq<Unit>, mb: array?<Byte>, mbSize: nat) returns (outLen: nat)
    requires mb != null ==> mbSize <= mb.Length
    modifies mb
    ensures outLen == |Encoded(units)|
    ensures mb != null ==> mb[..] == Over(old(mb[..]), Fits(CodePoints(units), mbSize))
  {
    outLen := 0;
    var i := 0;
    ghost var before: seq<Byte> := if mb != null then mb[..] else [];
    ghost var done: seq<CodePoint> := [];
    NothingYet(before, units);
    while i < |units|
      invariant 0 <= i <= |units| && outLen == |Flat(done)|
      invariant CodePoints(units) == done + CodePoints(units[i..])
      invariant mb != null ==> mb[..] == Over(before, Fits(done, mbSize))
    {
      var cp, next := Next(units, i);
      CodePointsStep(units, i);
      assert CodePoints(units) == done + ([cp] + CodePoints(units[next..]));
      Regroup(done, cp, CodePoints(units[next..]));
      FlatSnoc(done, cp);
      Offer(mb, mbSize, outLen, cp, before, done);
      outLen := outLen + |Bytes(cp)|;
      i := next;
      done := done + [cp];
    }
    assert done == CodePoints(units) by {
      assert units[i..] == [] && done + [] == done;
    }
  }

  lemma NothingYet(before: seq<Byte>, units: seq<Unit>)
    ensures Over(before, []) == before && units[0..] == units && [] + CodePoints(units) == CodePoints(units)
  {
  }

  method Length(units: seq<Unit>, wideLen: int) returns (len: nat)
    requires wideLen <= |units| && (wideLen < 0 ==> 0 in units)
    ensures len <= |units| && units[..len] == Input(units, wideLen)
  {
    if wideLen >= 0 {
      return wideLen;
    }
    len := 0;
    while units[len] != 0
      invariant len <= FirstNul(units)
      decreases FirstNul(units) - len
    {
      len := len + 1;
    }
  }

  /** Returns the size of the whole encoding, whether or not there is a buffer or room in it; the
      buffer gets the encoding of the code points that fit. */
  method PalWideCharToMultiByte(wide: Option<seq<Unit>>, wideLen: int, mb: array?<Byte>, mbSize: nat)
    returns (outLen: nat)
    requires wide.Some? ==> wideLen <= |wide.value| && (wideLen < 0 ==> 0 in wide.value)
    requires mb != null ==> mbSize <= mb.Length
    modifies mb
    ensures var input := if wide.None? then [] else Input(wide.value, wideLen);
            && outLen == |Encoded(input)|
            && (mb != null ==> mb[..] == Over(old(mb[..]), Fits(CodePoints(input), mbSize)))
  {
    if wide.None? || wideLen == 0 {
      if mb != null {
        NothingYet(mb[..], []);
      }
      return 0;
    }
    var len := Length(wide.value, wideLen);
    outLen := Convert(wide.value[..len], mb, mbSize);
  }

  /** MethodCache.WideToUtf8: measure, then convert. */
  method WideToUtf8(wide: Option<seq<Unit>>, len: int) returns (result: seq<Byte>)
    requires wide.Some? ==> len <= |wide.value| && (len < 0 ==> 0 in wide.value)
    ensures result == if wide.None? then [] else Encoded(Input(wide.value, len))
  {
    if wide.None? || len == 0 {
      return [];
    }
    var sizeNeeded := PalWideCharToMultiByte(wide, len, null, 0);
    if sizeNeeded <= 0 {
      return [];
    }
    var buffer := new Byte[sizeNeeded](_ => 0);
    var _ := PalWideCharToMultiByte(wide, len, buffer, sizeNeeded);
    result := buffer[..];
  }

  /** A buffer that is too short gets the encoding of as many whole code points as fit, and of no more
      than that. */
  lemma {:induction false} CutOnBoundary(cps: seq<CodePoint>, room: nat) returns (k: nat)
    ensures k <= |cps| && Fits(cps, room) == Flat(cps[..k])
    ensures k < |cps| ==> room < |Flat(cps[..k + 1])|
  {
    if cps == [] || |Flat(cps)| <= room {
      k := |cps|;
      assert cps[..k] == cps;
    } else {
      var front := cps[..|cps| - 1];
      k := CutOnBoundary(front, room);
      assert front[..k] == cps[..k];
      assert cps[..|cps|] == cps;
      assert k < |front| ==> front[..k + 1] == cps[..k + 1];
    }
  }

  // ---- Decoding ----

  predicate Tail(b: int) {
    0x80 <= b <= 0xBF
  }

  function Bits(b: int): int {
    b - 0x80
  }

  /** The first code point of `bytes`, with surrogates allowed, and its length. */
  function DecodedFirst(bytes: seq<Byte>): Option<(int, nat)> {
    if bytes == [] then None
    else
      var b: int := bytes[0];
      if b < 0x80 then Some((b, 1))
      else if 0xC0 <= b < 0xE0 && 2 <= |bytes| && Tail(bytes[1])
      then Some(((b - 0xC0) * 0x40 + Bits(bytes[1]), 2))
      else if 0xE0 <= b < 0xF0 && 3 <= |bytes| && Tail(bytes[1]) && Tail(bytes[2])
      then Some(((b - 0xE0) * 0x1000 + Bits(bytes[1]) * 0x40 + Bits(bytes[2]), 3))
      else if 0xF0 <= b < 0xF8 && 4 <= |bytes| && Tail(bytes[1]) && Tail(bytes[2]) && Tail(bytes[3])
      then Some(((b - 0xF0) * 0x4_0000 + Bits(bytes[1]) * 0x1000 + Bits(bytes[2]) * 0x40 + Bits(bytes[3]), 4))
      else None
  }

  function Units(cp: CodePoint): seq<Unit> {
    if cp < 0x10000 then [cp]
    else [0xD800 + (cp - 0x10000) / 0x400, 0xDC00 + (cp - 0x10000) % 0x400]
  }

  function Decoded(bytes: seq<Byte>): Option<seq<Unit>> {
    if bytes == [] then Some([])
    else
      match DecodedFirst(bytes)
      case None => None
      case Some((cp, n)) =>
        match Decoded(bytes[n..])
        case None => None
        case Some(rest) => if cp < 0x11_0000 then Some(Units(cp) + rest) else None
  }

  lemma Digits(cp: CodePoint)
    ensures cp == cp / 0x40 * 0x40 + cp % 0x40
    ensures cp == cp / 0x1000 * 0x1000 + cp / 0x40 % 0x40 * 0x40 + cp % 0x40
    ensures cp == cp / 0x4_0000 * 0x4_0000 + cp / 0x1000 % 0x40 * 0x1000 + cp / 0x40 % 0x40 * 0x40 + cp % 0x40
  {
    assert cp / 0x1000 == cp / 0x40 / 0x40 && cp / 0x4_0000 == cp / 0x1000 / 0x40;
  }

  lemma BytesBack(cp: CodePoint, rest: seq<Byte>)
    ensures DecodedFirst(Bytes(cp) + rest) == Some((cp, |Bytes(cp)|))
  {
    Digits(cp);
  }

  lemma UnitsBack(wide: seq<Unit>)
    requires wide != []
    ensures FirstUnits(wide) <= |wide| && Units(First(wide)) + wide[FirstUnits(wide)..] == wide
  {
    if Paired(wide) {
      assert Units(First(wide)) == [wide[0], wide[1]];
    }
  }

  lemma Listed(a: seq<Byte>, b: seq<Byte>, c: seq<Byte>)
    ensures (a + b) + c == a + (b + c)
  {
  }

  lemma {:induction false} FlatFirst(cps: seq<CodePoint>)
    requires cps != []
    ensures Flat(cps) == Bytes(cps[0]) + Flat(cps[1..])
  {
    var front, last := cps[..|cps| - 1], cps[|cps| - 1];
    if front == [] {
      assert cps == [last] && Flat([]) + Bytes(last) == Bytes(last) + Flat([]);
    } else {
      FlatFirst(front);
      assert cps[1..] == front[1..] + [last];
      FlatSnoc(front[1..], last);
      Listed(Bytes(cps[0]), Flat(front[1..]), Bytes(last));
    }
  }

  lemma EncodedFirst(wide: seq<Unit>)
    requires wide != []
    ensures FirstUnits(wide) <= |wide|
    ensures Encoded(wide) == Bytes(First(wide)) + Encoded(wide[FirstUnits(wide)..])
  {
    FlatFirst(CodePoints(wide));
    assert CodePoints(wide)[1..] == CodePoints(wide[FirstUnits(wide)..]);
  }

  lemma DecodedMore(cp: CodePoint, bytes: seq<Byte>, units: seq<Unit>)
    requires Decoded(bytes) == Some(units)
    ensures Decoded(Bytes(cp) + bytes) == Some(Units(cp) + units)
  {
    BytesBack(cp, bytes);
    assert (Bytes(cp) + bytes)[|Bytes(cp)|..] == bytes;
  }

  /** Every sequence of code units, well-formed or not, comes back from its encoding. */
  lemma {:induction false} RoundTrip(wide: seq<Unit>)
    ensures Decoded(Encoded(wide)) == Some(wide)
    decreases |wide|
  {
    if wide != [] {
      EncodedFirst(wide);
      UnitsBack(wide);
      RoundTrip(wide[FirstUnits(wide)..]);
      DecodedMore(First(wide), Encoded(wide[FirstUnits(wide)..]), wide[FirstUnits(wide)..]);
    }
  }

  // ---- Valid UTF-8 ----

  /** The length of the UTF-8 character `bytes` starts with, or 0: the ABNF of RFC 3629, section 4. */
  function CharLength(bytes: seq<Byte>): nat {
    if bytes == [] then 0
    else if bytes[0] <= 0x7F then 1
    else if 2 <= |bytes| && 0xC2 <= bytes[0] <= 0xDF && Tail(bytes[1]) then 2
    else if 3 <= |bytes| && Tail(bytes[2]) &&
            (|| (bytes[0] == 0xE0 && 0xA0 <= bytes[1] <= 0xBF)
             || (0xE1 <= bytes[0] <= 0xEC && Tail(bytes[1]))
             || (bytes[0] == 0xED && 0x80 <= bytes[1] <= 0x9F)
             || (0xEE <= bytes[0] <= 0xEF && Tail(bytes[1])))
    then 3
    else if 4 <= |bytes| && Tail(bytes[2]) && Tail(bytes[3]) &&
            (|| (bytes[0] == 0xF0 && 0x90 <= bytes[1] <= 0xBF)
             || (0xF1 <= bytes[0] <= 0xF3 && Tail(bytes[1]))
             || (bytes[0] == 0xF4 && 0x80 <= bytes[1] <= 0x8F))
    then 4
    else 0
  }

  predicate ValidUtf8(bytes: seq<Byte>) {
    bytes != [] ==>
      var n := CharLength(bytes);
      0 < n <= |bytes| && ValidUtf8(bytes[n..])
  }

  predicate WellFormed(wide: seq<Unit>) {
    wide != [] ==>
      if Paired(wide) then WellFormed(wide[2..])
      else !High(wide[0]) && !Low(wide[0]) && WellFormed(wide[1..])
  }

  lemma CharValidIff(cp: CodePoint, rest: seq<Byte>)
    ensures CharLength(Bytes(cp) + rest) == if High(cp) || Low(cp) then 0 else |Bytes(cp)|
  {
  }

  /** The encoding is valid UTF-8 exactly when the input has no unpaired surrogate. */
  lemma {:induction false} ValidIff(wide: seq<Unit>)
    ensures ValidUtf8(Encoded(wide)) <==> WellFormed(wide)
    decreases |wide|
  {
    if wide != [] {
      var rest := wide[FirstUnits(wide)..];
      EncodedFirst(wide);
      CharValidIff(First(wide), Encoded(rest));
      ValidIff(rest);
      assert (Bytes(First(wide)) + Encoded(rest))[|Bytes(First(wide))|..] == Encoded(rest);
    }
  }

  /** A surrogate at `i` has its other half beside it. */
  predicate HasHalf(wide: seq<Unit>, i: nat)
    requires i < |wide|
  {
    && (0xD800 <= wide[i] <= 0xDBFF ==> i + 1 < |wide| && 0xDC00 <= wide[i + 1] <= 0xDFFF)
    && (0xDC00 <= wide[i] <= 0xDFFF ==> 0 < i && 0xD800 <= wide[i - 1] <= 0xDBFF)
  }

  /** Beyond a pair, or a unit that is no surrogate, the rest can be looked at on its own. */
  lemma HalvesOfRest(wide: seq<Unit>, n: nat)
    requires n <= |wide|
    requires (n == 1 && !High(wide[0]) && !Low(wide[0])) || (n == 2 && Paired(wide))
    ensures (forall i :: 0 <= i < |wide| ==> HasHalf(wide, i))
       <==> (forall i :: 0 <= i < |wide[n..]| ==> HasHalf(wide[n..], i))
  {
    var rest := wide[n..];
    forall i | n <= i < |wide| ensures HasHalf(wide, i) <==> HasHalf(rest, i - n) {
      assert rest[i - n] == wide[i];
      assert i + 1 < |wide| ==> rest[i - n + 1] == wide[i + 1];
      assert n < i ==> rest[i - n - 1] == wide[i - 1];
    }
    assert forall i :: 0 <= i < |rest| ==> (HasHalf(rest, i) <==> HasHalf(wide, i + n));
    assert forall i :: 0 <= i < n ==> HasHalf(wide, i);
    if forall i :: 0 <= i < |rest| ==> HasHalf(rest, i) {
      forall i | 0 <= i < |wide| ensures HasHalf(wide, i) {
        assert n <= i ==> HasHalf(rest, i - n);
      }
    }
  }

  /** No surrogate without its other half. */
  lemma {:induction false} WellFormedIff(wide: seq<Unit>)
    ensures WellFormed(wide) <==> forall i :: 0 <= i < |wide| ==> HasHalf(wide, i)
    decreases |wide|
  {
    if wide != [] {
      if Paired(wide) {
        HalvesOfRest(wide, 2);
        WellFormedIff(wide[2..]);
      } else if High(wide[0]) || Low(wide[0]) {
        assert !HasHalf(wide, 0);
      } else {
        HalvesOfRest(wide, 1);
        WellFormedIff(wide[1..]);
      }
    }
  }

  lemma TwoBack(a: int, b: int)
    requires 0x2 <= a < 0x20 && 0 <= b < 0x40
    ensures var cp := a * 0x40 + b; 0x80 <= cp < 0x800 && Bytes(cp) == [0xC0 + a, 0x80 + b]
  {
  }

  lemma ThreeBack(a: int, b: int, c: int)
    requires 0 <= a < 0x10 && 0 <= b < 0x40 && 0 <= c < 0x40 && (a == 0 ==> 0x20 <= b)
    ensures var cp := a * 0x1000 + b * 0x40 + c;
            0x800 <= cp < 0x10000 && Bytes(cp) == [0xE0 + a, 0x80 + b, 0x80 + c]
  {
    var cp := a * 0x1000 + b * 0x40 + c;
    assert cp / 0x40 == a * 0x40 + b;
  }

  lemma FourBack(a: int, b: int, c: int, d: int)
    requires 0 <= a <= 4 && 0 <= b < 0x40 && 0 <= c < 0x40 && 0 <= d < 0x40
    requires (a == 0 ==> 0x10 <= b) && (a == 4 ==> b < 0x10)
    ensures var cp := a * 0x4_0000 + b * 0x1000 + c * 0x40 + d;
            0x10000 <= cp < 0x11_0000 && Bytes(cp) == [0xF0 + a, 0x80 + b, 0x80 + c, 0x80 + d]
  {
    var cp := a * 0x4_0000 + b * 0x1000 + c * 0x40 + d;
    assert cp / 0x1000 == a * 0x40 + b;
    assert cp / 0x40 == a * 0x1000 + b * 0x40 + c;
  }

  /** The character that the first `CharLength` bytes stand for. */
  lemma CharBack(bytes: seq<Byte>) returns (cp: CodePoint)
    requires CharLength(bytes) > 0
    ensures !High(cp) && !Low(cp)
    ensures CharLength(bytes) <= |bytes| && Bytes(cp) == bytes[..CharLength(bytes)]
  {
    var n := CharLength(bytes);
    if n == 1 {
      cp := bytes[0];
    } else if n == 2 {
      TwoBack(bytes[0] - 0xC0, Bits(bytes[1]));
      cp := (bytes[0] - 0xC0) * 0x40 + Bits(bytes[1]);
    } else if n == 3 {
      ThreeBack(bytes[0] - 0xE0, Bits(bytes[1]), Bits(bytes[2]));
      cp := (bytes[0] - 0xE0) * 0x1000 + Bits(bytes[1]) * 0x40 + Bits(bytes[2]);
    } else {
      FourBack(bytes[0] - 0xF0, Bits(bytes[1]), Bits(bytes[2]), Bits(bytes[3]));
      cp := (bytes[0] - 0xF0) * 0x4_0000 + Bits(bytes[1]) * 0x1000 + Bits(bytes[2]) * 0x40 + Bits(bytes[3]);
    }
  }

  lemma UnitsFirst(cp: CodePoint, rest: seq<Unit>)
    requires !High(cp) && !Low(cp)
    ensures Encoded(Units(cp) + rest) == Bytes(cp) + Encoded(rest)
    ensures WellFormed(Units(cp) + rest) <==> WellFormed(rest)
  {
    var wide := Units(cp) + rest;
    EncodedFirst(wide);
    assert First(wide) == cp && wide[|Units(cp)|..] == rest;
  }

  /** Valid UTF-8 is exactly what well-formed names are converted to. */
  lemma {:induction false} ValidAreEncodings(bytes: seq<Byte>) returns (wide: seq<Unit>)
    requires ValidUtf8(bytes)
    ensures WellFormed(wide) && Encoded(wide) == bytes
    decreases |bytes|
  {
    if bytes == [] {
      wide := [];
    } else {
      var n := CharLength(bytes);
      var cp := CharBack(bytes);
      var rest := ValidAreEncodings(bytes[n..]);
      wide := Units(cp) + rest;
      UnitsFirst(cp, rest);
      assert bytes == bytes[..n] + bytes[n..];
    }
  }
}
