/** The advertising data that `enable_advertising` of src/LBeacon.c builds, and `uuid_str_to_data` and
    `twoc` on which it rests. */
module Advertising {
  import opened Common
  import opened Hex
  import opened Eir

  const DATA_SIZE: nat := 31
  const FLAGS: byte := 0x1A

  /** What is left of a value assigned to a byte. */
  function Low8(x: int): byte { x % 256 }

  /** `twoc`: the `t`-bit two's complement of a negative number. */
  function TwosComplement(x: int, t: nat): int
    requires t > 0
  {
    if x < 0 then x + 2 * Power2(t - 1) else x
  }

  function Power2(n: nat): (p: int)
    ensures p > 0
  {
    if n == 0 then 1 else 2 * Power2(n - 1)
  }

  predicate IsHexDigit(c: char) { '0' <= c <= '9' || 'A' <= c <= 'F' || 'a' <= c <= 'f' }

  /** The index of the digit, upper-cased, in "0123456789ABCDEF". */
  function DigitValue(c: char): (v: int)
    requires IsHexDigit(c)
    ensures 0 <= v < 16
  {
    if c <= '9' then c as int - '0' as int
    else if c <= 'F' then c as int - 'A' as int + 10
    else c as int - 'a' as int + 10
  }

  /** `toupper`. */
  function Upper(c: char): char {
    if 'a' <= c <= 'z' then (c as int - 'a' as int + 'A' as int) as char else c
  }

  function UpperCase(s: string): (r: string)
    ensures |r| == |s| && forall i :: 0 <= i < |s| ==> r[i] == Upper(s[i])
  {
    seq(|s|, i requires 0 <= i < |s| => Upper(s[i]))
  }

  lemma DigitPrinted(c: char)
    requires IsHexDigit(c)
    ensures DIGITS[DigitValue(c)] == Upper(c)
  {
  }

  ghost predicate IsHexString(s: string) {
    |s| % 2 == 0 && forall i :: 0 <= i < |s| ==> IsHexDigit(s[i])
  }

  /** The bytes a string of hexadecimal digits stands for. */
  function HexBytes(s: string): (bytes: seq<byte>)
    requires IsHexString(s)
    ensures |bytes| == |s| / 2
    ensures forall i :: 0 <= i < |bytes| ==> bytes[i] == DigitValue(s[2 * i]) * 16 + DigitValue(s[2 * i + 1])
  {
    seq(|s| / 2, i requires 0 <= i < |s| / 2 => DigitValue(s[2 * i]) * 16 + DigitValue(s[2 * i + 1]))
  }

  lemma PairPrinted(s: string, i: nat)
    requires IsHexString(s) && 2 * i < |s|
    ensures Text(HexBytes(s))[2 * i] == Upper(s[2 * i]) && Text(HexBytes(s))[2 * i + 1] == Upper(s[2 * i + 1])
  {
    var b := HexBytes(s)[i];
    TextAt(HexBytes(s), i);
    DigitPrinted(s[2 * i]);
    DigitPrinted(s[2 * i + 1]);
    assert b / 16 == DigitValue(s[2 * i]) && b % 16 == DigitValue(s[2 * i + 1]);
  }

  /** The bytes are those whose text is the string itself, in upper case. */
  lemma UuidPrinted(s: string)
    requires IsHexString(s)
    ensures Text(HexBytes(s)) == UpperCase(s)
  {
    var t := Text(HexBytes(s));
    forall k | 0 <= k < |s|
      ensures t[k] == Upper(s[k])
    {
      PairPrinted(s, k / 2);
      assert k == 2 * (k / 2) || k == 2 * (k / 2) + 1;
    }
  }

  /** The values are bytes, and this is their text. */
  ghost predicate Prints(values: seq<int>, text: string) {
    exists bytes: seq<byte> :: values == bytes && Text(bytes) == text
  }

  lemma PrintsUuid(s: string)
    requires IsHexString(s)
    ensures Prints(HexBytes(s), UpperCase(s))
  {
    UuidPrinted(s);
  }

  /** The array has room for one number per digit; the first half of it is filled, with the bytes whose
      text is the string in upper case. */
  method UuidStrToData(uuid: string) returns (data: array<int>)
    requires IsHexString(uuid)
    ensures fresh(data) && data.Length == |uuid|
    ensures data[..|uuid| / 2] == HexBytes(uuid)
    ensures Prints(data[..|uuid| / 2], UpperCase(uuid))
  {
    data := new int[|uuid|];
    ghost var u := HexBytes(uuid);
    var k := 0;
    var counter := 0;
    while counter < |uuid|
      invariant 0 <= k <= |u| && counter == 2 * k
      invariant forall i :: 0 <= i < k ==> data[i] == u[i]
    {
      data[k] := DigitValue(uuid[counter]) * 16 + DigitValue(uuid[counter + 1]);
      k := k + 1;
      counter := counter + 2;
    }
    PrintsUuid(uuid);
    assert k == |u| && data[..k] == u;
  }

  datatype Beacon = Beacon(uuid: seq<byte>, major: int, minor: int, rssi: int)

  /** The two structures a beacon with this content advertises. */
  function Structures(uuid: seq<byte>, major: int, minor: int, rssi: int): seq<Structure> {
    [Structure(EIR_FLAGS, [FLAGS]),
     Structure(EIR_MANUFACTURE_SPECIFIC_DATA,
               [0x0F, 0x00, 0x02, 0x15] + uuid + Numbers(major, minor, rssi))]
  }

  function Numbers(major: int, minor: int, rssi: int): seq<byte> {
    [Low8(major / 256), Low8(major), Low8(minor / 256), Low8(minor), Low8(TwosComplement(rssi, 8))]
  }

  /** The flags structure, written at the front of the data. */
  method PutFlags(data: array<byte>) returns (length: nat)
    requires data.Length == DATA_SIZE
    modifies data
    ensures length == 3 && data[..3] == [2, EIR_FLAGS, FLAGS]
  {
    var segment := 1;
    data[segment] := EIR_FLAGS;
    segment := segment + 1;
    data[segment] := FLAGS;
    segment := segment + 1;
    data[0] := segment - 1;
    length := segment;
  }

  /** The type, company identifier, subtype and subtype length of the second structure. */
  method PutHeader(data: array<byte>, length: nat) returns (segment: nat)
    requires data.Length == DATA_SIZE && length == 3
    modifies data
    ensures segment == 6 && data[..3] == old(data[..3])
    ensures data[4..9] == [EIR_MANUFACTURE_SPECIFIC_DATA, 0x0F, 0x00, 0x02, 0x15]
  {
    segment := 1;
    data[length + segment] := EIR_MANUFACTURE_SPECIFIC_DATA;
    segment := segment + 1;
    data[length + segment] := 0x0F;
    segment := segment + 1;
    data[length + segment] := 0x00;
    segment := segment + 1;
    data[length + segment] := 0x02;
    segment := segment + 1;
    data[length + segment] := 0x15;
    segment := segment + 1;
  }

  method PutUuid(data: array<byte>, at: nat, uuid: string)
    requires data.Length == DATA_SIZE && at == 9 && IsHexString(uuid) && |uuid| == 32
    modifies data
    ensures data[..9] == old(data[..9]) && data[9..25] == HexBytes(uuid)
  {
    var bytes := UuidStrToData(uuid);
    ghost var u := HexBytes(uuid);
    assert forall k :: 0 <= k < 16 ==> bytes[k] == bytes[..16][k] == u[k];
    CopyBytes(data, at, bytes, |uuid| / 2, u);
  }

  lemma LowOfByte(b: byte)
    ensures Low8(b) == b
  {
  }

  method CopyBytes(data: array<byte>, at: nat, bytes: array<int>, n: nat, ghost u: seq<byte>)
    requires data.Length == DATA_SIZE && at == 9 && n == |u| == 16 <= bytes.Length
    requires forall k :: 0 <= k < n ==> bytes[k] == u[k]
    modifies data
    ensures data[..9] == old(data[..9]) && data[9..25] == u
  {
    var i := 0;
    while i < n
      invariant 0 <= i <= n
      invariant data[..9] == old(data[..9])
      invariant forall k :: 0 <= k < i ==> data[9 + k] == u[k]
    {
      LowOfByte(u[i]);
      data[at + i] := Low8(bytes[i]);
      i := i + 1;
    }
  }

  /** Major and minor number, each high byte first, and the signal power. */
  method PutNumbers(data: array<byte>, at: nat, major: int, minor: int, rssi: int) returns (end: nat)
    requires data.Length == DATA_SIZE && at == 25
    modifies data
    ensures end == 30 && data[..25] == old(data[..25])
    ensures data[25..30] == Numbers(major, minor, rssi)
  {
    end := at;
    data[end] := Low8(major / 256);
    end := end + 1;
    data[end] := Low8(major);
    end := end + 1;
    data[end] := Low8(minor / 256);
    end := end + 1;
    data[end] := Low8(minor);
    end := end + 1;
    data[end] := Low8(TwosComplement(rssi, 8));
    end := end + 1;
  }

  /** No write reaches beyond the 31 bytes of the command parameter; the bytes written are the
      encoding of the two structures. */
  method BuildAdvertisingData(uuid: string, major: int, minor: int, rssi: int)
    returns (data: array<byte>, length: nat)
    requires IsHexString(uuid) && |uuid| == 32
    ensures data.Length == DATA_SIZE && length == 30
    ensures data[..length] == Encode(Structures(HexBytes(uuid), major, minor, rssi))
    ensures |data[..length]| >= 9 && data[..length][..9] == [2, 0x01, 0x1A, 26, 0xFF, 0x0F, 0x00, 0x02, 0x15]
    ensures Announces(data[..length], uuid, major, minor, rssi)
  {
    data := new byte[DATA_SIZE](_ => 0);
    length := PutFlags(data);
    var segment := PutHeader(data, length);
    ghost var header := data[..9];
    SliceOf(data[..], 9, 0, 3);
    SliceOf(data[..], 9, 4, 9);
    PutUuid(data, length + segment, uuid);
    ghost var body := data[..25];
    SliceOf(data[..], 25, 0, 9);
    SliceOf(data[..], 25, 9, 25);
    var end := PutNumbers(data, length + segment + |uuid| / 2, major, minor, rssi);
    ghost var all := data[..];
    data[length] := end - length - 1;
    length := end;
    assert data[..] == all[3 := 26];
    Assembled(header, body, all, HexBytes(uuid), Numbers(major, minor, rssi));
    BeaconLayout(data[..30], HexBytes(uuid), major, minor, rssi);
    BeaconTold(data[..30], uuid, major, minor, rssi);
  }

  lemma SliceOf(s: seq<byte>, n: nat, a: nat, b: nat)
    requires a <= b <= n <= |s|
    ensures s[..n][a..b] == s[a..b]
  {
  }

  /** The pieces stay where they were written when the length byte is filled in. */
  lemma Assembled(header: seq<byte>, body: seq<byte>, all: seq<byte>, uuid: seq<byte>, numbers: seq<byte>)
    requires |header| == 9 && |body| == 25 && |all| == 31
    requires body[..9] == header && body[9..25] == uuid && all[..25] == body && all[25..30] == numbers
    ensures var bytes := all[3 := 26][..30];
            && bytes[..3] == header[..3] && bytes[3] == 26 && bytes[4..9] == header[4..9]
            && bytes[9..25] == uuid && bytes[25..] == numbers
  {
    var bytes := all[3 := 26][..30];
    assert forall i :: 0 <= i < 30 && i != 3 ==> bytes[i] == all[i];
    assert forall i :: 0 <= i < 25 ==> all[i] == all[..25][i];
    assert forall i :: 0 <= i < 9 ==> body[i] == body[..9][i];
    assert forall i :: 0 <= i < 16 ==> body[9 + i] == body[9..25][i];
  }

  /** What the bytes of the two structures tell. */
  lemma BeaconTold(bytes: seq<byte>, uuid: string, major: int, minor: int, rssi: int)
    requires IsHexString(uuid) && |uuid| == 32 && bytes == Encode(Structures(HexBytes(uuid), major, minor, rssi))
    ensures |bytes| >= 9 && bytes[..9] == [2, 0x01, 0x1A, 26, 0xFF, 0x0F, 0x00, 0x02, 0x15]
    ensures Announces(bytes, uuid, major, minor, rssi)
  {
    var ads := Structures(HexBytes(uuid), major, minor, rssi);
    EncodeTwo(ads[0], ads[1]);
    BeaconRoundTrip(HexBytes(uuid), major, minor, rssi);
    UuidPrinted(uuid);
  }

  /** A receiver reads exactly one beacon from these bytes.  Its UUID, printed in hexadecimal, is the
      given string in upper case; major and minor are the low 16 bits of the given numbers, the power is
      the low 8 bits of the given one as a signed number. */
  ghost predicate Announces(bytes: seq<byte>, uuid: string, major: int, minor: int, rssi: int) {
    match ReadBeacon(bytes)
    case None => false
    case Some(b) =>
      && Text(b.uuid) == UpperCase(uuid)
      && b.major == major % 65536 && b.minor == minor % 65536
      && b.rssi == if rssi % 256 < 128 then rssi % 256 else rssi % 256 - 256
  }

  /** The byte layout of the encoding. */
  lemma BeaconLayout(bytes: seq<byte>, uuid: seq<byte>, major: int, minor: int, rssi: int)
    requires |bytes| == 30 && |uuid| == 16
    requires bytes[..3] == [2, EIR_FLAGS, FLAGS] && bytes[3] == 26
    requires bytes[4..9] == [EIR_MANUFACTURE_SPECIFIC_DATA, 0x0F, 0x00, 0x02, 0x15]
    requires bytes[9..25] == uuid && bytes[25..] == Numbers(major, minor, rssi)
    ensures bytes == Encode(Structures(uuid, major, minor, rssi))
  {
    var ads := Structures(uuid, major, minor, rssi);
    EncodeTwo(ads[0], ads[1]);
    assert bytes == bytes[..3] + [bytes[3]] + bytes[4..9] + bytes[9..25] + bytes[25..];
  }

  lemma EncodeTwo(a: Structure, b: Structure)
    requires |a.data| <= 254 && |b.data| <= 254
    ensures Encode([a, b]) == EncodeOne(a) + EncodeOne(b)
  {
    assert [a, b][1..] == [b] && [b][1..] == [];
    assert Encode([b]) == EncodeOne(b) + Encode([]);
    assert EncodeOne(b) + [] == EncodeOne(b);
  }

  /** How a receiver reads a beacon: exactly two structures, flags and the 21-byte beacon format under
      the company identifier. */
  function ReadBeacon(bytes: seq<byte>): Option<Beacon> {
    match Eir.Decode(bytes)
    case None => None
    case Some(ads) =>
      if |ads| == 2 && ads[0] == Structure(EIR_FLAGS, [FLAGS]) && ads[1].kind == EIR_MANUFACTURE_SPECIFIC_DATA
         && |ads[1].data| == 25 && ads[1].data[..4] == [0x0F, 0x00, 0x02, 0x15]
      then Some(BeaconOf(ads[1].data))
      else None
  }

  function BeaconOf(d: seq<byte>): Beacon
    requires |d| == 25
  {
    Beacon(d[4..20], d[20] as int * 256 + d[21] as int, d[22] as int * 256 + d[23] as int,
           if d[24] < 128 then d[24] as int else d[24] as int - 256)
  }

  lemma BeaconData(d: seq<byte>, uuid: seq<byte>, major: int, minor: int, rssi: int)
    requires |uuid| == 16 && d == [0x0F, 0x00, 0x02, 0x15] + uuid + Numbers(major, minor, rssi)
    ensures |d| == 25 && d[..4] == [0x0F, 0x00, 0x02, 0x15]
    ensures BeaconOf(d) == Beacon(uuid, major % 65536, minor % 65536,
                                  if rssi % 256 < 128 then rssi % 256 else rssi % 256 - 256)
  {
    assert d[4..20] == uuid && d[20..] == Numbers(major, minor, rssi);
    assert forall i :: 0 <= i < 5 ==> d[20 + i] == d[20..][i];
    HighLow(major);
    HighLow(minor);
    PowerByte(rssi);
  }

  /** Round trip: the UUID comes back as its bytes, major and minor as their low 16 bits, the signal
      power as its low 8 bits read as a signed number. */
  lemma BeaconRoundTrip(uuid: seq<byte>, major: int, minor: int, rssi: int)
    requires |uuid| == 16
    ensures var bytes := Encode(Structures(uuid, major, minor, rssi));
            && |bytes| == 30 <= DATA_SIZE
            && ReadBeacon(bytes) == Some(Beacon(uuid, major % 65536, minor % 65536,
                                                if rssi % 256 < 128 then rssi % 256 else rssi % 256 - 256))
  {
    var ads := Structures(uuid, major, minor, rssi);
    DecodeEncode(ads);
    EncodeTwo(ads[0], ads[1]);
    BeaconData(ads[1].data, uuid, major, minor, rssi);
  }

  lemma PowerByte(x: int)
    ensures Low8(TwosComplement(x, 8)) == x % 256
  {
    assert Power2(7) == 128 by { assert Power2(3) == 8 && Power2(5) == 32; }
    assert (x + 256) % 256 == x % 256;
  }

  lemma HighLow(x: int)
    ensures Low8(x / 256) * 256 + Low8(x) == x % 65536
  {
    var q := x / 256 / 256;
    assert x == (q * 256 + x / 256 % 256) * 256 + x % 256;
    assert x == q * 65536 + (x / 256 % 256 * 256 + x % 256);
  }

  /** A beacon comes back unchanged exactly when major and minor are 16-bit numbers and the signal
      power is an 8-bit signed number. */
  lemma BeaconUnchanged(uuid: seq<byte>, major: int, minor: int, rssi: int)
    requires |uuid| == 16
    ensures ReadBeacon(Encode(Structures(uuid, major, minor, rssi))) == Some(Beacon(uuid, major, minor, rssi))
       <==> 0 <= major < 65536 && 0 <= minor < 65536 && -128 <= rssi < 128
  {
    BeaconRoundTrip(uuid, major, minor, rssi);
    SixteenBits(major);
    SixteenBits(minor);
    EightBits(rssi);
  }

  lemma SixteenBits(x: int)
    ensures x % 65536 == x <==> 0 <= x < 65536
  {
  }

  lemma EightBits(x: int)
    ensures (if x % 256 < 128 then x % 256 else x % 256 - 256) == x <==> -128 <= x < 128
  {
    assert -128 <= x < 0 ==> x % 256 == x + 256;
  }
}
