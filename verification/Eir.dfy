/** Advertising data: a sequence of structures, each a length byte, a type byte and data, as section 11
    of Vol 3 Part C of the Bluetooth Core Specification lays down; and `eir_parse_specific_data` of
    src/LBeacon.c, which looks for a structure of one type. */
module Eir {
  import opened Common
  import opened Hex

  const EIR_FLAGS: byte := 0x01
  const EIR_NAME_COMPLETE: byte := 0x09
  const EIR_MANUFACTURE_SPECIFIC_DATA: byte := 0xFF
  const FIELD_LEN_05C6 := 7
  const FIELD_LEN_05C7 := 11

  datatype Structure = Structure(kind: byte, data: seq<byte>)

  ghost predicate Encodable(ads: seq<Structure>) {
    forall i :: 0 <= i < |ads| ==> |ads[i].data| <= 254
  }

  function EncodeOne(ad: Structure): (bytes: seq<byte>)
    requires |ad.data| <= 254
    ensures |bytes| == |ad.data| + 2
  {
    [1 + |ad.data|, ad.kind] + ad.data
  }

  function Encode(ads: seq<Structure>): seq<byte>
    requires Encodable(ads)
  {
    if ads == [] then [] else EncodeOne(ads[0]) + Encode(ads[1..])
  }

  /** The structures that make up the whole of `bytes`, if it is such a concatenation. */
  function Decode(bytes: seq<byte>): Option<seq<Structure>> {
    if bytes == [] then Some([])
    else if bytes[0] == 0 || bytes[0] + 1 > |bytes| then None
    else
      match Decode(bytes[bytes[0] + 1..])
      case None => None
      case Some(rest) => Some([Structure(bytes[1], bytes[2..bytes[0] + 1])] + rest)
  }

  lemma {:induction false} DecodeEncode(ads: seq<Structure>)
    requires Encodable(ads)
    ensures Decode(Encode(ads)) == Some(ads)
  {
    if ads != [] {
      var bytes, head := Encode(ads), EncodeOne(ads[0]);
      DecodeEncode(ads[1..]);
      assert bytes[bytes[0] + 1..] == Encode(ads[1..]);
      assert bytes[2..bytes[0] + 1] == ads[0].data;
      assert ads == [ads[0]] + ads[1..];
    }
  }

  /** The fields the code accepts: a complete name of any length, manufacturer data only with the
      length of one of the two tags. */
  predicate Accepted(kind: byte, fieldLen: int, bufLen: int) {
    && fieldLen <= bufLen
    && (kind == EIR_NAME_COMPLETE ||
        (kind == EIR_MANUFACTURE_SPECIFIC_DATA && (fieldLen == FIELD_LEN_05C6 || fieldLen == FIELD_LEN_05C7)))
  }

  predicate Searched(kind: byte) {
    kind == EIR_NAME_COMPLETE || kind == EIR_MANUFACTURE_SPECIFIC_DATA
  }

  /** The walk of the code from `offset` on: where it stops successfully. */
  function Find(eir: seq<byte>, eirLen: nat, kind: byte, bufLen: int, offset: nat): (r: Option<nat>)
    requires eirLen < |eir|
    ensures r.Some? ==> offset <= r.value < eirLen && r.value + eir[r.value] <= eirLen
    ensures r.Some? ==> eir[r.value + 1] == kind && eir[r.value] > 0 && Accepted(kind, eir[r.value], bufLen)
    decreases eirLen - offset
  {
    if offset >= eirLen || eir[offset] == 0 || offset + eir[offset] > eirLen then None
    else if Searched(kind) && eir[offset + 1] == kind then
      if Accepted(kind, eir[offset], bufLen) then Some(offset) else None
    else Find(eir, eirLen, kind, bufLen, offset + eir[offset] + 1)
  }

  ghost predicate NoneOf(ads: seq<Structure>, kind: byte) {
    forall i :: 0 <= i < |ads| ==> ads[i].kind != kind
  }

  /** `p` is where the walk comes upon its first structure of type `kind`: other structures fill the
      data up to there, and this one passes the length check of the code. */
  ghost predicate FirstAt(eir: seq<byte>, eirLen: nat, kind: byte, p: nat)
    requires eirLen < |eir|
  {
    && p < eirLen && eir[p] != 0 && p + eir[p] <= eirLen && eir[p + 1] == kind
    && exists ads :: Encodable(ads) && NoneOf(ads, kind) && Encode(ads) == eir[..p]
  }

  /** What lies at `offset` in `eir`, piece by piece. */
  lemma Pieces(eir: seq<byte>, offset: nat, head: seq<byte>, rest: seq<byte>)
    requires offset + |head + rest| <= |eir| && eir[offset..offset + |head + rest|] == head + rest
    ensures forall i :: 0 <= i < |head| ==> eir[offset + i] == head[i]
    ensures eir[offset + |head|..offset + |head| + |rest|] == rest
  {
    var bytes := eir[offset..offset + |head + rest|];
    assert forall i :: 0 <= i < |bytes| ==> bytes[i] == eir[offset + i];
    assert forall i :: 0 <= i < |rest| ==> (head + rest)[|head| + i] == rest[i];
  }

  lemma EncodeSplit(ads: seq<Structure>)
    requires Encodable(ads) && ads != []
    ensures Encodable(ads[1..]) && Encode(ads) == EncodeOne(ads[0]) + Encode(ads[1..])
    ensures forall kind :: NoneOf(ads, kind) ==> ads[0].kind != kind && NoneOf(ads[1..], kind)
  {
  }

  /** What the walk reads at the start of the encoding of a non-empty list. */
  lemma HeadOfRest(eir: seq<byte>, ad: Structure, rest: seq<byte>, offset: nat)
    requires |ad.data| <= 254
    requires var all := EncodeOne(ad) + rest; offset + |all| <= |eir| && eir[offset..offset + |all|] == all
    ensures var next := offset + |ad.data| + 2;
            && eir[offset] == |ad.data| + 1 && eir[offset + 1] == ad.kind
            && eir[next..next + |rest|] == rest
  {
    Pieces(eir, offset, EncodeOne(ad), rest);
    assert eir[offset + 0] == EncodeOne(ad)[0] && eir[offset + 1] == EncodeOne(ad)[1];
  }

  lemma OtherIsPassed(eir: seq<byte>, eirLen: nat, kind: byte, bufLen: int, offset: nat)
    requires offset < eirLen < |eir| && eir[offset] != 0 && offset + eir[offset] <= eirLen && eir[offset + 1] != kind
    ensures Find(eir, eirLen, kind, bufLen, offset) == Find(eir, eirLen, kind, bufLen, offset + eir[offset] + 1)
  {
  }

  /** The walk passes structures of other types. */
  lemma {:induction false} SkipOthers(eir: seq<byte>, eirLen: nat, kind: byte, bufLen: int, ads: seq<Structure>,
                                      offset: nat, end: nat)
    requires eirLen < |eir| && Encodable(ads) && NoneOf(ads, kind)
    requires end == offset + |Encode(ads)| <= eirLen + 1 && eir[offset..end] == Encode(ads)
    ensures Find(eir, eirLen, kind, bufLen, offset) == Find(eir, eirLen, kind, bufLen, end)
    decreases |ads|
  {
    if ads != [] {
      var next := offset + |ads[0].data| + 2;
      EncodeSplit(ads);
      SkipOne(eir, eirLen, kind, bufLen, ads[0], Encode(ads[1..]), offset, end);
      SkipOthers(eir, eirLen, kind, bufLen, ads[1..], next, end);
    }
  }

  lemma SkipOne(eir: seq<byte>, eirLen: nat, kind: byte, bufLen: int, ad: Structure, rest: seq<byte>, offset: nat,
                end: nat)
    requires eirLen < |eir| && |ad.data| <= 254 && ad.kind != kind
    requires end == offset + |ad.data| + 2 + |rest| <= eirLen + 1 && eir[offset..end] == EncodeOne(ad) + rest
    ensures var next := offset + |ad.data| + 2;
            eir[next..end] == rest && Find(eir, eirLen, kind, bufLen, offset) == Find(eir, eirLen, kind, bufLen, next)
  {
    HeadOfRest(eir, ad, rest, offset);
    OtherIsPassed(eir, eirLen, kind, bufLen, offset);
  }

  /** What the walk has passed when it stops successfully. */
  lemma {:induction false} Passed(eir: seq<byte>, eirLen: nat, kind: byte, bufLen: int, offset: nat)
    returns (ads: seq<Structure>)
    requires eirLen < |eir| && Find(eir, eirLen, kind, bufLen, offset).Some?
    ensures Encodable(ads) && NoneOf(ads, kind)
    ensures Encode(ads) == eir[offset..Find(eir, eirLen, kind, bufLen, offset).value]
    decreases eirLen - offset
  {
    var p := Find(eir, eirLen, kind, bufLen, offset).value;
    if p == offset {
      ads := [];
    } else {
      var next := offset + eir[offset] + 1;
      var ad := Structure(eir[offset + 1], eir[offset + 2..next]);
      var rest := Passed(eir, eirLen, kind, bufLen, next);
      ads := [ad] + rest;
      assert ads[1..] == rest;
      assert EncodeOne(ad) == eir[offset..next];
      assert eir[offset..p] == eir[offset..next] + eir[next..p];
    }
  }

  /** On all data, padded with zeros or cut short or not: the walk succeeds at `p` exactly when `p` is
      where the first structure of the requested type lies and the code accepts that structure. */
  lemma FindsFirst(eir: seq<byte>, eirLen: nat, kind: byte, bufLen: int, p: nat)
    requires eirLen < |eir|
    ensures Find(eir, eirLen, kind, bufLen, 0) == Some(p)
       <==> FirstAt(eir, eirLen, kind, p) && Accepted(kind, eir[p], bufLen)
  {
    if Find(eir, eirLen, kind, bufLen, 0) == Some(p) {
      var ads := Passed(eir, eirLen, kind, bufLen, 0);
      assert eir[0..p] == eir[..p];
    }
    if FirstAt(eir, eirLen, kind, p) && Accepted(kind, eir[p], bufLen) {
      FirstDecides(eir, eirLen, kind, bufLen, p);
    }
  }

  /** The first structure of the type decides: if the code does not accept it, no later one is found. */
  lemma FirstDecides(eir: seq<byte>, eirLen: nat, kind: byte, bufLen: int, p: nat)
    requires eirLen < |eir| && FirstAt(eir, eirLen, kind, p) && Searched(kind)
    ensures Find(eir, eirLen, kind, bufLen, 0) == if Accepted(kind, eir[p], bufLen) then Some(p) else None
  {
    var ads :| Encodable(ads) && NoneOf(ads, kind) && Encode(ads) == eir[..p];
    assert eir[0..0 + p] == eir[..p];
    SkipOthers(eir, eirLen, kind, bufLen, ads, 0, |Encode(ads)|);
  }

  /** Nothing is found when the structures before the end of the data, a zero length byte or a
      structure that is cut short are all of other types. */
  lemma NotFound(eir: seq<byte>, eirLen: nat, kind: byte, bufLen: int, ads: seq<Structure>)
    requires eirLen < |eir| && Encodable(ads) && NoneOf(ads, kind)
    requires var n := |Encode(ads)|;
             && n <= eirLen + 1 && Encode(ads) == eir[..n]
             && (n >= eirLen || eir[n] == 0 || n + eir[n] > eirLen)
    ensures Find(eir, eirLen, kind, bufLen, 0) == None
  {
    var n := |Encode(ads)|;
    assert eir[0..0 + n] == eir[..n];
    SkipOthers(eir, eirLen, kind, bufLen, ads, 0, |Encode(ads)|);
  }

  /** Success in terms of the data alone. */
  lemma FoundExactly(eir: seq<byte>, eirLen: nat, kind: byte, bufLen: int)
    requires eirLen < |eir|
    ensures var r := Find(eir, eirLen, kind, bufLen, 0);
            && (r.Some? <==> exists p: nat :: FirstAt(eir, eirLen, kind, p) && Accepted(kind, eir[p], bufLen))
            && (r.Some? ==> FirstAt(eir, eirLen, kind, r.value))
  {
    var r := Find(eir, eirLen, kind, bufLen, 0);
    if r.Some? {
      FindsFirst(eir, eirLen, kind, bufLen, r.value);
    }
    forall p: nat | FirstAt(eir, eirLen, kind, p) && Accepted(kind, eir[p], bufLen)
      ensures r == Some(p)
    {
      FindsFirst(eir, eirLen, kind, bufLen, p);
    }
  }

  /** The bytes from there on, length byte and type included, are an encoded structure. */
  lemma FoundStructure(eir: seq<byte>, eirLen: nat, kind: byte, p: nat)
    requires eirLen < |eir| && FirstAt(eir, eirLen, kind, p)
    ensures eir[p..p + eir[p] + 1] == EncodeOne(Structure(kind, eir[p + 2..p + eir[p] + 1]))
  {
  }

  /** The length check lets the last byte of a structure lie at index `eirLen`, one place beyond the
      data.  The walk reports such a structure exactly when the first one of the type is acceptable and
      its length byte reaches `eirLen`. */
  lemma LastByteMayLieBeyond(eir: seq<byte>, eirLen: nat, kind: byte, bufLen: int)
    requires eirLen < |eir|
    ensures var r := Find(eir, eirLen, kind, bufLen, 0);
            (r.Some? && r.value + eir[r.value] + 1 > eirLen)
            <==> exists p: nat ::
                   FirstAt(eir, eirLen, kind, p) && eir[p] == eirLen - p && Accepted(kind, eirLen - p, bufLen)
  {
    var r := Find(eir, eirLen, kind, bufLen, 0);
    if r.Some? {
      FindsFirst(eir, eirLen, kind, bufLen, r.value);
    }
    forall p: nat | FirstAt(eir, eirLen, kind, p) && eir[p] == eirLen - p && Accepted(kind, eirLen - p, bufLen)
      ensures r == Some(p)
    {
      FindsFirst(eir, eirLen, kind, bufLen, p);
    }
  }

  /** An input on which that happens: a name of one character in two bytes of data. */
  lemma NameBeyondItsData()
    ensures Find([2, EIR_NAME_COMPLETE, 65], 2, EIR_NAME_COMPLETE, 65, 0) == Some(0)
  {
  }

  // ----- The output buffer

  /** The text of the structure found, if any, and its NUL fit a buffer of `bufLen` characters. */
  predicate TextFits(eir: seq<byte>, eirLen: nat, kind: byte, bufLen: int)
    requires eirLen < |eir|
  {
    var r := Find(eir, eirLen, kind, bufLen, 0);
    r.Some? ==> 2 * (eir[r.value] as int + 1) + 1 <= bufLen
  }

  ghost predicate AllTextFits(eirLen: nat, bufLen: int) {
    forall eir: seq<byte>, kind: byte | eirLen < |eir| :: TextFits(eir, eirLen, kind, bufLen)
  }

  /** The longest name the code accepts. */
  function LongestName(eirLen: nat, bufLen: int): int {
    var m := if eirLen <= bufLen then eirLen else bufLen;
    if m <= 255 then m else 255
  }

  /** The code compares the length of a structure with the size of the buffer, but writes two characters
      a byte: the buffer suffices for all data exactly when it holds the text of the longest name.  A
      buffer of 65 characters does so exactly for data of at most 31 bytes. */
  lemma BufferSuffices(eirLen: nat, bufLen: int)
    requires eirLen > 0 && bufLen >= 2 * FIELD_LEN_05C7 + 3
    ensures AllTextFits(eirLen, bufLen) <==> 2 * LongestName(eirLen, bufLen) + 3 <= bufLen
    ensures bufLen == 65 ==> (AllTextFits(eirLen, bufLen) <==> eirLen <= 31)
  {
    var m := LongestName(eirLen, bufLen);
    var eir: seq<byte> := seq(eirLen + 1, i => if i == 0 then m else if i == 1 then EIR_NAME_COMPLETE else 0);
    assert Find(eir, eirLen, EIR_NAME_COMPLETE, bufLen, 0) == Some(0);
    if AllTextFits(eirLen, bufLen) {
      assert TextFits(eir, eirLen, EIR_NAME_COMPLETE, bufLen);
    }
  }

  /** The text of `bytes`, followed by zeros only. */
  ghost predicate Printed(text: seq<char>, bytes: seq<byte>) {
    && 2 * |bytes| < |text| && text[..2 * |bytes|] == Text(bytes)
    && forall k :: 2 * |bytes| <= k < |text| ==> text[k] == '\0'
  }

  /** The structure at `p`, length byte and type included. */
  function StructureAt(eir: seq<byte>, p: nat): seq<byte>
    requires p < |eir| && p + eir[p] < |eir|
  {
    eir[p..p + eir[p] + 1]
  }

  /** What is printed reads back as the bytes of an encoded structure of the type. */
  lemma PrintedDecodes(eir: seq<byte>, eirLen: nat, kind: byte, p: nat, text: seq<char>)
    requires eirLen < |eir| && FirstAt(eir, eirLen, kind, p) && Printed(text, StructureAt(eir, p))
    ensures Hex.Decode(text[..2 * (eir[p] as int + 1)]) == EncodeOne(Structure(kind, eir[p + 2..p + eir[p] + 1]))
  {
    DecodeText(StructureAt(eir, p));
    FoundStructure(eir, eirLen, kind, p);
  }

  /** The parser.  `eir` has at least one byte more than `eirLen`, as the 65-byte payload buffers of
      the callers do, and the text of the structure found, if any, fits `buf`.  It succeeds exactly when
      the first structure of the type is acceptable, and leaves its text in `buf`. */
  method ParseSpecificData(eir: seq<byte>, eirLen: nat, kind: byte, buf: array<char>) returns (ok: bool)
    requires eirLen < |eir| && TextFits(eir, eirLen, kind, buf.Length)
    modifies buf
    ensures ok <==> exists p: nat :: FirstAt(eir, eirLen, kind, p) && Accepted(kind, eir[p], buf.Length)
    ensures forall p: nat :: ok && FirstAt(eir, eirLen, kind, p) ==> Printed(buf[..], StructureAt(eir, p))
    ensures forall p: nat :: FirstAt(eir, eirLen, kind, p) ==>
              (ok <==> eir[p] <= buf.Length && (kind == 0x09 || (kind == 0xFF && (eir[p] == 7 || eir[p] == 11))))
  {
    ok := Walk(eir, eirLen, kind, buf);
    FoundExactly(eir, eirLen, kind, buf.Length);
    if ok {
      ghost var o := Find(eir, eirLen, kind, buf.Length, 0).value;
      forall p: nat | FirstAt(eir, eirLen, kind, p)
        ensures p == o
      {
        FirstDecides(eir, eirLen, kind, buf.Length, p);
      }
    }
  }

  /** The loop of the parser. */
  method Walk(eir: seq<byte>, eirLen: nat, kind: byte, buf: array<char>) returns (ok: bool)
    requires eirLen < |eir| && TextFits(eir, eirLen, kind, buf.Length)
    modifies buf
    ensures ok <==> Find(eir, eirLen, kind, buf.Length, 0).Some?
    ensures ok ==> Printed(buf[..], StructureAt(eir, Find(eir, eirLen, kind, buf.Length, 0).value))
  {
    var offset: nat := 0;
    while offset < eirLen
      invariant Find(eir, eirLen, kind, buf.Length, offset) == Find(eir, eirLen, kind, buf.Length, 0)
      decreases eirLen - offset
    {
      var fieldLen: int := eir[offset];
      if fieldLen == 0 {
        break;
      }
      if offset + fieldLen > eirLen {
        return false;
      }
      if eir[offset + 1] == EIR_NAME_COMPLETE {
        if eir[offset + 1] == kind {
          if fieldLen > buf.Length {
            return false;
          }
          CopyField(eir, offset, fieldLen + 1, buf);
          return true;
        }
      } else if eir[offset + 1] == EIR_MANUFACTURE_SPECIFIC_DATA {
        if eir[offset + 1] == kind {
          if fieldLen > buf.Length {
            return false;
          }
          if fieldLen == FIELD_LEN_05C6 || fieldLen == FIELD_LEN_05C7 {
            CopyField(eir, offset, fieldLen + 1, buf);
            return true;
          }
          return false;
        }
      }
      offset := offset + fieldLen + 1;
    }
    ok := false;
  }

  /** Clears the buffer and prints `n` bytes of `eir` from `offset` on. */
  method CopyField(eir: seq<byte>, offset: nat, n: nat, buf: array<char>)
    requires offset + n <= |eir| && 2 * n + 1 <= buf.Length
    modifies buf
    ensures Printed(buf[..], eir[offset..offset + n])
  {
    forall k | 0 <= k < buf.Length {
      buf[k] := '\0';
    }
    Hex.Print(eir[offset..], n, buf);
    assert eir[offset..][..n] == eir[offset..offset + n];
    assert buf[..][..2 * n] == buf[..2 * n];
  }
}
