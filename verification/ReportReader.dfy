/** How the receiver of an upload of src/LBeacon.c reads its text: fields are separated by semicolons,
    numbers are decimal, payloads hexadecimal. */
module ReportReader {
  import opened Common
  import opened DeviceSpec

  /** What a report says of one device. */
  datatype Line = Line(mac: string, first: int, last: int, rssi: int, button: int, battery: int, data: seq<int>)

  datatype Report = Report(kind: int, count: int, lines: seq<Line>)

  /** The parts of a text between its semicolons. */
  function Split(s: string): (r: seq<string>)
    ensures |r| > 0
  {
    if s == "" then [""]
    else
      var r, c := Split(s[..|s| - 1]), s[|s| - 1];
      if c == ';' then r + [""] else r[..|r| - 1] + [r[|r| - 1] + [c]]
  }

  function ReadNat(s: string): int {
    if s == "" then 0 else ReadNat(s[..|s| - 1]) * 10 + (s[|s| - 1] as int - '0' as int)
  }

  function ReadInt(s: string): int {
    if s != "" && s[0] == '-' then -ReadNat(s[1..]) else ReadNat(s)
  }

  function ReadDigit(c: char): int {
    if c <= '9' then c as int - '0' as int else c as int - 'A' as int + 10
  }

  function ReadHex(s: string): (r: seq<int>)
    ensures |r| == |s| / 2
    ensures forall i :: 0 <= i < |r| ==> r[i] == 16 * ReadDigit(s[2 * i]) + ReadDigit(s[2 * i + 1])
  {
    seq(|s| / 2, i requires 0 <= i < |s| / 2 => 16 * ReadDigit(s[2 * i]) + ReadDigit(s[2 * i + 1]))
  }

  function LineAt(parts: seq<string>, k: nat): Line
    requires k + 7 <= |parts|
  {
    Line(parts[k], ReadInt(parts[k + 1]), ReadInt(parts[k + 2]), ReadInt(parts[k + 3]), ReadInt(parts[k + 4]),
         ReadInt(parts[k + 5]), ReadHex(parts[k + 6]))
  }

  function LinesIn(parts: seq<string>, n: nat): (r: seq<Line>)
    requires 2 + 7 * n <= |parts|
    ensures |r| == n && forall i :: 0 <= i < n ==> r[i] == LineAt(parts, 2 + 7 * i)
  {
    seq(n, i requires 0 <= i < n => LineAt(parts, 2 + 7 * i))
  }

  /** Two fields, then seven for each device, then nothing. */
  function Read(text: string): Option<Report> {
    var parts := Split(text);
    var n := (|parts| - 3) / 7;
    if |parts| == 3 + 7 * n && n >= 0 && parts[|parts| - 1] == "" then
      Some(Report(ReadInt(parts[0]), ReadInt(parts[1]), LinesIn(parts, n)))
    else None
  }

  // ----- What a report should say

  /** The line of a record: when it was first and last seen, how strong, and, if a payload is wanted, the
      payload followed by the scan response. */
  function LineOf(d: Device): Line
    requires Buffers(d)
  {
    Line(d.mac, d.initial, d.final, d.rssi, d.button, d.battery,
         if d.payloadNeeded then d.payload[..d.payloadLength] + d.scanRsp[..d.scanRspLength] else [])
  }

  /** The lines of a list, in its order; a record that waits for a scan response has none. */
  function LinesOf(devices: map<Slot, Device>, ids: seq<Slot>): seq<Line>
    requires forall x <- ids :: x in devices && Buffers(devices[x])
  {
    if ids == [] then []
    else
      var d := devices[ids[|ids| - 1]];
      LinesOf(devices, ids[..|ids| - 1]) + if d.scanRspNeeded && d.scanRspLength == 0 then [] else [LineOf(d)]
  }

  /** Reading the text gives the kind of the list, the number of lines and the lines. */
  ghost predicate Tells(text: string, kind: Kind, devices: map<Slot, Device>, ids: seq<Slot>)
    requires forall x <- ids :: x in devices && Buffers(devices[x])
  {
    var lines := LinesOf(devices, ids);
    Read(text) == Some(Report(if kind == BrEdr then 0 else 1, |lines|, lines))
  }

  /** No address contains a semicolon. */
  ghost predicate Separable(devices: map<Slot, Device>, ids: seq<Slot>)
    requires forall x <- ids :: x in devices
  {
    forall x <- ids :: ';' !in devices[x].mac
  }
}

/** The text of an upload reads back as what the records hold. */
module ReportRoundTrip {
  import opened Common
  import opened DeviceSpec
  import opened TrackedUpload
  import opened ReportReader
  import Hex

  // ----- Fields

  lemma SplitNext(s: string, c: char)
    requires c != ';'
    ensures var r := Split(s); Split(s + [c]) == r[..|r| - 1] + [r[|r| - 1] + [c]]
  {
    assert (s + [c])[..|s|] == s;
  }

  lemma {:induction false} SplitPlain(s: string, f: string)
    requires ';' !in f
    ensures var r := Split(s); Split(s + f) == r[..|r| - 1] + [r[|r| - 1] + f]
  {
    var r := Split(s);
    if f == "" {
      JoinText(s, "", "");
      JoinText(r[|r| - 1], "", "");
    } else {
      var g, c := f[..|f| - 1], f[|f| - 1];
      SplitPlain(s, g);
      JoinText(s, g, [c]);
      JoinText(r[|r| - 1], g, [c]);
      assert f == g + [c];
      SplitNext(s + g, c);
    }
  }

  /** A text that ends with a complete field. */
  ghost predicate Complete(s: string, parts: seq<string>) {
    Split(s) == parts + [""]
  }

  lemma CompleteField(s: string, parts: seq<string>, f: string)
    requires Complete(s, parts) && ';' !in f
    ensures Complete(s + f + ";", parts + [f])
  {
    SplitPlain(s, f);
    var t := s + f + ";";
    assert t[..|t| - 1] == s + f && t[|t| - 1] == ';';
    assert Split(s)[..|Split(s)| - 1] == parts && "" + f == f;
  }

  ghost predicate Plain(parts: seq<string>) {
    forall i :: 0 <= i < |parts| ==> ';' !in parts[i]
  }

  lemma {:induction false} CompleteFields(s: string, parts: seq<string>, more: seq<string>)
    requires Complete(s, parts) && Plain(more)
    ensures Complete(s + Fields(more), parts + more)
  {
    if more == [] {
      assert s + Fields(more) == s && parts + more == parts;
    } else {
      var front, f := more[..|more| - 1], more[|more| - 1];
      CompleteFields(s, parts, front);
      CompleteField(s + Fields(front), parts + front, f);
      assert s + Fields(more) == s + Fields(front) + f + ";";
      assert parts + more == parts + front + [f];
    }
  }

  // ----- Numbers and payloads

  lemma {:induction false} DecNatReads(n: nat)
    ensures ReadNat(DecNat(n)) == n && forall c <- DecNat(n) :: '0' <= c <= '9'
  {
    if n >= 10 {
      DecNatReads(n / 10);
      var s, t := DecNat(n), DecNat(n / 10);
      assert s[..|s| - 1] == t && s[|s| - 1] == Digit(n % 10);
    } else {
      assert DecNat(n)[..0] == "";
    }
  }

  /** The decimal conversion reads back as the number. */
  lemma DecReads(n: int)
    ensures ReadInt(Dec(n)) == n && ';' !in Dec(n)
  {
    DecNatReads(if n < 0 then -n else n);
    if n < 0 {
      assert Dec(n)[1..] == DecNat(-n);
    } else {
      assert Dec(n)[0] in DecNat(n);
    }
  }

  lemma TextPlain(bytes: seq<byte>)
    ensures ';' !in Hex.Text(bytes)
  {
    forall k | 0 <= k < |Hex.Text(bytes)|
      ensures Hex.Text(bytes)[k] != ';'
    {
      Hex.TextAt(bytes, k / 2);
      assert k == 2 * (k / 2) || k == 2 * (k / 2) + 1;
    }
  }

  /** The text shows the bytes, two digits each. */
  ghost predicate Shows(s: string, bytes: seq<byte>) {
    && |s| == 2 * |bytes|
    && forall i :: 0 <= i < |bytes| ==> 16 * ReadDigit(s[2 * i]) + ReadDigit(s[2 * i + 1]) == bytes[i]
  }

  lemma DigitReads(n: int)
    requires 0 <= n < 16
    ensures ReadDigit(Hex.DIGITS[n]) == n
  {
  }

  lemma TextShows(bytes: seq<byte>)
    ensures Shows(Hex.Text(bytes), bytes)
  {
    var s := Hex.Text(bytes);
    forall i: nat | i < |bytes|
      ensures 16 * ReadDigit(s[2 * i]) + ReadDigit(s[2 * i + 1]) == bytes[i]
    {
      Hex.TextAt(bytes, i);
      DigitReads(bytes[i] / 16);
      DigitReads(bytes[i] % 16);
    }
  }

  lemma ShowsBoth(s: string, a: seq<byte>, t: string, b: seq<byte>)
    requires Shows(s, a) && Shows(t, b)
    ensures ReadHex(s + t) == a + b
  {
    forall i | 0 <= i < |a + b|
      ensures ReadHex(s + t)[i] == (a + b)[i]
    {
      if i >= |a| {
        var j := i - |a|;
        assert (s + t)[2 * i] == t[2 * j] && (s + t)[2 * i + 1] == t[2 * j + 1];
      }
    }
  }

  // ----- Records

  lemma HexFieldReads(d: Device)
    requires Buffers(d)
    ensures var text := HexOf(d.payloadNeeded, d.payload, d.payloadLength)
                      + HexOf(d.payloadNeeded, d.scanRsp, d.scanRspLength);
            ';' !in text && ReadHex(text) == LineOf(d).data
  {
    if d.payloadNeeded {
      var a, b := d.payload[..d.payloadLength], d.scanRsp[..d.scanRspLength];
      TextPlain(a);
      TextPlain(b);
      TextShows(a);
      TextShows(b);
      ShowsBoth(Hex.Text(a), a, Hex.Text(b), b);
    }
  }

  lemma SevenPlain(a: string, b: string, c: string, d: string, e: string, f: string, g: string)
    requires ';' !in a && ';' !in b && ';' !in c && ';' !in d && ';' !in e && ';' !in f && ';' !in g
    ensures Plain([a, b, c, d, e, f, g])
  {
  }

  lemma NumbersRead(d: Device)
    ensures ReadInt(Dec(d.initial)) == d.initial && ReadInt(Dec(d.final)) == d.final && ReadInt(Dec(d.rssi)) == d.rssi
    ensures ReadInt(Dec(d.button)) == d.button && ReadInt(Dec(d.battery)) == d.battery
    ensures ';' !in Dec(d.initial) && ';' !in Dec(d.final) && ';' !in Dec(d.rssi)
    ensures ';' !in Dec(d.button) && ';' !in Dec(d.battery)
  {
    DecReads(d.initial);
    DecReads(d.final);
    DecReads(d.rssi);
    DecReads(d.button);
    DecReads(d.battery);
  }

  lemma PartsRead(d: Device)
    requires Buffers(d) && ';' !in d.mac
    ensures Plain(Parts(d)) && LineAt(Parts(d), 0) == LineOf(d)
  {
    var p := Parts(d);
    NumbersRead(d);
    HexFieldReads(d);
    SevenPlain(d.mac, Dec(d.initial), Dec(d.final), Dec(d.rssi), Dec(d.button), Dec(d.battery), p[6]);
  }

  ghost predicate Sevens(groups: seq<seq<string>>) {
    forall i :: 0 <= i < |groups| ==> |groups[i]| == 7
  }

  /** Groups of seven fields, one after the other. */
  function Joined(groups: seq<seq<string>>): (r: seq<string>) {
    if groups == [] then [] else Joined(groups[..|groups| - 1]) + groups[|groups| - 1]
  }

  lemma {:induction false} JoinedLength(groups: seq<seq<string>>)
    requires Sevens(groups)
    ensures |Joined(groups)| == 7 * |groups|
  {
    if groups != [] {
      JoinedLength(groups[..|groups| - 1]);
    }
  }

  /** The `i`-th line is read off the `i`-th group. */
  lemma {:induction false} GroupRead(groups: seq<seq<string>>, i: nat)
    requires Sevens(groups) && i < |groups|
    ensures 7 * i + 7 <= |Joined(groups)| && LineAt(Joined(groups), 7 * i) == LineAt(groups[i], 0)
  {
    var n := |groups| - 1;
    JoinedLength(groups[..n]);
    if i < n {
      GroupRead(groups[..n], i);
      LineStays(Joined(groups[..n]), groups[n], 7 * i);
    } else {
      LineBehind(Joined(groups[..n]), groups[n], 0);
    }
  }

  lemma LineStays(a: seq<string>, b: seq<string>, k: nat)
    requires k + 7 <= |a|
    ensures LineAt(a + b, k) == LineAt(a, k)
  {
    assert forall j :: k <= j < k + 7 ==> (a + b)[j] == a[j];
  }

  lemma LineBehind(a: seq<string>, b: seq<string>, k: nat)
    requires k + 7 <= |b|
    ensures LineAt(a + b, |a| + k) == LineAt(b, k)
  {
    var n := |a| + k;
    assert (a + b)[n] == b[k] && (a + b)[n + 1] == b[k + 1] && (a + b)[n + 2] == b[k + 2];
    assert (a + b)[n + 3] == b[k + 3] && (a + b)[n + 4] == b[k + 4];
    assert (a + b)[n + 5] == b[k + 5] && (a + b)[n + 6] == b[k + 6];
  }

  /** The fields of the records of a list. */
  function Groups(devices: map<Slot, Device>, ids: seq<Slot>): (r: seq<seq<string>>)
    requires forall x <- ids :: x in devices && Buffers(devices[x])
    ensures |r| == |ids| && forall i :: 0 <= i < |r| ==> r[i] == Parts(devices[ids[i]])
  {
    seq(|ids|, i requires 0 <= i < |ids| => Parts(devices[ids[i]]))
  }

  lemma GroupsSeven(devices: map<Slot, Device>, ids: seq<Slot>)
    requires forall x <- ids :: x in devices && Buffers(devices[x])
    ensures Sevens(Groups(devices, ids))
  {
  }

  lemma GroupsFront(devices: map<Slot, Device>, ids: seq<Slot>)
    requires ids != [] && forall x <- ids :: x in devices && Buffers(devices[x])
    ensures Joined(Groups(devices, ids))
         == Joined(Groups(devices, ids[..|ids| - 1])) + Parts(devices[ids[|ids| - 1]])
  {
    assert Groups(devices, ids)[..|ids| - 1] == Groups(devices, ids[..|ids| - 1]);
  }

  lemma {:induction false} CompleteRecords(s: string, parts: seq<string>, devices: map<Slot, Device>, ids: seq<Slot>)
    requires forall x <- ids :: x in devices && Buffers(devices[x])
    requires Complete(s, parts) && Separable(devices, ids)
    ensures Complete(s + Records(devices, ids), parts + Joined(Groups(devices, ids)))
  {
    if ids == [] {
      JoinText(s, "", "");
      JoinParts(parts, [], []);
    } else {
      var front, d := ids[..|ids| - 1], devices[ids[|ids| - 1]];
      var fields := Joined(Groups(devices, front));
      CompleteRecords(s, parts, devices, front);
      PartsRead(d);
      CompleteFields(s + Records(devices, front), parts + fields, Parts(d));
      JoinText(s, Records(devices, front), Record(d));
      JoinParts(parts, fields, Parts(d));
      GroupsFront(devices, ids);
    }
  }

  lemma JoinText(a: string, b: string, c: string)
    ensures a + b + c == a + (b + c) && a + "" == a == "" + a
  {
  }

  lemma JoinParts(a: seq<string>, b: seq<string>, c: seq<string>)
    ensures a + b + c == a + (b + c) && a + [] == a == [] + a
  {
  }

  /** The `i`-th group of seven fields is that of the `i`-th record. */
  lemma LinesRead(devices: map<Slot, Device>, ids: seq<Slot>, i: nat)
    requires forall x <- ids :: x in devices && Buffers(devices[x])
    requires Separable(devices, ids) && i < |ids|
    ensures 7 * i + 7 <= |Joined(Groups(devices, ids))|
    ensures LineAt(Joined(Groups(devices, ids)), 7 * i) == LineOf(devices[ids[i]])
  {
    GroupsSeven(devices, ids);
    GroupRead(Groups(devices, ids), i);
    PartsRead(devices[ids[i]]);
  }

  lemma {:induction false} LinesOfSent(devices: map<Slot, Device>, ids: seq<Slot>)
    requires forall x <- ids :: x in devices && Buffers(devices[x])
    ensures var sent := Sendable(devices, ids);
            && |LinesOf(devices, ids)| == |sent|
            && forall i :: 0 <= i < |sent| ==> LinesOf(devices, ids)[i] == LineOf(devices[sent[i]])
  {
    if ids != [] {
      LinesOfSent(devices, ids[..|ids| - 1]);
    }
  }

  /** The message reads back, whatever the records hold, provided that no address contains a semicolon. */
  lemma MessageTells(kind: Kind, devices: map<Slot, Device>, ids: seq<Slot>)
    requires forall x <- ids :: x in devices && Buffers(devices[x])
    requires Separable(devices, ids)
    ensures Tells(Message(kind, devices, ids), kind, devices, ids)
  {
    var sent, lines := Sendable(devices, ids), LinesOf(devices, ids);
    var records := Joined(Groups(devices, sent));
    MessageFields(kind, devices, ids);
    HeadReads(kind, |sent|);
    LinesOfSent(devices, ids);
    GroupsSeven(devices, sent);
    JoinedLength(Groups(devices, sent));
    forall i: nat | i < |sent|
      ensures 7 * i + 7 <= |records| && LineAt(records, 7 * i) == lines[i]
    {
      LinesRead(devices, sent, i);
    }
    ReadIs(Message(kind, devices, ids), Dec(KindNumber(kind)), Dec(|sent|), records, lines);
  }

  lemma LineInside(a: seq<string>, b: seq<string>, c: seq<string>, k: nat)
    requires k + 7 <= |b|
    ensures LineAt(a + b + c, |a| + k) == LineAt(b, k)
  {
    LineStays(a + b, c, |a| + k);
    LineBehind(a, b, k);
  }

  lemma ReadIs(text: string, kind: string, count: string, records: seq<string>, lines: seq<Line>)
    requires Complete(text, [kind, count] + records) && |records| == 7 * |lines|
    requires forall i: nat :: i < |lines| ==> 7 * i + 7 <= |records| && LineAt(records, 7 * i) == lines[i]
    ensures Read(text) == Some(Report(ReadInt(kind), ReadInt(count), lines))
  {
    var parts, n := [kind, count] + records + [""], |lines|;
    assert |parts| == 3 + 7 * n && (|parts| - 3) / 7 == n;
    forall i: nat | i < n
      ensures LineAt(parts, 2 + 7 * i) == lines[i]
    {
      LineInside([kind, count], records, [""], 7 * i);
    }
    assert LinesIn(parts, n) == lines;
  }

  lemma HeadReads(kind: Kind, n: nat)
    ensures ReadInt(Dec(KindNumber(kind))) == (if kind == BrEdr then 0 else 1) && ReadInt(Dec(n)) == n
  {
    DecReads(KindNumber(kind));
    DecReads(n);
  }

  lemma MessageFields(kind: Kind, devices: map<Slot, Device>, ids: seq<Slot>)
    requires forall x <- ids :: x in devices && Buffers(devices[x])
    requires Separable(devices, ids)
    ensures var sent := Sendable(devices, ids);
            && (forall x <- sent :: x in devices && Buffers(devices[x]))
            && Complete(Message(kind, devices, ids),
                        [Dec(KindNumber(kind)), Dec(|sent|)] + Joined(Groups(devices, sent)))
  {
    var sent := Sendable(devices, ids);
    var k, n := Dec(KindNumber(kind)), Dec(|sent|);
    DecReads(KindNumber(kind));
    DecReads(|sent|);
    HeaderFields(k, n);
    CompleteRecords(k + ";" + n + ";", [k, n], devices, sent);
  }

  lemma HeaderFields(k: string, n: string)
    requires ';' !in k && ';' !in n
    ensures Complete(k + ";" + n + ";", [k, n])
  {
    FirstField(k);
    CompleteField(k + ";", [k], n);
    assert [k] + [n] == [k, n];
  }

  lemma FirstField(k: string)
    requires ';' !in k
    ensures Complete(k + ";", [k])
  {
    assert Split("") == [] + [""];
    CompleteField("", [], k);
    JoinText(k, "", "");
    JoinParts([k], [], []);
  }
}
