/** The packet queue of import/pkt_Queue.c: a ring buffer whose `front` and `rear` are both -1 when it
    is empty. */
module PacketQueue {
  import opened Common

  const NETWORK_ADDR_LENGTH: nat := 16
  const MESSAGE_LENGTH := 65507

  datatype Status = Success | Full | IsFree | Oversize

  datatype Packet = Packet(isNull: bool, address: seq<byte>, port: nat, content: seq<byte>, contentSize: nat)

  /** `strncpy` of at most `n` bytes into a cleared buffer of `size` bytes: copying stops after the
      first zero byte of the source, and the rest of the buffer stays zero. */
  function Copied(source: seq<byte>, n: nat, size: nat): (r: seq<byte>)
    requires n <= size
    ensures |r| == size
    decreases n
  {
    if n == 0 || source == [] || source[0] == 0 then Zeros(size)
    else [source[0]] + Copied(source[1..], n - 1, size - 1)
  }

  /** There is no zero in front of place `i`. */
  ghost predicate Reaches(source: seq<byte>, i: int) {
    i < |source| && forall j :: 0 <= j < i ==> source[j] != 0
  }

  /** What such a copy leaves at each place: the bytes in front of the first zero, and zeros. */
  ghost predicate CopyOf(r: seq<byte>, source: seq<byte>, n: nat) {
    forall i :: 0 <= i < |r| ==> r[i] == if i < n && Reaches(source, i) then source[i] else 0
  }

  lemma ReachesTail(source: seq<byte>, i: nat)
    requires 0 < i && source != [] && source[0] != 0
    ensures Reaches(source, i) <==> Reaches(source[1..], i - 1)
  {
    if Reaches(source[1..], i - 1) {
      assert forall j :: 0 < j < i ==> source[j] == source[1..][j - 1];
    }
  }

  lemma {:induction false} CopiedIsCopy(source: seq<byte>, n: nat, size: nat)
    requires n <= size
    ensures CopyOf(Copied(source, n, size), source, n)
    decreases n
  {
    if n > 0 && source != [] {
      if source[0] != 0 {
        CopiedIsCopy(source[1..], n - 1, size - 1);
        forall i: nat | 0 < i < size
          ensures Reaches(source, i) <==> Reaches(source[1..], i - 1)
        {
          ReachesTail(source, i);
        }
      }
    }
  }

  /** What `addpkt` stores. */
  function Stored(address: seq<byte>, port: nat, content: seq<byte>, contentSize: nat): Packet
    requires contentSize <= MESSAGE_LENGTH
  {
    Packet(false, Copied(address, NETWORK_ADDR_LENGTH, NETWORK_ADDR_LENGTH), port,
           Copied(content, contentSize, MESSAGE_LENGTH), contentSize)
  }

  /** The blank packet `get_pkt` returns from an empty queue. */
  const BLANK := Packet(true, Zeros(NETWORK_ADDR_LENGTH), 0, Zeros(MESSAGE_LENGTH), 0)

  /** The position `k` places after `front` in a ring of `n` slots. */
  function Slot(front: int, k: int, n: int): int {
    if front + k < n then front + k else front + k - n
  }

  /** Of the slots `s` those from `front` on, as many as there are packets, hold `contents`; the flags
      of all others say that they are unused. */
  ghost predicate Arc(front: int, s: seq<Packet>, contents: seq<Packet>) {
    && 1 <= |s| && |contents| <= |s|
    && (contents != [] ==> 0 <= front < |s|)
    && (forall k :: 0 <= k < |contents| ==> s[Slot(front, k, |s|)] == contents[k] && !contents[k].isNull)
    && (forall k :: |contents| <= k < |s| && contents != [] ==> s[Slot(front, k, |s|)].isNull)
    && (contents == [] ==> forall i :: 0 <= i < |s| ==> s[i].isNull)
  }

  lemma ArcAppend(front: int, s: seq<Packet>, contents: seq<Packet>, p: Packet)
    requires Arc(front, s, contents) && 0 <= front < |s| && |contents| < |s| && !p.isNull
    ensures var r := Slot(front, |contents|, |s|);
            0 <= r < |s| && Arc(front, s[r := p], contents + [p])
  {
    var r := Slot(front, |contents|, |s|);
    assert forall k :: 0 <= k < |s| && k != |contents| ==> Slot(front, k, |s|) != r;
  }

  lemma ArcDrop(front: int, s: seq<Packet>, contents: seq<Packet>, blank: Packet)
    requires Arc(front, s, contents) && contents != [] && blank.isNull
    ensures Arc(Slot(front, 1, |s|), s[front := blank], contents[1..])
    ensures contents[1..] == [] ==> Arc(-1, s[front := blank], [])
    ensures front == Slot(front, |contents| - 1, |s|) <==> contents[1..] == []
  {
    var n, t, next := |s|, s[front := blank], Slot(front, 1, |s|);
    forall k | 0 <= k < n - 1
      ensures t[Slot(next, k, n)] == s[Slot(front, k + 1, n)]
    {
      assert Slot(next, k, n) == Slot(front, k + 1, n) != front;
    }
    if |contents| == 1 {
      forall i | 0 <= i < n && i != front
        ensures s[i].isNull
      {
        assert Slot(front, if i >= front then i - front else i - front + n, n) == i;
      }
    } else {
      assert Slot(next, n - 1, n) == front;
    }
  }

  class PacketRing {
    var front: int
    var rear: int
    const slots: array<Packet>
    var isFree: bool
    /** The packets in the queue, first in first out. */
    ghost var contents: seq<Packet>

    ghost predicate Valid()
      reads this, slots
    {
      && Arc(front, slots[..], contents)
      && (contents == [] ==> front == -1 && rear == -1)
      && (contents != [] ==> rear == Slot(front, |contents| - 1, slots.Length))
    }

    /** `init_Packet_Queue` for a queue of `capacity` slots. */
    constructor (capacity: nat)
      requires capacity >= 1
      ensures Valid() && contents == [] && !isFree && slots.Length == capacity && fresh(slots)
    {
      slots := new Packet[capacity](_ => BLANK);
      front := -1;
      rear := -1;
      isFree := false;
      contents := [];
    }

    method IsNull() returns (empty: bool)
      requires Valid()
      ensures empty <==> contents == []
    {
      empty := front == -1 && rear == -1;
    }

    method IsFull() returns (full: bool)
      requires Valid()
      ensures full <==> |contents| == slots.Length
    {
      full := front == rear + 1 || (front == 0 && rear == slots.Length - 1);
    }

    /** None stands for the error code, which is never returned. */
    method QueueLen() returns (length: Option<int>)
      requires Valid()
      ensures length == Some(|contents|)
    {
      if front == 0 && rear == 0 {
        length := Some(1);
      } else if front == -1 && rear == -1 {
        length := Some(0);
      } else if front == rear {
        length := Some(1);
      } else if rear > front {
        length := Some(rear - front + 1);
      } else if front > rear {
        length := Some((slots.Length - front) + rear + 1);
      } else {
        length := None;
      }
    }

    method AddPkt(address: seq<byte>, port: nat, content: seq<byte>, contentSize: nat) returns (status: Status)
      requires Valid()
      modifies this, slots
      ensures Valid() && isFree == old(isFree)
      ensures status == if contentSize > 65507 then Oversize
                        else if old(isFree) then IsFree
                        else if |old(contents)| == slots.Length then Full
                        else Success
      ensures contents == if status == Success then old(contents) + [Stored(address, port, content, contentSize)]
                          else old(contents)
      ensures status == Success ==>
                var p := contents[|contents| - 1];
                && |contents| > 0 && p.port == port && p.contentSize == contentSize && !p.isNull
                && |p.address| == 16 && CopyOf(p.address, address, 16)
                && |p.content| == 65507 && CopyOf(p.content, content, contentSize)
    {
      if contentSize > MESSAGE_LENGTH {
        return Oversize;
      }
      if isFree {
        return IsFree;
      }
      var full := IsFull();
      var empty := IsNull();
      if full {
        return Full;
      } else if empty {
        front := 0;
        rear := 0;
      } else if rear == slots.Length - 1 {
        rear := 0;
      } else {
        rear := rear + 1;
      }
      assert rear == Slot(front, |contents|, slots.Length);
      CopiedIsCopy(address, NETWORK_ADDR_LENGTH, NETWORK_ADDR_LENGTH);
      CopiedIsCopy(content, contentSize, MESSAGE_LENGTH);
      Put(Stored(address, port, content, contentSize));
      return Success;
    }

    /** The packet is stored in the slot `rear`, which is the one behind the last. */
    method Put(p: Packet)
      requires Arc(front, slots[..], contents) && 0 <= front < slots.Length && |contents| < slots.Length && !p.isNull
      requires rear == Slot(front, |contents|, slots.Length)
      modifies this`contents, slots
      ensures Valid() && contents == old(contents) + [p]
    {
      ArcAppend(front, slots[..], contents, p);
      slots[rear] := p;
      contents := contents + [p];
    }

    /** Marks the front slot as unused and clears it; `contentSize` keeps its old value. */
    method DelPkt()
      requires Valid()
      modifies this, slots
      ensures Valid() && isFree == old(isFree)
      ensures contents == if old(contents) == [] then [] else old(contents)[1..]
    {
      var empty := IsNull();
      if empty {
        return;
      }
      Drop(Packet(true, Zeros(NETWORK_ADDR_LENGTH), 0, Zeros(MESSAGE_LENGTH), slots[front].contentSize));
    }

    /** The front slot is overwritten with an unused packet, and the ends move. */
    method Drop(blank: Packet)
      requires Valid() && contents != [] && blank.isNull
      modifies this`front, this`rear, this`contents, slots
      ensures Valid() && contents == old(contents)[1..]
    {
      var current := front;
      ArcDrop(front, slots[..], contents, blank);
      slots[current] := blank;
      contents := contents[1..];
      if current == rear {
        front := -1;
        rear := -1;
      } else if current == slots.Length - 1 {
        front := 0;
      } else {
        front := front + 1;
      }
    }

    method GetPkt() returns (pkt: Packet)
      requires Valid()
      modifies this, slots
      ensures Valid() && isFree == old(isFree)
      ensures old(contents) == [] ==> pkt.isNull && contents == []
      ensures old(contents) != [] ==> pkt == old(contents)[0] && contents == old(contents)[1..]
    {
      var empty := IsNull();
      if empty {
        return BLANK;
      }
      assert slots[Slot(front, 0, slots.Length)] == contents[0];
      pkt := slots[front];
      DelPkt();
    }

    /** Drops every packet; the queue then refuses all others. */
    method FreePacketQueue()
      requires Valid()
      modifies this, slots
      ensures Valid() && isFree && contents == []
    {
      isFree := true;
      var empty := IsNull();
      while !empty
        invariant Valid() && isFree
        invariant empty <==> contents == []
        decreases |contents|
      {
        DelPkt();
        empty := IsNull();
      }
      var num := 0;
      while num < slots.Length
        invariant 0 <= num <= slots.Length && Valid() && isFree && contents == []
      {
        slots[num] := slots[num].(isNull := true);
        num := num + 1;
      }
    }

    /** The flag of a slot is false exactly for the slots of the occupied arc. */
    lemma FlagTellsOccupied(i: int)
      requires Valid() && 0 <= i < slots.Length
      ensures !slots[i].isNull <==> exists k :: 0 <= k < |contents| && Slot(front, k, slots.Length) == i
    {
      if contents != [] {
        var k := if i >= front then i - front else i - front + slots.Length;
        assert Slot(front, k, slots.Length) == i;
      }
    }
  }

  /** The bytes from the first zero on are all zero, so that the data is a zero-terminated string. */
  predicate IsText(s: seq<byte>) {
    forall i, j :: 0 <= i <= j < |s| && s[i] == 0 ==> s[j] == 0
  }

  /** A packet comes out with the bytes that were put in exactly when no byte follows a zero byte:
      a binary message is cut at its first zero. */
  lemma {:induction false} CopiedIntact(source: seq<byte>, n: nat, size: nat)
    requires n <= size && n <= |source|
    ensures Copied(source, n, size)[..n] == source[..n] <==> IsText(source[..n])
    ensures forall i :: n <= i < size ==> Copied(source, n, size)[i] == 0
    decreases n
  {
    var r := Copied(source, n, size);
    if n > 0 {
      if source[0] == 0 {
        assert r[..n] == Zeros(n);
        if IsText(source[..n]) {
          assert forall j :: 0 <= j < n ==> source[..n][0] == 0 && source[..n][j] == 0;
          assert source[..n] == Zeros(n);
        } else {
          var i, j :| 0 <= i <= j < n && source[..n][i] == 0 && source[..n][j] != 0;
          assert r[..n][j] == 0;
        }
      } else {
        var tail := source[1..];
        CopiedIntact(tail, n - 1, size - 1);
        assert source[..n] == [source[0]] + tail[..n - 1];
        assert r[..n] == [source[0]] + Copied(tail, n - 1, size - 1)[..n - 1];
        assert r[..n][1..] == Copied(tail, n - 1, size - 1)[..n - 1];
        assert source[..n][1..] == tail[..n - 1];
        TextTail(source[..n]);
      }
    }
  }

  lemma TextTail(s: seq<byte>)
    requires s != [] && s[0] != 0
    ensures IsText(s) <==> IsText(s[1..])
  {
    if IsText(s[1..]) {
      forall i, j | 0 <= i <= j < |s| && s[i] == 0
        ensures s[j] == 0
      {
        assert s[1..][i - 1] == s[i] && s[1..][j - 1] == s[j];
      }
    }
    if IsText(s) {
      forall i, j | 0 <= i <= j < |s[1..]| && s[1..][i] == 0
        ensures s[1..][j] == 0
      {
        assert s[i + 1] == 0;
      }
    }
  }
}
