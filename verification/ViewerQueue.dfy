/** The back buffers that feed a viewer's reliable channel. */
module ViewerQueue {
  import opened Bytes
  import opened NetMsg

  const MAX_BACK_BUFFERS := 16
  const MAX_BACKBUF_SIZE := 1000
  const SVC_PRINT: byte := 8
  const PRINT_HIGH: byte := 2

  /** "backbuffer overflow", with its newline. */
  const OVERFLOW_TEXT: seq<byte> := [98, 97, 99, 107, 98, 117, 102, 102, 101, 114, 32,
                                     111, 118, 101, 114, 102, 108, 111, 119, 10]

  /** `message` is the channel's message buffer of `maxsize` bytes, `backbuf` the back buffers in use. */
  datatype Queue = Queue(isNq: bool, maxsize: nat, message: seq<byte>, backbuf: seq<seq<byte>>, drop: bool)

  function Notice(isNq: bool): seq<byte> {
    (if isNq then [SVC_PRINT] else [SVC_PRINT, PRINT_HIGH]) + (OVERFLOW_TEXT + [0])
  }

  predicate FitsMessage(q: Queue, data: seq<byte>) {
    q.backbuf == [] && |q.message| + |data| < q.maxsize
  }

  predicate FitsLast(q: Queue, data: seq<byte>) {
    q.backbuf != [] && |q.backbuf[|q.backbuf| - 1]| + |data| < MAX_BACKBUF_SIZE
  }

  /** `SendBufferToViewer` with `reliable` set. */
  function AfterSend(q: Queue, data: seq<byte>): Queue {
    var n := |q.backbuf|;
    if FitsMessage(q, data) then q.(message := q.message + data)
    else if FitsLast(q, data) then q.(backbuf := q.backbuf[n - 1 := q.backbuf[n - 1] + data])
    else if n == MAX_BACK_BUFFERS then q.(message := Clip([], q.maxsize, Notice(q.isNq)), drop := true)
    else q.(backbuf := q.backbuf + [PutData([], MAX_BACKBUF_SIZE, data)])
  }

  /** The shift at the end of `SendViewerPackets`. */
  function AfterShift(q: Queue): Queue {
    if q.message == [] && q.backbuf != [] then q.(message := q.backbuf[0], backbuf := q.backbuf[1..]) else q
  }

  function Pending(q: Queue): seq<byte> {
    q.message + Flatten(q.backbuf)
  }

  /** What a chunk must meet to be kept: a guard the caller can evaluate. */
  predicate Accepts(q: Queue, data: seq<byte>) {
    FitsMessage(q, data) || FitsLast(q, data) || (|q.backbuf| < MAX_BACK_BUFFERS && |data| <= MAX_BACKBUF_SIZE)
  }

  lemma FlattenUpdateLast<T>(ss: seq<seq<T>>, s: seq<T>)
    requires ss != []
    ensures Flatten(ss[|ss| - 1 := ss[|ss| - 1] + s]) == Flatten(ss) + s
  {
    var n := |ss| - 1;
    assert ss[n := ss[n] + s] == ss[..n] + [ss[n] + s];
    FlattenSnoc(ss[..n], ss[n] + s);
    assert (Flatten(ss[..n]) + ss[n]) + s == Flatten(ss[..n]) + (ss[n] + s);
  }

  lemma AcceptedIsAppended(q: Queue, data: seq<byte>)
    requires Accepts(q, data)
    ensures Pending(AfterSend(q, data)) == Pending(q) + data && AfterSend(q, data).drop == q.drop
  {
    hide Flatten;
    if FitsMessage(q, data) {
      FlattenNil(q.message);
      FlattenNil(q.message + data);
    } else if FitsLast(q, data) {
      FlattenUpdateLast(q.backbuf, data);
      Assoc(q.message, Flatten(q.backbuf), data);
    } else {
      var s := PutData([], MAX_BACKBUF_SIZE, data);
      assert s == data;
      FlattenSnoc(q.backbuf, s);
      Assoc(q.message, Flatten(q.backbuf), s);
    }
  }

  /**
   * A chunk is queued behind everything pending exactly when the message takes it, or the last back
   * buffer does, or one of the sixteen is left and its 1000 bytes suffice; otherwise it is lost, and
   * unless it was too large for a back buffer the viewer is dropped.
   */
  lemma KeptExactlyWhenAccepted(q: Queue, data: seq<byte>)
    requires data != [] && !q.drop && |q.backbuf| <= 16
    ensures var r := AfterSend(q, data);
      (Pending(r) == Pending(q) + data && !r.drop)
      <==> (q.backbuf == [] && |q.message| + |data| < q.maxsize)
           || (q.backbuf != [] && |q.backbuf[|q.backbuf| - 1]| + |data| < 1000)
           || (|q.backbuf| < 16 && |data| <= 1000)
    ensures !Accepts(q, data) && |data| <= 1000 ==> AfterSend(q, data).drop
  {
    if Accepts(q, data) {
      AcceptedIsAppended(q, data);
    } else if |q.backbuf| < MAX_BACK_BUFFERS {
      var empty: seq<byte> := [];
      assert AfterSend(q, data).backbuf == q.backbuf + [empty];
      FlattenSnoc(q.backbuf, empty);
      assert |Pending(AfterSend(q, data))| == |Pending(q)|;
    }
  }

  /** The viewer is dropped exactly when a seventeenth back buffer would be needed; the notice says why. */
  lemma OverflowsExactly(q: Queue, data: seq<byte>)
    requires |q.backbuf| <= 16
    ensures var r := AfterSend(q, data);
      var last := if q.backbuf == [] then [] else q.backbuf[|q.backbuf| - 1];
      var over := |q.backbuf| == 16 && |last| + |data| >= 1000;
      && (r.drop <==> q.drop || over)
      && |r.backbuf| == |q.backbuf| + (if q.backbuf == [] then if |q.message| + |data| < q.maxsize then 0 else 1
                                       else if |last| + |data| < 1000 || over then 0 else 1)
      && (over ==> r.backbuf == q.backbuf
                   && r.message == Clip([], q.maxsize, (if q.isNq then [8] else [8, 2])
                                                       + Ascii("backbuffer overflow\n") + [0]))
  {
    NoticeText();
    assert (if q.isNq then [8] else [8, 2]) + (OVERFLOW_TEXT + [0])
        == (if q.isNq then [8] else [8, 2]) + OVERFLOW_TEXT + [0];
  }

  lemma NoticeText()
    ensures OVERFLOW_TEXT == Ascii("backbuffer overflow\n")
  {
  }

  lemma ShiftKeepsPending(q: Queue)
    ensures Pending(AfterShift(q)) == Pending(q)
  {
    if q.message == [] && q.backbuf != [] {
      assert q.backbuf == [q.backbuf[0]] + q.backbuf[1..];
      FlattenAppend([q.backbuf[0]], q.backbuf[1..]);
      FlattenSnoc([], q.backbuf[0]);
    }
  }

  /** What comes out when the message is taken and the next one shifted in, until nothing is left. */
  function Drained(q: Queue): seq<byte>
    decreases |q.backbuf|
  {
    q.message + if q.backbuf == [] then [] else Drained(AfterShift(q.(message := [])))
  }

  /** Each shift frees a back buffer, and everything pending comes out in order. */
  lemma {:induction false} DrainsAll(q: Queue)
    ensures Drained(q) == Pending(q)
    decreases |q.backbuf|
  {
    hide Flatten;
    var q1 := q.(message := []);
    if q.backbuf == [] {
      FlattenNil(q.message);
    } else {
      DrainsAll(AfterShift(q1));
      ShiftKeepsPending(q1);
      assert Pending(q1) == Flatten(q.backbuf);
    }
  }

  class Viewer {
    const isNq: bool
    const message: NetMsg
    const backbuf: array<NetMsg?>
    var backbuffered: nat
    var drop: bool
    ghost var backs: seq<seq<byte>>

    ghost predicate Slot(b: NetMsg?)
      reads b, message
    {
      b == null ||
      (b != message && b.data != message.data && b.readpos == 0 && b.Valid()
       && b.maxsize == b.data.Length == MAX_BACKBUF_SIZE)
    }

    ghost predicate Apart(b: NetMsg?, c: NetMsg?)
      reads b, c
    {
      b != null && c != null ==> b != c && b.data != c.data
    }

    ghost predicate Shape()
      reads this`backbuffered, message, backbuf, backbuf[..]
    {
      && message.Valid() && message.readpos == 0
      && backbuf.Length == MAX_BACK_BUFFERS && backbuffered <= MAX_BACK_BUFFERS
      && (forall i :: 0 <= i < MAX_BACK_BUFFERS ==> Slot(backbuf[i]))
      && (forall i, j :: 0 <= i < j < MAX_BACK_BUFFERS ==> Apart(backbuf[i], backbuf[j]))
      && (forall i :: 0 <= i < backbuffered ==> backbuf[i] != null)
    }

    ghost function Bytes(): set<object>
      reads backbuf, backbuf[..]
    {
      set i | 0 <= i < backbuf.Length && backbuf[i] != null :: backbuf[i].data
    }

    ghost function Front(): (s: seq<byte>)
      requires Shape()
      reads this`backbuffered, message, message.data, backbuf, backbuf[..]
    {
      message.Contents()
    }

    /** The contents of one of the buffers in use. */
    ghost function Back(i: nat): (s: seq<byte>)
      requires Shape() && i < backbuffered
      reads this`backbuffered, message, backbuf, backbuf[..], Bytes()
    {
      backbuf[i].Contents()
    }

    ghost predicate Valid()
      reads this, message, backbuf, backbuf[..], Bytes()
    {
      Shape() && |backs| == backbuffered && forall i :: 0 <= i < backbuffered ==> Back(i) == backs[i]
    }

    ghost function State(): Queue
      requires Valid()
      reads this, message, message.data, backbuf, backbuf[..], Bytes()
    {
      Queue(isNq, message.maxsize, Front(), backs, drop)
    }

    constructor (isNq: bool, message: NetMsg)
      requires message.Valid() && message.readpos == 0
      ensures Valid() && this.message == message
      ensures State() == Queue(isNq, message.maxsize, message.Contents(), [], false)
    {
      this.isNq, this.message := isNq, message;
      backbuf := new NetMsg?[MAX_BACK_BUFFERS](_ => null);
      backbuffered, drop, backs := 0, false, [];
    }

    method SendBufferToViewer(data: seq<byte>)
      requires Valid()
      modifies this, message`cursize, message.data, backbuf, backbuf[..], Bytes()
      ensures Valid() && State() == AfterSend(old(State()), data)
    {
      hide Apart, Notice, Clip;
      var n := backbuffered;
      if n == 0 && message.cursize + |data| < message.maxsize {
        message.WriteData(data);
      } else if n > 0 && backbuf[n - 1].cursize + |data| < backbuf[n - 1].maxsize {
        AppendLast(data);
      } else if n == MAX_BACK_BUFFERS {
        Overflow();
      } else {
        NewBackbuffer(data);
      }
    }

    method AppendLast(data: seq<byte>)
      requires Valid() && backbuffered > 0 && FitsLast(State(), data)
      modifies this`backs, backbuf[..], Bytes()
      ensures Valid()
      ensures State() == old(State()).(backbuf := old(backs)[backbuffered - 1 := old(backs)[backbuffered - 1] + data])
    {
      hide Slot, Apart;
      AppendTo(backbuffered - 1, data);
      backs := backs[backbuffered - 1 := backs[backbuffered - 1] + data];
    }

    method AppendTo(k: nat, data: seq<byte>)
      requires Shape() && k < backbuffered && |Back(k)| + |data| < MAX_BACKBUF_SIZE
      modifies backbuf[..]`cursize, Bytes()
      ensures Shape() && Front() == old(Front()) && Back(k) == old(Back(k)) + data
      ensures forall i :: 0 <= i < backbuffered && i != k ==> Back(i) == old(Back(i))
    {
      backbuf[k].WriteData(data);
      assert forall i :: 0 <= i < k ==> Apart(backbuf[i], backbuf[k]);
    }

    method Overflow()
      requires Valid()
      modifies this`drop, message`cursize, message.data
      ensures Valid() && State() == old(State()).(message := Clip([], message.maxsize, Notice(isNq)), drop := true)
    {
      WriteNotice(message, isNq);
      drop := true;
    }

    method NewBackbuffer(data: seq<byte>)
      requires Valid() && backbuffered < MAX_BACK_BUFFERS
      modifies this`backs, this`backbuffered, backbuf, backbuf[..], Bytes()
      ensures Valid()
      ensures State() == old(State()).(backbuf := old(backs) + [PutData([], MAX_BACKBUF_SIZE, data)])
    {
      Allocate();
      FillNext(data);
    }

    method FillNext(data: seq<byte>)
      requires Valid() && backbuffered < MAX_BACK_BUFFERS && backbuf[backbuffered] != null
      modifies this`backs, this`backbuffered, {backbuf[backbuffered]}`cursize, backbuf[backbuffered].data
      ensures Valid()
      ensures State() == old(State()).(backbuf := old(backs) + [PutData([], MAX_BACKBUF_SIZE, data)])
    {
      var n := backbuffered;
      var next := backbuf[n];
      next.cursize := 0;
      next.WriteData(data);
      backs := backs + [PutData([], MAX_BACKBUF_SIZE, data)];
      backbuffered := n + 1;
      assert forall i :: 0 <= i < n ==> Apart(backbuf[i], next);
    }

    /** The buffer of the next slot is allocated when it is first needed. */
    method Allocate()
      requires Valid() && backbuffered < MAX_BACK_BUFFERS
      modifies backbuf
      ensures Valid() && backbuf[backbuffered] != null && State() == old(State())
      ensures forall i :: 0 <= i < backbuf.Length ==>
        backbuf[i] == old(backbuf[i]) || (i == backbuffered && fresh(backbuf[i]) && fresh(backbuf[i].data))
    {
      if backbuf[backbuffered] == null {
        var buffer := new byte[MAX_BACKBUF_SIZE];
        var next := new NetMsg(buffer, MAX_BACKBUF_SIZE);
        backbuf[backbuffered] := next;
      }
    }

    /** The end of `SendViewerPackets`: the first back buffer becomes the message, the others move up. */
    method Shift()
      requires Valid() && message.data.Length >= MAX_BACKBUF_SIZE && message.maxsize >= MAX_BACKBUF_SIZE
      modifies this, message`cursize, message.data, backbuf[..]`cursize, Bytes()
      ensures Valid() && State() == AfterShift(old(State()))
    {
      if message.cursize != 0 || backbuffered == 0 {
        return;
      }
      TakeFirst();
      DropFirst();
    }

    method DropFirst()
      requires Valid() && backbuffered > 0
      modifies this`backs, this`backbuffered, backbuf[..]`cursize, Bytes()
      ensures Valid() && State() == old(State()).(backbuf := old(backs)[1..])
    {
      hide Shape;
      MoveUp(backs);
      LeaveOff(backs[1..]);
    }

    method TakeFirst()
      requires Valid() && backbuffered > 0 && message.data.Length >= MAX_BACKBUF_SIZE
      requires message.maxsize >= MAX_BACKBUF_SIZE
      modifies message`cursize, message.data
      ensures Valid() && message.Contents() == backs[0]
    {
      CopyInto(message, backbuf[0]);
    }

    method LeaveOff(ghost rest: seq<seq<byte>>)
      requires Shape() && backbuffered == |rest| + 1 && forall i :: 0 <= i < |rest| ==> Back(i) == rest[i]
      modifies this`backs, this`backbuffered
      ensures Valid() && backs == rest && Front() == old(Front())
    {
      backbuffered := backbuffered - 1;
      backs := rest;
    }

    method MoveUp(ghost was: seq<seq<byte>>)
      requires Shape() && |was| == backbuffered > 0 && forall i :: 0 <= i < backbuffered ==> Back(i) == was[i]
      modifies backbuf[..]`cursize, Bytes()
      ensures Shape() && Front() == old(Front())
      ensures forall i :: 0 <= i < backbuffered - 1 ==> Back(i) == was[1..][i]
    {
      hide Shape, Back, Front;
      var read := 0;
      while read < backbuffered
        invariant 0 <= read <= backbuffered
        invariant Shape() && Front() == old(Front())
        invariant forall i :: 0 <= i < read && i < backbuffered - 1 ==> Back(i) == was[1..][i]
        invariant forall i :: read <= i < backbuffered ==> Back(i) == was[i]
      {
        if read == backbuffered - 1 {
          Empty(read);
        } else {
          CopyDown(read);
        }
        read := read + 1;
      }
    }

    method Empty(k: nat)
      requires Shape() && k < backbuffered
      modifies backbuf[..]`cursize, Bytes()
      ensures Shape() && Front() == old(Front())
      ensures forall i :: 0 <= i < backbuffered && i != k ==> Back(i) == old(Back(i))
    {
      backbuf[k].cursize := 0;
      assert forall i :: 0 <= i < k ==> Apart(backbuf[i], backbuf[k]);
    }

    method CopyDown(k: nat)
      requires Shape() && k + 1 < backbuffered
      modifies backbuf[..]`cursize, Bytes()
      ensures Shape() && Front() == old(Front())
      ensures Back(k) == old(Back(k + 1))
      ensures forall i :: 0 <= i < backbuffered && i != k ==> Back(i) == old(Back(i))
    {
      assert Apart(backbuf[k], backbuf[k + 1]);
      CopyInto(backbuf[k], backbuf[k + 1]);
      assert forall i :: 0 <= i < k ==> Apart(backbuf[i], backbuf[k]);
    }
  }

  /** `memcpy` of the contents, and the size with it. */
  method CopyInto(to: NetMsg, from: NetMsg)
    requires to.Valid() && from.Valid() && to.data != from.data && to != from && to.readpos == 0
    requires from.cursize <= to.maxsize
    modifies to`cursize, to.data
    ensures to.Valid() && to.Contents() == from.Contents()
  {
    forall i | 0 <= i < from.cursize {
      to.data[i] := from.data[i];
    }
    to.cursize := from.cursize;
  }

  method WriteNotice(message: NetMsg, isNq: bool)
    requires message.Valid() && message.readpos == 0
    modifies message`cursize, message.data
    ensures message.Valid() && message.Contents() == Clip([], message.maxsize, Notice(isNq))
  {
    hide Clip;
    message.cursize := 0;
    message.WriteByte(SVC_PRINT);
    ClipTwice([], message.maxsize, [SVC_PRINT], [PRINT_HIGH]);
    if !isNq {
      message.WriteByte(PRINT_HIGH);
    }
    ClipTwice([], message.maxsize, if isNq then [SVC_PRINT] else [SVC_PRINT] + [PRINT_HIGH], OVERFLOW_TEXT + [0]);
    message.WriteString(OVERFLOW_TEXT);
    assert [SVC_PRINT] + [PRINT_HIGH] == [SVC_PRINT, PRINT_HIGH];
  }
}
