/** Forwarding an MVD stream: every whole packet once, before or as it is consumed. */
module StreamForward {
  import opened Bytes
  import NetMsg

  const MAX_PROXY_BUFFER := 131072
  const DEM_KINDS := 8           // dem_mask + 1
  const DEM_SET: byte := 2
  const DEM_MULTIPLE: byte := 3

  /** Offset of the length word, or 0 for a packet of fixed size. */
  function LengthOfs(s: seq<byte>): nat
    requires |s| >= 2
  {
    var kind := s[1] % DEM_KINDS;
    if kind == DEM_SET then 0 else if kind == DEM_MULTIPLE then 6 else 2
  }

  /** The length word as a C int. */
  function LengthWord(s: seq<byte>, ofs: nat): int
    requires ofs + 4 <= |s|
  {
    var x := LowValue(s[ofs..ofs + 4]);
    if x < TWO31 then x else x - TWO32
  }

  predicate HasHeader(s: seq<byte>) {
    |s| >= 2 && (LengthOfs(s) > 0 ==> LengthOfs(s) + 4 <= |s|)
  }

  /** Size of the packet in front, header included. */
  function PacketSize(s: seq<byte>): int
    requires HasHeader(s)
  {
    if LengthOfs(s) == 0 then 10 else LengthWord(s, LengthOfs(s)) + LengthOfs(s) + 4
  }

  /** The packet in front has a body of 0 to MAX_MSGLEN bytes. */
  predicate SaneHeader(s: seq<byte>)
    requires HasHeader(s)
  {
    LengthOfs(s) == 0 || 0 <= LengthWord(s, LengthOfs(s)) <= NetMsg.MAX_MSGLEN
  }

  /** The front of a well-formed stream, cut anywhere. */
  predicate WellFormed(s: seq<byte>)
    decreases |s|
  {
    HasHeader(s) ==> SaneHeader(s) && (PacketSize(s) <= |s| ==> WellFormed(s[PacketSize(s)..]))
  }

  predicate Whole(s: seq<byte>) {
    HasHeader(s) && SaneHeader(s) && PacketSize(s) <= |s|
  }

  /** The whole packets in front, one after another. */
  function Packets(s: seq<byte>): seq<seq<byte>>
    decreases |s|
  {
    if !Whole(s) then [] else [s[..PacketSize(s)]] + Packets(s[PacketSize(s)..])
  }

  /** `SV_EarlyParse`: how many bytes the whole packets in front take. */
  function Available(s: seq<byte>): (n: nat)
    ensures n <= |s|
    decreases |s|
  {
    if !Whole(s) then 0 else PacketSize(s) + Available(s[PacketSize(s)..])
  }

  /** `n` is the end of some whole packet, or the start. */
  predicate Boundary(s: seq<byte>, n: nat)
    decreases |s|
  {
    n == 0 || (Whole(s) && PacketSize(s) <= n && Boundary(s[PacketSize(s)..], n - PacketSize(s)))
  }

  lemma SizeBound(s: seq<byte>)
    requires Whole(s)
    ensures 6 <= PacketSize(s) <= |s|
  {
  }

  // ---- Headers do not change when more bytes arrive ----

  lemma HeaderStable(s: seq<byte>, t: seq<byte>)
    requires HasHeader(s)
    ensures HasHeader(s + t) && LengthOfs(s + t) == LengthOfs(s) && PacketSize(s + t) == PacketSize(s)
    ensures SaneHeader(s + t) == SaneHeader(s)
  {
    var ofs := LengthOfs(s);
    assert (s + t)[1] == s[1];
    if ofs > 0 {
      assert (s + t)[ofs..ofs + 4] == s[ofs..ofs + 4];
    }
  }

  lemma {:induction false} BoundaryBound(s: seq<byte>, n: nat)
    requires Boundary(s, n)
    ensures n <= |s|
    decreases |s|
  {
    if n != 0 {
      BoundaryBound(s[PacketSize(s)..], n - PacketSize(s));
    }
  }

  lemma {:induction false} BoundaryStable(s: seq<byte>, t: seq<byte>, n: nat)
    requires Boundary(s, n)
    ensures Boundary(s + t, n)
    decreases |s|
  {
    if n != 0 {
      HeaderStable(s, t);
      BoundaryStable(s[PacketSize(s)..], t, n - PacketSize(s));
      assert (s + t)[PacketSize(s)..] == s[PacketSize(s)..] + t;
    }
  }

  /** What remains after a boundary of a well-formed front is a well-formed front. */
  lemma {:induction false} WellFormedRest(s: seq<byte>, n: nat)
    requires WellFormed(s) && Boundary(s, n) && n <= |s|
    ensures WellFormed(s[n..])
    decreases |s|
  {
    if n == 0 {
      assert s[0..] == s;
    } else {
      var k := PacketSize(s);
      BoundaryBound(s[k..], n - k);
      WellFormedRest(s[k..], n - k);
      assert s[k..][n - k..] == s[n..];
    }
  }

  lemma {:induction false} BoundaryJoin(s: seq<byte>, m: nat, n: nat)
    requires m <= |s| && Boundary(s, m) && Boundary(s[m..], n)
    ensures Boundary(s, m + n)
    decreases |s|
  {
    hide PacketSize, SaneHeader, LengthOfs;
    if m == 0 {
      assert s[0..] == s;
    } else {
      SizeBound(s);
      var k := PacketSize(s);
      BoundaryBound(s[k..], m - k);
      assert s[m..] == s[k..][m - k..];
      BoundaryJoin(s[k..], m - k, n);
    }
  }

  lemma {:induction false} AvailableIsBoundary(s: seq<byte>)
    ensures Boundary(s, Available(s))
    decreases |s|
  {
    if Whole(s) {
      AvailableIsBoundary(s[PacketSize(s)..]);
    }
  }

  lemma PacketsOfFront(s: seq<byte>, n: nat)
    requires Whole(s) && PacketSize(s) <= n <= |s|
    ensures var k := PacketSize(s); Packets(s[..n]) == [s[..k]] + Packets(s[k..][..n - k])
  {
    hide PacketSize, SaneHeader, LengthOfs;
    SizeBound(s);
    var k := PacketSize(s);
    FrontPacket(s, n);
    assert s[..n][k..] == s[k..][..n - k];
  }

  /** The packets before a boundary and those after it are all the packets. */
  lemma {:induction false} PacketsSplit(s: seq<byte>, n: nat)
    requires n <= |s| && Boundary(s, n)
    ensures Packets(s) == Packets(s[..n]) + Packets(s[n..])
    decreases |s|
  {
    hide PacketSize, SaneHeader, LengthOfs;
    if n == 0 {
      assert s[0..] == s && s[..0] == [];
    } else {
      SizeBound(s);
      var k := PacketSize(s);
      BoundaryBound(s[k..], n - k);
      PacketsSplit(s[k..], n - k);
      PacketsOfFront(s, n);
      assert s[k..][n - k..] == s[n..];
      assert [s[..k]] + (Packets(s[k..][..n - k]) + Packets(s[n..]))
        == ([s[..k]] + Packets(s[k..][..n - k])) + Packets(s[n..]);
    }
  }

  /** The bytes up to a boundary are whole packets, and nothing else. */
  lemma {:induction false} PacketsFill(s: seq<byte>, n: nat)
    requires n <= |s| && Boundary(s, n)
    ensures Flatten(Packets(s[..n])) == s[..n]
    decreases |s|
  {
    hide PacketSize, SaneHeader, LengthOfs, Packets;
    if n == 0 {
      NoPackets(s[..0]);
    } else {
      SizeBound(s);
      var k := PacketSize(s);
      BoundaryBound(s[k..], n - k);
      PacketsFill(s[k..], n - k);
      PacketsOfFront(s, n);
      FlattenAppend([s[..k]], Packets(s[k..][..n - k]));
      FlattenSnoc([], s[..k]);
      assert s[..n] == s[..k] + s[k..][..n - k];
    }
  }

  lemma NoPackets(s: seq<byte>)
    requires s == []
    ensures Packets(s) == []
  {
  }

  lemma FrontPacket(s: seq<byte>, n: nat)
    requires Whole(s) && PacketSize(s) <= n <= |s|
    ensures Whole(s[..n]) && PacketSize(s[..n]) == PacketSize(s) && s[..n][..PacketSize(s)] == s[..PacketSize(s)]
  {
    var f := s[..n];
    assert f + s[n..] == s;
    var ofs := LengthOfs(s);
    if ofs > 0 {
      assert f[ofs..ofs + 4] == s[ofs..ofs + 4];
    }
  }

  lemma {:induction false} BoundaryOfPrefix(s: seq<byte>, n: nat, m: nat)
    requires Boundary(s, n) && n <= m <= |s|
    ensures Boundary(s[..m], n)
    decreases |s|
  {
    hide PacketSize, SaneHeader, LengthOfs;
    if n != 0 {
      SizeBound(s);
      var k := PacketSize(s);
      FrontPacket(s, m);
      BoundaryOfPrefix(s[k..], n - k, m - k);
      assert s[..m][k..] == s[k..][..m - k];
    }
  }

  // ---- The stream ----

  /** The buffer, how much of its front has been forwarded, and the history, packet by packet: what
      `SV_ForwardStream` was given, and what was consumed. */
  datatype Stream = Stream(buffer: seq<byte>, forwardpoint: nat, forwarded: seq<seq<byte>>, consumed: seq<seq<byte>>)

  const EMPTY := Stream([], 0, [], [])

  /** `Net_ReadStream` after `read` bytes came in. */
  function AfterRead(s: Stream, read: seq<byte>, lateforward: bool): Stream
    requires s.forwardpoint <= |s.buffer|
  {
    var b := s.buffer + read;
    if lateforward || read == [] then s.(buffer := b)
    else
      var n := Available(b[s.forwardpoint..]);
      s.(buffer := b, forwardpoint := s.forwardpoint + n,
         forwarded := s.forwarded + Packets(b[s.forwardpoint..s.forwardpoint + n]))
  }

  /** `QTV_Run` consuming the packet in front: forwarded first if it has not been. */
  function AfterConsume(s: Stream): Stream
    requires Whole(s.buffer)
  {
    var k := PacketSize(s.buffer);
    var late := s.forwardpoint < k;
    var fp := if late then s.forwardpoint + k else s.forwardpoint;
    Stream(s.buffer[k..], Floor(fp - k), if late then s.forwarded + Packets(s.buffer[..k]) else s.forwarded,
           s.consumed + [s.buffer[..k]])
  }

  function Floor(x: int): nat {
    if x < 0 then 0 else x
  }

  predicate Inv(s: Stream) {
    && WellFormed(s.buffer)
    && s.forwardpoint <= |s.buffer| && Boundary(s.buffer, s.forwardpoint)
    && s.forwarded == s.consumed + Packets(s.buffer[..s.forwardpoint])
  }

  /** The forward point lies on a packet boundary, so it is either 0 or past the packet in front. */
  lemma ForwardedOrNot(s: Stream)
    requires Inv(s) && Whole(s.buffer)
    ensures s.forwardpoint < PacketSize(s.buffer) ==> s.forwardpoint == 0
  {
  }

  lemma ReadKeepsInv(s: Stream, read: seq<byte>, lateforward: bool)
    requires Inv(s) && WellFormed(s.buffer + read)
    ensures Inv(AfterRead(s, read, lateforward))
  {
    hide Available, Boundary, WellFormed, Packets;
    var b, fp := s.buffer + read, s.forwardpoint;
    BoundaryStable(s.buffer, read, fp);
    assert b[..fp] == s.buffer[..fp];
    if !lateforward && read != [] {
      var n := Available(b[fp..]);
      AvailableIsBoundary(b[fp..]);
      BoundaryJoin(b, fp, n);
      BoundaryOfPrefix(b, fp, fp + n);
      PacketsSplit(b[..fp + n], fp);
      assert b[..fp + n][..fp] == b[..fp] && b[..fp + n][fp..] == b[fp..fp + n];
    }
  }

  /** What `SV_ForwardStream` is handed is whole packets and nothing else. */
  lemma ForwardedWhole(s: Stream, read: seq<byte>)
    requires Inv(s)
    ensures var t := (s.buffer + read)[s.forwardpoint..]; Flatten(Packets(t[..Available(t)])) == t[..Available(t)]
  {
    var t := (s.buffer + read)[s.forwardpoint..];
    AvailableIsBoundary(t);
    PacketsFill(t, Available(t));
  }

  lemma ConsumeKeepsInv(s: Stream)
    requires Inv(s) && Whole(s.buffer)
    ensures Inv(AfterConsume(s))
    ensures s.forwardpoint < PacketSize(s.buffer) || s.forwardpoint - PacketSize(s.buffer) >= 0
  {
    hide PacketSize, SaneHeader, LengthOfs, Packets;
    SizeBound(s.buffer);
    var k, b, fp := PacketSize(s.buffer), s.buffer, s.forwardpoint;
    if fp < k {
      PacketsOfFront(b, k);
      NoPackets(b[k..][..0]);
      NoPackets(b[..0]);
      assert Packets(b[..k]) == [b[..k]];
    } else {
      BoundaryBound(b[k..], fp - k);
      PacketsOfFront(b, fp);
      assert s.consumed + ([b[..k]] + Packets(b[k..][..fp - k])) == (s.consumed + [b[..k]]) + Packets(b[k..][..fp - k]);
    }
  }

  lemma {:induction false} AvailableIsAll(s: seq<byte>)
    ensures !Whole(s[Available(s)..])
    decreases |s|
  {
    hide PacketSize, SaneHeader, LengthOfs;
    if Whole(s) {
      SizeBound(s);
      var k := PacketSize(s);
      AvailableIsAll(s[k..]);
      assert s[k..][Available(s[k..])..] == s[Available(s)..];
    } else {
      assert s[0..] == s;
    }
  }

  /** Bytes read are kept; with `lateforward` nothing is forwarded yet, and without it nothing whole waits. */
  lemma ReadForwards(s: Stream, read: seq<byte>, lateforward: bool)
    requires s.forwardpoint <= |s.buffer|
    ensures var t := AfterRead(s, read, lateforward);
      && t.buffer == s.buffer + read && t.consumed == s.consumed && s.forwardpoint <= t.forwardpoint <= |t.buffer|
      && (read == [] || lateforward ==> t.forwardpoint == s.forwardpoint && t.forwarded == s.forwarded)
      && (read != [] && !lateforward ==> !Whole(t.buffer[t.forwardpoint..]))
  {
    hide Whole, Packets;
    var b := s.buffer + read;
    if read == [] {
      assert b == s.buffer;
    } else if !lateforward {
      var rest := b[s.forwardpoint..];
      AvailableIsAll(rest);
      assert rest[Available(rest)..] == b[s.forwardpoint + Available(rest)..];
    }
  }

  /** Reads with whatever setting of `lateforward`, and packets consumed, in any order. */
  datatype Step = Read(data: seq<byte>, lateforward: bool) | Consume

  predicate Enabled(s: Stream, step: Step) {
    match step
    case Read(data, _) => s.forwardpoint <= |s.buffer| && WellFormed(s.buffer + data)
    case Consume => Whole(s.buffer)
  }

  function Next(s: Stream, step: Step): Stream
    requires Enabled(s, step)
  {
    match step
    case Read(data, late) => AfterRead(s, data, late)
    case Consume => AfterConsume(s)
  }

  ghost predicate Run(s: Stream, steps: seq<Step>, t: Stream)
    decreases |steps|
  {
    if steps == [] then t == s
    else Enabled(s, steps[0]) && Run(Next(s, steps[0]), steps[1..], t)
  }

  lemma {:induction false} RunKeepsInv(s: Stream, steps: seq<Step>, t: Stream)
    requires Inv(s) && Run(s, steps, t)
    ensures Inv(t)
    decreases |steps|
  {
    if steps != [] {
      match steps[0] {
        case Read(data, late) => ReadKeepsInv(s, data, late);
        case Consume => ConsumeKeepsInv(s);
      }
      RunKeepsInv(Next(s, steps[0]), steps[1..], t);
    }
  }

  /** Exactly once, and in order: the packets forwarded are those consumed and then those in front of
      the forward point, which is 0 or past the packet in front. */
  lemma ExactlyOnce(steps: seq<Step>, t: Stream)
    requires Run(EMPTY, steps, t)
    ensures t.forwardpoint <= |t.buffer| && Boundary(t.buffer, t.forwardpoint)
    ensures t.forwarded == t.consumed + Packets(t.buffer[..t.forwardpoint])
    ensures Packets(t.buffer) == Packets(t.buffer[..t.forwardpoint]) + Packets(t.buffer[t.forwardpoint..])
    ensures Whole(t.buffer) && t.forwardpoint < PacketSize(t.buffer) ==> t.forwardpoint == 0
  {
    NoPackets(EMPTY.buffer[..0]);
    RunKeepsInv(EMPTY, steps, t);
    PacketsSplit(t.buffer, t.forwardpoint);
    if Whole(t.buffer) {
      ForwardedOrNot(t);
    }
  }
}
