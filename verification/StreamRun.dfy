/** `Net_ReadStream` and the packet loop of `QTV_Run` over the stream's own buffer. */
module StreamRun {
  import opened Bytes
  import opened StreamForward

  /** The time a packet takes: its first byte, scaled by the playing speed if one is set. */
  function PacketTime(b: byte, parsespeed: int): nat {
    if parsespeed > 0 then 1000 * (b as int) / parsespeed else b
  }

  /** `QTV_Run`'s loop at time `now`: the stream it leaves, and the time of the next parse. */
  function AfterRun(s: Stream, parsetime: nat, now: nat, parsespeed: int, delay: nat): (Stream, nat)
    decreases |s.buffer|
  {
    if now < parsetime then (s, parsetime)
    else if |s.buffer| < 2 then (s, if parsetime < now then now + delay else parsetime)
    else if !Whole(s.buffer) then (s, now + delay)
    else if LengthOfs(s.buffer) == 0 then AfterRun(AfterConsume(s), parsetime + s.buffer[0], now, parsespeed, delay)
    else
      var t := parsetime + PacketTime(s.buffer[0], parsespeed);
      if t < now then AfterRun(AfterConsume(s), t, now, parsespeed, delay) else (s, parsetime)
  }

  /** One round of it. */
  lemma RunStep(s: Stream, parsetime: nat, now: nat, parsespeed: int, delay: nat)
    ensures var r := AfterRun(s, parsetime, now, parsespeed, delay);
      if now < parsetime then r == (s, parsetime)
      else if |s.buffer| < 2 then r == (s, if parsetime < now then now + delay else parsetime)
      else if !Whole(s.buffer) then r == (s, now + delay)
      else if s.buffer[1] % DEM_KINDS == DEM_SET then
        r == AfterRun(AfterConsume(s), parsetime + s.buffer[0], now, parsespeed, delay)
      else
        var t := parsetime + PacketTime(s.buffer[0], parsespeed);
        r == if t < now then AfterRun(AfterConsume(s), t, now, parsespeed, delay) else (s, parsetime)
  {
    hide AfterConsume;
  }

  /** `n` packets consumed from the front. */
  ghost predicate Consumes(s: Stream, n: nat, t: Stream)
    decreases n
  {
    if n == 0 then t == s else Whole(s.buffer) && Consumes(AfterConsume(s), n - 1, t)
  }

  /** What the packet in front adds to the time: its first byte, scaled unless it is a dem_set. */
  function Cost(s: seq<byte>, parsespeed: int): nat
    requires |s| >= 2
  {
    if s[1] % 8 != 2 && parsespeed > 0 then 1000 * s[0] / parsespeed else s[0]
  }

  /** Each of `n` packets was due when it was consumed, and together they took the time from `t` to `t'`. */
  ghost predicate OnTime(s: Stream, n: nat, t: nat, t': nat, now: nat, parsespeed: int)
    decreases n
  {
    if n == 0 then t' == t
    else
      && Whole(s.buffer) && t <= now
      && (s.buffer[1] % 8 != 2 ==> t + Cost(s.buffer, parsespeed) < now)
      && OnTime(AfterConsume(s), n - 1, t + Cost(s.buffer, parsespeed), t', now, parsespeed)
  }

  /**
   * The loop consumes whole packets, each of them when it is due and its time with it. It stops when
   * the time has come up to now, or the packet in front would bring it there, or that packet has not
   * all arrived, which puts the next parse off.
   */
  lemma {:induction false} RunConsumes(s: Stream, parsetime: nat, now: nat, parsespeed: int, delay: nat)
    returns (n: nat, t: nat)
    requires Inv(s) && delay >= 1
    ensures var r := AfterRun(s, parsetime, now, parsespeed, delay);
      var b := r.0.buffer;
      && Consumes(s, n, r.0) && Inv(r.0) && OnTime(s, n, parsetime, t, now, parsespeed)
      && (now < t ==> r.1 == t)
      && (now >= t && !Whole(b) ==> r.1 == if |b| < 2 && t == now then t else now + delay)
      && (now >= t && Whole(b) ==> r.1 == t && b[1] % 8 != 2 && t + Cost(b, parsespeed) >= now)
    decreases |s.buffer|
  {
    hide PacketSize, SaneHeader, Packets, AfterConsume, Inv;
    n, t := 0, parsetime;
    if now >= parsetime && Whole(s.buffer) {
      SizeBound(s.buffer);
      ConsumeKeepsInv(s);
      SizeOfConsumed(s);
      var later := parsetime + Cost(s.buffer, parsespeed);
      RunStep(s, parsetime, now, parsespeed, delay);
      if s.buffer[1] % 8 == 2 || later < now {
        n, t := RunConsumes(AfterConsume(s), later, now, parsespeed, delay);
        n := n + 1;
      }
    }
  }

  lemma SliceInside(t: seq<byte>, start: nat, size: nat, ofs: nat)
    requires start + size <= |t| && ofs + 4 <= size
    ensures t[start..start + size][ofs..ofs + 4] == t[start + ofs..start + ofs + 4]
  {
    var x := t[start..start + size];
    var y, z := x[ofs..ofs + 4], t[start + ofs..start + ofs + 4];
    forall k | 0 <= k < 4 ensures y[k] == z[k] {
      assert x[ofs + k] == t[start + (ofs + k)];
    }
  }

  class Proxy {
    const buffer: array<byte>
    var buffersize: nat
    var forwardpoint: nat
    var parsetime: nat
    ghost var forwarded: seq<seq<byte>>
    ghost var consumed: seq<seq<byte>>

    ghost predicate Valid()
      reads this, buffer
    {
      && buffer.Length == MAX_PROXY_BUFFER && buffersize <= buffer.Length
      && Inv(State())
    }

    ghost function State(): Stream
      requires buffersize <= buffer.Length
      reads this, buffer
    {
      Stream(buffer[..buffersize], forwardpoint, forwarded, consumed)
    }

    constructor ()
      ensures Valid() && State() == EMPTY
    {
      buffer := new byte[MAX_PROXY_BUFFER];
      buffersize, forwardpoint, parsetime, forwarded, consumed := 0, 0, 0, [], [];
      new;
      NoPackets(buffer[..0][..0]);
    }

    /** `SV_ForwardStream` is handed `length` bytes from `start`. */
    ghost method ForwardStream(start: nat, length: nat)
      requires start + length <= buffer.Length
      modifies this`forwarded
      ensures forwarded == old(forwarded) + Packets(buffer[start..start + length])
    {
      forwarded := forwarded + Packets(buffer[start..start + length]);
    }

    method ReadLength(at: nat) returns (x: int)
      requires at + 4 <= buffer.Length
      ensures x == LowValue(buffer[..][at..at + 4])
    {
      LowValueOf(buffer[..][at..at + 4]);
      x := Word(buffer[at], buffer[at + 1], buffer[at + 2], buffer[at + 3]);
    }

    /** The size of the packet at `start`, or -1 while it is not whole. */
    method Measure(start: nat, remaining: nat) returns (length: int)
      requires start + remaining <= buffer.Length && WellFormed(buffer[start..start + remaining])
      ensures var s := buffer[start..start + remaining];
        if Whole(s) then length == PacketSize(s) else length == -1
    {
      ghost var s := buffer[start..start + remaining];
      if remaining < 2 {
        return -1;
      }
      var kind := buffer[start + 1] % DEM_KINDS;
      var lengthofs := if kind == DEM_SET then 0 else if kind == DEM_MULTIPLE then 6 else 2;
      assert lengthofs == LengthOfs(s);
      if lengthofs > 0 {
        if lengthofs + 4 > remaining {
          return -1;
        }
        length := ReadLength(start + lengthofs);
        SliceInside(buffer[..], start, remaining, lengthofs);
        assert buffer[..][start..start + remaining] == s;
        length := (if length < TWO31 then length else length - TWO32) + lengthofs + 4;
      } else {
        length := 10;
      }
      if remaining < length {
        length := -1;
      }
    }

    /** `SV_EarlyParse` from `from` on. */
    method EarlyParse(from: nat, count: nat) returns (available: nat)
      requires from + count <= buffer.Length && WellFormed(buffer[from..from + count])
      ensures available == Available(buffer[from..from + count])
    {
      hide PacketSize, SaneHeader, LengthOfs;
      var start, remaining := from, count;
      available := 0;
      while true
        invariant 0 <= remaining && start + remaining == from + count && start == from + available
        invariant WellFormed(buffer[start..start + remaining])
        invariant available + Available(buffer[start..start + remaining]) == Available(buffer[from..from + count])
        decreases remaining
      {
        ghost var s := buffer[start..start + remaining];
        var length := Measure(start, remaining);
        if Whole(s) {
          SizeBound(s);
        }
        if length < 0 {
          return;
        }
        assert s[length..] == buffer[start + length..start + remaining];
        remaining, available, start := remaining - length, available + length, start + length;
      }
    }

    /** `Net_ReadStream` once `read` bytes have arrived. */
    method ReadStream(read: seq<byte>, lateforward: bool)
      requires Valid() && |read| <= MAX_PROXY_BUFFER - buffersize
      requires WellFormed(State().buffer + read)
      modifies this, buffer
      ensures Valid() && parsetime == old(parsetime)
      ensures State() == AfterRead(old(State()), read, lateforward)
    {
      hide PacketSize, SaneHeader, LengthOfs, Packets, Available, WellFormed, Boundary;
      ReadKeepsInv(State(), read, lateforward);
      BoundaryRest(State(), read);
      Append(read);
      if read != [] && !lateforward {
        assert buffer[..buffersize][forwardpoint..] == buffer[forwardpoint..buffersize];
        ForwardNew();
      }
    }

    /** Forward whatever has become whole. */
    method ForwardNew()
      requires forwardpoint <= buffersize <= buffer.Length && WellFormed(buffer[forwardpoint..buffersize])
      modifies this`forwardpoint, this`forwarded
      ensures var n := Available(buffer[old(forwardpoint)..buffersize]);
        && forwardpoint == old(forwardpoint) + n
        && forwarded == old(forwarded) + Packets(buffer[..buffersize][old(forwardpoint)..old(forwardpoint) + n])
    {
      hide PacketSize, SaneHeader, LengthOfs, Packets, Available, WellFormed;
      var n := EarlyParse(forwardpoint, buffersize - forwardpoint);
      assert buffer[..buffersize][forwardpoint..forwardpoint + n] == buffer[forwardpoint..forwardpoint + n];
      if n > 0 {
        ForwardStream(forwardpoint, n);
        forwardpoint := forwardpoint + n;
      } else {
        NoPackets(buffer[forwardpoint..forwardpoint]);
      }
    }

    method Append(read: seq<byte>)
      requires buffersize + |read| <= buffer.Length
      modifies this`buffersize, buffer
      ensures buffersize == old(buffersize) + |read|
      ensures buffer[..buffersize] == old(buffer[..buffersize]) + read
    {
      forall i | 0 <= i < |read| {
        buffer[buffersize + i] := read[i];
      }
      buffersize := buffersize + |read|;
    }

    /** Forward the packet in front if that has not been done, then move the rest down. */
    method Consume(length: nat)
      requires Valid() && Whole(State().buffer) && length == PacketSize(State().buffer)
      modifies this`buffersize, this`forwardpoint, this`forwarded, this`consumed, buffer
      ensures Valid() && State() == AfterConsume(old(State()))
    {
      hide PacketSize, SaneHeader, LengthOfs, Packets;
      ConsumeKeepsInv(State());
      SizeBound(State().buffer);
      ghost var was := buffer[..buffersize];
      if forwardpoint < length {
        ForwardStream(0, length);
        forwardpoint := forwardpoint + length;
        assert was[..length] == buffer[0..length];
      }
      consumed := consumed + [was[..length]];
      MoveDown(length);
      forwardpoint := forwardpoint - length;
    }

    method MoveDown(length: nat)
      requires length <= buffersize <= buffer.Length
      modifies this`buffersize, buffer
      ensures buffersize <= buffer.Length && buffer[..buffersize] == old(buffer[..buffersize])[length..]
    {
      forall i | 0 <= i < buffersize - length {
        buffer[i] := buffer[length + i];
      }
      buffersize := buffersize - length;
    }

    /** `QTV_Run` for a stream read from a socket. */
    method Run(now: nat, parsespeed: int, tooslowdelay: nat)
      requires Valid() && tooslowdelay >= 1
      modifies this, buffer
      ensures Valid()
      ensures (State(), parsetime) == AfterRun(old(State()), old(parsetime), now, parsespeed, tooslowdelay)
    {
      hide PacketSize, SaneHeader, LengthOfs, Packets, AfterRun, AfterConsume, WellFormed, Boundary, PacketTime;
      ghost var goal := AfterRun(State(), parsetime, now, parsespeed, tooslowdelay);
      while now >= parsetime
        invariant Valid()
        invariant AfterRun(State(), parsetime, now, parsespeed, tooslowdelay) == goal
        decreases buffersize, if now >= parsetime then 1 else 0
      {
        RunStep(State(), parsetime, now, parsespeed, tooslowdelay);
        if buffersize < 2 {
          if parsetime < now {
            parsetime := now + tooslowdelay;
          }
          break;
        }
        assert buffer[0..0 + buffersize] == buffer[..buffersize];
        var length := Measure(0, buffersize);
        if Whole(State().buffer) {
          SizeBound(State().buffer);
        }
        if length < 0 {
          parsetime := now + tooslowdelay;
          break;
        }
        SizeOfConsumed(State());
        if buffer[1] % DEM_KINDS == DEM_SET {
          parsetime := parsetime + buffer[0];
          Consume(length);
          continue;
        }
        var packettime := PacketTime(buffer[0], parsespeed);
        if parsetime + packettime >= now {
          break;
        }
        parsetime := parsetime + packettime;
        Consume(length);
      }
      RunStep(State(), parsetime, now, parsespeed, tooslowdelay);
    }
  }

  lemma SizeOfConsumed(s: Stream)
    requires Whole(s.buffer)
    ensures |AfterConsume(s).buffer| < |s.buffer|
  {
    SizeBound(s.buffer);
  }

  lemma LowValueOf(s: seq<byte>)
    requires |s| == 4
    ensures LowValue(s) == Word(s[0], s[1], s[2], s[3])
  {
    assert s[1..][1..] == s[2..] && s[2..][1..] == s[3..] && s[3..][1..] == [];
    assert LowValue(s[3..]) == s[3];
    assert LowValue(s[2..]) == Word(s[2], s[3], 0, 0);
    assert LowValue(s[1..]) == Word(s[1], s[2], s[3], 0);
  }

  lemma BoundaryRest(s: Stream, read: seq<byte>)
    requires Inv(s) && WellFormed(s.buffer + read)
    ensures WellFormed((s.buffer + read)[s.forwardpoint..])
  {
    BoundaryStable(s.buffer, read, s.forwardpoint);
    WellFormedRest(s.buffer + read, s.forwardpoint);
  }
}
