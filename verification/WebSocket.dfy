/** Binary websocket frames: `NET_WebSocketRecv` against RFC 6455, sections 5.2 and 5.3. */
module WebSocket {
  import opened Bytes
  import opened ProxyBuffer

  const BUFSIZE := 16

  // ---- Masking ----

  function XorBits(a: seq<bool>, b: seq<bool>): (c: seq<bool>)
    requires |a| == |b|
    ensures |c| == |a|
  {
    seq(|a|, i requires 0 <= i < |a| => a[i] != b[i])
  }

  function Xor(x: byte, m: byte): (r: byte) {
    assert Power2(8) == 256;
    Value(XorBits(Digits(x, 8), Digits(m, 8)))
  }

  /** Masking twice is not masking, and masking with 0 is not masking either. */
  lemma XorTwice(x: byte, m: byte)
    ensures Xor(Xor(x, m), m) == x
  {
    var a, b := Digits(x, 8), Digits(m, 8);
    DigitsOfValue(XorBits(a, b));
    assert XorBits(XorBits(a, b), b) == a;
    assert Power2(8) == 256;
    ValueOfDigits(x, 8);
  }

  /** Every bit of the result is the sum of the two, without a carry. */
  lemma XorIsSum(x: byte, m: byte, i: nat)
    requires i < 8
    ensures Power2(i) > 0 && Xor(x, m) / Power2(i) % 2 == (x / Power2(i) + m / Power2(i)) % 2
  {
    hide Power2, Digits, Xor;
    XorDigits(x, m, i);
    DigitAt(x, 8, i);
    DigitAt(m, 8, i);
    DigitAt(Xor(x, m), 8, i);
    ParityOfSum(x / Power2(i), m / Power2(i));
  }

  lemma XorDigits(x: byte, m: byte, i: nat)
    requires i < 8
    ensures Digits(Xor(x, m), 8)[i] == (Digits(x, 8)[i] != Digits(m, 8)[i])
  {
    hide Digits, Value;
    DigitsOfValue(XorBits(Digits(x, 8), Digits(m, 8)));
  }

  lemma ParityOfSum(u: nat, v: nat)
    ensures (u + v) % 2 == if u % 2 == v % 2 then 0 else 1
  {
  }

  lemma {:induction false} ZeroDigits(n: nat)
    ensures forall i :: 0 <= i < n ==> !Digits(0, n)[i]
  {
    if n > 0 {
      ZeroDigits(n - 1);
      assert Digits(0, n) == [false] + Digits(0, n - 1);
    }
  }

  lemma XorZero(x: byte)
    ensures Xor(x, 0) == x
  {
    ZeroDigits(8);
    assert XorBits(Digits(x, 8), Digits(0, 8)) == Digits(x, 8);
    assert Power2(8) == 256;
    ValueOfDigits(x, 8);
  }

  /** The masking byte for place `i` of the payload; no mask is a mask of zeroes. */
  function MaskAt(mask: seq<byte>, i: nat): byte
    requires |mask| == 4
  {
    mask[i % 4]
  }

  function Masked(data: seq<byte>, mask: seq<byte>, at: nat): (r: seq<byte>)
    requires |mask| == 4
    ensures |r| == |data|
    ensures forall i :: 0 <= i < |r| ==> r[i] == Xor(data[i], MaskAt(mask, at + i))
  {
    seq(|data|, i requires 0 <= i < |data| => Xor(data[i], MaskAt(mask, at + i)))
  }

  lemma UnmaskPiece(data: seq<byte>, mask: seq<byte>, at: nat, k: nat)
    requires |mask| == 4 && at + k <= |data|
    ensures Masked(Masked(data, mask, 0)[at..at + k], mask, at) == data[at..at + k]
  {
    var r := Masked(Masked(data, mask, 0)[at..at + k], mask, at);
    forall i | 0 <= i < k ensures r[i] == data[at..at + k][i] {
      XorTwice(data[at + i], MaskAt(mask, at + i));
    }
  }

  // ---- A frame on the wire ----

  const NOMASK: seq<byte> := [0, 0, 0, 0]

  /** FIN and opcode 2; the mask bit and the shortest length form; the key. */
  function Header(n: nat, mask: Option<seq<byte>>): (h: seq<byte>)
    requires n < TWO16 && (mask.Some? ==> |mask.value| == 4)
    ensures 2 <= |h| <= 8 && |h| % 2 == 0 && h[0] == 0x82
  {
    var m := if mask.Some? then 128 else 0;
    (if n >= 126 then [0x82, m + 126, n / 256, n % 256] else [0x82, m + n]) + if mask.Some? then mask.value else []
  }

  function Key(mask: Option<seq<byte>>): (k: seq<byte>)
    requires mask.Some? ==> |mask.value| == 4
    ensures |k| == 4
  {
    if mask.Some? then mask.value else NOMASK
  }

  function Wire(data: seq<byte>, mask: Option<seq<byte>>): seq<byte>
    requires |data| < TWO16 && (mask.Some? ==> |mask.value| == 4)
  {
    Header(|data|, mask) + Masked(data, Key(mask), 0)
  }

  /** What `Net_ProxySend` writes is a frame of the standard, for payloads of up to 65535 bytes. */
  lemma FrameIsWire(data: seq<byte>)
    requires |data| < TWO16
    ensures Frame(data) == Wire(data, None)
  {
    forall i | 0 <= i < |data| ensures Masked(data, NOMASK, 0)[i] == data[i] {
      XorZero(data[i]);
    }
    assert Masked(data, NOMASK, 0) == data;
  }

  // ---- The receiver ----

  /** `wsbuf`, `wsbuflen` and `wspushed`. */
  datatype Ws = Ws(buf: seq<byte>, len: nat, pushed: nat)

  /** What one call leaves and reports; `out` is what it stored for the caller. */
  datatype Outcome = Outcome(ws: Ws, stream: seq<byte>, ret: int, out: seq<byte>, clen: int)

  /** A `recv` of at most `n` bytes that would answer `r`: never more than there is. */
  function Got(r: int, n: nat, stream: seq<byte>): (k: int)
    ensures k <= n && k <= |stream| && (k < 0 <==> r < 0)
  {
    if r < 0 then -1 else Min(r, Min(n, |stream|))
  }

  function Left(stream: seq<byte>, k: int): seq<byte>
    requires k <= |stream|
  {
    if k < 0 then stream else stream[k..]
  }

  function HeaderLength(second: byte): (n: nat)
    ensures 2 <= n <= 14 && n % 2 == 0
  {
    2 + (if second % 128 == 127 then 8 else if second % 128 == 126 then 2 else 0) + if second >= 128 then 4 else 0
  }

  /** The payload length a complete header gives, or nothing where the receiver gives up. */
  function PayLength(buf: seq<byte>): Option<nat>
    requires |buf| == BUFSIZE
  {
    var n := buf[1] % 128;
    var long := (buf[2] as int) * 256 + buf[3];
    if n == 127 || (n == 126 && long < 126) then None else Some(if n == 126 then long else n)
  }

  predicate Sound(ws: Ws) {
    && |ws.buf| == BUFSIZE
    && (ws.len >= 2 ==> ws.len <= HeaderLength(ws.buf[1]))
    && (ws.len < 2 || ws.len < HeaderLength(ws.buf[1]) ==> ws.pushed == 0)
    && (ws.len >= 2 && PayLength(ws.buf).Some? ==> ws.pushed <= PayLength(ws.buf).value)
  }

  function Store(buf: seq<byte>, at: nat, s: seq<byte>): (r: seq<byte>)
    requires at + |s| <= |buf|
    ensures |r| == |buf|
    ensures forall i :: 0 <= i < |buf| ==> r[i] == if at <= i < at + |s| then s[i - at] else buf[i]
  {
    buf[..at] + s + buf[at + |s|..]
  }

  /** The first two bytes, when there are none yet; one byte counts as two. */
  function TakeFirst(ws: Ws, stream: seq<byte>, r: int): (ws': Ws)
    requires Sound(ws)
    ensures Sound(ws')
  {
    var k := Got(r, 2, stream);
    if ws.len == 0 && k > 0 then Ws(Store(ws.buf, 0, stream[..k]), 2, 0) else ws
  }

  /** The rest of the header; an error, being unsigned, takes a byte back. */
  function TakeMore(ws: Ws, stream: seq<byte>, r: int): (ws': Ws)
    requires Sound(ws) && 2 <= ws.len < HeaderLength(ws.buf[1])
    ensures Sound(ws') && ws'.pushed == 0
    ensures ws'.buf[0] == ws.buf[0] && ws'.buf[1] == ws.buf[1]
  {
    var k := Got(r, HeaderLength(ws.buf[1]) - ws.len, stream);
    if k < 0 then ws.(len := ws.len - 1) else Ws(Store(ws.buf, ws.len, stream[..k]), ws.len + k, 0)
  }

  function KeyOf(ws: Ws): (k: seq<byte>)
    requires |ws.buf| == BUFSIZE && ws.len == HeaderLength(ws.buf[1])
    ensures |k| == 4
  {
    if ws.buf[1] >= 128 then ws.buf[ws.len - 4..ws.len] else NOMASK
  }

  predicate Complete(ws: Ws) {
    Sound(ws) && ws.len == HeaderLength(ws.buf[1]) && ws.buf[0] % 16 != 1
  }

  /** The payload part, once the header is complete. */
  function TakePayload(ws: Ws, stream: seq<byte>, outlen: nat, r: int): (o: Outcome)
    requires Complete(ws)
    ensures Sound(o.ws)
  {
    var n := PayLength(ws.buf);
    if n == None || ws.buf[0] < 128 || ws.buf[0] % 16 != 2 then Outcome(ws, stream, 0, [], -1)
    else
      var k := Got(r, Min(outlen, n.value - ws.pushed), stream);
      var pushed := ws.pushed + if k > 0 then k else 0;
      var out := if k > 0 then Masked(stream[..k], KeyOf(ws), ws.pushed) else [];
      if pushed == n.value then Outcome(Ws(ws.buf, 0, 0), Left(stream, k), k, out, pushed)
      else Outcome(Ws(ws.buf, ws.len, pushed), Left(stream, k), k, out, -1)
  }

  /** The call once the first two bytes are there. */
  function TakeRest(ws: Ws, stream: seq<byte>, outlen: nat, r1: int, r2: int): (o: Outcome)
    requires Sound(ws) && ws.len >= 2 && ws.buf[0] % 16 != 1
    ensures Sound(o.ws)
  {
    if ws.len == HeaderLength(ws.buf[1]) then TakePayload(ws, stream, outlen, r2)
    else
      var k := Got(r1, HeaderLength(ws.buf[1]) - ws.len, stream);
      var ws1 := TakeMore(ws, stream, r1);
      if ws1.len < HeaderLength(ws.buf[1]) then Outcome(ws1, Left(stream, k), 0, [], -1)
      else TakePayload(ws1, Left(stream, k), outlen, r2)
  }

  /** The frame at hand is a text frame, which is not part of this model. */
  predicate Text(ws: Ws, stream: seq<byte>, r0: int)
    requires Sound(ws)
  {
    var ws1 := TakeFirst(ws, stream, r0);
    ws1.len >= 2 && ws1.buf[0] % 16 == 1
  }

  /** `NET_WebSocketRecv`; `r0`, `r1` and `r2` answer its reads. */
  function Received(ws: Ws, stream: seq<byte>, outlen: nat, r0: int, r1: int, r2: int): Outcome
    requires Sound(ws) && !Text(ws, stream, r0)
  {
    if ws.len == 0 && Got(r0, 2, stream) <= 0 then Outcome(ws, stream, Got(r0, 2, stream), [], -1)
    else
      var ws1 := TakeFirst(ws, stream, r0);
      var stream1 := if ws.len == 0 then Left(stream, Got(r0, 2, stream)) else stream;
      if ws1.len < 2 then Outcome(ws1, stream1, 0, [], -1) else TakeRest(ws1, stream1, outlen, r1, r2)
  }

  lemma ReceiveKeepsSound(ws: Ws, stream: seq<byte>, outlen: nat, r0: int, r1: int, r2: int)
    requires Sound(ws) && !Text(ws, stream, r0)
    ensures Sound(Received(ws, stream, outlen, r0, r1, r2).ws)
  {
    hide Sound, TakeFirst, TakeRest;
    assert Sound(TakeFirst(ws, stream, r0));
  }

  /**
   * With part of a header in, it completes exactly when the read gives all the bytes that are
   * missing. Otherwise the call reports the end, `got` bytes further on: a short read keeps
   * what came, and a failed one takes a byte back.
   */
  lemma HeaderCompletesExactly(ws: Ws, stream: seq<byte>, outlen: nat, r0: int, r1: int, r2: int)
    requires Sound(ws) && 2 <= ws.len < HeaderLength(ws.buf[1]) && ws.buf[0] % 16 != 1
    ensures var need := HeaderLength(ws.buf[1]) - ws.len;
            var got := Got(r1, need, stream);
            var o := Received(ws, stream, outlen, r0, r1, r2);
            && o.ws.buf == (if got > 0 then Store(ws.buf, ws.len, stream[..got]) else ws.buf)
            && (o.ws.len == 0 || o.ws.len == HeaderLength(o.ws.buf[1]) <==> got == need)
            && (got == need ==> Complete(Ws(o.ws.buf, ws.len + need, 0))
                                && o == TakePayload(Ws(o.ws.buf, ws.len + need, 0), stream[need..], outlen, r2))
            && (got != need ==> o == Outcome(Ws(o.ws.buf, ws.len + got, 0), Left(stream, got), 0, [], -1))
  {
    hide Store, TakePayload, HeaderLength, TakeRest, TakeMore;
    RestOfHeader(ws, stream, outlen, r1, r2);
    var need := HeaderLength(ws.buf[1]) - ws.len;
    if Got(r1, need, stream) == need {
      PayloadKeepsHeader(Ws(Store(ws.buf, ws.len, stream[..need]), ws.len + need, 0), stream[need..], outlen, r2);
    }
  }

  lemma PayloadKeepsHeader(ws: Ws, stream: seq<byte>, outlen: nat, r2: int)
    requires Complete(ws)
    ensures var o := TakePayload(ws, stream, outlen, r2); o.ws.buf == ws.buf && (o.ws.len == 0 || o.ws.len == ws.len)
    ensures ws.len == HeaderLength(ws.buf[1])
    ensures var o := TakePayload(ws, stream, outlen, r2); |o.stream| + |o.out| == |stream|
  {
    hide PayLength, Masked, KeyOf;
  }

  lemma RestOfHeader(ws: Ws, stream: seq<byte>, outlen: nat, r1: int, r2: int)
    requires Sound(ws) && 2 <= ws.len < HeaderLength(ws.buf[1]) && ws.buf[0] % 16 != 1
    ensures var need := HeaderLength(ws.buf[1]) - ws.len;
            var got := Got(r1, need, stream);
            var o := TakeRest(ws, stream, outlen, r1, r2);
            var buf := if got > 0 then Store(ws.buf, ws.len, stream[..got]) else ws.buf;
            && buf[1] == ws.buf[1]
            && (got == need ==> Complete(Ws(buf, ws.len + need, 0))
                                && o == TakePayload(Ws(buf, ws.len + need, 0), stream[need..], outlen, r2))
            && (got != need ==> o == Outcome(Ws(buf, ws.len + got, 0), Left(stream, got), 0, [], -1))
  {
    hide Store, TakePayload, HeaderLength;
    StoreNothing(ws.buf, ws.len);
    assert stream[..0] == [];
  }

  lemma StoreNothing(buf: seq<byte>, at: nat)
    requires at <= |buf|
    ensures Store(buf, at, []) == buf
  {
  }

  /**
   * The first two bytes are in, and the stream past them, exactly when the first read gives
   * both. A read that gives nothing leaves everything as it was; one that gives a single byte
   * goes on with whatever the second place of the buffer held.
   */
  lemma FirstReadExactly(ws: Ws, stream: seq<byte>, r0: int)
    requires Idle(ws) && |stream| >= 2
    ensures var got := Got(r0, 2, stream);
            var w := TakeFirst(ws, stream, r0);
            && (w.len == 2 && w.buf[..2] == stream[..2] && Left(stream, got) == stream[2..] <==> got == 2)
            && (got <= 0 ==> w == ws)
            && (got == 1 ==> w == Ws(Store(ws.buf, 0, [stream[0]]), 2, 0))
  {
    var got := Got(r0, 2, stream);
    if got > 0 {
      var w := TakeFirst(ws, stream, r0);
      assert |Left(stream, got)| == |stream| - got;
      assert w.buf[0] == stream[0];
      if got == 2 {
        assert w.buf[1] == stream[1];
        assert w.buf[..2] == stream[..2];
      } else {
        assert stream[..1] == [stream[0]];
      }
    }
  }

  /** A failed read with just two bytes in strands the receiver on one. */
  lemma HeaderErrorStrands(ws: Ws, stream: seq<byte>, outlen: nat, r1: int, r2: int)
    requires Sound(ws) && 2 <= ws.len < HeaderLength(ws.buf[1]) && ws.buf[0] % 16 != 1 && r1 < 0
    ensures var o := Received(ws, stream, outlen, 0, r1, r2);
            && o == Outcome(Ws(ws.buf, ws.len - 1, 0), stream, 0, [], -1) && Sound(o.ws)
            && (o.ws.len == 1 <==> ws.len == 2)
  {
  }

  /** Every call from there on reports the end, whatever arrives. */
  lemma StrandedForGood(ws: Ws, stream: seq<byte>, outlen: nat, r0: int, r1: int, r2: int)
    requires Sound(ws) && ws.len == 1
    ensures !Text(ws, stream, r0) && Received(ws, stream, outlen, r0, r1, r2) == Outcome(ws, stream, 0, [], -1)
  {
  }

  // ---- A frame, however its payload is split ----

  predicate Idle(ws: Ws) {
    Sound(ws) && ws.len == 0
  }

  /** The header of a frame of `n` bytes is in, and `p` bytes of the payload have been passed on. */
  predicate Midway(ws: Ws, n: nat, mask: Option<seq<byte>>, p: nat)
    requires n < TWO16 && (mask.Some? ==> |mask.value| == 4)
  {
    |ws.buf| == BUFSIZE && ws.len == |Header(n, mask)| && ws.buf[..ws.len] == Header(n, mask) && ws.pushed == p < n
  }

  lemma HeaderReads(ws: Ws, n: nat, mask: Option<seq<byte>>, p: nat)
    requires n < TWO16 && (mask.Some? ==> |mask.value| == 4) && Midway(ws, n, mask, p)
    ensures Complete(ws) && PayLength(ws.buf) == Some(n) && KeyOf(ws) == Key(mask) && ws.buf[0] == 0x82
  {
    var h := Header(n, mask);
    assert forall i :: 0 <= i < |h| ==> ws.buf[i] == ws.buf[..ws.len][i] == h[i];
    assert ws.buf[ws.len - 2] == h[ws.len - 2];
    if mask.Some? {
      assert ws.buf[ws.len - 4..ws.len] == h[|h| - 4..] == mask.value;
    }
  }

  /** Where a frame stands once `out` of it has been passed on, `tail` being what follows it. */
  predicate Carried(ws: Ws, stream: seq<byte>, data: seq<byte>, mask: Option<seq<byte>>, tail: seq<byte>,
                    out: seq<byte>)
    requires |data| < TWO16 && (mask.Some? ==> |mask.value| == 4)
  {
    && out <= data
    && if out == data then Idle(ws) && stream == tail
       else if Idle(ws) then out == [] && stream == Wire(data, mask) + tail
       else Midway(ws, |data|, mask, |out|) && stream == Masked(data, Key(mask), 0)[|out|..] + tail
  }

  /** How much of the payload one read takes. */
  function Piece(n: nat, p: nat, outlen: nat, r: int, stream: seq<byte>): (k: int)
    requires p <= n
    ensures k <= n - p
  {
    Got(r, Min(outlen, n - p), stream)
  }

  lemma PieceOutcome(ws: Ws, stream: seq<byte>, n: nat, mask: Option<seq<byte>>, p: nat, outlen: nat, r: int)
    requires n < TWO16 && (mask.Some? ==> |mask.value| == 4) && Midway(ws, n, mask, p)
    ensures Complete(ws)
    ensures var k := Piece(n, p, outlen, r, stream);
            TakePayload(ws, stream, outlen, r) ==
            if k <= 0 then Outcome(ws, stream, k, [], -1)
            else Outcome(if p + k == n then Ws(ws.buf, 0, 0) else Ws(ws.buf, ws.len, p + k), stream[k..], k,
                         Masked(stream[..k], Key(mask), p), if p + k == n then n else -1)
  {
    HeaderReads(ws, n, mask, p);
    hide Complete, PayLength, KeyOf, Header, Key;
    assert stream[0..] == stream;
  }

  lemma UnmaskNext(data: seq<byte>, key: seq<byte>, tail: seq<byte>, p: nat, k: nat)
    requires |key| == 4 && p + k <= |data|
    ensures var stream := Masked(data, key, 0)[p..] + tail;
            && |stream| >= k && stream[k..] == Masked(data, key, 0)[p + k..] + tail
            && data[..p] + Masked(stream[..k], key, p) == data[..p + k]
  {
    hide Masked, MaskAt;
    var m := Masked(data, key, 0);
    var stream := m[p..] + tail;
    assert stream[..k] == m[p..p + k];
    UnmaskPiece(data, key, p, k);
    assert data[..p] + data[p..p + k] == data[..p + k];
  }

  /** One read of the payload. */
  lemma PieceCarries(ws: Ws, stream: seq<byte>, data: seq<byte>, mask: Option<seq<byte>>, tail: seq<byte>, p: nat,
                     outlen: nat, r: int)
    requires p < |data| < TWO16 && (mask.Some? ==> |mask.value| == 4) && Midway(ws, |data|, mask, p)
    requires stream == Masked(data, Key(mask), 0)[p..] + tail
    ensures Complete(ws)
    ensures var o := TakePayload(ws, stream, outlen, r);
            && Carried(o.ws, o.stream, data, mask, tail, data[..p] + o.out)
            && |o.out| == (if o.ret > 0 then o.ret else 0) && (outlen > 0 && r > 0 ==> o.ret > 0)
            && o.clen == if data[..p] + o.out == data then |data| else -1
  {
    hide Complete, TakePayload, Header, Key, Masked, Midway, Carried;
    PieceOutcome(ws, stream, |data|, mask, p, outlen, r);
    var k := Piece(|data|, p, outlen, r, stream);
    assert |stream| >= |data| - p;
    if k > 0 {
      UnmaskNext(data, Key(mask), tail, p, k);
      NextPlace(ws, data, mask, tail, p, p + k);
    } else {
      NextPlace(ws, data, mask, tail, p, p);
      assert data[..p] + [] == data[..p];
      assert ws == Ws(ws.buf, ws.len, p) by { MidwayPushed(ws, |data|, mask, p); }
    }
  }

  lemma MidwayPushed(ws: Ws, n: nat, mask: Option<seq<byte>>, p: nat)
    requires n < TWO16 && (mask.Some? ==> |mask.value| == 4) && Midway(ws, n, mask, p)
    ensures ws.pushed == p
  {
  }

  /** Any number of payload bytes further on, the frame is still on its way, or done. */
  lemma NextPlace(ws: Ws, data: seq<byte>, mask: Option<seq<byte>>, tail: seq<byte>, p: nat, q: nat)
    requires p <= q <= |data| < TWO16 && (mask.Some? ==> |mask.value| == 4) && Midway(ws, |data|, mask, p)
    ensures data[..q] == data <==> q == |data|
    ensures Carried(if q == |data| then Ws(ws.buf, 0, 0) else Ws(ws.buf, ws.len, q),
                    Masked(data, Key(mask), 0)[q..] + tail, data, mask, tail, data[..q])
  {
    hide Masked, Header, Wire, Key;
    assert data[..|data|] == data;
    assert q == |data| ==> Masked(data, Key(mask), 0)[q..] + tail == tail;
  }

  lemma FirstTwo(ws: Ws, h: seq<byte>, rest: seq<byte>, r0: int)
    requires Idle(ws) && 2 <= |h| <= 14 && r0 >= 2
    ensures TakeFirst(ws, h + rest, r0) == Ws(Store(ws.buf, 0, h[..2]), 2, 0)
    ensures Got(r0, 2, h + rest) == 2 && (h + rest)[2..] == h[2..] + rest
  {
    hide Store;
    assert (h + rest)[..2] == h[..2];
  }

  lemma TheRest(buf: seq<byte>, h: seq<byte>, rest: seq<byte>, r1: int)
    requires |buf| == BUFSIZE && (r1 >= |h| - 2 || |h| == 2) && 2 <= |h| <= 14 && HeaderLength(h[1]) == |h|
    requires |h| > 2 ==> Sound(Ws(Store(buf, 0, h[..2]), 2, 0))
    ensures |h| > 2 ==> TakeMore(Ws(Store(buf, 0, h[..2]), 2, 0), h[2..] + rest, r1) == Ws(Store(buf, 0, h), |h|, 0)
    ensures |h| > 2 ==> Got(r1, |h| - 2, h[2..] + rest) == |h| - 2
    ensures (h[2..] + rest)[|h| - 2..] == rest
    ensures |h| == 2 ==> Store(buf, 0, h[..2]) == Store(buf, 0, h)
  {
    hide HeaderLength, Sound;
    assert (h[2..] + rest)[..|h| - 2] == h[2..];
    assert Store(Store(buf, 0, h[..2]), 2, h[2..]) == Store(buf, 0, h);
  }

  /** A caller's buffer, and what the reads of the first two bytes, of the rest of the header and of
      the payload answer. */
  datatype Call = Call(outlen: nat, r0: int, r1: int, r2: int)

  function Answer(ws: Ws, stream: seq<byte>, c: Call): Outcome
    requires Sound(ws) && !Text(ws, stream, c.r0)
  {
    Received(ws, stream, c.outlen, c.r0, c.r1, c.r2)
  }

  /** Both first bytes in, the call is what the rest of it makes of them. */
  lemma PastFirst(ws: Ws, w: Ws, stream: seq<byte>, rest: seq<byte>, c: Call)
    requires Idle(ws) && Got(c.r0, 2, stream) == 2 && stream[2..] == rest && TakeFirst(ws, stream, c.r0) == w
    requires Sound(w) && w.len == 2 && w.buf[0] % 16 != 1
    ensures !Text(ws, stream, c.r0)
    ensures Answer(ws, stream, c) == Received(w, rest, c.outlen, 0, c.r1, c.r2)
  {
    hide TakeRest, Store;
  }

  /** The rest of the header coming in whole leaves the payload to take. */
  lemma WholeRest(w: Ws, w': Ws, stream: seq<byte>, rest: seq<byte>, c: Call)
    requires Sound(w) && w.len == 2 && w.buf[0] % 16 != 1 && Complete(w')
    requires var need := HeaderLength(w.buf[1]) - 2;
             && need <= |stream| && stream[need..] == rest
             && if need == 0 then w' == w else Got(c.r1, need, stream) == need && TakeMore(w, stream, c.r1) == w'
    ensures Received(w, stream, c.outlen, 0, c.r1, c.r2) == TakePayload(w', rest, c.outlen, c.r2)
  {
    hide TakePayload, TakeMore, HeaderLength;
    assert stream[0..] == stream;
    if w.len < HeaderLength(w.buf[1]) {
      assert w'.len == HeaderLength(w.buf[1]);
    }
  }

  /** A header of any kind but a text frame's, coming in whole, leaves what is behind it to take. */
  lemma AnyHeaderArrives(ws: Ws, h: seq<byte>, rest: seq<byte>, c: Call)
    requires Idle(ws) && 2 <= |h| <= 14 && |h| == HeaderLength(h[1]) && h[0] % 16 != 1
    requires c.r0 >= 2 && (|h| == 2 || c.r1 >= |h| - 2)
    ensures !Text(ws, h + rest, c.r0)
    ensures var w := Ws(Store(ws.buf, 0, h), |h|, 0);
            && Complete(w) && w.buf[..|h|] == h
            && Answer(ws, h + rest, c) == TakePayload(w, rest, c.outlen, c.r2)
  {
    hide Received, TakePayload, Text, Store, TakeFirst, TakeMore, Answer, HeaderLength;
    var w, w1 := Ws(Store(ws.buf, 0, h), |h|, 0), Ws(Store(ws.buf, 0, h[..2]), 2, 0);
    assert w.buf[..|h|] == h && w.buf[0] == h[0] && w.buf[1] == h[1];
    assert w1.buf[0] == h[0] && w1.buf[1] == h[1];
    FirstTwo(ws, h, rest, c.r0);
    hide Got;
    PastFirst(ws, w1, h + rest, h[2..] + rest, c);
    TheRest(ws.buf, h, rest, c.r1);
    WholeRest(w1, w, h[2..] + rest, rest, c);
  }

  /** The header coming in whole takes an idle receiver to the start of the payload. */
  lemma HeaderArrives(ws: Ws, data: seq<byte>, mask: Option<seq<byte>>, tail: seq<byte>, outlen: nat, r0: int, r1: int,
                      r2: int)
    requires 0 < |data| < TWO16 && (mask.Some? ==> |mask.value| == 4) && Idle(ws) && r0 >= 2
    requires r1 >= |Header(|data|, mask)| - 2 || |Header(|data|, mask)| == 2
    ensures !Text(ws, Wire(data, mask) + tail, r0)
    ensures var h := Header(|data|, mask);
            var buf := Store(ws.buf, 0, h);
            Midway(Ws(buf, |h|, 0), |data|, mask, 0) && Complete(Ws(buf, |h|, 0)) &&
            Received(ws, Wire(data, mask) + tail, outlen, r0, r1, r2)
            == TakePayload(Ws(buf, |h|, 0), Masked(data, Key(mask), 0) + tail, outlen, r2)
  {
    hide Masked, TakePayload, Key, Store, Text;
    var h := Header(|data|, mask);
    var m := Masked(data, Key(mask), 0);
    assert Wire(data, mask) + tail == h + (m + tail);
    var buf := Store(ws.buf, 0, h);
    assert buf[..|h|] == h && buf[1] == h[1];
    HeaderReads(Ws(buf, |h|, 0), |data|, mask, 0);
    FirstTwo(ws, h, m + tail, r0);
    var ws1 := Ws(Store(ws.buf, 0, h[..2]), 2, 0);
    assert ws1.buf[0] == h[0] && ws1.buf[1] == h[1];
    hide Wire, Header, TakeFirst, TakeMore, Got, Midway, HeaderLength;
    TheRest(ws.buf, h, m + tail, r1);
    PastFirst(ws, ws1, h + (m + tail), h[2..] + (m + tail), Call(outlen, r0, r1, r2));
    WholeRest(ws1, Ws(buf, |h|, 0), h[2..] + (m + tail), m + tail, Call(outlen, r0, r1, r2));
  }

  /** The header of `n` bytes is not begun, or it comes in whole. */
  predicate HeaderWhole(c: Call, n: nat) {
    c.r0 <= 0 || (c.r0 >= 2 && (n == 2 || c.r1 >= n - 2))
  }

  /** An idle receiver in front of a frame, the header whole or not begun. */
  lemma IdleCarries(ws: Ws, data: seq<byte>, mask: Option<seq<byte>>, tail: seq<byte>, c: Call)
    requires 0 < |data| < TWO16 && (mask.Some? ==> |mask.value| == 4) && Idle(ws)
    requires HeaderWhole(c, |Header(|data|, mask)|)
    ensures !Text(ws, Wire(data, mask) + tail, c.r0)
    ensures var o := Answer(ws, Wire(data, mask) + tail, c);
            && Carried(o.ws, o.stream, data, mask, tail, o.out)
            && |o.out| == (if o.ret > 0 then o.ret else 0) && (c.outlen > 0 && c.r0 > 0 && c.r2 > 0 ==> o.ret > 0)
            && o.clen == if o.out == data then |data| else -1
  {
    if c.r0 <= 0 {
      hide Wire, Midway, TakeRest, Store;
    } else {
      var m := Masked(data, Key(mask), 0);
      HeaderArrives(ws, data, mask, tail, c.outlen, c.r0, c.r1, c.r2);
      var h := Header(|data|, mask);
      var w := Ws(Store(ws.buf, 0, h), |h|, 0);
      assert m[0..] + tail == m + tail;
      PieceCarries(w, m + tail, data, mask, tail, 0, c.outlen, c.r2);
      hide Received, TakePayload, Wire, Masked, Store, Header, Carried, Midway, Complete, Text;
      var o := TakePayload(w, m + tail, c.outlen, c.r2);
      assert data[..0] + o.out == o.out;
    }
  }

  /** Midway through the payload the header reads are not made. */
  lemma MidwayCarries(ws: Ws, stream: seq<byte>, data: seq<byte>, mask: Option<seq<byte>>, tail: seq<byte>,
                      out: seq<byte>, c: Call)
    requires |data| < TWO16 && (mask.Some? ==> |mask.value| == 4)
    requires Carried(ws, stream, data, mask, tail, out) && out != data && !Idle(ws)
    ensures Sound(ws) && !Text(ws, stream, c.r0)
    ensures var o := Answer(ws, stream, c);
            && Carried(o.ws, o.stream, data, mask, tail, out + o.out)
            && |o.out| == (if o.ret > 0 then o.ret else 0) && (c.outlen > 0 && c.r2 > 0 ==> o.ret > 0)
            && o.clen == if out + o.out == data then |data| else -1
  {
    HeaderReads(ws, |data|, mask, |out|);
    PieceCarries(ws, stream, data, mask, tail, |out|, c.outlen, c.r2);
    assert data[..|out|] == out;
    hide TakePayload, Masked, Header, Midway;
  }

  /** Where a call that got one byte of the two leaves things: its lengths cannot be right. */
  lemma OneByteFirst(ws: Ws, stream: seq<byte>, c: Call)
    requires Idle(ws) && |stream| >= 2 && c.r0 == 1 && stream[0] == 0x82
    ensures !Text(ws, stream, c.r0)
    ensures var o := Answer(ws, stream, c);
            var n := HeaderLength(ws.buf[1]);
            && o.ws.buf[1] == ws.buf[1] && |o.ws.buf| == BUFSIZE
            && ((o.out == [] && 1 <= o.ws.len < n)
                || (|o.stream| + |o.out| == |stream| - (n - 1) && (o.ws.len == 0 || o.ws.len == n)))
  {
    hide TakeRest, TakePayload, HeaderLength, Store;
    var w := TakeFirst(ws, stream, 1);
    assert w.buf[0] == stream[0] && w.buf[1] == ws.buf[1];
    RestTaken(w, stream[1..], c);
  }

  /** The rest of a call on two bytes: not a whole header, or one and what is behind it. */
  lemma RestTaken(w: Ws, stream: seq<byte>, c: Call)
    requires Sound(w) && w.len == 2 && w.buf[0] % 16 != 1
    ensures var o, n := TakeRest(w, stream, c.outlen, c.r1, c.r2), HeaderLength(w.buf[1]);
            && o.ws.buf[1] == w.buf[1] && |o.ws.buf| == BUFSIZE
            && ((o.out == [] && 1 <= o.ws.len < n)
                || (|o.stream| + |o.out| == |stream| - (n - 2) && (o.ws.len == 0 || o.ws.len == n)))
  {
    hide TakePayload, TakeMore, HeaderLength, Store;
    if w.len == HeaderLength(w.buf[1]) {
      PayloadKeepsHeader(w, stream, c.outlen, c.r2);
    } else {
      RestOfHeader(w, stream, c.outlen, c.r1, c.r2);
      var need := HeaderLength(w.buf[1]) - 2;
      if Got(c.r1, need, stream) == need {
        PayloadKeepsHeader(Ws(Store(w.buf, 2, stream[..need]), 2 + need, 0), stream[need..], c.outlen, c.r2);
      }
    }
  }

  lemma OneByteLost(ws: Ws, data: seq<byte>, mask: Option<seq<byte>>, tail: seq<byte>, c: Call)
    requires 0 < |data| < TWO16 && (mask.Some? ==> |mask.value| == 4) && Idle(ws) && c.r0 == 1
    ensures !Text(ws, Wire(data, mask) + tail, c.r0)
    ensures var o := Answer(ws, Wire(data, mask) + tail, c); !Carried(o.ws, o.stream, data, mask, tail, o.out)
  {
    hide Received, Masked, Header, Text, Store, PayLength, HeaderLength;
    var h := Header(|data|, mask);
    var stream := Wire(data, mask) + tail;
    assert |stream| == |h| + |data| + |tail| && stream[0] == h[0];
    hide Wire;
    OneByteFirst(ws, stream, c);
    var o := Answer(ws, stream, c);
    if o.ws.len == |h| && o.ws.pushed == |o.out| < |data| && o.ws.buf[..|h|] == h {
      HeaderReads(o.ws, |data|, mask, |o.out|);
    }
  }

  lemma HeaderCut(ws: Ws, data: seq<byte>, mask: Option<seq<byte>>, tail: seq<byte>, c: Call)
    requires 0 < |data| < TWO16 && (mask.Some? ==> |mask.value| == 4) && Idle(ws)
    requires c.r0 >= 2 && c.r1 < |Header(|data|, mask)| - 2 && |Header(|data|, mask)| > 2
    ensures !Text(ws, Wire(data, mask) + tail, c.r0)
    ensures var o := Answer(ws, Wire(data, mask) + tail, c);
            o.ret == 0 && !Carried(o.ws, o.stream, data, mask, tail, o.out)
  {
    hide Received, Masked, Header, Store, Text, Answer, TakeFirst, HeaderLength;
    var h := Header(|data|, mask);
    var m := Masked(data, Key(mask), 0);
    assert Wire(data, mask) + tail == h + (m + tail);
    hide Wire;
    FirstTwo(ws, h, m + tail, c.r0);
    var w := Ws(Store(ws.buf, 0, h[..2]), 2, 0);
    assert w.buf[0] == h[0] && w.buf[1] == h[1];
    SecondByte(|data|, mask);
    PastFirst(ws, w, h + (m + tail), h[2..] + (m + tail), c);
    HeaderCompletesExactly(w, h[2..] + (m + tail), c.outlen, 0, c.r1, c.r2);
    var o := Answer(ws, Wire(data, mask) + tail, c);
    assert o.ret == 0 && o.out == [] && 1 <= o.ws.len < |h|;
  }

  lemma SecondByte(n: nat, mask: Option<seq<byte>>)
    requires n < TWO16 && (mask.Some? ==> |mask.value| == 4)
    ensures HeaderLength(Header(n, mask)[1]) == |Header(n, mask)|
  {
  }

  /**
   * One call, whatever its reads answer: the frame is still on its way exactly when the header
   * was in already, was not begun, or came in whole. When the first two bytes came and the rest
   * did not, the call reports the end.
   */
  lemma CallCarriesExactly(ws: Ws, stream: seq<byte>, data: seq<byte>, mask: Option<seq<byte>>, tail: seq<byte>,
                           out: seq<byte>, c: Call)
    requires |data| < TWO16 && (mask.Some? ==> |mask.value| == 4)
    requires Carried(ws, stream, data, mask, tail, out) && out != data
    ensures Sound(ws) && !Text(ws, stream, c.r0)
    ensures var o := Answer(ws, stream, c);
            var whole := HeaderWhole(c, |Header(|data|, mask)|);
            && (Carried(o.ws, o.stream, data, mask, tail, out + o.out) <==> !Idle(ws) || whole)
            && (Idle(ws) && !whole && c.r0 >= 2 ==> o.ret == 0)
            && (!Idle(ws) || whole ==>
                && |o.out| == (if o.ret > 0 then o.ret else 0) && (c.outlen > 0 && c.r0 > 0 && c.r2 > 0 ==> o.ret > 0)
                && o.clen == if out + o.out == data then |data| else -1)
  {
    if !Idle(ws) {
      MidwayCarries(ws, stream, data, mask, tail, out, c);
    } else if HeaderWhole(c, |Header(|data|, mask)|) {
      IdleCarries(ws, data, mask, tail, c);
    } else if c.r0 == 1 {
      OneByteLost(ws, data, mask, tail, c);
    } else {
      HeaderCut(ws, data, mask, tail, c);
    }
    hide Received, Midway, Wire, Masked, Header, Text;
    if Idle(ws) {
      var o := Answer(ws, stream, c);
      assert out + o.out == o.out;
    }
  }

  /** Calls until `n` bytes have come. */
  function Run(ws: Ws, stream: seq<byte>, calls: seq<Call>, n: nat): (r: (Ws, seq<byte>, seq<byte>))
    requires Sound(ws)
    ensures Sound(r.0)
  {
    if calls == [] then (ws, stream, [])
    else
      var was := Run(ws, stream, calls[..|calls| - 1], n);
      var c := calls[|calls| - 1];
      if |was.2| >= n || Text(was.0, was.1, c.r0) then was
      else
        ReceiveKeepsSound(was.0, was.1, c.outlen, c.r0, c.r1, c.r2);
        var o := Answer(was.0, was.1, c);
        (o.ws, o.stream, was.2 + o.out)
  }

  /**
   * However the reads split the payload, and however often there is nothing to read, what has
   * been passed on is a prefix of the bytes the sender masked; when it is all of them the
   * receiver is idle again, with what follows the frame still unread. Reads that give anything
   * at all get there.
   */
  lemma {:induction false} FrameArrives(ws: Ws, data: seq<byte>, mask: Option<seq<byte>>, tail: seq<byte>,
                                        calls: seq<Call>)
    requires 0 < |data| < TWO16 && (mask.Some? ==> |mask.value| == 4) && Idle(ws)
    requires forall i :: 0 <= i < |calls| ==> HeaderWhole(calls[i], |Header(|data|, mask)|)
    ensures var r := Run(ws, Wire(data, mask) + tail, calls, |data|);
            && Carried(r.0, r.1, data, mask, tail, r.2)
            && ((forall i :: 0 <= i < |calls| ==> calls[i].outlen > 0 && calls[i].r0 > 0 && calls[i].r2 > 0)
                ==> r.2 == data || |r.2| >= |calls|)
  {
    hide Carried, Answer, Wire, Header, HeaderWhole;
    if calls == [] {
      StartsCarried(ws, data, mask, tail);
    } else {
      var n := |calls| - 1;
      assert forall i :: 0 <= i < n ==> calls[..n][i] == calls[i];
      FrameArrives(ws, data, mask, tail, calls[..n]);
      var was := Run(ws, Wire(data, mask) + tail, calls[..n], |data|);
      CarriedPrefix(was.0, was.1, data, mask, tail, was.2);
      if |was.2| < |data| {
        CallCarriesExactly(was.0, was.1, data, mask, tail, was.2, calls[n]);
      }
    }
  }

  lemma StartsCarried(ws: Ws, data: seq<byte>, mask: Option<seq<byte>>, tail: seq<byte>)
    requires 0 < |data| < TWO16 && (mask.Some? ==> |mask.value| == 4) && Idle(ws)
    ensures Carried(ws, Wire(data, mask) + tail, data, mask, tail, [])
  {
  }

  lemma CarriedPrefix(ws: Ws, stream: seq<byte>, data: seq<byte>, mask: Option<seq<byte>>, tail: seq<byte>,
                      out: seq<byte>)
    requires |data| < TWO16 && (mask.Some? ==> |mask.value| == 4) && Carried(ws, stream, data, mask, tail, out)
    ensures |out| <= |data| && (out == data <==> |out| == |data|)
  {
  }

  /**
   * A frame that `Net_ProxySend` writes comes back as the bytes given exactly up to 65535 of
   * them: beyond that its two length bytes have lost the rest.
   */
  lemma WrittenFrameReadsBack(ws: Ws, data: seq<byte>, tail: seq<byte>)
    requires data != [] && Idle(ws)
    ensures !Text(ws, Frame(data) + tail, 2)
    ensures var o := Received(ws, Frame(data) + tail, |data|, 2, 2, |data|);
            o.out == data <==> |data| < TWO16
  {
    if |data| < TWO16 {
      FrameIsWire(data);
      StartsCarried(ws, data, None, tail);
      ReadsWhole(ws, data, tail);
    } else {
      var s := Frame(data) + tail;
      assert s[0] == 0x82 && s[1] == 126 && s[2] == |data| / 256 % 256 && s[3] == |data| % 256;
      LongLength(ws, s, |data|, |data|);
    }
  }

  lemma ReadsWhole(ws: Ws, data: seq<byte>, tail: seq<byte>)
    requires 0 < |data| < TWO16 && Idle(ws)
    ensures !Text(ws, Wire(data, None) + tail, 2)
    ensures Received(ws, Wire(data, None) + tail, |data|, 2, 2, |data|).out == data
  {
    var h := Header(|data|, None);
    var m := Masked(data, NOMASK, 0);
    assert m[0..] + tail == m + tail && data[..0] == [] && data[..|data|] == data;
    hide Received, TakePayload, Masked, Wire, Store, Midway, Complete;
    HeaderArrives(ws, data, None, tail, |data|, 2, 2, |data|);
    PieceOutcome(Ws(Store(ws.buf, 0, h), |h|, 0), m + tail, |data|, None, 0, |data|, |data|);
    UnmaskNext(data, NOMASK, tail, 0, |data|);
    assert [] + Masked((m + tail)[..|data|], NOMASK, 0) == Masked((m + tail)[..|data|], NOMASK, 0);
  }

  /** A length taken modulo 65536 is short of the payload. */
  lemma LongLength(ws: Ws, s: seq<byte>, outlen: nat, r2: int)
    requires Idle(ws) && |s| >= 4 && s[0] == 0x82 && s[1] == 126
    ensures !Text(ws, s, 2) && |Received(ws, s, outlen, 2, 2, r2).out| < TWO16
  {
    hide Masked, KeyOf;
    var ws1 := TakeFirst(ws, s, 2);
    assert ws1.buf[0] == s[0] && ws1.buf[1] == s[1];
  }

  /** On the wire, a payload too long is a shorter frame with the rest of the payload behind it. */
  lemma LongFrameIs(data: seq<byte>, tail: seq<byte>)
    requires |data| % TWO16 >= 126
    ensures var n := |data| % TWO16; Frame(data) + tail == Wire(data[..n], None) + (data[n..] + tail)
  {
    hide Frame, Wire;
    var n := |data| % TWO16;
    FrameIsWire(data[..n]);
    FrameStarts(data);
    FrameStarts(data[..n]);
    CutBehind([0x82, 126, n / 256, n % 256], data, n, tail);
  }

  lemma FrameStarts(data: seq<byte>)
    requires |data| >= 126
    ensures var n := |data| % TWO16; Frame(data) == [0x82, 126, n / 256, n % 256] + data
  {
    var n := |data| % TWO16;
    assert |data| / 256 % 256 == n / 256 && |data| % 256 == n % 256;
  }

  lemma CutBehind(h: seq<byte>, data: seq<byte>, n: nat, tail: seq<byte>)
    requires n <= |data|
    ensures h + data + tail == h + data[..n] + (data[n..] + tail)
  {
    assert data == data[..n] + data[n..];
    Assoc(h, data[..n], data[n..]);
    Assoc(h + data[..n], data[n..], tail);
  }

  /**
   * However a frame of 65536 bytes or more is read, it ends after as many bytes as its length
   * says, that is the payload's modulo 65536, and what was to follow is read as the next header.
   */
  lemma LongFrameEndsEarly(ws: Ws, data: seq<byte>, tail: seq<byte>, calls: seq<Call>)
    requires Idle(ws) && |data| >= TWO16 && |data| % TWO16 >= 126
    requires forall i :: 0 <= i < |calls| ==> HeaderWhole(calls[i], 4)
    ensures var n := |data| % TWO16;
            var r := Run(ws, Frame(data) + tail, calls, n);
            && Carried(r.0, r.1, data[..n], None, data[n..] + tail, r.2)
            && (|calls| >= n && (forall i :: 0 <= i < |calls| ==>
                                   calls[i].outlen > 0 && calls[i].r0 > 0 && calls[i].r2 > 0)
                ==> r.2 == data[..n] && Idle(r.0) && r.1 == data[n..] + tail)
  {
    hide Run, Frame, Wire, HeaderWhole;
    var n := |data| % TWO16;
    LongFrameIs(data, tail);
    LongHeader(n);
    FrameArrives(ws, data[..n], None, data[n..] + tail, calls);
    var r := Run(ws, Frame(data) + tail, calls, n);
    CarriedPrefix(r.0, r.1, data[..n], None, data[n..] + tail, r.2);
  }

  lemma LongHeader(n: nat)
    requires 126 <= n < TWO16
    ensures |Header(n, None)| == 4
  {
  }

  // ---- Which frames pass payload on, in the terms of RFC 6455, section 5.2 ----

  /** Two bytes, the extended length of two or eight, and the masking key of four. */
  function HeadSize(s: seq<byte>): (n: nat)
    requires |s| >= 2
  {
    2 + (if s[1] % 128 < 126 then 0 else if s[1] % 128 == 126 then 2 else 8) + if s[1] < 128 then 0 else 4
  }

  lemma HeadSizeIs(s: seq<byte>)
    requires |s| >= 2
    ensures HeadSize(s) == HeaderLength(s[1]) && 2 <= HeadSize(s) <= 14
  {
  }

  /** FIN, and the opcode of a binary frame. */
  predicate Binary(s: seq<byte>)
    requires |s| >= 2
  {
    s[0] >= 128 && s[0] % 16 == 2
  }

  /** The length, for the forms the receiver goes by: the short one, or two bytes that need it. */
  function Size(s: seq<byte>): Option<nat>
    requires |s| >= 2 && |s| >= HeadSize(s)
  {
    if s[1] % 128 < 126 then Some(s[1] % 128)
    else if s[1] % 128 == 126 && (s[2] as int) * 256 + s[3] >= 126 then Some((s[2] as int) * 256 + s[3])
    else None
  }

  function MaskKey(s: seq<byte>): (k: seq<byte>)
    requires |s| >= 2 && |s| >= HeadSize(s)
    ensures |k| == 4
  {
    if s[1] < 128 then [0, 0, 0, 0] else s[HeadSize(s) - 4..HeadSize(s)]
  }

  /** What a whole header says to the receiver is what the standard says it says. */
  lemma HeaderSays(w: Ws, s: seq<byte>)
    requires |s| >= 2 && |s| >= HeadSize(s) && |w.buf| == BUFSIZE && w.len == HeadSize(s) <= 14
    requires w.buf[..w.len] == s[..w.len]
    ensures w.buf[0] == s[0] && w.len == HeaderLength(w.buf[1]) && PayLength(w.buf) == Size(s) && KeyOf(w) == MaskKey(s)
  {
    assert forall i :: 0 <= i < w.len ==> w.buf[i] == w.buf[..w.len][i] == s[..w.len][i] == s[i];
    if s[1] >= 128 {
      assert w.buf[w.len - 4..w.len] == s[w.len - 4..w.len];
    }
  }

  /**
   * The call that gets a whole header, of any frame but a text frame: payload is passed on,
   * unmasked, exactly if FIN is set, the opcode is 2 and the length has one of the forms gone by;
   * of every other frame nothing is stored, the call reports the end, and what is behind the
   * header is left unread.
   */
  lemma PassesOnExactly(ws: Ws, s: seq<byte>, c: Call)
    requires Idle(ws) && |s| >= 2 && |s| >= HeadSize(s) && s[0] % 16 != 1
    requires c.r0 >= 2 && (HeadSize(s) == 2 || c.r1 >= HeadSize(s) - 2)
    ensures !Text(ws, s, c.r0)
    ensures var n := HeadSize(s);
            var o := Answer(ws, s, c);
            if Binary(s) && Size(s) != None then
              var k := Got(c.r2, Min(c.outlen, Size(s).value), s[n..]);
              && o.ret == k && o.stream == s[n + if k > 0 then k else 0..]
              && o.out == (if k > 0 then Masked(s[n..n + k], MaskKey(s), 0) else [])
              && o.clen == if Size(s).value == (if k > 0 then k else 0) then Size(s).value else -1
            else o.ret == 0 && o.out == [] && o.stream == s[n..] && o.clen == -1
  {
    hide Received, Text, Store, Answer, HeaderLength, Masked, PayLength, KeyOf, MaskKey, Size, HeadSize, TakePayload;
    HeadSizeIs(s);
    var n := HeadSize(s);
    var h, rest := s[..n], s[n..];
    assert s == h + rest;
    AnyHeaderArrives(ws, h, rest, c);
    var w := Ws(Store(ws.buf, 0, h), n, 0);
    HeaderSays(w, s);
    FirstPiece(w, rest, c);
    if Binary(s) && Size(s) != None {
      var k := Got(c.r2, Min(c.outlen, Size(s).value), rest);
      if k > 0 {
        assert rest[k..] == s[n + k..] && rest[..k] == s[n..n + k];
      }
    }
  }

  lemma FirstPiece(w: Ws, rest: seq<byte>, c: Call)
    requires Complete(w) && w.pushed == 0
    ensures var size := PayLength(w.buf);
            TakePayload(w, rest, c.outlen, c.r2) ==
            if w.buf[0] >= 128 && w.buf[0] % 16 == 2 && size != None then
              var k := Got(c.r2, Min(c.outlen, size.value), rest);
              if k <= 0 then
                Outcome(if size.value == 0 then Ws(w.buf, 0, 0) else w, rest, k, [], if size.value == 0 then 0 else -1)
              else Outcome(if k == size.value then Ws(w.buf, 0, 0) else Ws(w.buf, w.len, k), rest[k..], k,
                           Masked(rest[..k], KeyOf(w), 0), if k == size.value then k else -1)
            else Outcome(w, rest, 0, [], -1)
  {
    hide Masked, KeyOf, PayLength;
    assert rest[0..] == rest;
  }

  /** In front of a frame that is refused, or past its header for good. */
  predicate Refusing(ws: Ws, stream: seq<byte>, s: seq<byte>)
    requires |s| >= 2 && |s| >= HeadSize(s)
  {
    || (Idle(ws) && stream == s)
    || (Complete(ws) && ws.len == HeadSize(s) && ws.buf[..ws.len] == s[..ws.len] && stream == s[ws.len..])
  }

  lemma RefusingFirst(ws: Ws, s: seq<byte>)
    requires Idle(ws) && |s| >= 2 && |s| >= HeadSize(s)
    ensures Refusing(ws, s, s)
  {
  }

  lemma RefusesAgain(ws: Ws, stream: seq<byte>, s: seq<byte>, c: Call)
    requires |s| >= 2 && |s| >= HeadSize(s) && s[0] % 16 != 1 && !(Binary(s) && Size(s) != None)
    requires Refusing(ws, stream, s) && HeaderWhole(c, HeadSize(s))
    ensures Sound(ws) && !Text(ws, stream, c.r0)
    ensures var o := Answer(ws, stream, c);
            && Refusing(o.ws, o.stream, s) && o.out == [] && o.ret <= 0
            && (c.r0 > 0 || !Idle(ws) ==> o.ret == 0 && o.stream == s[HeadSize(s)..])
  {
    HeadSizeIs(s);
    if Idle(ws) && c.r0 > 0 {
      RefusesAtHeader(ws, s, c);
    } else if Idle(ws) {
      hide Store;
    } else {
      HeaderSays(ws, s);
      hide KeyOf, Masked, PayLength, Size, HeaderLength, HeadSize;
    }
  }

  lemma RefusesAtHeader(ws: Ws, s: seq<byte>, c: Call)
    requires |s| >= 2 && |s| >= HeadSize(s) && s[0] % 16 != 1 && !(Binary(s) && Size(s) != None)
    requires Idle(ws) && c.r0 >= 2 && (HeadSize(s) == 2 || c.r1 >= HeadSize(s) - 2)
    ensures !Text(ws, s, c.r0)
    ensures var o := Answer(ws, s, c);
            Refusing(o.ws, o.stream, s) && o.out == [] && o.ret == 0 && o.stream == s[HeadSize(s)..]
  {
    hide Received, Text, Store, Answer, HeaderLength, Masked, PayLength, KeyOf, MaskKey, Size, HeadSize;
    HeadSizeIs(s);
    var n := HeadSize(s);
    var h, rest := s[..n], s[n..];
    assert s == h + rest;
    AnyHeaderArrives(ws, h, rest, c);
    HeaderSays(Ws(Store(ws.buf, 0, h), n, 0), s);
  }

  /**
   * Whatever its first byte, key and length form: unless FIN is set, the opcode is 2 and the length
   * is one gone by, no sequence of calls ever passes a byte of the frame on, every call past the
   * header reports the end, and the stream behind the header stays unread.
   */
  lemma {:induction false} OthersRefused(ws: Ws, s: seq<byte>, calls: seq<Call>, c: Call, limit: nat)
    requires Idle(ws) && |s| >= 2 && |s| >= HeadSize(s) && s[0] % 16 != 1 && !(Binary(s) && Size(s) != None)
    requires (forall i :: 0 <= i < |calls| ==> HeaderWhole(calls[i], HeadSize(s))) && HeaderWhole(c, HeadSize(s))
    ensures var r := Run(ws, s, calls, limit);
            && r.2 == [] && Refusing(r.0, r.1, s) && !Text(r.0, r.1, c.r0)
            && var o := Answer(r.0, r.1, c);
               && o.out == [] && o.ret <= 0
               && (c.r0 > 0 || !Idle(r.0) ==> o.ret == 0 && o.stream == s[HeadSize(s)..])
    decreases |calls|
  {
    hide Answer, HeaderWhole, Text, Complete, Refusing, HeadSize, Size, Binary;
    RefusingFirst(ws, s);
    if calls != [] {
      var n := |calls| - 1;
      assert forall i :: 0 <= i < n ==> calls[..n][i] == calls[i];
      OthersRefused(ws, s, calls[..n], calls[n], limit);
      var was := Run(ws, s, calls[..n], limit);
      RefusesAgain(was.0, was.1, s, calls[n]);
    }
    var r := Run(ws, s, calls, limit);
    RefusesAgain(r.0, r.1, s, c);
  }

  /** Where the length that is left is under 126 nothing comes at all, and every call past the header
      reports the end. */
  lemma LongFrameRefused(ws: Ws, data: seq<byte>, tail: seq<byte>, calls: seq<Call>, c: Call)
    requires Idle(ws) && |data| >= TWO16 && |data| % TWO16 < 126
    requires (forall i :: 0 <= i < |calls| ==> HeaderWhole(calls[i], 4)) && HeaderWhole(c, 4)
    ensures var r := Run(ws, Frame(data) + tail, calls, |data|);
            && r.2 == [] && !Text(r.0, r.1, c.r0)
            && var o := Answer(r.0, r.1, c);
               o.out == [] && o.ret <= 0 && (c.r0 > 0 || !Idle(r.0) ==> o.ret == 0)
  {
    hide Answer, HeaderWhole, Text, Frame, Refusing, Run;
    var s := Frame(data) + tail;
    FrameStarts(data);
    assert s[0] == 0x82 && s[1] == 126 && s[2] == 0 && s[3] == |data| % TWO16;
    OthersRefused(ws, s, calls, c, |data|);
  }

  // ---- The receiver's own state ----

  class Receiver {
    const wsbuf: array<byte>
    var wsbuflen: nat
    var wspushed: nat

    ghost predicate Valid()
      reads this, wsbuf
    {
      wsbuf.Length == BUFSIZE && Sound(State())
    }

    ghost function State(): Ws
      reads this, wsbuf
    {
      Ws(wsbuf[..], wsbuflen, wspushed)
    }

    constructor ()
      ensures Valid() && Idle(State()) && fresh(wsbuf)
    {
      wsbuf := new byte[BUFSIZE](_ => 0);
      wsbuflen, wspushed := 0, 0;
    }

    /** `recv` into the header buffer. */
    method ReadHeader(stream: seq<byte>, n: nat, r: int) returns (k: int, rest: seq<byte>)
      requires wsbuflen + n <= wsbuf.Length
      modifies wsbuf
      ensures k == Got(r, n, stream) && rest == Left(stream, k)
      ensures wsbuf[..] == if k > 0 then Store(old(wsbuf[..]), wsbuflen, stream[..k]) else old(wsbuf[..])
    {
      k := Got(r, n, stream);
      rest := Left(stream, k);
      var i := 0;
      while i < k
        invariant 0 <= i && (k > 0 ==> i <= k)
        invariant i == 0 || i <= k
        invariant forall j :: 0 <= j < i ==> wsbuf[wsbuflen + j] == stream[j]
        invariant forall j :: 0 <= j < wsbuflen || wsbuflen + i <= j < wsbuf.Length ==> wsbuf[j] == old(wsbuf[j])
      {
        wsbuf[wsbuflen + i] := stream[i];
        i := i + 1;
      }
      if k > 0 {
        forall j | 0 <= j < wsbuf.Length ensures wsbuf[j] == Store(old(wsbuf[..]), wsbuflen, stream[..k])[j] {
          if wsbuflen <= j < wsbuflen + k {
            assert wsbuf[wsbuflen + (j - wsbuflen)] == stream[j - wsbuflen];
          }
        }
        assert wsbuf[..] == Store(old(wsbuf[..]), wsbuflen, stream[..k]);
      }
    }

    /** `recv` for the caller, unmasked in place. */
    method ReadPayload(stream: seq<byte>, out: array<byte>, n: nat, r: int, mask: seq<byte>)
      returns (k: int, rest: seq<byte>)
      requires n <= out.Length && |mask| == 4
      modifies out
      ensures k == Got(r, n, stream) && rest == Left(stream, k)
      ensures k > 0 ==> out[..k] == Masked(stream[..k], mask, wspushed)
      ensures out[if k > 0 then k else 0..] == old(out[if k > 0 then k else 0..])
    {
      k := Got(r, n, stream);
      rest := Left(stream, k);
      if k > 0 {
        CopyIn(stream[..k], out);
        Unmask(stream[..k], out, k, mask);
      }
    }

    method CopyIn(s: seq<byte>, out: array<byte>)
      requires |s| <= out.Length
      modifies out
      ensures out[..|s|] == s && out[|s|..] == old(out[|s|..])
    {
      for i := 0 to |s|
        invariant out[..i] == s[..i] && out[i..] == old(out[i..])
      {
        out[i] := s[i];
        assert out[..i + 1] == s[..i + 1] && out[i + 1..] == old(out[i..])[1..];
      }
    }

    method Unmask(ghost s: seq<byte>, out: array<byte>, k: nat, mask: seq<byte>)
      requires |s| == k <= out.Length && out[..k] == s && |mask| == 4
      modifies out
      ensures out[..k] == Masked(s, mask, wspushed) && out[k..] == old(out[k..])
    {
      for i := 0 to k
        invariant out[..i] == Masked(s, mask, wspushed)[..i] && out[i..] == old(out[i..])
      {
        assert out[i] == out[i..][0] == old(out[i..])[0] == s[i];
        out[i] := Xor(out[i], mask[(wspushed + i) % 4]);
        assert out[..i + 1] == Masked(s, mask, wspushed)[..i + 1];
        assert out[i + 1..] == old(out[i..])[1..];
      }
    }

    /** The binary payload, once the header is complete. */
    method RecvPayload(stream: seq<byte>, out: array<byte>, outlen: nat, r2: int)
      returns (ret: int, clen: int, rest: seq<byte>)
      requires Valid() && Complete(State()) && outlen <= out.Length && out != wsbuf
      modifies this, out
      ensures Valid()
      ensures var o := TakePayload(old(State()), stream, outlen, r2);
              && State() == o.ws && rest == o.stream && ret == o.ret && clen == o.clen
              && |o.out| <= out.Length && out[..|o.out|] == o.out
    {
      hide Masked, HeaderLength;
      ret, clen, rest := 0, -1, stream;
      var n := PayLength(wsbuf[..]);
      if n == None || wsbuf[0] < 128 || wsbuf[0] % 16 != 2 {
        return;
      }
      var want := if outlen > n.value - wspushed then n.value - wspushed else outlen;
      ret, rest := ReadPayload(stream, out, want, r2, KeyOf(Ws(wsbuf[..], wsbuflen, wspushed)));
      if ret > 0 {
        wspushed := wspushed + ret;
      }
      if wspushed == n.value {
        clen := wspushed;
        wspushed, wsbuflen := 0, 0;
      }
    }

    /** `NET_WebSocketRecv`. */
    method Recv(stream: seq<byte>, out: array<byte>, outlen: nat, r0: int, r1: int, r2: int)
      returns (ret: int, clen: int, rest: seq<byte>)
      requires Valid() && outlen <= out.Length && out != wsbuf && !Text(State(), stream, r0)
      modifies this, wsbuf, out
      ensures Valid()
      ensures var o := Received(old(State()), stream, outlen, r0, r1, r2);
              && State() == o.ws && rest == o.stream && ret == o.ret && clen == o.clen
              && |o.out| <= out.Length && out[..|o.out|] == o.out
    {
      hide TakePayload, Store, PayLength;
      clen, rest := -1, stream;
      if wsbuflen == 0 {
        ret, rest := ReadHeader(stream, 2, r0);
        if ret > 0 {
          wsbuflen := 2;
        } else {
          return;
        }
      }
      ret := 0;
      if wsbuflen < 2 {
        return;
      }
      assert State() == TakeFirst(old(State()), stream, r0);
      ret, clen, rest := RecvRest(rest, out, outlen, r1, r2);
    }

    method RecvRest(stream: seq<byte>, out: array<byte>, outlen: nat, r1: int, r2: int)
      returns (ret: int, clen: int, rest: seq<byte>)
      requires Valid() && wsbuflen >= 2 && wsbuf[0] % 16 != 1 && outlen <= out.Length && out != wsbuf
      modifies this, wsbuf, out
      ensures Valid()
      ensures var o := TakeRest(old(State()), stream, outlen, r1, r2);
              && State() == o.ws && rest == o.stream && ret == o.ret && clen == o.clen
              && |o.out| <= out.Length && out[..|o.out|] == o.out
    {
      hide TakePayload, Store, PayLength, HeaderLength;
      ret, clen, rest := 0, -1, stream;
      var len := HeaderLength(wsbuf[1]);
      if wsbuflen < len {
        var k;
        k, rest := ReadHeader(stream, len - wsbuflen, r1);
        assert Got(r1, len - wsbuflen, stream) == k;
        if k != 0 {
          wsbuflen := wsbuflen + k;
        } else {
          return;
        }
        assert State() == TakeMore(old(State()), stream, r1);
      }
      if wsbuflen >= len {
        ret, clen, rest := RecvPayload(rest, out, outlen, r2);
      }
    }
  }
}
