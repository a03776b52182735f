/**
 axprt_stream: record marking on a byte stream. A packet travels as a four-byte header,
 the length with the top bit set (a last fragment, section 11 of RFC 5531), and its bytes.
 */
module Framing {
  import opened Octets

  const LAST := 0x8000_0000

  /** putint / htonl */
  function PutInt(v: nat): (b: Bytes)
    requires v < 0x1_0000_0000
    ensures |b| == 4
  {
    var a := v / 0x100;
    var b := a / 0x100;
    [(b / 0x100) as Byte, (b % 0x100) as Byte, (a % 0x100) as Byte, (v % 0x100) as Byte]
  }

  /** getint / ntohl */
  function GetInt(b: Bytes): nat
    requires |b| >= 4
  {
    ((b[0] as nat * 0x100 + b[1] as nat) * 0x100 + b[2] as nat) * 0x100 + b[3] as nat
  }

  lemma IntRoundTrip(v: nat, rest: Bytes)
    requires v < 0x1_0000_0000
    ensures GetInt(PutInt(v) + rest) == v
  {
  }

  /** A word is read and written highest byte first. */
  lemma GetBig(b: Bytes)
    requires |b| >= 4
    ensures GetInt(b) == Big(b[..4])
  {
    BigFour(b[..4]);
  }

  lemma PutBig(v: nat)
    requires v < 0x1_0000_0000
    ensures Big(PutInt(v)) == v
  {
    IntRoundTrip(v, []);
    GetBig(PutInt(v) + []);
    assert (PutInt(v) + [])[..4] == PutInt(v);
  }

  /** So words come in the order of their numbers. */
  lemma WordOrder(u: nat, v: nat)
    requires u < 0x1_0000_0000 && v < 0x1_0000_0000
    ensures u < v <==> Before(PutInt(u), PutInt(v))
  {
    hide PutInt;
    PutBig(u);
    PutBig(v);
    BigOrder(PutInt(u), PutInt(v));
  }

  lemma Digit(q: nat, r: nat)
    requires r < 0x100
    ensures (q * 0x100 + r) / 0x100 == q && (q * 0x100 + r) % 0x100 == r
  {
  }

  lemma PutGet(b: Bytes)
    requires |b| >= 4
    ensures GetInt(b) < 0x1_0000_0000 && PutInt(GetInt(b)) == b[..4]
  {
    var c := b[0] as nat * 0x100 + b[1] as nat;
    var a := c * 0x100 + b[2] as nat;
    Digit(b[0] as nat, b[1] as nat);
    Digit(c, b[2] as nat);
    Digit(a, b[3] as nat);
  }

  /** What sendv writes for a packet. */
  function Frame(p: Bytes): Bytes
    requires |p| < LAST
  {
    PutInt(LAST + |p|) + p
  }

  /** The header: its highest bit is set, and the others are the length. */
  lemma FrameHeader(p: Bytes)
    requires |p| < LAST
    ensures |Frame(p)| == 4 + |p| && Frame(p)[4..] == p
    ensures Frame(p)[0] >= 0x80 && Big([Frame(p)[0] - 0x80] + Frame(p)[1..4]) == |p|
  {
    var h := PutInt(LAST + |p|);
    var b := [h[0] - 0x80] + h[1..4];
    assert Frame(p)[..4] == h && Frame(p)[1..4] == h[1..4];
    PutBig(LAST + |p|);
    BigFour(h);
    BigFour(b);
  }

  ghost predicate Sendable(ps: seq<Bytes>, pktsize: nat) {
    forall i :: 0 <= i < |ps| ==> |ps[i]| <= pktsize
  }

  function Frames(ps: seq<Bytes>): Bytes
    requires forall i :: 0 <= i < |ps| ==> |ps[i]| < LAST
  {
    if ps == [] then [] else Frame(ps[0]) + Frames(ps[1..])
  }

  lemma {:induction false} FramesAppend(ps: seq<Bytes>, p: Bytes)
    requires forall i :: 0 <= i < |ps| ==> |ps[i]| < LAST
    requires |p| < LAST
    ensures Frames(ps + [p]) == Frames(ps) + Frame(p)
  {
    if ps == [] {
      assert ps + [p] == [p] && [p][1..] == [];
    } else {
      assert (ps + [p])[1..] == ps[1..] + [p];
      FramesAppend(ps[1..], p);
    }
  }

  /** What getpkt makes of the bytes at its cursor. */
  datatype Head = Incomplete | Break | Bad | Packet(len: nat)

  function Look(buf: Bytes, pktsize: nat): Head {
    if |buf| < 4 then Incomplete
    else
      var v := GetInt(buf);
      if v == 0 then Break
      else if v < LAST || v - LAST > pktsize then Bad
      else if |buf| - 4 < v - LAST then Incomplete
      else Packet(v - LAST)
  }

  /** The start of a frame looks incomplete until all of it is there. */
  lemma LookFrame(p: Bytes, rest: Bytes, n: nat, pktsize: nat)
    requires |p| <= pktsize < LAST && n <= |Frame(p) + rest|
    ensures var h := Look((Frame(p) + rest)[..n], pktsize);
            if n < |Frame(p)| then h == Incomplete else h == Packet(|p|) && (Frame(p) + rest)[4..4 + |p|] == p
  {
    var all := Frame(p) + rest;
    if n >= 4 {
      assert all[..n] == PutInt(LAST + |p|) + all[4..n];
      IntRoundTrip(LAST + |p|, all[4..n]);
    }
  }

  /** What the bytes look like: a packet if a frame of at most `pktsize` bytes starts them, a break if
      four zeros do, incomplete if they are how such a frame starts, or too short to tell, and bad
      otherwise. */
  lemma LookIff(buf: Bytes, pktsize: nat)
    requires pktsize < LAST
    ensures Look(buf, pktsize).Packet? <==> exists p: Bytes :: |p| <= pktsize && Frame(p) <= buf
    ensures Look(buf, pktsize).Break? <==> [0, 0, 0, 0] <= buf
    ensures Look(buf, pktsize).Incomplete? <==> |buf| < 4 || exists p: Bytes :: |p| <= pktsize && buf < Frame(p)
  {
    hide PutInt;
    var h := Look(buf, pktsize);
    if h.Packet? {
      TakenFrame(buf, pktsize);
    } else if h.Incomplete? && |buf| >= 4 {
      var p := StartedFrame(buf, pktsize);
    }
    forall p: Bytes | |p| <= pktsize && (Frame(p) <= buf || buf < Frame(p))
      ensures h == if Frame(p) <= buf then Packet(|p|) else Incomplete
    {
      var all := if Frame(p) <= buf then buf else Frame(p);
      assert all == Frame(p) + all[|Frame(p)|..] && all[..|buf|] == buf;
      LookFrame(p, all[|Frame(p)|..], |buf|, pktsize);
    }
    ZeroHeader(buf);
  }

  lemma TakenFrame(buf: Bytes, pktsize: nat)
    requires pktsize < LAST && Look(buf, pktsize).Packet?
    ensures var n := Look(buf, pktsize).len; n <= pktsize && 4 + n <= |buf| && Frame(buf[4..4 + n]) <= buf
  {
    PutGet(buf);
    var n := Look(buf, pktsize).len;
    assert buf[..4] + buf[4..4 + n] == buf[..4 + n];
  }

  lemma StartedFrame(buf: Bytes, pktsize: nat) returns (p: Bytes)
    requires pktsize < LAST && |buf| >= 4 && Look(buf, pktsize).Incomplete?
    ensures |p| <= pktsize && buf < Frame(p)
  {
    PutGet(buf);
    hide PutInt, GetInt;
    var n := GetInt(buf) - LAST;
    var more: Bytes := seq(n - (|buf| - 4), _ => 0);
    p := buf[4..] + more;
    Regrouped(buf, more);
    assert Frame(p) == buf + more && buf < buf + more;
  }

  lemma Regrouped(buf: Bytes, more: Bytes)
    requires |buf| >= 4
    ensures buf[..4] + (buf[4..] + more) == buf + more
  {
  }

  lemma ZeroHeader(buf: Bytes)
    ensures [0, 0, 0, 0] <= buf <==> |buf| >= 4 && GetInt(buf) == 0
  {
    if |buf| >= 4 {
      PutGet(buf);
      assert PutInt(0) == [0, 0, 0, 0];
      if [0, 0, 0, 0] <= buf {
        assert buf[..4] == [0, 0, 0, 0];
      }
    }
  }

  /** Two streams that start the same start with the same packet. */
  lemma SameHead(d: Bytes, x: Bytes, p: Bytes, y: Bytes, pktsize: nat)
    requires pktsize < LAST && |d| <= pktsize && |p| <= pktsize && Frame(d) + x <= Frame(p) + y
    ensures d == p && x <= y
  {
    var a, b := Frame(d) + x, Frame(p) + y;
    assert a[..4] == b[..4] && a[..4] == PutInt(LAST + |d|) && b[..4] == PutInt(LAST + |p|);
    IntRoundTrip(LAST + |d|, []);
    IntRoundTrip(LAST + |p|, []);
    hide PutInt, GetInt;
    assert PutInt(LAST + |d|) + [] == PutInt(LAST + |p|) + [];
    assert d == a[4..4 + |d|] && p == b[4..4 + |d|];
    assert x == a[4 + |d|..] && y == b[4 + |d|..];
  }

  /** Bytes already delivered as `ds`, and `buf` after them, are how a stream of packets
      starts: then `ds` are its first packets, and `buf` is how the rest starts. */
  lemma {:induction false} DeliveredPrefix(ds: seq<Bytes>, buf: Bytes, ps: seq<Bytes>, pktsize: nat)
    requires pktsize < LAST && Sendable(ds, pktsize) && Sendable(ps, pktsize)
    requires Frames(ds) + buf <= Frames(ps)
    ensures ds <= ps && buf <= Frames(ps[|ds|..])
  {
    if ds == [] {
      assert ps[0..] == ps && [] + buf == buf;
    } else {
      assert Frames(ds) + buf == Frame(ds[0]) + (Frames(ds[1..]) + buf);
      assert ps != [] by { assert Frames([]) == []; }
      hide Frame;
      SameHead(ds[0], Frames(ds[1..]) + buf, ps[0], Frames(ps[1..]), pktsize);
      DeliveredPrefix(ds[1..], buf, ps[1..], pktsize);
      assert ps[1..][|ds| - 1..] == ps[|ds|..];
    }
  }

  /** Between packets of such a stream the receiver never sees a break or a bad length. */
  lemma LookStream(buf: Bytes, ps: seq<Bytes>, pktsize: nat)
    requires pktsize < LAST && Sendable(ps, pktsize) && buf <= Frames(ps)
    ensures var h := Look(buf, pktsize);
            h == Incomplete || (h.Packet? && ps != [] && h.len == |ps[0]| && buf[4..4 + h.len] == ps[0])
    ensures buf == Frames(ps) && ps != [] ==> Look(buf, pktsize).Packet?
  {
    if ps != [] {
      LookFrame(ps[0], Frames(ps[1..]), |buf|, pktsize);
      assert buf == (Frame(ps[0]) + Frames(ps[1..]))[..|buf|];
    }
  }

  /** What a read returns: bytes, the end of the stream or an error, or nothing yet. */
  datatype Read = Chunk(bytes: Bytes) | End | Again

  /** What the receive callback does: it may unset or set itself again, or close the stream; or
      it never does; or it unsets itself on the `at`-th packet and does nothing else. */
  datatype Habit = Free | Steady | Unsets(at: nat)

  class Stream {
    const pktsize: nat
    const bufsize: nat
    const habit: Habit
    var open: bool
    var cb: bool           // a receive callback is set
    var pktbuf: Bytes      // the first pktlen bytes of the buffer
    var delivered: seq<Bytes>
    var eofs: nat          // times the callback was told of the end
    ghost var received: Bytes
    ghost var closed: bool // the callback closed the stream

    /** While the stream is open, what came in is what was delivered and what is buffered. */
    ghost predicate Lossless()
      reads this
    {
      && pktsize < LAST && pktsize + 4 <= bufsize && Sendable(delivered, pktsize)
      && (open ==> received == Frames(delivered) + pktbuf)
    }

    /** Between reads, an open stream with a callback has delivered every whole packet. */
    ghost predicate Valid()
      reads this
    {
      && Lossless()
      && |pktbuf| <= bufsize
      && (open && cb ==> Look(pktbuf, pktsize) == Incomplete)
    }

    /** `bs` is the size of the buffer, or zero for one packet's. */
    constructor (pktsize: nat, bs: nat, habit: Habit)
      requires pktsize < LAST && (bs == 0 || pktsize + 4 <= bs)
      ensures Valid() && open && !cb && delivered == [] && received == []
      ensures pktbuf == [] && !closed && this.pktsize == pktsize && this.habit == habit
      ensures bufsize == if bs == 0 then pktsize + 4 else bs
    {
      this.pktsize, this.habit := pktsize, habit;
      bufsize := if bs == 0 then pktsize + 4 else bs;
      open, cb, pktbuf, delivered, eofs, received, closed := true, false, [], [], 0, [], false;
    }

    /** The callback. */
    method Call(p: Bytes)
      modifies this`delivered, this`cb, this`open, this`closed
      ensures delivered == old(delivered) + [p]
      ensures (open ==> old(open)) && (old(closed) ==> closed) && (old(open) && !open ==> closed)
      ensures !habit.Free? ==> open == old(open) && closed == old(closed)
      ensures !habit.Free? ==> cb == (old(cb) && !(habit.Unsets? && habit.at == |delivered|))
    {
      delivered := delivered + [p];
      match habit
      case Steady =>
      case Unsets(at) =>
        if |delivered| == at {
          cb := false;
        }
      case Free =>
        cb := *;
        if * {
          open, closed := false, true;
        }
    }

    /** The next packet, if any; a break closes the stream but does not stop the loop. */
    method GetPkt(cp: nat) returns (more: bool, cp': nat)
      requires cp <= |pktbuf| && pktsize < LAST && Sendable(delivered, pktsize)
      modifies this`delivered, this`cb, this`open, this`closed
      ensures cp <= cp' <= |pktbuf| && Sendable(delivered, pktsize)
      ensures (open ==> old(open)) && (old(closed) ==> closed)
      ensures more ==> cp < cp'
      ensures !habit.Free? ==> closed == old(closed)
      ensures !habit.Free? ==> cb == (old(cb) && !(delivered != old(delivered) && habit.Unsets? && habit.at == |delivered|))
      ensures var h := Look(pktbuf[cp..], pktsize);
              match (old(cb), h)
              case (false, _) => !more && cp' == cp && open == old(open) && delivered == old(delivered) && !cb
              case (true, Incomplete) => !more && cp' == cp && open == old(open) && delivered == old(delivered) && cb
              case (true, Bad) => !more && cp' == cp && !open && delivered == old(delivered) && cb
              case (true, Break) => more && cp' == cp + 4 && !open && delivered == old(delivered) && cb
              case (true, Packet(len)) => more && cp' == cp + 4 + len && delivered == old(delivered) + [pktbuf[cp + 4..cp']]
                                          && (old(open) && !open ==> closed)
    {
      more, cp' := false, cp;
      if !cb || |pktbuf| - cp < 4 {
        return;
      }
      ghost var b := pktbuf[cp..];
      var v := GetInt(pktbuf[cp..]);
      if v == 0 {
        open := false;
        return true, cp + 4;
      }
      if v < LAST || v - LAST > pktsize {
        open := false;
        return;
      }
      if |pktbuf| - (cp + 4) < v - LAST {
        return;
      }
      cp' := cp + 4 + (v - LAST);
      Call(pktbuf[cp + 4..cp']);
      more := true;
    }

    /** The stream is how a sender's packets `ps` start. */
    ghost predicate From(ps: seq<Bytes>)
      reads this
    {
      pktsize < LAST && Sendable(ps, pktsize) && received <= Frames(ps)
    }

    /** The callback will unset itself on some packet after the first `n`. */
    predicate Expects(n: nat) {
      habit.Unsets? && n < habit.at
    }

    /** callgetpkt: delivers packets until none is whole or the callback is unset, and moves
        the rest to the front. On a sender's packets it never closes the stream itself. */
    method CallGetPkt(ghost ps: seq<Bytes>)
      requires Lossless() && |pktbuf| <= bufsize
      modifies this`delivered, this`cb, this`open, this`pktbuf, this`eofs, this`closed
      ensures Valid() && old(delivered) <= delivered && (open ==> old(open))
      ensures !old(cb) ==> !cb && delivered == old(delivered) && open == old(open)
      ensures delivered == old(delivered) ==> cb == old(cb)
      ensures eofs == old(eofs) + if !open && cb then 1 else 0
      ensures From(ps) && old(open) ==> open || closed
      ensures !habit.Free? ==> closed == old(closed)
      ensures habit.Steady? ==> cb == old(cb)
      ensures old(cb) && Expects(|old(delivered)|) ==> |delivered| <= habit.at && cb == (|delivered| < habit.at)
    {
      hide Look, Frames;
      var cp := 0;
      var more := cb;
      while more
        invariant cp <= |pktbuf| && pktbuf == old(pktbuf) && eofs == old(eofs)
        invariant pktsize < LAST && Sendable(delivered, pktsize) && old(delivered) <= delivered && (open ==> old(open))
        invariant open ==> received == Frames(delivered) + pktbuf[cp..]
        invariant !more && open && cb ==> Look(pktbuf[cp..], pktsize) == Incomplete
        invariant !old(cb) ==> !more && !cb && delivered == old(delivered) && open == old(open)
        invariant delivered == old(delivered) ==> cb == old(cb)
        invariant From(ps) && old(open) ==> open || closed
        invariant !habit.Free? ==> closed == old(closed)
        invariant habit.Steady? ==> cb == old(cb)
        invariant old(cb) && Expects(|old(delivered)|) ==> |delivered| <= habit.at && cb == (|delivered| < habit.at)
        decreases |pktbuf| - cp, if more then 1 else 0
      {
        ghost var ds, v := delivered, cp;
        if From(ps) && open {
          DeliveredPrefix(ds, pktbuf[cp..], ps, pktsize);
          LookStream(pktbuf[cp..], ps[|ds|..], pktsize);
        }
        if cb {
          more, cp := GetPkt(cp);
          if open && more {
            SplitAt(ds, pktbuf, v, cp, pktsize);
          }
        } else {
          more := false;
        }
      }
      if !open {
        if cb {
          eofs := eofs + 1;
        }
      } else {
        pktbuf := pktbuf[cp..];
      }
    }

    /** input: any chunk of the stream, as much as a read returned; there is always room. The
        end of the stream, or an error, closes it and is reported once. */
    method Input(r: Read, ghost ps: seq<Bytes>)
      requires Valid() && cb && (r.Chunk? ==> 0 < |r.bytes| <= bufsize - |pktbuf|)
      modifies this
      ensures Valid() && old(delivered) <= delivered
      ensures received == old(received) + if r.Chunk? && old(open) then r.bytes else []
      ensures r.Chunk? && old(open) && From(ps) ==> open || closed
      ensures r.Chunk? && old(open) && open && From(ps) ==> Pumped(ps, bufsize, old(Position()), Position())
      ensures !habit.Free? ==> closed == old(closed)
      ensures habit.Steady? ==> cb
      ensures r.Chunk? && old(open) && Expects(|old(delivered)|) ==> |delivered| <= habit.at && cb == (|delivered| < habit.at)
      ensures !r.Chunk? || !old(open) ==> delivered == old(delivered) && pktbuf == old(pktbuf) && open == (old(open) && r.Again?)
      ensures eofs == old(eofs) + if old(open) && !open && (cb || r.End?) then 1 else 0
    {
      hide Look, Frames, Pumped;
      if !open {
        return;
      }
      match r
      case Again =>
      case End => open, eofs := false, eofs + 1;
      case Chunk(bytes) =>
        received := received + bytes;
        assert Frames(delivered) + (pktbuf + bytes) == Frames(delivered) + pktbuf + bytes;
        pktbuf := pktbuf + bytes;
        CallGetPkt(ps);
        if open && From(ps) {
          assert delivered[..|old(delivered)|] == old(delivered);
          PumpedFrom(ps, old(Position()));
        }
    }

    /** setrcb: pausing, or going on with what is buffered. */
    method SetRcb(c: bool, ghost ps: seq<Bytes>)
      requires Valid()
      modifies this
      ensures Valid() && received == old(received) && old(delivered) <= delivered
      ensures From(ps) && old(open) ==> open || closed
      ensures !c ==> !cb && delivered == old(delivered) && open == old(open)
      ensures eofs == old(eofs) + if !open && cb then 1 else 0
      ensures old(open) && open && From(ps) ==>
                if c then Pumped(ps, bufsize, old(Position()), Position()) else Position() == old(Position()).(cb := false)
      ensures !habit.Free? ==> closed == old(closed)
      ensures habit.Steady? ==> cb == c
      ensures old(pktbuf) == [] && old(open) ==> cb == c && open && delivered == old(delivered) && pktbuf == []
    {
      hide Frames, Pumped;
      cb := c;
      if open {
        if cb && pktbuf != [] {
          CallGetPkt(ps);
        }
        if open && c && From(ps) {
          assert delivered[..|old(delivered)|] == old(delivered);
          PumpedFrom(ps, old(Position()));
        }
      } else if cb {
        eofs := eofs + 1;
      }
    }

    /** ungetpkt: a packet is put back as if it had just come in, and delivered next. */
    method UngetPkt(p: Bytes)
      requires Valid() && open && pktbuf == [] && |p| <= pktsize
      modifies this
      ensures Valid() && received == old(received) + Frame(p)
      ensures !old(cb) ==> delivered == old(delivered) && open
      ensures old(cb) && open ==> delivered == old(delivered) + [p] && pktbuf == []
    {
      hide PutInt, GetInt, Look;
      ghost var ps := delivered + [p];
      FramesAppend(delivered, p);
      assert received == Frames(delivered) by { assert Frames(delivered) + [] == Frames(delivered); }
      received := received + Frame(p);
      pktbuf := Frame(p);
      if cb {
        CallGetPkt(ps);
        if open {
          InOrder(ps);
          AllThere(delivered, pktbuf, ps, pktsize);
        }
      }
    }

    /** Where the receiver is in the stream. */
    ghost function Position(): Receiver
      reads this
    {
      Receiver(|received|, |delivered|, cb)
    }

    /** Whatever the chunking and pausing: packets come out as sent, in order, all of them
        once all bytes are in and the callback is set; and a read always has room. */
    lemma InOrder(ps: seq<Bytes>)
      requires Valid() && open && From(ps)
      ensures delivered <= ps
      ensures cb && received == Frames(ps) ==> delivered == ps
      ensures cb ==> |pktbuf| < bufsize
    {
      DeliveredPrefix(delivered, pktbuf, ps, pktsize);
      var rest := ps[|delivered|..];
      LookStream(pktbuf, rest, pktsize);
      if received == Frames(ps) {
        AllThere(delivered, pktbuf, ps, pktsize);
      }
    }

    /** The position says what is buffered, and with the callback set no whole packet is. */
    lemma Tracks(ps: seq<Bytes>)
      requires Valid() && open && From(ps)
      ensures delivered <= ps && Buffered(ps, Position()) == |pktbuf|
      ensures Size(ps, |delivered|) <= |received| <= Size(ps, |ps|)
      ensures cb ==> |delivered| == |ps| || |received| < Size(ps, |delivered| + 1)
    {
      hide Look, Frames, Frame;
      DeliveredPrefix(delivered, pktbuf, ps, pktsize);
      var n := |delivered|;
      assert delivered == ps[..n] && ps[..|ps|] == ps;
      SizeIs(ps, n);
      SizeIs(ps, |ps|);
      if cb && n < |ps| {
        NextIncomplete(pktbuf, ps[n..], pktsize);
      }
    }

    /** callgetpkt went on from `r`. */
    lemma PumpedFrom(ps: seq<Bytes>, r: Receiver)
      requires Valid() && open && From(ps) && r.done <= |delivered| && r.got <= |received|
      requires (r.got < |received| ==> r.cb) && (cb || r.done < |delivered|)
      requires |received| - |Frames(delivered[..r.done])| <= bufsize
      ensures Pumped(ps, bufsize, r, Position())
    {
      hide Look, Frames;
      Tracks(ps);
      assert delivered[..r.done] == ps[..r.done];
      SizeIs(ps, r.done);
    }
  }

  /** What is buffered of a sender's packets is less than the next one's frame. */
  lemma NextIncomplete(buf: Bytes, ps: seq<Bytes>, pktsize: nat)
    requires pktsize < LAST && Sendable(ps, pktsize) && ps != []
    requires buf <= Frames(ps) && Look(buf, pktsize) == Incomplete
    ensures |buf| < |ps[0]| + 4
  {
    LookFrame(ps[0], Frames(ps[1..]), |buf|, pktsize);
    assert buf == (Frame(ps[0]) + Frames(ps[1..]))[..|buf|];
  }

  // ----- How much stays buffered

  /** The bytes of the first `i` packets' frames. */
  function Size(ps: seq<Bytes>, i: nat): nat
    requires i <= |ps|
  {
    if i == 0 then 0 else Size(ps, i - 1) + |ps[i - 1]| + 4
  }

  lemma {:induction false} SizeIs(ps: seq<Bytes>, i: nat)
    requires i <= |ps| && forall j :: 0 <= j < |ps| ==> |ps[j]| < LAST
    ensures |Frames(ps[..i])| == Size(ps, i)
  {
    hide PutInt;
    if i > 0 {
      SizeIs(ps, i - 1);
      assert ps[..i] == ps[..i - 1] + [ps[i - 1]];
      FramesAppend(ps[..i - 1], ps[i - 1]);
    }
  }

  lemma {:induction false} SizeGrows(ps: seq<Bytes>, i: nat, j: nat)
    requires i <= j <= |ps|
    ensures Size(ps, i) + 4 * (j - i) <= Size(ps, j)
  {
    if i < j {
      SizeGrows(ps, i, j - 1);
    }
  }

  /** A receiver of the packets `ps`: bytes that came in, packets handed to the callback, and
      whether it is set. */
  datatype Receiver = Receiver(got: nat, done: nat, cb: bool)

  function Buffered(ps: seq<Bytes>, r: Receiver): int
    requires r.done <= |ps|
  {
    r.got - Size(ps, r.done)
  }

  /** callgetpkt, after a read of any number of bytes that the buffer has room for, or on what
      is buffered when the callback is set again: packets are handed on until the next is not
      whole, or until the callback unsets itself on one. */
  predicate Pumped(ps: seq<Bytes>, bufsize: nat, r: Receiver, t: Receiver) {
    && r.done <= t.done <= |ps| && r.got <= t.got <= Size(ps, |ps|) && (r.got < t.got ==> r.cb)
    && t.got - Size(ps, r.done) <= bufsize && Size(ps, t.done) <= t.got
    && if t.cb then t.done == |ps| || t.got < Size(ps, t.done + 1) else r.done < t.done
  }

  /** Any reads and pauses, in any order. */
  predicate Reception(ps: seq<Bytes>, bufsize: nat, b: seq<Receiver>) {
    && b != [] && b[0] == Receiver(0, 0, false)
    && forall i :: 0 < i < |b| ==> b[i] == b[i - 1].(cb := false) || Pumped(ps, bufsize, b[i - 1], b[i])
  }

  /** Every packet is four bytes shorter than the sender may make it, and none is so short that
      `pktsize` bytes of those after it fit into the buffer behind it. */
  ghost predicate Fits(ps: seq<Bytes>, pktsize: nat, bufsize: nat)
    requires forall i :: 0 <= i < |ps| ==> |ps[i]| < LAST
  {
    && (forall i :: 0 <= i < |ps| ==> |ps[i]| + 4 <= pktsize)
    && (forall i :: 0 <= i < |ps| && |ps[i]| + 4 + pktsize <= bufsize ==> |Frames(ps[i + 1..])| < pktsize)
  }

  lemma AfterPacket(ps: seq<Bytes>, i: nat)
    requires i < |ps| && forall j :: 0 <= j < |ps| ==> |ps[j]| < LAST
    ensures |Frames(ps[i + 1..])| == Size(ps, |ps|) - Size(ps, i + 1)
  {
    hide Frames;
    SizeIs(ps, |ps|);
    SizeIs(ps, i + 1);
    assert ps[..|ps|] == ps && ps == ps[..i + 1] + ps[i + 1..];
    FramesJoin(ps[..i + 1], ps[i + 1..]);
  }

  lemma {:induction false} FramesJoin(ps: seq<Bytes>, qs: seq<Bytes>)
    requires forall i :: 0 <= i < |ps + qs| ==> |(ps + qs)[i]| < LAST
    requires (forall i :: 0 <= i < |ps| ==> |ps[i]| < LAST) && forall i :: 0 <= i < |qs| ==> |qs[i]| < LAST
    ensures |Frames(ps + qs)| == |Frames(ps)| + |Frames(qs)|
  {
    hide Frame;
    if ps == [] {
      assert ps + qs == qs;
    } else {
      assert (ps + qs)[1..] == ps[1..] + qs;
      FramesJoin(ps[1..], qs);
    }
  }

  /** After every call of callgetpkt less than `pktsize` bytes stay buffered. */
  lemma PumpedBelow(ps: seq<Bytes>, pktsize: nat, bufsize: nat, r: Receiver, t: Receiver)
    requires 0 < pktsize < LAST && Sendable(ps, pktsize) && Fits(ps, pktsize, bufsize)
    requires Pumped(ps, bufsize, r, t)
    ensures Buffered(ps, t) < pktsize
  {
    hide Frames;
    if !t.cb {
      SizeGrows(ps, r.done, t.done - 1);
      AfterPacket(ps, t.done - 1);
    }
  }

  lemma {:induction false} ReceptionBelow(ps: seq<Bytes>, pktsize: nat, bufsize: nat, b: seq<Receiver>, i: nat)
    requires 0 < pktsize < LAST && Sendable(ps, pktsize) && Fits(ps, pktsize, bufsize)
    requires Reception(ps, bufsize, b) && i < |b|
    ensures b[i].done <= |ps| && Buffered(ps, b[i]) < pktsize
  {
    hide Fits, Pumped;
    if i > 0 {
      ReceptionBelow(ps, pktsize, bufsize, b, i - 1);
      if Pumped(ps, bufsize, b[i - 1], b[i]) {
        PumpedWithin(ps, bufsize, b[i - 1], b[i]);
        PumpedBelow(ps, pktsize, bufsize, b[i - 1], b[i]);
      }
    }
  }

  lemma PumpedWithin(ps: seq<Bytes>, bufsize: nat, r: Receiver, t: Receiver)
    requires Pumped(ps, bufsize, r, t)
    ensures t.done <= |ps|
  {
  }

  /** A receiver that got the first `i` packets one by one. */
  lemma {:induction false} OneByOne(ps: seq<Bytes>, bufsize: nat, i: nat) returns (b: seq<Receiver>)
    requires i <= |ps| && forall j :: 0 <= j < |ps| ==> |ps[j]| + 4 <= bufsize
    ensures Reception(ps, bufsize, b) && b[|b| - 1] == Receiver(Size(ps, i), i, true)
  {
    SizeGrows(ps, i, |ps|);
    if i == 0 {
      b := [Receiver(0, 0, false), Receiver(0, 0, true)];
      assert |ps| > 0 ==> Size(ps, 1) == |ps[0]| + 4;
    } else {
      b := OneByOne(ps, bufsize, i - 1);
      b := b + [Receiver(Size(ps, i), i, true)];
      assert i < |ps| ==> Size(ps, i) < Size(ps, i + 1);
    }
  }

  /** Packets that do not fit leave `pktsize` bytes buffered in some reception. */
  lemma Overflows(ps: seq<Bytes>, pktsize: nat, bufsize: nat) returns (b: seq<Receiver>)
    requires 0 < pktsize < LAST && Sendable(ps, pktsize) && pktsize + 4 <= bufsize && !Fits(ps, pktsize, bufsize)
    ensures Reception(ps, bufsize, b) && b[|b| - 1].done <= |ps| && Buffered(ps, b[|b| - 1]) >= pktsize
  {
    hide Frames;
    if long :| 0 <= long < |ps| && |ps[long]| + 4 > pktsize {
      b := OneByOne(ps, bufsize, long);
      SizeGrows(ps, long + 1, |ps|);
      b := b + [Receiver(Size(ps, long) + |ps[long]| + 3, long, true)];
    } else {
      var i :| 0 <= i < |ps| && |ps[i]| + 4 + pktsize <= bufsize && |Frames(ps[i + 1..])| >= pktsize;
      AfterPacket(ps, i);
      b := OneByOne(ps, bufsize, i);
      b := b + [Receiver(Size(ps, i + 1) + pktsize, i + 1, false)];
    }
  }

  /** The receiver's assertion that less than `pktsize` bytes stay buffered holds under every
      chunking and pausing exactly when the packets fit. */
  lemma AssertionIff(ps: seq<Bytes>, pktsize: nat, bufsize: nat)
    requires 0 < pktsize < LAST && Sendable(ps, pktsize) && pktsize + 4 <= bufsize
    ensures (forall b: seq<Receiver> :: Reception(ps, bufsize, b) ==> b[|b| - 1].done <= |ps| && Buffered(ps, b[|b| - 1]) < pktsize)
            <==> Fits(ps, pktsize, bufsize)
  {
    hide Fits, Buffered;
    if Fits(ps, pktsize, bufsize) {
      forall b: seq<Receiver> | Reception(ps, bufsize, b)
        ensures b[|b| - 1].done <= |ps| && Buffered(ps, b[|b| - 1]) < pktsize
      {
        ReceptionBelow(ps, pktsize, bufsize, b, |b| - 1);
      }
    } else {
      var b := Overflows(ps, pktsize, bufsize);
    }
  }

  /** The first `i` packets come in one by one, each in one read. */
  method Feed(s: Stream, ps: seq<Bytes>, i: nat)
    requires s.Valid() && s.open && s.cb && !s.closed && s.received == [] && s.delivered == []
    requires Sendable(ps, s.pktsize) && i <= |ps| && (s.habit.Steady? || s.Expects(i))
    modifies s
    ensures s.Valid() && s.open && s.cb && !s.closed
    ensures s.received == Frames(ps[..i]) && s.delivered == ps[..i] && s.pktbuf == []
  {
    hide Look, Frames, Frame;
    assert ps[..0] == [];
    NoFrames(s);
    for j := 0 to i
      invariant s.Valid() && s.open && s.cb && !s.closed
      invariant s.received == Frames(ps[..j]) && s.delivered == ps[..j] && s.pktbuf == []
    {
      ghost var qs := ps[..j + 1];
      assert qs == ps[..j] + [ps[j]];
      FramesAppend(ps[..j], ps[j]);
      FrameSize(ps[j]);
      s.Input(Chunk(Frame(ps[j])), qs);
      s.InOrder(qs);
      s.Tracks(qs);
    }
  }

  /** The bytes that make `ps` overflow a receiver: all but the last one of a long packet, or a
      short packet and `pktsize` bytes after it. */
  lemma Tail(ps: seq<Bytes>, i: nat, n: nat)
    requires i < |ps| && (forall j :: 0 <= j < |ps| ==> |ps[j]| < LAST) && Size(ps, i) + n <= Size(ps, |ps|)
    ensures Size(ps, i) + n <= |Frames(ps)|
    ensures Frames(ps[..i]) + Frames(ps)[Size(ps, i)..Size(ps, i) + n] <= Frames(ps)
  {
    hide Frames;
    SizeIs(ps, i);
    SizeIs(ps, |ps|);
    assert ps[..|ps|] == ps && ps == ps[..i] + ps[i..];
    FramesPrefix(ps[..i], ps[i..]);
    Slices(Frames(ps), Frames(ps[..i]), n);
  }

  lemma Slices(all: Bytes, first: Bytes, n: nat)
    requires first <= all && |first| + n <= |all|
    ensures first + all[|first|..|first| + n] <= all
  {
    var k := |first|;
    assert all[..k] + all[k..k + n] == all[..k + n];
  }

  lemma {:induction false} FramesPrefix(ps: seq<Bytes>, qs: seq<Bytes>)
    requires forall i :: 0 <= i < |ps + qs| ==> |(ps + qs)[i]| < LAST
    requires forall i :: 0 <= i < |ps| ==> |ps[i]| < LAST
    ensures Frames(ps) <= Frames(ps + qs)
  {
    hide Frame;
    if ps != [] {
      assert (ps + qs)[1..] == ps[1..] + qs;
      FramesPrefix(ps[1..], qs);
    }
  }

  /** Packets that do not fit make a receiver fail the assertion: it has at least `pktsize`
      bytes buffered after callgetpkt. Either a packet is within four bytes of `pktsize`, and
      all but its last byte has come in; or the callback unset itself on a short packet that
      came with `pktsize` bytes more. */
  method Overfull(ps: seq<Bytes>, pktsize: nat, bufsize: nat) returns (s: Stream)
    requires 0 < pktsize < LAST && Sendable(ps, pktsize) && pktsize + 4 <= bufsize && !Fits(ps, pktsize, bufsize)
    ensures s.Valid() && s.open && s.From(ps) && s.pktsize == pktsize && s.bufsize == bufsize
    ensures |s.pktbuf| >= pktsize
  {
    hide Look, Frames, Frame;
    if long :| 0 <= long < |ps| && |ps[long]| + 4 > pktsize {
      s := new Stream(pktsize, bufsize, Steady);
      SizeGrows(ps, long + 1, |ps|);
      LastRead(s, ps, long, |ps[long]| + 3);
    } else {
      var i :| 0 <= i < |ps| && |ps[i]| + 4 + pktsize <= bufsize && |Frames(ps[i + 1..])| >= pktsize;
      AfterPacket(ps, i);
      s := new Stream(pktsize, bufsize, Unsets(i + 1));
      LastRead(s, ps, i, |ps[i]| + 4 + pktsize);
    }
  }

  /** The first `i` packets come in one by one, and then `n` bytes in one read. */
  method LastRead(s: Stream, ps: seq<Bytes>, i: nat, n: nat)
    requires s.Valid() && s.open && !s.closed && s.received == [] && s.delivered == []
    requires Sendable(ps, s.pktsize) && i < |ps| && 0 < n <= s.bufsize && Size(ps, i) + n <= Size(ps, |ps|)
    requires if n < |ps[i]| + 4 then s.habit.Steady? else s.habit == Unsets(i + 1)
    modifies s
    ensures s.Valid() && s.open && s.From(ps)
    ensures |s.pktbuf| == if n < |ps[i]| + 4 then n else n - (|ps[i]| + 4)
  {
    hide Look, Frames, Frame;
    NoFrames(s);
    Tail(ps, i, n);
    s.SetRcb(true, []);
    Feed(s, ps, i);
    var k := Size(ps, i);
    s.Input(Chunk(Frames(ps)[k..k + n]), ps);
    SizeIs(ps, i);
    s.Tracks(ps);
    if i < |s.delivered| {
      SizeGrows(ps, i + 1, |s.delivered|);
    }
  }

  lemma NoFrames(s: Stream)
    requires s.Valid() && s.open && s.received == [] && s.delivered == []
    ensures s.received == Frames([]) && s.pktbuf == []
  {
  }

  lemma FrameSize(p: Bytes)
    requires |p| < LAST
    ensures |Frame(p)| == |p| + 4
  {
    hide PutInt;
  }

  /** The bytes left when all of a stream is in are the frames of the packets to come. */
  lemma {:induction false} AllThere(ds: seq<Bytes>, buf: Bytes, ps: seq<Bytes>, pktsize: nat)
    requires pktsize < LAST && Sendable(ds, pktsize) && Sendable(ps, pktsize) && ds <= ps
    requires Frames(ds) + buf == Frames(ps)
    ensures buf == Frames(ps[|ds|..])
  {
    if ds == [] {
      assert ps[0..] == ps && [] + buf == buf;
    } else {
      var f := Frame(ds[0]);
      assert Frames(ds) + buf == f + (Frames(ds[1..]) + buf);
      assert (f + (Frames(ds[1..]) + buf))[|f|..] == Frames(ds[1..]) + buf;
      assert (f + Frames(ps[1..]))[|f|..] == Frames(ps[1..]);
      AllThere(ds[1..], buf, ps[1..], pktsize);
      assert ps[1..][|ds| - 1..] == ps[|ds|..];
    }
  }

  /** Delivering the packet at the cursor accounts for its bytes. */
  lemma SplitAt(ds: seq<Bytes>, buf: Bytes, v: nat, cp: nat, pktsize: nat)
    requires pktsize < LAST && Sendable(ds, pktsize) && v <= cp <= |buf|
    requires var h := Look(buf[v..], pktsize); h.Packet? && cp == v + 4 + h.len
    ensures Sendable(ds + [buf[v + 4..cp]], pktsize)
    ensures Frames(ds) + buf[v..] == Frames(ds + [buf[v + 4..cp]]) + buf[cp..]
  {
    var b, p := buf[v..], buf[v + 4..cp];
    SplitFrame(b, pktsize);
    assert b[4..4 + |p|] == p && b[4 + |p|..] == buf[cp..];
    FramesAppend(ds, p);
    assert Frames(ds) + (Frame(p) + buf[cp..]) == Frames(ds) + Frame(p) + buf[cp..];
  }

  /** A whole packet at the cursor is the frame of its bytes. */
  lemma SplitFrame(b: Bytes, pktsize: nat)
    requires pktsize < LAST && Look(b, pktsize).Packet?
    ensures var len := Look(b, pktsize).len; len <= pktsize && b == Frame(b[4..4 + len]) + b[4 + len..]
  {
    hide PutInt, GetInt;
    var len := Look(b, pktsize).len;
    PutGet(b);
    assert b == b[..4] + b[4..4 + len] + b[4 + len..];
  }
}
