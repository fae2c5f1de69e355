/** A peer connection as a byte channel: how messages are framed, what any chunking of the bytes makes of
    them, and why the receiver gets the messages pushed, in order and whole. */
module Channel {
  import opened Basics
  import opened BigNum
  import Script

  const HEADER_SIZE: nat := 24
  const COMMAND_SIZE: nat := 12
  const MESSAGE_SIZE_OFFSET: nat := 16
  const CHECKSUM_OFFSET: nat := 20
  const MAX_SIZE: nat := 0x0200_0000

  type Word = s: seq<byte> | |s| == 4 witness [0, 0, 0, 0]

  /** The network's magic bytes and the first four bytes of the hash. */
  datatype Wire = Wire(start: Word, checksum: seq<byte> -> Word)

  // ----- frames

  /** A command name as it is copied into its field: cut off, or filled up with zeros. */
  function CommandField(command: seq<byte>): (r: seq<byte>)
    ensures |r| == COMMAND_SIZE
  {
    if |command| >= COMMAND_SIZE then command[..COMMAND_SIZE]
    else command + seq(COMMAND_SIZE - |command|, i => 0)
  }

  function Header(wire: Wire, command: seq<byte>, nSize: nat, checksum: Word): (r: seq<byte>)
    ensures |r| == HEADER_SIZE
  {
    wire.start + CommandField(command) + Script.LE(nSize, 4) + checksum
  }

  /** A message on the wire; the size field has 32 bits. */
  function Frame(wire: Wire, command: seq<byte>, payload: seq<byte>): (r: seq<byte>)
    ensures |r| == HEADER_SIZE + |payload|
  {
    Header(wire, command, |payload|, wire.checksum(payload)) + payload
  }

  function SizeField(hdr: seq<byte>): nat
    requires |hdr| >= HEADER_SIZE
  {
    Script.FromLE(hdr[MESSAGE_SIZE_OFFSET..CHECKSUM_OFFSET])
  }

  /** A sequence of bytes whose header gives its own length. */
  predicate Framed(f: seq<byte>) {
    |f| >= HEADER_SIZE && SizeField(f) == |f| - HEADER_SIZE
  }

  /** Frames of messages below 4 GiB give their own length. */
  lemma FrameFramed(wire: Wire, command: seq<byte>, payload: seq<byte>)
    requires |payload| < 0x1_0000_0000
    ensures Framed(Frame(wire, command, payload)) && Frame(wire, command, payload)[HEADER_SIZE..] == payload
  {
    var f := Frame(wire, command, payload);
    assert f[MESSAGE_SIZE_OFFSET..CHECKSUM_OFFSET] == Script.LE(|payload|, 4);
    Script.LERoundTrip(|payload|, 4);
  }

  /** A frame byte by byte: four bytes that start it, the command in twelve, cut or padded with zeros, four bytes of
      size, lowest first, four of checksum, and the payload. */
  lemma FrameLayout(wire: Wire, command: seq<byte>, payload: seq<byte>)
    requires |payload| < 0x1_0000_0000
    ensures var f := Frame(wire, command, payload);
      && |f| == 24 + |payload| && f[..4] == wire.start
      && (forall i :: 0 <= i < 12 ==> f[4 + i] == if i < |command| then command[i] else 0)
      && Number(f[16], f[17], f[18], f[19]) == |payload|
      && f[20..24] == wire.checksum(payload) && f[24..] == payload
  {
    hide Script.LE;
    var f := Frame(wire, command, payload);
    FrameFramed(wire, command, payload);
    SizeFieldIs(f);
    var size := Script.LE(|payload|, 4);
    assert f == wire.start + CommandField(command) + size + wire.checksum(payload) + payload;
    assert f[..4] == wire.start && f[20..24] == wire.checksum(payload);
    forall i | 0 <= i < 12
      ensures f[4 + i] == if i < |command| then command[i] else 0
    {
      assert f[4 + i] == CommandField(command)[i];
    }
  }

  /** Four bytes, lowest first. */
  function Number(a: int, b: int, c: int, d: int): int { a + 256 * b + 65_536 * c + 16_777_216 * d }

  /** The size field is the number in bytes 16 to 19, lowest first. */
  lemma SizeFieldIs(hdr: seq<byte>)
    requires |hdr| >= 24
    ensures SizeField(hdr) == Number(hdr[16], hdr[17], hdr[18], hdr[19])
  {
    assert hdr[16..20] == [hdr[16], hdr[17], hdr[18], hdr[19]];
    FourBytesValue(hdr[16], hdr[17], hdr[18], hdr[19]);
  }

  lemma FourBytesValue(a: byte, b: byte, c: byte, d: byte)
    ensures Script.FromLE([a, b, c, d]) == Number(a, b, c, d)
  {
    assert [a, b, c, d][1..] == [b, c, d] && [b, c, d][1..] == [c, d] && [c, d][1..] == [d];
    Script.FromLEByte(d);
    assert Script.FromLE([c, d]) == c as int + 256 * Script.FromLE([d]);
    assert Script.FromLE([b, c, d]) == b as int + 256 * Script.FromLE([c, d]);
  }

  function Flat(frames: seq<seq<byte>>): seq<byte> {
    if frames == [] then [] else frames[0] + Flat(frames[1..])
  }

  lemma {:induction false} FlatAppend(a: seq<seq<byte>>, b: seq<seq<byte>>)
    ensures Flat(a + b) == Flat(a) + Flat(b)
  {
    if a == [] {
      assert a + b == b;
    } else {
      assert (a + b)[0] == a[0] && (a + b)[1..] == a[1..] + b;
      FlatAppend(a[1..], b);
    }
  }

  // ----- receiving, byte by byte

  /** The bytes received of a message. */
  datatype Msg = Msg(hdr: seq<byte>, data: seq<byte>) {
    predicate Complete() {
      |hdr| == HEADER_SIZE && |data| == SizeField(hdr)
    }
  }

  datatype Rx = Rx(msgs: seq<Msg>, failed: bool)

  /** With a message that can take the next byte. */
  function Opened(rx: Rx): Rx {
    if rx.msgs == [] || rx.msgs[|rx.msgs| - 1].Complete() then rx.(msgs := rx.msgs + [Msg([], [])]) else rx
  }

  function WithLast(rx: Rx, m: Msg): Rx
    requires rx.msgs != []
  {
    rx.(msgs := rx.msgs[..|rx.msgs| - 1] + [m])
  }

  function Absorb(m: Msg, b: byte): Msg {
    if |m.hdr| < HEADER_SIZE then m.(hdr := m.hdr + [b]) else m.(data := m.data + [b])
  }

  /** A message whose header has arrived and announces too much. */
  predicate Oversize(m: Msg) {
    |m.hdr| == HEADER_SIZE && SizeField(m.hdr) > MAX_SIZE
  }

  function FeedByte(rx: Rx, b: byte): Rx {
    if rx.failed then rx
    else
      var o := Opened(rx);
      var m := Absorb(o.msgs[|o.msgs| - 1], b);
      WithLast(o, m).(failed := Oversize(m))
  }

  /** The receiver gives up at the byte that completes a header with a size above 32 MiB, and at no other. */
  lemma GivesUpWhen(rx: Rx, b: byte)
    requires !rx.failed
    ensures FeedByte(rx, b).msgs != []
    ensures var m := FeedByte(rx, b).msgs[|FeedByte(rx, b).msgs| - 1];
      FeedByte(rx, b).failed ==
        (|m.hdr| == 24 && Number(m.hdr[16], m.hdr[17], m.hdr[18], m.hdr[19]) > 33_554_432)
  {
    hide SizeField;
    var m := FeedByte(rx, b).msgs[|FeedByte(rx, b).msgs| - 1];
    if |m.hdr| == 24 { SizeFieldIs(m.hdr); }
  }

  function Feed(rx: Rx, bytes: seq<byte>): Rx
    decreases |bytes|
  {
    if bytes == [] then rx else Feed(FeedByte(rx, bytes[0]), bytes[1..])
  }

  /** Chunks do not matter: receiving a then b is receiving a + b. */
  lemma {:induction false} FeedAppend(rx: Rx, a: seq<byte>, b: seq<byte>)
    ensures Feed(Feed(rx, a), b) == Feed(rx, a + b)
    decreases |a|
  {
    if a == [] {
      assert a + b == b;
    } else {
      assert (a + b)[0] == a[0] && (a + b)[1..] == a[1..] + b;
      FeedAppend(FeedByte(rx, a[0]), a[1..], b);
    }
  }

  lemma {:induction false} FeedFailed(rx: Rx, bytes: seq<byte>)
    requires rx.failed
    ensures Feed(rx, bytes) == rx
    decreases |bytes|
  {
    if bytes != [] { FeedFailed(rx, bytes[1..]); }
  }

  // ----- a whole chunk at once

  lemma FeedOpened(rx: Rx, bytes: seq<byte>)
    requires !rx.failed && bytes != []
    ensures Feed(rx, bytes) == Feed(Opened(rx), bytes)
  {
  }

  lemma ReplaceLast(rx: Rx, m: Msg, m': Msg)
    requires rx.msgs != []
    ensures WithLast(WithLast(rx, m), m') == WithLast(rx, m')
    ensures WithLast(rx, m).msgs != [] && WithLast(rx, m).msgs[|rx.msgs| - 1] == m
      && |WithLast(rx, m).msgs| == |rx.msgs|
  {
  }

  /** Bytes that stay within the header of the last message. */
  lemma {:induction false} FeedHeader(rx: Rx, m: Msg, bytes: seq<byte>)
    requires !rx.failed && rx.msgs != [] && m == rx.msgs[|rx.msgs| - 1] && m.data == []
    requires |m.hdr| < HEADER_SIZE && 0 < |bytes| <= HEADER_SIZE - |m.hdr|
    ensures var n := m.(hdr := m.hdr + bytes); Feed(rx, bytes) == WithLast(rx, n).(failed := Oversize(n))
    decreases |bytes|
  {
    var n := m.(hdr := m.hdr + [bytes[0]]);
    var r := FeedByte(rx, bytes[0]);
    assert r == WithLast(rx, n).(failed := Oversize(n));
    if |bytes| == 1 {
      assert bytes == [bytes[0]];
      assert Feed(r, []) == r;
    } else {
      ReplaceLast(rx, n, n.(hdr := n.hdr + bytes[1..]));
      FeedHeader(r, n, bytes[1..]);
      assert n.hdr + bytes[1..] == m.hdr + bytes;
    }
  }

  /** Bytes that stay within the data of the last message. */
  lemma {:induction false} FeedData(rx: Rx, m: Msg, bytes: seq<byte>)
    requires !rx.failed && rx.msgs != [] && m == rx.msgs[|rx.msgs| - 1]
    requires |m.hdr| == HEADER_SIZE && !Oversize(m) && |bytes| <= SizeField(m.hdr) - |m.data|
    ensures Feed(rx, bytes) == WithLast(rx, m.(data := m.data + bytes))
    decreases |bytes|
  {
    if bytes == [] {
      assert m.data + bytes == m.data;
    } else {
      var n := m.(data := m.data + [bytes[0]]);
      var r := FeedByte(rx, bytes[0]);
      assert r == WithLast(rx, n);
      ReplaceLast(rx, n, n.(data := n.data + bytes[1..]));
      FeedData(r, n, bytes[1..]);
      assert n.data + bytes[1..] == m.data + bytes;
    }
  }

  /** How much a message can still take before its header or its data is full. */
  function Room(m: Msg): nat {
    if |m.hdr| < HEADER_SIZE then HEADER_SIZE - |m.hdr|
    else if SizeField(m.hdr) > |m.data| then SizeField(m.hdr) - |m.data| else 0
  }

  function Grown(m: Msg, bytes: seq<byte>): Msg {
    if |m.hdr| < HEADER_SIZE then m.(hdr := m.hdr + bytes) else m.(data := m.data + bytes)
  }

  /** A chunk that fits goes into the last message in one piece. */
  lemma FeedChunk(rx: Rx, m: Msg, bytes: seq<byte>)
    requires !rx.failed && rx.msgs != [] && m == rx.msgs[|rx.msgs| - 1]
    requires |m.hdr| <= HEADER_SIZE && !Oversize(m) && (|m.hdr| < HEADER_SIZE ==> m.data == [])
      && 0 < |bytes| <= Room(m)
    ensures var n := Grown(m, bytes); Feed(rx, bytes) == WithLast(rx, n).(failed := Oversize(n))
  {
    hide Feed;
    if |m.hdr| < HEADER_SIZE {
      FeedHeader(rx, m, bytes);
    } else {
      FeedData(rx, m, bytes);
    }
  }

  /** A chunk of which the last message takes what it can. */
  lemma FeedSome(rx: Rx, m: Msg, pch: seq<byte>)
    requires !rx.failed && Opened(rx).msgs[|Opened(rx).msgs| - 1] == m
    requires |m.hdr| <= HEADER_SIZE && !Oversize(m) && (|m.hdr| < HEADER_SIZE ==> m.data == []) && Room(m) > 0
      && pch != []
    ensures var k := Min(Room(m), |pch|);
      var n := Grown(m, pch[..k]);
      if Oversize(n) then Feed(rx, pch) == WithLast(Opened(rx), n).(failed := true)
      else Feed(rx, pch[..k]) == WithLast(Opened(rx), n)
  {
    hide Feed, Oversize, WithLast, Grown, Room;
    var k := Min(Room(m), |pch|);
    var n := Grown(m, pch[..k]);
    FeedChunk(Opened(rx), m, pch[..k]);
    FeedOpened(rx, pch[..k]);
    WithLastOk(Opened(rx), n);
    if Oversize(n) {
      FeedAppend(rx, pch[..k], pch[k..]);
      FeedFailed(WithLast(Opened(rx), n).(failed := true), pch[k..]);
      assert pch == pch[..k] + pch[k..];
    }
  }

  lemma WithLastOk(rx: Rx, m: Msg)
    requires rx.msgs != []
    ensures WithLast(rx, m).failed == rx.failed
  {
  }

  // ----- what arrives

  function Whole(f: seq<byte>): Msg
    requires |f| >= HEADER_SIZE
  {
    Msg(f[..HEADER_SIZE], f[HEADER_SIZE..])
  }

  predicate TooBig(f: seq<byte>) { |f| > HEADER_SIZE + MAX_SIZE }

  /** The first n bytes of a frame. */
  function Part(f: seq<byte>, n: nat): Msg
    requires n <= |f|
  {
    if n < HEADER_SIZE then Msg(f[..n], []) else if TooBig(f) then Msg(f[..HEADER_SIZE], [])
      else Msg(f[..HEADER_SIZE], f[HEADER_SIZE..n])
  }

  /** The messages of the first n bytes of the frames, cut along the frames. */
  function Cut(frames: seq<seq<byte>>, n: nat): Rx
    requires n <= |Flat(frames)|
  {
    if n == 0 then Rx([], false)
    else if n < |frames[0]| || TooBig(frames[0]) then
      var m := if n < |frames[0]| then n else |frames[0]|;
      Rx([Part(frames[0], m)], TooBig(frames[0]) && m >= HEADER_SIZE)
    else
      var r := Cut(frames[1..], n - |frames[0]|);
      Rx([Part(frames[0], |frames[0]|)] + r.msgs, r.failed)
  }

  predicate Closed(done: seq<Msg>) {
    done == [] || done[|done| - 1].Complete()
  }

  lemma SameSize(f: seq<byte>)
    requires |f| >= HEADER_SIZE
    ensures SizeField(f[..HEADER_SIZE]) == SizeField(f)
  {
    assert f[..HEADER_SIZE][MESSAGE_SIZE_OFFSET..CHECKSUM_OFFSET] == f[MESSAGE_SIZE_OFFSET..CHECKSUM_OFFSET];
  }

  /** The header of a frame, or a part of it, at a message boundary. */
  lemma FeedFrameHeader(done: seq<Msg>, f: seq<byte>, k: nat)
    requires Closed(done) && 0 < k <= HEADER_SIZE && k <= |f|
    ensures var m := Msg(f[..k], []); Feed(Rx(done, false), f[..k]) == Rx(done + [m], Oversize(m))
  {
    hide Feed, Oversize;
    var rx := Rx(done + [Msg([], [])], false);
    FeedOpened(Rx(done, false), f[..k]);
    assert Opened(Rx(done, false)) == rx;
    FeedHeader(rx, Msg([], []), f[..k]);
    assert [] + f[..k] == f[..k];
    assert WithLast(rx, Msg(f[..k], [])) == Rx(done + [Msg(f[..k], [])], false);
  }

  lemma FeedFrameData(done: seq<Msg>, f: seq<byte>, n: nat)
    requires Framed(f) && !TooBig(f) && HEADER_SIZE <= n <= |f|
    ensures Feed(Rx(done + [Msg(f[..HEADER_SIZE], [])], false), f[HEADER_SIZE..n]) == Rx(done + [Part(f, n)], false)
  {
    hide Feed;
    SameSize(f);
    var h := Msg(f[..HEADER_SIZE], []);
    var r := Rx(done + [h], false);
    FeedData(r, h, f[HEADER_SIZE..n]);
    assert [] + f[HEADER_SIZE..n] == f[HEADER_SIZE..n];
    assert WithLast(r, Part(f, n)) == Rx(done + [Part(f, n)], false);
  }

  /** A frame that starts at a message boundary. */
  lemma FeedFrame(done: seq<Msg>, f: seq<byte>, n: nat)
    requires Closed(done) && Framed(f) && 0 < n <= |f|
    ensures Feed(Rx(done, false), f[..n]) == Rx(done + [Part(f, n)], TooBig(f) && n >= HEADER_SIZE)
  {
    hide Feed, Closed;
    if n < HEADER_SIZE {
      FeedFrameHeader(done, f, n);
    } else {
      FeedFrameHeader(done, f, HEADER_SIZE);
      SameSize(f);
      assert f[..n] == f[..HEADER_SIZE] + f[HEADER_SIZE..n];
      FeedAppend(Rx(done, false), f[..HEADER_SIZE], f[HEADER_SIZE..n]);
      if TooBig(f) {
        FeedFailed(Rx(done + [Msg(f[..HEADER_SIZE], [])], true), f[HEADER_SIZE..n]);
      } else {
        FeedFrameData(done, f, n);
      }
    }
  }

  lemma WholeComplete(f: seq<byte>)
    requires Framed(f)
    ensures Whole(f).Complete()
  {
    assert f[..HEADER_SIZE][MESSAGE_SIZE_OFFSET..CHECKSUM_OFFSET] == f[MESSAGE_SIZE_OFFSET..CHECKSUM_OFFSET];
  }

  /** The receiver cuts the bytes where the sender's frames end, and stops exactly at a frame that is too big. */
  lemma {:induction false} FeedCuts(done: seq<Msg>, frames: seq<seq<byte>>, n: nat)
    requires Closed(done) && n <= |Flat(frames)| && forall i :: 0 <= i < |frames| ==> Framed(frames[i])
    ensures var r := Cut(frames, n); Feed(Rx(done, false), Flat(frames)[..n]) == Rx(done + r.msgs, r.failed)
    decreases |frames|
  {
    hide Feed, Part, Framed, Msg.Complete;
    var bytes := Flat(frames)[..n];
    if n == 0 {
      assert bytes == [];
      FeedNothing(Rx(done, false));
      assert done + [] == done;
    } else {
      var f, more := frames[0], frames[1..];
      FramedSize(f);
      var k := if n < |f| then n else |f|;
      FeedFrame(done, f, k);
      assert bytes == f[..k] + Flat(more)[..n - k];
      FeedAppend(Rx(done, false), f[..k], Flat(more)[..n - k]);
      var r := Rx(done + [Part(f, k)], TooBig(f) && k >= HEADER_SIZE);
      if TooBig(f) && k >= HEADER_SIZE {
        FeedFailed(r, Flat(more)[..n - k]);
      } else if n < |f| {
        assert Flat(more)[..n - k] == [];
        FeedNothing(r);
      } else {
        WholeComplete(f);
        PartWhole(f);
        FeedCuts(done + [Part(f, k)], more, n - k);
        var c := Cut(more, n - k);
        assert done + [Part(f, k)] + c.msgs == done + ([Part(f, k)] + c.msgs);
      }
    }
  }

  lemma FeedNothing(rx: Rx)
    ensures Feed(rx, []) == rx
  {
  }

  lemma FramedSize(f: seq<byte>)
    requires Framed(f)
    ensures |f| >= HEADER_SIZE
  {
  }

  lemma PartWhole(f: seq<byte>)
    requires |f| >= HEADER_SIZE && !TooBig(f)
    ensures Part(f, |f|) == Whole(f)
  {
  }

  // ----- what the cut means

  /** The messages received are the frames sent, in order, byte for byte; only the last can be incomplete. */
  predicate Delivers(frames: seq<seq<byte>>, msgs: seq<Msg>) {
    && |msgs| <= |frames|
    && (forall i :: 0 <= i < |msgs| ==> |frames[i]| >= HEADER_SIZE)
    && (forall i :: 0 <= i < |msgs| - 1 ==> msgs[i] == Whole(frames[i]))
    && (msgs != [] ==>
        var m, f := msgs[|msgs| - 1], frames[|msgs| - 1];
        m.hdr + m.data <= f && (m.Complete() ==> m == Whole(f)))
  }

  lemma PartDelivers(f: seq<byte>, n: nat)
    requires Framed(f) && n <= |f|
    ensures var m := Part(f, n); m.hdr + m.data <= f && (m.Complete() ==> m == Whole(f))
  {
    var m := Part(f, n);
    if n >= HEADER_SIZE {
      assert m.hdr + m.data == f[..HEADER_SIZE + |m.data|];
      assert SizeField(m.hdr) == |f| - HEADER_SIZE by { WholeComplete(f); }
    }
  }

  lemma {:induction false} CutDelivers(frames: seq<seq<byte>>, n: nat)
    requires n <= |Flat(frames)| && forall i :: 0 <= i < |frames| ==> Framed(frames[i])
    ensures Delivers(frames, Cut(frames, n).msgs)
    decreases |frames|
  {
    hide Framed, Part, Msg.Complete;
    if n > 0 {
      var f, more := frames[0], frames[1..];
      FramedSize(f);
      if n < |f| || TooBig(f) {
        PartDelivers(f, if n < |f| then n else |f|);
      } else {
        PartDelivers(f, |f|);
        PartWhole(f);
        CutDelivers(more, n - |f|);
        DeliversMore(frames, Cut(more, n - |f|).msgs);
      }
    }
  }

  lemma DeliversMore(frames: seq<seq<byte>>, msgs: seq<Msg>)
    requires frames != [] && |frames[0]| >= HEADER_SIZE && Delivers(frames[1..], msgs)
    requires Whole(frames[0]).hdr + Whole(frames[0]).data <= frames[0]
    ensures Delivers(frames, [Whole(frames[0])] + msgs)
  {
    hide Whole, Msg.Complete;
    var all := [Whole(frames[0])] + msgs;
    forall i | 0 < i < |all|
      ensures frames[i] == frames[1..][i - 1] && all[i] == msgs[i - 1]
    {
    }
  }

  /** The receiver gives up exactly when the header of a frame that is too big has arrived. */
  lemma {:induction false} CutFails(frames: seq<seq<byte>>, n: nat)
    requires n <= |Flat(frames)| && forall i :: 0 <= i < |frames| ==> Framed(frames[i])
    ensures Cut(frames, n).failed <==>
      exists k :: 0 <= k < |frames| && TooBig(frames[k]) && n >= |Flat(frames[..k])| + HEADER_SIZE
    decreases |frames|
  {
    hide Framed, Part;
    if n == 0 {
    } else {
      var f, more := frames[0], frames[1..];
      FramedSize(f);
      assert frames[..0] == [];
      forall k | 0 < k <= |frames|
        ensures |Flat(frames[..k])| == |f| + |Flat(more[..k - 1])|
      {
        assert frames[..k][1..] == more[..k - 1];
      }
      if n >= |f| && !TooBig(f) {
        CutFails(more, n - |f|);
        FailsShift(frames, n);
      }
    }
  }

  lemma FailsShift(frames: seq<seq<byte>>, n: nat)
    requires frames != [] && !TooBig(frames[0]) && n >= |frames[0]|
    requires forall k :: 0 < k <= |frames| ==> |Flat(frames[..k])| == |frames[0]| + |Flat(frames[1..][..k - 1])|
    ensures
      (exists k :: 0 <= k < |frames[1..]| && TooBig(frames[1..][k])
        && n - |frames[0]| >= |Flat(frames[1..][..k])| + HEADER_SIZE) <==>
      (exists k :: 0 <= k < |frames| && TooBig(frames[k]) && n >= |Flat(frames[..k])| + HEADER_SIZE)
  {
    var more := frames[1..];
    if k :| 0 <= k < |more| && TooBig(more[k]) && n - |frames[0]| >= |Flat(more[..k])| + HEADER_SIZE {
      assert frames[k + 1] == more[k] && |Flat(frames[..k + 1])| == |frames[0]| + |Flat(more[..k])|;
    }
    if k :| 0 <= k < |frames| && TooBig(frames[k]) && n >= |Flat(frames[..k])| + HEADER_SIZE {
      assert more[k - 1] == frames[k] && |Flat(frames[..k])| == |frames[0]| + |Flat(more[..k - 1])|;
    }
  }

  /** When everything has arrived, every message has. */
  lemma {:induction false} CutAll(frames: seq<seq<byte>>)
    requires forall i :: 0 <= i < |frames| ==> Framed(frames[i]) && !TooBig(frames[i])
    ensures var r := Cut(frames, |Flat(frames)|);
      !r.failed && |r.msgs| == |frames| && forall i :: 0 <= i < |frames| ==>
        |frames[i]| >= HEADER_SIZE && r.msgs[i] == Whole(frames[i])
    decreases |frames|
  {
    hide Part, Whole;
    if frames != [] {
      FramedSize(frames[0]);
      PartWhole(frames[0]);
      CutAll(frames[1..]);
    }
  }

  // ----- sending

  /** The messages queued, how much of the first has gone out, and the size of all of them. */
  datatype Out = Out(queue: seq<seq<byte>>, offset: nat, size: int)

  predicate OutGood(o: Out) {
    && o.size == |Flat(o.queue)|
    && (forall i :: 0 <= i < |o.queue| ==> o.queue[i] != [])
    && (if o.queue == [] then o.offset == 0 else o.offset < |o.queue[0]|)
  }

  /** The bytes still to go out. */
  function Pending(o: Out): seq<byte>
    requires OutGood(o)
  {
    if o.queue == [] then [] else o.queue[0][o.offset..] + Flat(o.queue[1..])
  }

  function Queued(o: Out, f: seq<byte>): Out {
    Out(o.queue + [f], o.offset, o.size + |f|)
  }

  /** After n more bytes have gone out. */
  function AfterSend(o: Out, n: nat): Out
    decreases |o.queue|
  {
    if o.queue == [] then o
    else if n < |o.queue[0]| - o.offset then o.(offset := o.offset + n)
    else if o.offset > |o.queue[0]| then o
    else AfterSend(Out(o.queue[1..], 0, o.size - |o.queue[0]|), n - (|o.queue[0]| - o.offset))
  }

  lemma QueuedGood(o: Out, f: seq<byte>)
    requires OutGood(o) && f != []
    ensures OutGood(Queued(o, f)) && Pending(Queued(o, f)) == Pending(o) + f
  {
    FlatAppend(o.queue, [f]);
    assert Flat([f]) == f;
    if o.queue != [] {
      assert (o.queue + [f])[1..] == o.queue[1..] + [f];
      FlatAppend(o.queue[1..], [f]);
    }
  }

  lemma {:induction false} AfterSendGood(o: Out, n: nat)
    requires OutGood(o) && n <= |Pending(o)|
    ensures OutGood(AfterSend(o, n)) && Pending(AfterSend(o, n)) == Pending(o)[n..]
    decreases |o.queue|
  {
    if o.queue != [] {
      var left := |o.queue[0]| - o.offset;
      if n < left {
        assert o.queue[0][o.offset..][n..] == o.queue[0][o.offset + n..];
      } else {
        var t := Out(o.queue[1..], 0, o.size - |o.queue[0]|);
        assert Pending(t) == Flat(o.queue[1..]);
        AfterSendGood(t, n - left);
        assert Pending(o)[n..] == Pending(t)[n - left..];
      }
    }
  }

  lemma {:induction false} AfterSendTwice(o: Out, a: nat, b: nat)
    requires OutGood(o) && a + b <= |Pending(o)|
    ensures AfterSend(AfterSend(o, a), b) == AfterSend(o, a + b)
    decreases |o.queue|
  {
    if o.queue != [] {
      var left := |o.queue[0]| - o.offset;
      if a >= left {
        var t := Out(o.queue[1..], 0, o.size - |o.queue[0]|);
        assert Pending(t) == Flat(o.queue[1..]);
        AfterSendTwice(t, a - left, b);
      }
    }
  }

  /** A message as it is queued: the size and the checksum put into the header it was begun with. */
  function Sealed(wire: Wire, b: seq<byte>): (r: seq<byte>)
    requires |b| >= HEADER_SIZE
  {
    b[..MESSAGE_SIZE_OFFSET] + Script.LE(|b| - HEADER_SIZE, 4) + wire.checksum(b[HEADER_SIZE..]) + b[HEADER_SIZE..]
  }

  lemma SealedIsFrame(wire: Wire, command: seq<byte>, payload: seq<byte>)
    ensures Sealed(wire, Header(wire, command, 0, [0, 0, 0, 0]) + payload) == Frame(wire, command, payload)
  {
    var b := Header(wire, command, 0, [0, 0, 0, 0]) + payload;
    assert b[HEADER_SIZE..] == payload;
    assert b[..MESSAGE_SIZE_OFFSET] == wire.start + CommandField(command);
  }

  // ----- runs

  /** Both ends and what is between them: the messages pushed, the queue, the bytes written to the socket, how
      many of them have arrived, and what the receiver has made of those. */
  datatype Link = Link(pushed: seq<seq<byte>>, out: Out, wire: seq<byte>, arrived: nat, rx: Rx)

  /** A message is queued, the socket takes some bytes, or some bytes arrive. */
  datatype Event = Pushes(command: seq<byte>, payload: seq<byte>) | Sends(n: nat) | Arrives(n: nat)

  function Step(w: Wire, l: Link, e: Event): Link
    requires OutGood(l.out)
  {
    match e
    case Pushes(command, payload) =>
      var f := Frame(w, command, payload);
      l.(pushed := l.pushed + [f], out := Queued(l.out, f))
    case Sends(n) =>
      var k := Min(n, |Pending(l.out)|);
      l.(out := AfterSend(l.out, k), wire := l.wire + Pending(l.out)[..k])
    case Arrives(n) =>
      if l.arrived > |l.wire| then l
      else
        var k := Min(n, |l.wire| - l.arrived);
        l.(arrived := l.arrived + k, rx := Feed(l.rx, l.wire[l.arrived..l.arrived + k]))
  }

  predicate LinkGood(l: Link) {
    && OutGood(l.out) && l.arrived <= |l.wire|
    && Flat(l.pushed) == l.wire + Pending(l.out)
    && l.rx == Feed(Rx([], false), l.wire[..l.arrived])
  }

  lemma StepGood(w: Wire, l: Link, e: Event)
    requires LinkGood(l)
    ensures LinkGood(Step(w, l, e)) && l.pushed <= Step(w, l, e).pushed && l.wire <= Step(w, l, e).wire
  {
    hide OutGood, Feed, Pending, AfterSend, Queued, Flat, Frame;
    match e
    case Pushes(command, payload) =>
      var f := Frame(w, command, payload);
      QueuedGood(l.out, f);
      FlatAppend(l.pushed, [f]);
      FlatOne(f);
      assert l.wire + (Pending(l.out) + f) == l.wire + Pending(l.out) + f;
    case Sends(n) =>
      var k, p := Min(n, |Pending(l.out)|), Pending(l.out);
      AfterSendGood(l.out, k);
      assert l.wire + p == l.wire + p[..k] + p[k..];
      assert (l.wire + p[..k])[..l.arrived] == l.wire[..l.arrived];
    case Arrives(n) =>
      var k := Min(n, |l.wire| - l.arrived);
      FeedAppend(Rx([], false), l.wire[..l.arrived], l.wire[l.arrived..l.arrived + k]);
      assert l.wire[..l.arrived] + l.wire[l.arrived..l.arrived + k] == l.wire[..l.arrived + k];
  }

  lemma FlatOne(f: seq<byte>)
    ensures Flat([f]) == f
  {
  }

  function Start(): Link {
    Link([], Out([], 0, 0), [], 0, Rx([], false))
  }

  function Run(w: Wire, l: Link, events: seq<Event>): (r: Link)
    requires LinkGood(l)
    ensures LinkGood(r)
    decreases |events|
  {
    if events == [] then l
    else
      StepGood(w, l, events[0]);
      Run(w, Step(w, l, events[0]), events[1..])
  }

  /** Messages that a size field can describe. */
  predicate Sizeable(e: Event) { e.Pushes? ==> |e.payload| < 0x1_0000_0000 }

  lemma {:induction false} RunFramed(w: Wire, l: Link, events: seq<Event>)
    requires LinkGood(l) && forall i :: 0 <= i < |l.pushed| ==> Framed(l.pushed[i])
    requires forall i :: 0 <= i < |events| ==> Sizeable(events[i])
    ensures forall i :: 0 <= i < |Run(w, l, events).pushed| ==> Framed(Run(w, l, events).pushed[i])
    decreases |events|
  {
    hide OutGood, Feed, Framed, Frame;
    if events != [] {
      StepGood(w, l, events[0]);
      if events[0].Pushes? {
        assert Sizeable(events[0]);
        FrameFramed(w, events[0].command, events[0].payload);
      }
      RunFramed(w, Step(w, l, events[0]), events[1..]);
    }
  }

  /** Whatever the schedule of pushes, partial sends and chunks, the receiver holds the messages pushed, in
      order and byte for byte, up to where the bytes that have arrived end, or up to the first message that is
      too big, which it refuses once its header is there. */
  lemma RunDelivers(w: Wire, events: seq<Event>)
    requires forall i :: 0 <= i < |events| ==> Sizeable(events[i])
    ensures LinkGood(Start())
    ensures var l := Run(w, Start(), events);
      && l.arrived <= |Flat(l.pushed)| && l.rx == Cut(l.pushed, l.arrived) && Delivers(l.pushed, l.rx.msgs)
      && l.out.size == |Flat(l.out.queue)|
      && (l.rx.failed <==>
          exists k :: 0 <= k < |l.pushed| && TooBig(l.pushed[k]) && l.arrived >= |Flat(l.pushed[..k])| + HEADER_SIZE)
  {
    hide Framed, Cut, Delivers, Feed;
    StartGood();
    var l := Run(w, Start(), events);
    RunFramed(w, Start(), events);
    assert Flat(l.pushed)[..l.arrived] == l.wire[..l.arrived];
    FeedCuts([], l.pushed, l.arrived);
    assert [] + Cut(l.pushed, l.arrived).msgs == Cut(l.pushed, l.arrived).msgs;
    CutDelivers(l.pushed, l.arrived);
    CutFails(l.pushed, l.arrived);
  }

  /** A payload one byte above the limit: it is queued and sent, and the receiver gives up at its header. */
  lemma OversizeRefused(w: Wire)
    ensures LinkGood(Start())
    ensures var l := Run(w, Start(), [Pushes([], seq(MAX_SIZE + 1, i => 0)), Sends(HEADER_SIZE), Arrives(HEADER_SIZE)]);
      |l.pushed| == 1 && l.arrived == HEADER_SIZE && l.rx.failed
  {
    hide Feed, Header, Script.LE, LinkGood, Cut, Delivers;
    StartGood();
    var payload: seq<byte> := seq(MAX_SIZE + 1, i => 0);
    var f := Frame(w, [], payload);
    var events := [Pushes([], payload), Sends(HEADER_SIZE), Arrives(HEADER_SIZE)];
    var l0 := Start();
    var l1 := Step(w, l0, events[0]);
    StepGood(w, l0, events[0]);
    QueuedGood(l0.out, f);
    assert Pending(l1.out) == f && TooBig(f);
    var l2 := Step(w, l1, events[1]);
    StepGood(w, l1, events[1]);
    var l3 := Step(w, l2, events[2]);
    StepGood(w, l2, events[2]);
    assert events[1..] == [events[1], events[2]] && events[1..][1..] == [events[2]] && [events[2]][1..] == [];
    assert Run(w, l3, []) == l3 && Run(w, l2, [events[2]]) == l3 && Run(w, l1, events[1..]) == l3;
    assert Run(w, l0, events) == l3;
    RunDelivers(w, events);
    assert l3.pushed[..0] == [] && Flat([]) == [];
    assert TooBig(l3.pushed[0]);
  }

  lemma StartGood()
    ensures LinkGood(Start())
  {
  }

  /** Nothing is lost: once the queue is empty and every byte has arrived, the receiver holds every message. */
  lemma RunDeliversAll(w: Wire, events: seq<Event>)
    requires forall i :: 0 <= i < |events| ==> Sizeable(events[i])
    requires LinkGood(Start())
    requires var l := Run(w, Start(), events);
      l.out.queue == [] && l.arrived == |l.wire| && forall i :: 0 <= i < |l.pushed| ==> !TooBig(l.pushed[i])
    ensures var l := Run(w, Start(), events);
      |l.rx.msgs| == |l.pushed| && !l.rx.failed && forall i :: 0 <= i < |l.pushed| ==>
        |l.pushed[i]| >= HEADER_SIZE && l.rx.msgs[i] == Whole(l.pushed[i])
  {
    hide Framed, Cut, Delivers, Feed;
    RunDelivers(w, events);
    RunFramed(w, Start(), events);
    var l := Run(w, Start(), events);
    assert l.wire + [] == l.wire;
    CutAll(l.pushed);
  }
}
