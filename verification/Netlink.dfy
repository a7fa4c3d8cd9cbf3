/** The sock_diag response parser (bench/src/network.rs): length-prefixed messages aligned to four
    bytes, each socket message carrying aligned attributes of its own. Framing and meaning are
    specified apart; the loops are their composition. */
module Netlink {
  import opened Wrappers
  import opened Octets

  const HEADER_BYTES: nat := 16
  const ATTRIBUTE_HEADER_BYTES: nat := 4
  const DIAG_MESSAGE_BYTES: nat := 72
  const NLMSG_ERROR: nat := 2
  const NLMSG_DONE: nat := 3
  const SOCK_DIAG_BY_FAMILY: nat := 20
  const INET_DIAG_INFO: nat := 2
  const TCP_ESTABLISHED: byte := 1

  datatype ParseError = MalformedMessage | MalformedAttribute | Truncated | Unsupported | Os(code: int)

  datatype SocketId = SocketId(remoteAddress: Bytes, remotePort: nat, cookie: Bytes, inode: nat)

  datatype TcpCounters = TcpCounters(received: nat, sent: nat, retransmitted: nat)

  type Sockets = map<SocketId, TcpCounters>

  /** The kernel's counters in an information block, or `None` when the block is too short to hold them. */
  type CountersOf = Bytes -> Option<TcpCounters>

  function Align4(length: nat): nat {
    (length + 3) / 4 * 4
  }

  // ----- Framing -----

  /** One framed item: its type and what follows its header. */
  datatype Frame = Frame(kind: nat, payload: Bytes)

  /** The frames from an offset on; `sound` is false when a length is impossible. */
  datatype Framing = Framing(frames: seq<Frame>, sound: bool)

  /** A header starts with the item's whole length; messages hold it in 32 bits, attributes in 16. */
  datatype Layout = Messages | Attributes

  function HeaderBytes(layout: Layout): nat {
    if layout.Messages? then HEADER_BYTES else ATTRIBUTE_HEADER_BYTES
  }

  function ReadLength(layout: Layout, bytes: Bytes, offset: nat): nat
    requires offset + HeaderBytes(layout) <= |bytes|
  {
    if layout.Messages? then ReadU32(bytes, offset) else ReadU16(bytes, offset)
  }

  function ReadKind(layout: Layout, bytes: Bytes, offset: nat): nat
    requires offset + HeaderBytes(layout) <= |bytes|
  {
    if layout.Messages? then ReadU16(bytes, offset + 4) else ReadU16(bytes, offset + 2)
  }

  predicate SoundLength(layout: Layout, bytes: Bytes, offset: nat)
    requires offset + HeaderBytes(layout) <= |bytes|
  {
    HeaderBytes(layout) <= ReadLength(layout, bytes, offset) <= |bytes| - offset
  }

  function FrameAt(layout: Layout, bytes: Bytes, offset: nat): Frame
    requires offset + HeaderBytes(layout) <= |bytes| && SoundLength(layout, bytes, offset)
  {
    Frame(ReadKind(layout, bytes, offset),
          bytes[offset + HeaderBytes(layout)..offset + ReadLength(layout, bytes, offset)])
  }

  function Next(layout: Layout, bytes: Bytes, offset: nat): (next: nat)
    requires offset + HeaderBytes(layout) <= |bytes| && SoundLength(layout, bytes, offset)
    ensures next > offset
  {
    offset + Align4(ReadLength(layout, bytes, offset))
  }

  ghost function Frames(layout: Layout, bytes: Bytes, offset: nat): Framing
    decreases |bytes| - offset
  {
    if offset + HeaderBytes(layout) > |bytes| then Framing([], true)
    else if !SoundLength(layout, bytes, offset) then Framing([], false)
    else
      var rest := Frames(layout, bytes, Next(layout, bytes, offset));
      Framing([FrameAt(layout, bytes, offset)] + rest.frames, rest.sound)
  }

  // ----- Encoding -----

  ghost predicate Encodable(layout: Layout, frame: Frame) {
    frame.kind < 65536
    && HeaderBytes(layout) + |frame.payload| < if layout.Messages? then 4294967296 else 65536
  }

  ghost function Zeros(n: nat): Bytes {
    seq(n, i => 0)
  }

  ghost function EncodeHeader(layout: Layout, length: nat, kind: nat, unread: Bytes): (header: Bytes)
    requires |unread| == 10
    ensures |header| == HeaderBytes(layout)
  {
    if layout.Messages? then EncodeU32(length) + EncodeU16(kind) + unread else EncodeU16(length) + EncodeU16(kind)
  }

  /** One item: length, type, for a message ten bytes the parser never reads, payload, padding. */
  ghost function EncodeFrame(layout: Layout, frame: Frame, unread: Bytes): Bytes
    requires |unread| == 10
  {
    var length := HeaderBytes(layout) + |frame.payload|;
    EncodeHeader(layout, length, frame.kind, unread) + frame.payload + Zeros(Align4(length) - length)
  }

  ghost function Encode(layout: Layout, frames: seq<Frame>, unread: Bytes): Bytes
    requires |unread| == 10
  {
    if frames == [] then [] else EncodeFrame(layout, frames[0], unread) + Encode(layout, frames[1..], unread)
  }

  lemma HeaderReads(layout: Layout, length: nat, kind: nat, unread: Bytes, rest: Bytes)
    requires |unread| == 10 && kind < 65536 && length < if layout.Messages? then 4294967296 else 65536
    ensures
      var bytes := EncodeHeader(layout, length, kind, unread) + rest;
      ReadLength(layout, bytes, 0) == length && ReadKind(layout, bytes, 0) == kind
  {
    ReadEncodedU16(kind);
    if layout.Messages? {
      ReadEncodedU32(length);
    } else {
      ReadEncodedU16(length);
    }
  }

  lemma {:induction false} EncodedFrameReads(layout: Layout, frame: Frame, unread: Bytes, after: Bytes)
    requires |unread| == 10 && Encodable(layout, frame)
    ensures
      var bytes := EncodeFrame(layout, frame, unread) + after;
      && HeaderBytes(layout) <= |bytes| && SoundLength(layout, bytes, 0)
      && FrameAt(layout, bytes, 0) == frame
      && Next(layout, bytes, 0) == |EncodeFrame(layout, frame, unread)|
  {
    var length := HeaderBytes(layout) + |frame.payload|;
    var header, padding := EncodeHeader(layout, length, frame.kind, unread), Zeros(Align4(length) - length);
    Regroup(header, frame.payload, padding, after);
    HeaderReads(layout, length, frame.kind, unread, frame.payload + padding + after);
  }

  lemma Regroup(a: Bytes, b: Bytes, c: Bytes, d: Bytes)
    ensures a + b + c + d == a + (b + c + d) && (a + b + c + d)[|a|..|a| + |b|] == b
  {
  }

  /** `bytes` lies in `all`, after the first `shift` bytes. */
  ghost predicate Shifted(all: Bytes, bytes: Bytes, shift: nat) {
    |all| == shift + |bytes| && forall i :: 0 <= i < |bytes| ==> all[shift + i] == bytes[i]
  }

  lemma ShiftedSlice(all: Bytes, bytes: Bytes, shift: nat, from: nat, until: nat)
    requires Shifted(all, bytes, shift) && from <= until <= |bytes|
    ensures all[shift + from..shift + until] == bytes[from..until]
  {
    forall k | 0 <= k < until - from ensures all[shift + from..shift + until][k] == bytes[from..until][k] {
      assert all[shift + (from + k)] == bytes[from + k];
    }
  }

  lemma {:induction false} ShiftedItem(layout: Layout, all: Bytes, bytes: Bytes, shift: nat, offset: nat)
    requires Shifted(all, bytes, shift) && offset + HeaderBytes(layout) <= |bytes|
    ensures SoundLength(layout, all, shift + offset) <==> SoundLength(layout, bytes, offset)
    ensures SoundLength(layout, bytes, offset) ==>
      && FrameAt(layout, all, shift + offset) == FrameAt(layout, bytes, offset)
      && Next(layout, all, shift + offset) == shift + Next(layout, bytes, offset)
  {
    assert ReadLength(layout, all, shift + offset) == ReadLength(layout, bytes, offset);
    assert ReadKind(layout, all, shift + offset) == ReadKind(layout, bytes, offset);
    if SoundLength(layout, bytes, offset) {
      var from, until := offset + HeaderBytes(layout), offset + ReadLength(layout, bytes, offset);
      ShiftedSlice(all, bytes, shift, from, until);
    }
  }

  /** Two places that hold the same item and agree beyond it agree. */
  lemma {:induction false} FramesContinue(layout: Layout, all: Bytes, at: nat, bytes: Bytes, offset: nat)
    requires at + HeaderBytes(layout) <= |all| && SoundLength(layout, all, at)
    requires offset + HeaderBytes(layout) <= |bytes| && SoundLength(layout, bytes, offset)
    requires FrameAt(layout, all, at) == FrameAt(layout, bytes, offset)
    requires Frames(layout, all, Next(layout, all, at)) == Frames(layout, bytes, Next(layout, bytes, offset))
    ensures Frames(layout, all, at) == Frames(layout, bytes, offset)
  {
  }

  /** Two places that both hold no sound item agree. */
  lemma {:induction false} FramesStop(layout: Layout, all: Bytes, at: nat, bytes: Bytes, offset: nat)
    requires |all| - at == |bytes| - offset
    requires offset + HeaderBytes(layout) <= |bytes| ==>
      !SoundLength(layout, all, at) && !SoundLength(layout, bytes, offset)
    ensures Frames(layout, all, at) == Frames(layout, bytes, offset)
  {
  }

  /** Framing looks only at what lies ahead. */
  lemma {:induction false} ShiftedFrames(layout: Layout, all: Bytes, bytes: Bytes, shift: nat, offset: nat)
    requires Shifted(all, bytes, shift)
    ensures Frames(layout, all, shift + offset) == Frames(layout, bytes, offset)
    decreases |bytes| - offset
  {
    if offset + HeaderBytes(layout) > |bytes| {
      FramesStop(layout, all, shift + offset, bytes, offset);
    } else {
      ShiftedItem(layout, all, bytes, shift, offset);
      if SoundLength(layout, bytes, offset) {
        ShiftedFrames(layout, all, bytes, shift, Next(layout, bytes, offset));
        FramesContinue(layout, all, shift + offset, bytes, offset);
      } else {
        FramesStop(layout, all, shift + offset, bytes, offset);
      }
    }
  }

  lemma {:induction false} FramesAfterOne(layout: Layout, all: Bytes, frame: Frame, next: nat, tail: Framing)
    requires HeaderBytes(layout) <= |all| && SoundLength(layout, all, 0)
    requires FrameAt(layout, all, 0) == frame && Next(layout, all, 0) == next && Frames(layout, all, next) == tail
    ensures Frames(layout, all, 0) == Framing([frame] + tail.frames, tail.sound)
  {
  }

  lemma {:induction false} FirstFrame(layout: Layout, frame: Frame, unread: Bytes, rest: Bytes, all: Bytes, next: nat)
    requires |unread| == 10 && Encodable(layout, frame)
    requires all == EncodeFrame(layout, frame, unread) + rest && next == |EncodeFrame(layout, frame, unread)|
    ensures
      var tail := Frames(layout, all, next);
      Frames(layout, all, 0) == Framing([frame] + tail.frames, tail.sound)
  {
    EncodedFrameReads(layout, frame, unread, rest);
    FramesAfterOne(layout, all, frame, next, Frames(layout, all, next));
  }

  lemma {:induction false} FramesAfter(layout: Layout, first: Bytes, rest: Bytes, all: Bytes, next: nat)
    requires all == first + rest && next == |first|
    ensures Frames(layout, all, next) == Frames(layout, rest, 0)
  {
    ShiftedFrames(layout, all, rest, next, 0);
  }

  lemma {:induction false} FramesOfFirst(layout: Layout, frame: Frame, unread: Bytes, rest: Bytes)
    requires |unread| == 10 && Encodable(layout, frame)
    ensures
      var tail := Frames(layout, rest, 0);
      Frames(layout, EncodeFrame(layout, frame, unread) + rest, 0) == Framing([frame] + tail.frames, tail.sound)
  {
    var first := EncodeFrame(layout, frame, unread);
    FirstFrame(layout, frame, unread, rest, first + rest, |first|);
    FramesAfter(layout, first, rest, first + rest, |first|);
  }

  /** Framing reads back every list of encodable items, in order and to the end. */
  lemma {:induction false} FramesOfEncoded(layout: Layout, frames: seq<Frame>, unread: Bytes)
    requires |unread| == 10 && forall f :: f in frames ==> Encodable(layout, f)
    ensures Frames(layout, Encode(layout, frames, unread), 0) == Framing(frames, true)
    decreases |frames|
  {
    if frames != [] {
      FramesOfFirst(layout, frames[0], unread, Encode(layout, frames[1..], unread));
      FramesOfEncoded(layout, frames[1..], unread);
      assert [frames[0]] + frames[1..] == frames;
    }
  }

  // ----- Meaning -----

  datatype Outcome<T> = Outcome(result: Result<T, ParseError>, sockets: Sockets)

  /** The attributes of one socket, in order: each information block replaces the socket's counters. */
  function VisitAttributes(framing: Framing, id: SocketId, counters: CountersOf, sockets: Sockets): Outcome<()>
    decreases |framing.frames|
  {
    if framing.frames == [] then Outcome(if framing.sound then Ok(()) else Err(MalformedAttribute), sockets)
    else
      var frame, rest := framing.frames[0], framing.(frames := framing.frames[1..]);
      if frame.kind != INET_DIAG_INFO then VisitAttributes(rest, id, counters, sockets)
      else match counters(frame.payload)
        case None => Outcome(Err(Unsupported), sockets)
        case Some(c) => VisitAttributes(rest, id, counters, sockets[id := c])
  }

  predicate Interesting(payload: Bytes, port: nat)
    requires DIAG_MESSAGE_BYTES <= |payload|
  {
    payload[1] == TCP_ESTABLISHED && ReadBigU16(payload, 4) == port
  }

  function IdOf(payload: Bytes): SocketId
    requires DIAG_MESSAGE_BYTES <= |payload|
  {
    SocketId(payload[24..40], ReadBigU16(payload, 6), payload[44..52], ReadU32(payload, 68))
  }

  ghost function VisitSocket(payload: Bytes, port: nat, counters: CountersOf, sockets: Sockets): Outcome<()> {
    if |payload| < DIAG_MESSAGE_BYTES then Outcome(Err(Truncated), sockets)
    else if !Interesting(payload, port) then Outcome(Ok(()), sockets)
    else VisitAttributes(Frames(Attributes, payload, DIAG_MESSAGE_BYTES), IdOf(payload), counters, sockets)
  }

  function SignedCode(payload: Bytes): int
    requires 4 <= |payload|
  {
    var code := ReadU32(payload, 0);
    if code < 2147483648 then code else code - 4294967296
  }

  function ErrorOf(payload: Bytes): Option<ParseError> {
    if |payload| < 4 then Some(Truncated)
    else
      var code := SignedCode(payload);
      if code == 0 then None else Some(Os(if code == -2147483648 then 2147483647 else -code))
  }

  /** Messages in order, up to the first DONE (`Ok(true)`), the first error, or the end (`Ok(false)`). */
  ghost function VisitMessages(framing: Framing, port: nat, counters: CountersOf, sockets: Sockets): Outcome<bool>
    decreases |framing.frames|
  {
    if framing.frames == [] then Outcome(if framing.sound then Ok(false) else Err(MalformedMessage), sockets)
    else
      var frame, rest := framing.frames[0], framing.(frames := framing.frames[1..]);
      if frame.kind == NLMSG_DONE then Outcome(Ok(true), sockets)
      else if frame.kind == NLMSG_ERROR then
        var error := ErrorOf(frame.payload);
        if error.Some? then Outcome(Err(error.value), sockets) else VisitMessages(rest, port, counters, sockets)
      else if frame.kind == SOCK_DIAG_BY_FAMILY then
        var visited := VisitSocket(frame.payload, port, counters, sockets);
        if visited.result.Err? then Outcome(Err(visited.result.error), visited.sockets)
        else VisitMessages(rest, port, counters, visited.sockets)
      else VisitMessages(rest, port, counters, sockets)
  }

  // ----- The loops -----

  /** On any bytes the loop ends, every slice is in bounds, and it visits the framed attributes. */
  method ParseSocket(payload: Bytes, port: nat, counters: CountersOf, sockets: Sockets)
    returns (result: Result<(), ParseError>, sockets': Sockets)
    ensures Outcome(result, sockets') == VisitSocket(payload, port, counters, sockets)
  {
    sockets' := sockets;
    if |payload| < DIAG_MESSAGE_BYTES {
      return Err(Truncated), sockets';
    }
    if !Interesting(payload, port) {
      return Ok(()), sockets';
    }
    var id := IdOf(payload);
    var offset := DIAG_MESSAGE_BYTES;
    while offset + ATTRIBUTE_HEADER_BYTES <= |payload|
      invariant VisitSocket(payload, port, counters, sockets)
             == VisitAttributes(Frames(Attributes, payload, offset), id, counters, sockets')
      decreases |payload| - offset
    {
      if !SoundLength(Attributes, payload, offset) {
        return Err(MalformedAttribute), sockets';
      }
      var frame := FrameAt(Attributes, payload, offset);
      ghost var rest := Frames(Attributes, payload, Next(Attributes, payload, offset));
      assert ([frame] + rest.frames)[1..] == rest.frames;
      if frame.kind == INET_DIAG_INFO {
        var information := counters(frame.payload);
        if information.None? {
          return Err(Unsupported), sockets';
        }
        sockets' := sockets'[id := information.value];
      }
      offset := Next(Attributes, payload, offset);
    }
    result := Ok(());
  }

  method ParseMessages(bytes: Bytes, port: nat, counters: CountersOf, sockets: Sockets)
    returns (result: Result<bool, ParseError>, sockets': Sockets)
    ensures Outcome(result, sockets') == VisitMessages(Frames(Messages, bytes, 0), port, counters, sockets)
  {
    sockets' := sockets;
    var offset := 0;
    while offset + HEADER_BYTES <= |bytes|
      invariant VisitMessages(Frames(Messages, bytes, 0), port, counters, sockets)
             == VisitMessages(Frames(Messages, bytes, offset), port, counters, sockets')
      decreases |bytes| - offset
    {
      if !SoundLength(Messages, bytes, offset) {
        return Err(MalformedMessage), sockets';
      }
      var frame := FrameAt(Messages, bytes, offset);
      ghost var rest := Frames(Messages, bytes, Next(Messages, bytes, offset));
      assert ([frame] + rest.frames)[1..] == rest.frames;
      if frame.kind == NLMSG_DONE {
        return Ok(true), sockets';
      } else if frame.kind == NLMSG_ERROR {
        var error := ErrorOf(frame.payload);
        if error.Some? {
          return Err(error.value), sockets';
        }
      } else if frame.kind == SOCK_DIAG_BY_FAMILY {
        var visited;
        visited, sockets' := ParseSocket(frame.payload, port, counters, sockets');
        if visited.Err? {
          return Err(visited.error), sockets';
        }
      }
      offset := Next(Messages, bytes, offset);
    }
    result := Ok(false);
  }

  // ----- The resulting map -----

  /** One information block of a socket. */
  datatype Block = Block(id: SocketId, counters: TcpCounters)

  /** The blocks among the attributes of one socket, in order. */
  ghost function AttributeBlocks(frames: seq<Frame>, id: SocketId, counters: CountersOf): seq<Block> {
    if frames == [] then []
    else
      var own := if frames[0].kind == INET_DIAG_INFO then counters(frames[0].payload) else None;
      (if own.Some? then [Block(id, own.value)] else []) + AttributeBlocks(frames[1..], id, counters)
  }

  /** The blocks of one message: those of an established socket on the port. */
  ghost function SocketBlocks(frame: Frame, port: nat, counters: CountersOf): seq<Block> {
    if frame.kind != SOCK_DIAG_BY_FAMILY || |frame.payload| < DIAG_MESSAGE_BYTES then []
    else if !Interesting(frame.payload, port) then []
    else AttributeBlocks(Frames(Attributes, frame.payload, DIAG_MESSAGE_BYTES).frames, IdOf(frame.payload), counters)
  }

  /** The blocks of the messages before the first DONE. */
  ghost function MessageBlocks(frames: seq<Frame>, port: nat, counters: CountersOf): seq<Block> {
    if frames == [] || frames[0].kind == NLMSG_DONE then []
    else SocketBlocks(frames[0], port, counters) + MessageBlocks(frames[1..], port, counters)
  }

  ghost predicate IsLast(blocks: seq<Block>, k: nat, id: SocketId) {
    k < |blocks| && blocks[k].id == id && forall l :: k < l < |blocks| ==> blocks[l].id != id
  }

  /** A socket holds its last block, or what it held before when it has none; no other socket appears. */
  ghost predicate HoldsLast(after: Sockets, before: Sockets, blocks: seq<Block>) {
    forall id :: HoldsLastOf(after, before, blocks, id)
  }

  ghost predicate HoldsLastOf(after: Sockets, before: Sockets, blocks: seq<Block>, id: SocketId) {
    if exists k: nat :: IsLast(blocks, k, id)
    then id in after && forall k: nat :: IsLast(blocks, k, id) ==> after[id] == blocks[k].counters
    else (id in after <==> id in before) && (id in before ==> after[id] == before[id])
  }

  ghost function Updated(sockets: Sockets, blocks: seq<Block>): Sockets {
    if blocks == [] then sockets
    else Updated(sockets, blocks[..|blocks| - 1])[blocks[|blocks| - 1].id := blocks[|blocks| - 1].counters]
  }

  lemma {:induction false} UpdatedHoldsLast(sockets: Sockets, blocks: seq<Block>)
    ensures HoldsLast(Updated(sockets, blocks), sockets, blocks)
  {
    if blocks != [] {
      var n := |blocks| - 1;
      var init := blocks[..n];
      UpdatedHoldsLast(sockets, init);
      forall id, k: nat | id != blocks[n].id ensures IsLast(blocks, k, id) <==> IsLast(init, k, id) {
        assert k < n ==> init[k] == blocks[k];
        assert forall l :: k < l < n ==> init[l] == blocks[l];
      }
      assert IsLast(blocks, n, blocks[n].id);
      forall id ensures HoldsLastOf(Updated(sockets, blocks), sockets, blocks, id) {
        assert HoldsLastOf(Updated(sockets, init), sockets, init, id);
      }
    }
  }

  lemma {:induction false} UpdatedAppend(sockets: Sockets, xs: seq<Block>, ys: seq<Block>)
    ensures Updated(sockets, xs + ys) == Updated(Updated(sockets, xs), ys)
    decreases |ys|
  {
    if ys == [] {
      assert xs + ys == xs;
    } else {
      var n := |ys| - 1;
      assert (xs + ys)[..|xs| + n] == xs + ys[..n];
      UpdatedAppend(sockets, xs, ys[..n]);
    }
  }

  lemma {:induction false} AttributesUpdate(framing: Framing, id: SocketId, counters: CountersOf, sockets: Sockets)
    requires VisitAttributes(framing, id, counters, sockets).result.Ok?
    ensures VisitAttributes(framing, id, counters, sockets).sockets
        == Updated(sockets, AttributeBlocks(framing.frames, id, counters))
    decreases |framing.frames|
  {
    if framing.frames != [] {
      var frame, rest := framing.frames[0], framing.(frames := framing.frames[1..]);
      var own := if frame.kind == INET_DIAG_INFO then counters(frame.payload) else None;
      var blocks := AttributeBlocks(rest.frames, id, counters);
      if own.Some? {
        AttributesUpdate(rest, id, counters, sockets[id := own.value]);
        assert [Block(id, own.value)][..0] == [];
        assert Updated(sockets, [Block(id, own.value)]) == sockets[id := own.value];
        UpdatedAppend(sockets, [Block(id, own.value)], blocks);
      } else {
        AttributesUpdate(rest, id, counters, sockets);
        assert [] + blocks == blocks;
      }
    }
  }

  /** A successful parse leaves each socket with the counters of its last information block, among the
      established sockets on the port before the first DONE, and every other socket as it was. */
  lemma {:induction false} ParsedSockets(framing: Framing, port: nat, counters: CountersOf, sockets: Sockets)
    requires VisitMessages(framing, port, counters, sockets).result.Ok?
    ensures
      var after := VisitMessages(framing, port, counters, sockets).sockets;
      var blocks := MessageBlocks(framing.frames, port, counters);
      after == Updated(sockets, blocks) && HoldsLast(after, sockets, blocks)
    decreases |framing.frames|
  {
    if framing.frames != [] && framing.frames[0].kind != NLMSG_DONE {
      var frame, rest := framing.frames[0], framing.(frames := framing.frames[1..]);
      var own := SocketBlocks(frame, port, counters);
      var next := Updated(sockets, own);
      SocketUpdates(frame, port, counters, sockets);
      ParsedSockets(rest, port, counters, next);
      UpdatedAppend(sockets, own, MessageBlocks(rest.frames, port, counters));
    }
    UpdatedHoldsLast(sockets, MessageBlocks(framing.frames, port, counters));
  }

  lemma SocketUpdates(frame: Frame, port: nat, counters: CountersOf, sockets: Sockets)
    requires frame.kind == SOCK_DIAG_BY_FAMILY ==> VisitSocket(frame.payload, port, counters, sockets).result.Ok?
    ensures
      var visited := VisitSocket(frame.payload, port, counters, sockets).sockets;
      (if frame.kind == SOCK_DIAG_BY_FAMILY then visited else sockets)
      == Updated(sockets, SocketBlocks(frame, port, counters))
  {
    if frame.kind == SOCK_DIAG_BY_FAMILY && Interesting(frame.payload, port) {
      AttributesUpdate(Frames(Attributes, frame.payload, DIAG_MESSAGE_BYTES), IdOf(frame.payload), counters, sockets);
    }
  }

  /** Nothing after the first DONE is looked at. */
  lemma {:induction false} DoneEndsTheVisit(before: seq<Frame>, done: Frame, after: seq<Frame>, sound: bool, port: nat,
                                            counters: CountersOf, sockets: Sockets)
    requires done.kind == NLMSG_DONE
    ensures VisitMessages(Framing(before + [done] + after, sound), port, counters, sockets)
         == VisitMessages(Framing(before + [done], true), port, counters, sockets)
    decreases |before|
  {
    var all, short := before + [done] + after, before + [done];
    if before != [] {
      assert all[0] == short[0] == before[0];
      assert all[1..] == before[1..] + [done] + after && short[1..] == before[1..] + [done];
      var visited := VisitSocket(before[0].payload, port, counters, sockets).sockets;
      DoneEndsTheVisit(before[1..], done, after, sound, port, counters, sockets);
      DoneEndsTheVisit(before[1..], done, after, sound, port, counters, visited);
    }
  }

  lemma FixedPartReads(fixed: Bytes, rest: Bytes, port: nat)
    requires |fixed| == DIAG_MESSAGE_BYTES
    ensures Interesting(fixed + rest, port) <==> Interesting(fixed, port)
    ensures IdOf(fixed + rest) == IdOf(fixed)
  {
  }

  lemma AttributesFollow(fixed: Bytes, rest: Bytes)
    requires |fixed| == DIAG_MESSAGE_BYTES
    ensures Frames(Attributes, fixed + rest, DIAG_MESSAGE_BYTES) == Frames(Attributes, rest, 0)
  {
    ShiftedFrames(Attributes, fixed + rest, rest, |fixed|, 0);
  }

  /** A socket message built from a fixed part and encoded attributes is visited attribute by attribute. */
  lemma EncodedSocket(fixed: Bytes, attributes: seq<Frame>, unread: Bytes, port: nat, counters: CountersOf,
                      sockets: Sockets)
    requires |fixed| == DIAG_MESSAGE_BYTES && |unread| == 10 && forall f :: f in attributes ==> Encodable(Attributes, f)
    requires Interesting(fixed, port)
    ensures VisitSocket(fixed + Encode(Attributes, attributes, unread), port, counters, sockets)
         == VisitAttributes(Framing(attributes, true), IdOf(fixed), counters, sockets)
  {
    var encoded := Encode(Attributes, attributes, unread);
    FramesOfEncoded(Attributes, attributes, unread);
    AttributesFollow(fixed, encoded);
    FixedPartReads(fixed, encoded, port);
  }
}
