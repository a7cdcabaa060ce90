/** What reading does with the bytes themselves: any packet, any message, any list of frames, and every fault. */
module PacketBytes {
  import opened Maybe
  import opened Wire
  import opened Packets
  import opened MultiTrees

  /** Fewer than four bytes raise. */
  lemma {:induction false} TooShort(lib: Library, s: State, packet: Bytes, depth: nat)
    requires FieldsFit(lib) && |packet| < 4
    ensures ReadPacket(lib, s, packet, depth) == Outcome(s, Some(ShortPacket))
  {
  }

  /** Any other packet starts with a number; without the mask it is passed over, if the number is known. */
  lemma {:induction false} Unmasked(lib: Library, s: State, emsg: nat, tail: Bytes, depth: nat)
    requires FieldsFit(lib) && emsg < 0x8000_0000
    ensures ReadPacket(lib, s, PackU32(emsg) + tail, depth) == Outcome(s, if lib.isEMsg(emsg) then None else Some(UnknownEMsg))
  {
    PackIsBijective(emsg, PackU32(emsg));
    assert (PackU32(emsg) + tail)[..4] == PackU32(emsg);
  }

  /** With the mask, a packet without a header length raises. */
  lemma {:induction false} MaskedTooShort(lib: Library, s: State, emsg: nat, tail: Bytes, depth: nat)
    requires FieldsFit(lib) && emsg < 0x8000_0000 && |tail| < 4
    ensures ReadPacket(lib, s, PackU32(emsg + 0x8000_0000) + tail, depth) == Outcome(s, Some(ShortPacket))
  {
    PackIsBijective(emsg + 0x8000_0000, PackU32(emsg + 0x8000_0000));
    assert (PackU32(emsg + 0x8000_0000) + tail)[..4] == PackU32(emsg + 0x8000_0000);
  }

  /** What follows the header is the body, of which nothing is left if the length says too much. */
  lemma {:induction false} Masked(lib: Library, s: State, emsg: nat, n: nat, rest: Bytes, depth: nat)
    requires FieldsFit(lib) && emsg < 0x8000_0000 && n < 0x1_0000_0000
    ensures var header := rest[..if n < |rest| then n else |rest|];
            var read := ReadPacket(lib, s, PackU32(emsg + 0x8000_0000) + (PackU32(n) + rest), depth);
            match lib.readHeader(header)
            case None => read == Outcome(s, Some(BadHeader))
            case Some(h) =>
              if h.sessionId != 0 && s.session.Some? && s.session != Some(h.sessionId) then read == Outcome(s, Some(SessionMismatch))
              else read == ReadMessage(lib, if h.sessionId == 0 then s else s.(session := Some(h.sessionId)), emsg, h,
                                       rest[|header|..], depth)
  {
    var raw, len := PackU32(emsg + 0x8000_0000), PackU32(n);
    PackIsBijective(emsg + 0x8000_0000, raw);
    PackIsBijective(n, len);
    var packet := raw + (len + rest);
    assert packet[..4] == raw && packet[4..8] == len && packet[8..] == rest;
    var cut := if n < |rest| then n else |rest|;
    assert packet[8..8 + cut] == rest[..cut] && packet[8 + cut..] == rest[cut..];
  }

  /** Every packet of four bytes or more is one of these: the numbers are those that its first bytes spell. */
  lemma {:induction false} EveryPacket(packet: Bytes)
    requires |packet| >= 4
    ensures UnpackU32(packet[..4]) < 0x1_0000_0000 && packet == PackU32(UnpackU32(packet[..4])) + packet[4..]
    ensures |packet| >= 8 ==>
              UnpackU32(packet[4..8]) < 0x1_0000_0000 && packet[4..] == PackU32(UnpackU32(packet[4..8])) + packet[8..]
  {
    PackIsBijective(0, packet[..4]);
    if |packet| >= 8 {
      PackIsBijective(0, packet[4..8]);
      assert packet[4..] == packet[4..8] + packet[8..];
    }
  }

  /** A message other than Multi: an unknown number raises; a known one is handed to its handler, which may raise. */
  lemma {:induction false} Handed(lib: Library, s: State, emsg: nat, h: Header, body: Bytes, depth: nat)
    requires FieldsFit(lib) && emsg != 1
    ensures ReadMessage(lib, s, emsg, h, body, depth) ==
            if !lib.isEMsg(emsg) then Outcome(s, Some(UnknownEMsg))
            else Outcome(State(s.session, s.log + [Message(emsg, h, body)]),
                         if lib.handlerRaises(s.log, Message(emsg, h, body)) then Some(HandlerRaised) else None)
  {
  }

  /** A Multi: its frames, those of its decompressed body if a size is given, or a fault of one of the libraries. */
  lemma {:induction false} Bundled(lib: Library, s: State, h: Header, body: Bytes, depth: nat)
    requires FieldsFit(lib) && lib.isEMsg(1)
    ensures var read := ReadMessage(lib, s, 1, h, body, depth);
            match lib.readMulti(body)
            case None => read == Outcome(s, Some(BadMulti))
            case Some(m) =>
              if m.sizeUnzipped == 0 then read == ReadFrames(lib, s, SplitFrames(m.body).frames, depth)
              else depth > 0 ==>
                match lib.gunzip(m.body)
                case None => read == Outcome(s, Some(BadGzip))
                case Some(data) => read == ReadFrames(lib, s, SplitFrames(data).frames, depth - 1)
  {
  }

  /** Frames are read one after the other, up to the first that raises. */
  lemma {:induction false} FramesInTurn(lib: Library, s: State, f: Frame, frames: seq<Frame>, depth: nat)
    requires FieldsFit(lib)
    ensures ReadFrames(lib, s, [], depth) == Outcome(s, None)
    ensures var first := ReadPacket(lib, s, f.bytes, depth);
            ReadFrames(lib, s, [f] + frames, depth) ==
            if first.fault == None then ReadFrames(lib, first.state, frames, depth) else first
  {
    assert ([f] + frames)[1..] == frames;
  }
}
