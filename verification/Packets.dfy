/**
 Packets as ProtobufClient writes and reads them. A packet holds a masked
 message number, a header and a body; the body of a Multi message holds further
 packets, possibly gzipped, so reading recurses from packet to message to multi
 and back.
*/
module Packets {
  import opened Maybe
  import opened Wire

  const MULTI: nat := 1

  /** The header fields that the client reads or writes; 0 is protobuf's value for an absent number. */
  datatype Header = Header(steamId: nat, sessionId: int, sourceJob: Option<nat>, targetJob: Option<nat>,
                           targetJobName: Option<string>, eresult: int)

  datatype Message = Message(emsg: nat, header: Header, body: Bytes)

  datatype MultiMessage = MultiMessage(sizeUnzipped: nat, body: Bytes)

  /**
   The libraries below the client: protobuf's writers and readers for the two
   messages that frame others, gzip, the table of message numbers, and whether
   the handler of a message raises, after the messages handled before it. A
   reader that raises gives None.
  */
  datatype Library = Library(
    writeHeader: Header -> Bytes,
    readHeader: Bytes -> Option<Header>,
    writeMulti: MultiMessage -> Bytes,
    readMulti: Bytes -> Option<MultiMessage>,
    gzip: Bytes -> Bytes,
    gunzip: Bytes -> Option<Bytes>,
    isEMsg: nat -> bool,
    handlerRaises: (seq<Message>, Message) -> bool)

  /** A bytes field is never longer than the message that holds it. */
  ghost predicate FieldsFit(lib: Library) {
    forall b :: lib.readMulti(b).Some? ==> |lib.readMulti(b).value.body| <= |b|
  }

  /** Why reading a packet raised. */
  datatype Fault = ShortPacket | BadHeader | SessionMismatch | UnknownEMsg | BadMulti | BadGzip | TooDeep | HandlerRaised

  /** The session id that the client latched, and the messages handed to handlers so far. */
  datatype State = State(session: Option<int>, log: seq<Message>)

  datatype Outcome = Outcome(state: State, fault: Option<Fault>)

  function Done(s: State): Outcome {
    Outcome(s, None)
  }

  function Raised(s: State, f: Fault): Outcome {
    Outcome(s, Some(f))
  }

  // ---------- Writing ----------

  function Layout(lib: Library, emsg: nat, header: Header, body: Bytes): Bytes {
    PackU32(SetMask(emsg)) + (PackU32(|lib.writeHeader(header)|) + (lib.writeHeader(header) + body))
  }

  /** Whether struct.pack accepts the two numbers of the layout. */
  predicate Sendable(lib: Library, emsg: nat, header: Header) {
    SetMask(emsg) < WORD && |lib.writeHeader(header)| < WORD
  }

  // ---------- Reading ----------

  /** Keeps the first session id that is not 0; a different one later raises, on a misspelt field name. */
  function Latch(s: State, h: Header): Outcome {
    if h.sessionId == 0 then Done(s)
    else if s.session == None then Done(s.(session := Some(h.sessionId)))
    else if s.session == Some(h.sessionId) then Done(s)
    else Raised(s, SessionMismatch)
  }

  function Dispatch(lib: Library, s: State, m: Message): Outcome {
    if !lib.isEMsg(m.emsg) then
      Raised(s, UnknownEMsg)
    else
      var t := s.(log := s.log + [m]);
      if lib.handlerRaises(s.log, m) then Raised(t, HandlerRaised) else Done(t)
  }

  /** depth is how many gzipped bodies may still be opened inside one another. */
  ghost function ReadPacket(lib: Library, s: State, packet: Bytes, depth: nat): Outcome
    requires FieldsFit(lib)
    decreases depth, |packet|, 3
  {
    if |packet| < 4 then
      Raised(s, ShortPacket)
    else
      var raw := UnpackU32(packet[..4]);
      if !IsMasked(raw) then
        if lib.isEMsg(ClearMask(raw)) then Done(s) else Raised(s, UnknownEMsg)
      else if |packet| < 8 then
        Raised(s, ShortPacket)
      else
        var cut := Min(8 + UnpackU32(packet[4..8]), |packet|);
        match lib.readHeader(packet[8..cut])
        case None => Raised(s, BadHeader)
        case Some(h) =>
          var latched := Latch(s, h);
          if latched.fault.Some? then latched
          else ReadMessage(lib, latched.state, ClearMask(raw), h, packet[cut..], depth)
  }

  ghost function ReadMessage(lib: Library, s: State, emsg: nat, h: Header, body: Bytes, depth: nat): Outcome
    requires FieldsFit(lib)
    decreases depth, |body|, 2
  {
    if emsg == MULTI && lib.isEMsg(MULTI) then
      ReadMulti(lib, s, body, depth)
    else
      Dispatch(lib, s, Message(emsg, h, body))
  }

  ghost function ReadMulti(lib: Library, s: State, body: Bytes, depth: nat): Outcome
    requires FieldsFit(lib)
    decreases depth, |body|, 1
  {
    match lib.readMulti(body)
    case None => Raised(s, BadMulti)
    case Some(m) =>
      if m.sizeUnzipped == 0 then
        SplitWeight(m.body);
        ReadFrames(lib, s, SplitFrames(m.body).frames, depth)
      else if depth == 0 then
        Raised(s, TooDeep)
      else match lib.gunzip(m.body)
        case None => Raised(s, BadGzip)
        case Some(data) => ReadFrames(lib, s, SplitFrames(data).frames, depth - 1)
  }

  ghost function ReadFrames(lib: Library, s: State, frames: seq<Frame>, depth: nat): Outcome
    requires FieldsFit(lib)
    decreases depth, Weight(frames), 0
  {
    if frames == [] then
      Done(s)
    else
      var first := ReadPacket(lib, s, frames[0].bytes, depth);
      if first.fault.Some? then first else ReadFrames(lib, first.state, frames[1..], depth)
  }
}
