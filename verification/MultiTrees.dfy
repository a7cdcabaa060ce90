/**
 The round trip of nested Multi messages: a tree of packets, written with the
 layout of ProtobufClient, reads back as a walk of the tree from left to right.
*/
module MultiTrees {
  import opened Maybe
  import opened Wire
  import opened Packets

  /** What a server sends: a single message, or a Multi that bundles further packets. */
  datatype Tree = Leaf(message: Message) | Bundle(header: Header, kids: seq<Tree>, zipped: bool)

  function Encode(lib: Library, t: Tree): Bytes
    decreases t, 2
  {
    match t
    case Leaf(m) => Layout(lib, m.emsg, m.header, m.body)
    case Bundle(h, kids, _) => Layout(lib, MULTI, h, lib.writeMulti(BundleMessage(lib, t)))
  }

  function BundleMessage(lib: Library, t: Tree): MultiMessage
    requires t.Bundle?
    decreases t, 1
  {
    var data := EncodeAll(lib, t.kids);
    if t.zipped then MultiMessage(|data|, lib.gzip(data)) else MultiMessage(0, data)
  }

  /** Each packet behind its length. */
  function EncodeAll(lib: Library, ts: seq<Tree>): Bytes
    decreases ts, 0
  {
    if ts == [] then [] else PackU32(|Encode(lib, ts[0])|) + (Encode(lib, ts[0]) + EncodeAll(lib, ts[1..]))
  }

  // ---------- What the libraries owe, tree by tree ----------

  ghost predicate HeaderKept(lib: Library, h: Header) {
    |lib.writeHeader(h)| < WORD && lib.readHeader(lib.writeHeader(h)) == Some(h)
  }

  ghost predicate Encodable(lib: Library, t: Tree)
    decreases t, 1
  {
    match t
    case Leaf(m) => m.emsg < PROTO_MASK && m.emsg != MULTI && HeaderKept(lib, m.header)
    case Bundle(h, kids, zipped) =>
      var data := EncodeAll(lib, kids);
      && HeaderKept(lib, h)
      && lib.isEMsg(MULTI)
      && AllEncodable(lib, kids)
      && lib.readMulti(lib.writeMulti(BundleMessage(lib, t))) == Some(BundleMessage(lib, t))
      && (zipped ==> kids != [] && lib.gunzip(lib.gzip(data)) == Some(data))
  }

  ghost predicate AllEncodable(lib: Library, ts: seq<Tree>)
    decreases ts, 0
  {
    ts == [] || (Encodable(lib, ts[0]) && |Encode(lib, ts[0])| < WORD && AllEncodable(lib, ts[1..]))
  }

  /** How many gzipped bodies lie inside one another. */
  function ZipDepth(t: Tree): nat
    decreases t, 1
  {
    match t
    case Leaf(_) => 0
    case Bundle(_, kids, zipped) => ZipDepthAll(kids) + (if zipped then 1 else 0)
  }

  function ZipDepthAll(ts: seq<Tree>): nat {
    if ts == [] then 0
    else if ZipDepth(ts[0]) >= ZipDepthAll(ts[1..]) then ZipDepth(ts[0])
    else ZipDepthAll(ts[1..])
  }

  // ---------- The walk, as a flat list of steps ----------

  datatype Step = Arrive(header: Header) | Deliver(message: Message)

  function Walk(t: Tree): seq<Step>
    decreases t, 1
  {
    match t
    case Leaf(m) => [Arrive(m.header), Deliver(m)]
    case Bundle(h, kids, _) => [Arrive(h)] + WalkAll(kids)
  }

  function WalkAll(ts: seq<Tree>): seq<Step> {
    if ts == [] then [] else Walk(ts[0]) + WalkAll(ts[1..])
  }

  function Leaves(t: Tree): seq<Message>
    decreases t, 1
  {
    match t
    case Leaf(m) => [m]
    case Bundle(_, kids, _) => LeavesAll(kids)
  }

  function LeavesAll(ts: seq<Tree>): seq<Message> {
    if ts == [] then [] else Leaves(ts[0]) + LeavesAll(ts[1..])
  }

  function Take(lib: Library, s: State, step: Step): Outcome {
    match step
    case Arrive(h) => Latch(s, h)
    case Deliver(m) => Dispatch(lib, s, m)
  }

  /** Takes the steps in order and stops at the first that raises. */
  function TakeAll(lib: Library, s: State, steps: seq<Step>): Outcome
    decreases |steps|
  {
    if steps == [] then
      Done(s)
    else
      var first := Take(lib, s, steps[0]);
      if first.fault.Some? then first else TakeAll(lib, first.state, steps[1..])
  }

  lemma {:induction false} TakeAllAppend(lib: Library, s: State, a: seq<Step>, b: seq<Step>)
    ensures TakeAll(lib, s, a + b) ==
            (var first := TakeAll(lib, s, a);
             if first.fault.Some? then first else TakeAll(lib, first.state, b))
    decreases |a|
  {
    if a == [] {
      assert a + b == b;
    } else {
      assert (a + b)[1..] == a[1..] + b;
      TakeAllAppend(lib, Take(lib, s, a[0]).state, a[1..], b);
    }
  }

  // ---------- The round trip ----------

  /** Reading one packet that Layout wrote: the header arrives, then the message is read. */
  lemma {:induction false} ReadLayout(lib: Library, s: State, emsg: nat, h: Header, body: Bytes, depth: nat)
    requires FieldsFit(lib) && emsg < PROTO_MASK && HeaderKept(lib, h)
    ensures ReadPacket(lib, s, Layout(lib, emsg, h, body), depth) ==
            (var latched := Latch(s, h);
             if latched.fault.Some? then latched else ReadMessage(lib, latched.state, emsg, h, body, depth))
  {
    var first, second, written := PackU32(SetMask(emsg)), PackU32(|lib.writeHeader(h)|), lib.writeHeader(h);
    MaskRoundTrip(emsg);
    PackIsBijective(SetMask(emsg), first);
    PackIsBijective(|written|, second);
    ReadParts(lib, s, first, second, written, body, depth);
  }

  /** The slices that reading takes out of the four parts of a packet. */
  lemma {:induction false} ReadParts(lib: Library, s: State, first: Bytes, second: Bytes, written: Bytes, body: Bytes, depth: nat)
    requires FieldsFit(lib) && |first| == 4 && |second| == 4
    requires IsMasked(UnpackU32(first)) && UnpackU32(second) == |written| && lib.readHeader(written).Some?
    ensures ReadPacket(lib, s, first + (second + (written + body)), depth) ==
            (var h := lib.readHeader(written).value;
             var latched := Latch(s, h);
             if latched.fault.Some? then latched
             else ReadMessage(lib, latched.state, ClearMask(UnpackU32(first)), h, body, depth))
  {
    var packet := first + (second + (written + body));
    var cut := Min(8 + |written|, |packet|);
    assert packet[..4] == first;
    assert packet[4..8] == second;
    assert packet[8..cut] == written;
    assert packet[cut..] == body;
  }

  /** The frames that a bundle's data splits into are its packets. */
  lemma {:induction false} ReadEncodeAll(lib: Library, s: State, ts: seq<Tree>, depth: nat)
    requires FieldsFit(lib) && AllEncodable(lib, ts) && depth >= ZipDepthAll(ts)
    ensures ReadFrames(lib, s, SplitFrames(EncodeAll(lib, ts)).frames, depth) == TakeAll(lib, s, WalkAll(ts))
    decreases ts, 0
  {
    if ts != [] {
      var packet, more := Encode(lib, ts[0]), EncodeAll(lib, ts[1..]);
      SplitStep(|packet|, packet + more);
      assert (packet + more)[..|packet|] == packet;
      assert (packet + more)[|packet|..] == more;
      var f, tail := Frame(|packet|, packet), SplitFrames(more);
      assert ([f] + tail.frames)[1..] == tail.frames;
      ReadEncode(lib, s, ts[0], depth);
      TakeAllAppend(lib, s, Walk(ts[0]), WalkAll(ts[1..]));
      ReadEncodeAll(lib, TakeAll(lib, s, Walk(ts[0])).state, ts[1..], depth);
    }
  }

  /**
   The nested round trip. Reading an encoded tree latches the header of every
   packet and delivers every leaf, in the order of the walk, and stops where
   the walk stops.
  */
  lemma {:induction false} ReadEncode(lib: Library, s: State, t: Tree, depth: nat)
    requires FieldsFit(lib) && Encodable(lib, t) && depth >= ZipDepth(t)
    ensures ReadPacket(lib, s, Encode(lib, t), depth) == TakeAll(lib, s, Walk(t))
    decreases t, 1
  {
    match t
    case Leaf(m) =>
      ReadLayout(lib, s, m.emsg, m.header, m.body, depth);
      assert Walk(t)[1..] == [Deliver(m)];
      assert Message(m.emsg, m.header, m.body) == m;
      TakeOne(lib, Latch(s, m.header).state, Deliver(m));
    case Bundle(h, kids, zipped) =>
      var message, data := BundleMessage(lib, t), EncodeAll(lib, kids);
      ReadLayout(lib, s, MULTI, h, lib.writeMulti(message), depth);
      assert Walk(t)[1..] == WalkAll(kids);
      if zipped {
        assert |data| > 0;
        ReadEncodeAll(lib, Latch(s, h).state, kids, depth - 1);
      } else {
        ReadEncodeAll(lib, Latch(s, h).state, kids, depth);
      }
  }

  lemma {:induction false} TakeOne(lib: Library, s: State, step: Step)
    ensures TakeAll(lib, s, [step]) == Take(lib, s, step)
  {
    assert [step][1..] == [];
  }

  // ---------- When every leaf arrives ----------

  /** A session id that is 0 or the one already latched. */
  predicate Joins(session: Option<int>, h: Header) {
    h.sessionId == 0 || session == None || session == Some(h.sessionId)
  }

  /** All the ids that are not 0, in headers and in the client, are one id. */
  ghost predicate OneSession(session: Option<int>, steps: seq<Step>) {
    && (forall i :: 0 <= i < |steps| && steps[i].Arrive? ==> Joins(session, steps[i].header))
    && (forall i, j ::
          (0 <= i < |steps| && 0 <= j < |steps| && steps[i].Arrive? && steps[j].Arrive? && steps[i].header.sessionId != 0)
          ==> Joins(Some(steps[i].header.sessionId), steps[j].header))
  }

  /** Every message can be handed out, after the log and the messages before it. */
  ghost predicate Deliverable(lib: Library, log: seq<Message>, steps: seq<Step>) {
    forall i :: 0 <= i < |steps| ==> CanDeliver(lib, log + Delivered(steps[..i]), steps[i])
  }

  function Delivered(steps: seq<Step>): seq<Message> {
    if steps == [] then []
    else DeliveredBy(steps[0]) + Delivered(steps[1..])
  }

  function SessionAfter(session: Option<int>, steps: seq<Step>): Option<int>
    decreases |steps|
  {
    if steps == [] then session
    else SessionAfter(if session == None && steps[0].Arrive? && steps[0].header.sessionId != 0
                      then Some(steps[0].header.sessionId) else session, steps[1..])
  }

  lemma {:induction false} OneSessionStep(session: Option<int>, steps: seq<Step>)
    requires steps != []
    ensures steps[0].Deliver? ==> (OneSession(session, steps) <==> OneSession(session, steps[1..]))
    ensures steps[0].Arrive? ==>
              (OneSession(session, steps) <==>
               Joins(session, steps[0].header) && OneSession(SessionAfter(session, [steps[0]]), steps[1..]))
  {
    var rest := steps[1..];
    assert forall i :: 1 <= i < |steps| ==> steps[i] == rest[i - 1];
    assert [steps[0]][1..] == [];
    if OneSession(session, steps) {
      assert forall i :: 0 <= i < |rest| ==> rest[i] == steps[i + 1];
    }
    var after := SessionAfter(session, [steps[0]]);
    assert session != None ==> after == SessionAfter(session, []) == session;
    if steps[0].Arrive? && Joins(session, steps[0].header) && OneSession(after, rest) {
      var id := steps[0].header.sessionId;
      assert id != 0 ==> after == SessionAfter(Some(id), []) == Some(id);
      forall i | 0 <= i < |steps| && steps[i].Arrive?
        ensures Joins(session, steps[i].header)
      {
        if i > 0 { assert Joins(after, rest[i - 1].header); }
      }
      forall i, j | 0 <= i < |steps| && 0 <= j < |steps| && steps[i].Arrive? && steps[j].Arrive?
          && steps[i].header.sessionId != 0
        ensures Joins(Some(steps[i].header.sessionId), steps[j].header)
      {
        if i > 0 { assert Joins(after, rest[i - 1].header); }
        if j > 0 { assert Joins(after, rest[j - 1].header); }
      }
    }
  }

  /** Whether one message can be handed out. */
  ghost predicate CanDeliver(lib: Library, log: seq<Message>, step: Step) {
    step.Deliver? ==> lib.isEMsg(step.message.emsg) && !lib.handlerRaises(log, step.message)
  }

  function DeliveredBy(step: Step): seq<Message> {
    if step.Deliver? then [step.message] else []
  }

  lemma {:induction false} DeliverableStep(lib: Library, log: seq<Message>, steps: seq<Step>)
    requires steps != []
    ensures Deliverable(lib, log, steps) <==>
            CanDeliver(lib, log, steps[0]) && Deliverable(lib, log + DeliveredBy(steps[0]), steps[1..])
  {
    var rest := steps[1..];
    assert log + Delivered(steps[..0]) == log;
    forall i | 0 <= i < |rest|
      ensures CanDeliver(lib, log + DeliveredBy(steps[0]) + Delivered(rest[..i]), rest[i]) ==
              CanDeliver(lib, log + Delivered(steps[..i + 1]), steps[i + 1])
    {
      assert steps[..i + 1][1..] == rest[..i] && steps[..i + 1][0] == steps[0];
      assert log + DeliveredBy(steps[0]) + Delivered(rest[..i]) == log + Delivered(steps[..i + 1]);
    }
    if CanDeliver(lib, log, steps[0]) && Deliverable(lib, log + DeliveredBy(steps[0]), rest) {
      forall i | 0 <= i < |steps|
        ensures CanDeliver(lib, log + Delivered(steps[..i]), steps[i])
      {
        if i > 0 {
          assert CanDeliver(lib, log + DeliveredBy(steps[0]) + Delivered(rest[..i - 1]), rest[i - 1]);
        }
      }
    }
    if Deliverable(lib, log, steps) {
      assert CanDeliver(lib, log + Delivered(steps[..0]), steps[0]);
      forall i | 0 <= i < |rest|
        ensures CanDeliver(lib, log + DeliveredBy(steps[0]) + Delivered(rest[..i]), rest[i])
      {
        assert CanDeliver(lib, log + Delivered(steps[..i + 1]), steps[i + 1]);
      }
    }
  }

  /** One step that succeeds: when it does, and what it leaves to the rest. */
  lemma {:induction false} TakeExactly(lib: Library, s: State, step: Step)
    ensures Take(lib, s, step).fault == None <==>
            if step.Arrive? then Joins(s.session, step.header) else CanDeliver(lib, s.log, step)
    ensures Take(lib, s, step).fault == None ==>
              Take(lib, s, step).state ==
              State(SessionAfter(s.session, [step]), s.log + DeliveredBy(step))
  {
    assert [step][1..] == [];
    assert s.log + [] == s.log;
  }

  lemma {:induction false} TakeAllExactly(lib: Library, s: State, steps: seq<Step>)
    ensures TakeAll(lib, s, steps).fault == None <==> OneSession(s.session, steps) && Deliverable(lib, s.log, steps)
    ensures TakeAll(lib, s, steps).fault == None ==>
              TakeAll(lib, s, steps).state == State(SessionAfter(s.session, steps), s.log + Delivered(steps))
    decreases |steps|
  {
    if steps == [] {
      assert s.log + [] == s.log;
    } else {
      TakeExactly(lib, s, steps[0]);
      OneSessionStep(s.session, steps);
      DeliverableStep(lib, s.log, steps);
      SessionStep(s.session, steps);
      var first := Take(lib, s, steps[0]);
      TakeAllExactly(lib, first.state, steps[1..]);
      LogStep(s.log, steps);
    }
  }

  lemma {:induction false} SessionStep(session: Option<int>, steps: seq<Step>)
    requires steps != []
    ensures SessionAfter(session, steps) == SessionAfter(SessionAfter(session, [steps[0]]), steps[1..])
    ensures steps[0].Deliver? ==> SessionAfter(session, [steps[0]]) == session
  {
    assert [steps[0]][1..] == [];
  }

  lemma {:induction false} LogStep(log: seq<Message>, steps: seq<Step>)
    requires steps != []
    ensures log + Delivered(steps) ==
            (log + DeliveredBy(steps[0])) + Delivered(steps[1..])
  {
  }

  lemma {:induction false} DeliveredAppend(a: seq<Step>, b: seq<Step>)
    ensures Delivered(a + b) == Delivered(a) + Delivered(b)
    decreases |a|
  {
    if a == [] {
      assert a + b == b;
    } else {
      assert (a + b)[1..] == a[1..] + b && (a + b)[0] == a[0];
      DeliveredAppend(a[1..], b);
      var first := DeliveredBy(a[0]);
      assert first + (Delivered(a[1..]) + Delivered(b)) == (first + Delivered(a[1..])) + Delivered(b);
    }
  }

  lemma {:induction false} WalkDeliversLeaves(t: Tree)
    ensures Delivered(Walk(t)) == Leaves(t)
    decreases t, 1
  {
    match t
    case Leaf(m) =>
      assert Walk(t)[1..] == [Deliver(m)];
      assert [Deliver(m)][1..] == [];
      assert Delivered([Deliver(m)]) == [m];
    case Bundle(h, kids, _) =>
      assert Walk(t)[1..] == WalkAll(kids);
      WalkAllDeliversLeaves(kids);
  }

  lemma {:induction false} WalkAllDeliversLeaves(ts: seq<Tree>)
    ensures Delivered(WalkAll(ts)) == LeavesAll(ts)
    decreases ts, 0
  {
    if ts != [] {
      WalkDeliversLeaves(ts[0]);
      WalkAllDeliversLeaves(ts[1..]);
      DeliveredAppend(Walk(ts[0]), WalkAll(ts[1..]));
    }
  }

  /**
   Reading an encoded tree ends well exactly when all its session ids agree with
   one another and with the client, every leaf has a known number, and no handler
   raises; the messages handed out then are the leaves, left to right.
  */
  lemma {:induction false} RoundTrip(lib: Library, s: State, t: Tree, depth: nat)
    requires FieldsFit(lib) && Encodable(lib, t) && depth >= ZipDepth(t)
    ensures var read := ReadPacket(lib, s, Encode(lib, t), depth);
            && (read.fault == None <==> OneSession(s.session, Walk(t)) && Deliverable(lib, s.log, Walk(t)))
            && (read.fault == None ==> read.state == State(SessionAfter(s.session, Walk(t)), s.log + Leaves(t)))
  {
    ReadEncode(lib, s, t, depth);
    TakeAllExactly(lib, s, Walk(t));
    WalkDeliversLeaves(t);
  }

  // ---------- The depth parameter ----------

  /** Reading that did not run out of depth is the same at any greater depth. */
  lemma {:induction false} DepthIsEnough(lib: Library, s: State, packet: Bytes, depth: nat, more: nat)
    requires FieldsFit(lib) && depth <= more
    requires ReadPacket(lib, s, packet, depth).fault != Some(TooDeep)
    ensures ReadPacket(lib, s, packet, more) == ReadPacket(lib, s, packet, depth)
    decreases depth, |packet|, 3
  {
    if |packet| >= 8 && IsMasked(UnpackU32(packet[..4])) {
      var cut := Min(8 + UnpackU32(packet[4..8]), |packet|);
      if lib.readHeader(packet[8..cut]).Some? {
        var latched := Latch(s, lib.readHeader(packet[8..cut]).value);
        var body := packet[cut..];
        if latched.fault == None && ClearMask(UnpackU32(packet[..4])) == MULTI && lib.isEMsg(MULTI) {
          MultiDepthIsEnough(lib, latched.state, body, depth, more);
        }
      }
    }
  }

  lemma {:induction false} MultiDepthIsEnough(lib: Library, s: State, body: Bytes, depth: nat, more: nat)
    requires FieldsFit(lib) && depth <= more
    requires ReadMulti(lib, s, body, depth).fault != Some(TooDeep)
    ensures ReadMulti(lib, s, body, more) == ReadMulti(lib, s, body, depth)
    decreases depth, |body|, 1
  {
    if lib.readMulti(body).Some? {
      var m := lib.readMulti(body).value;
      if m.sizeUnzipped == 0 {
        SplitWeight(m.body);
        FramesDepthIsEnough(lib, s, SplitFrames(m.body).frames, depth, more);
      } else if lib.gunzip(m.body).Some? {
        FramesDepthIsEnough(lib, s, SplitFrames(lib.gunzip(m.body).value).frames, depth - 1, more - 1);
      }
    }
  }

  lemma {:induction false} FramesDepthIsEnough(lib: Library, s: State, frames: seq<Frame>, depth: nat, more: nat)
    requires FieldsFit(lib) && depth <= more
    requires ReadFrames(lib, s, frames, depth).fault != Some(TooDeep)
    ensures ReadFrames(lib, s, frames, more) == ReadFrames(lib, s, frames, depth)
    decreases depth, Weight(frames), 0
  {
    if frames != [] {
      DepthIsEnough(lib, s, frames[0].bytes, depth, more);
      var first := ReadPacket(lib, s, frames[0].bytes, depth);
      if first.fault == None {
        FramesDepthIsEnough(lib, first.state, frames[1..], depth, more);
      }
    }
  }
}
