/** The client object that owns the socket: it reads packets, sends messages and works off the job list. */
module ProtobufClient {
  import opened Maybe
  import opened Wire
  import opened Packets
  import opened Jobs
  import opened SteamIds

  /** Who sends the message, in which session, from and to which jobs; numbers that are not known are the bare mask or 0. */
  predicate Addresses(h: Header, confirmed: Option<nat>, session: Option<int>,
                      source: Option<nat>, target: Option<nat>, name: Option<string>) {
    && h.steamId == (if confirmed.Some? then confirmed.value else 0x0110000100000000)
    && h.sessionId == (if session.Some? then session.value else 0)
    && h.sourceJob == source && h.targetJob == target && h.targetJobName == name && h.eresult == 0
  }

  class ProtobufClient {
    const lib: Library

    var confirmedSteamId: Option<nat>
    var sessionId: Option<int>
    var dispatched: seq<Message>
    var sent: seq<Bytes>

    var jobList: seq<Job>
    var jobsToProcess: nat
    var asked: seq<Job>
    ghost var submitted: seq<Job>
    ghost var handled: seq<Job>
    ghost var packets: nat

    constructor (lib: Library)
      ensures this.lib == lib && View() == State(None, []) && Pumping() == Pump([], 0, [], [], [], 0)
      ensures confirmedSteamId == None && sent == []
    {
      this.lib := lib;
      confirmedSteamId, sessionId, dispatched, sent := None, None, [], [];
      jobList, jobsToProcess, asked := [], 0, [];
      submitted, handled, packets := [], [], 0;
    }

    ghost function View(): State
      reads this
    {
      State(sessionId, dispatched)
    }

    ghost function Pumping(): Pump
      reads this
    {
      Pump(jobList, jobsToProcess, submitted, handled, asked, packets)
    }

    // ---------- Sending ----------

    /** The header of an outgoing message: the confirmed id or the bare mask, and the latched session if any. */
    function OutgoingHeader(source: Option<nat>, target: Option<nat>, name: Option<string>): Header
      reads this
    {
      Header(if confirmedSteamId.Some? then confirmedSteamId.value else ACCOUNT_ID_MASK,
             if sessionId.Some? then sessionId.value else 0, source, target, name, 0)
    }

    /** Raises, and sends nothing, exactly when a number does not fit struct's 32 bits. */
    method Send(emsg: nat, body: Bytes, source: Option<nat>, target: Option<nat>, name: Option<string>)
      returns (raised: bool)
      modifies this`sent
      ensures raised <==> !Sendable(lib, emsg, OutgoingHeader(source, target, name))
      ensures raised <==> SetMask(emsg) >= 0x1_0000_0000 || |lib.writeHeader(OutgoingHeader(source, target, name))| >= 0x1_0000_0000
      ensures sent == old(sent) + (if raised then [] else [Layout(lib, emsg, OutgoingHeader(source, target, name), body)])
      ensures Addresses(OutgoingHeader(source, target, name), confirmedSteamId, sessionId, source, target, name)
    {
      var h := Header(0, 0, None, None, None, 0);
      if confirmedSteamId.Some? {
        h := h.(steamId := confirmedSteamId.value);
      } else {
        h := h.(steamId := 0 + ACCOUNT_ID_MASK);
      }
      if sessionId.Some? {
        h := h.(sessionId := sessionId.value);
      }
      if source.Some? {
        h := h.(sourceJob := source);
      }
      if target.Some? {
        h := h.(targetJob := target);
      }
      if name.Some? {
        h := h.(targetJobName := name);
      }
      var header := lib.writeHeader(h);
      if SetMask(emsg) >= WORD || |header| >= WORD {
        return true;
      }
      var data := PackU32(SetMask(emsg)) + PackU32(|header|);
      data := data + header + body;
      assert data == Layout(lib, emsg, h, body);
      sent := sent + [data];
      raised := false;
    }

    // ---------- Reading ----------

    method ProcessPacket(packet: Bytes, depth: nat) returns (fault: Option<Fault>)
      requires FieldsFit(lib)
      modifies this`sessionId, this`dispatched
      ensures Outcome(View(), fault) == ReadPacket(lib, old(View()), packet, depth)
      decreases depth, |packet|, 3
    {
      if |packet| < 4 {
        return Some(ShortPacket);
      }
      var raw := UnpackU32(packet[..4]);
      var emsg := ClearMask(raw);
      if IsMasked(raw) {
        if |packet| < 8 {
          return Some(ShortPacket);
        }
        var cut := Min(8 + UnpackU32(packet[4..8]), |packet|);
        var parsed := lib.readHeader(packet[8..cut]);
        if parsed == None {
          return Some(BadHeader);
        }
        var header := parsed.value;
        if header.sessionId != 0 {
          if sessionId == None {
            sessionId := Some(header.sessionId);
          }
          if sessionId != Some(header.sessionId) {
            return Some(SessionMismatch);
          }
        }
        fault := ProcessMessage(emsg, header, packet[cut..], depth);
      } else {
        fault := if lib.isEMsg(emsg) then None else Some(UnknownEMsg);
      }
    }

    method ProcessMessage(emsg: nat, header: Header, body: Bytes, depth: nat) returns (fault: Option<Fault>)
      requires FieldsFit(lib)
      modifies this`sessionId, this`dispatched
      ensures Outcome(View(), fault) == ReadMessage(lib, old(View()), emsg, header, body, depth)
      decreases depth, |body|, 2
    {
      if !lib.isEMsg(emsg) {
        return Some(UnknownEMsg);
      }
      if emsg == MULTI {
        fault := ProcessMulti(body, depth);
      } else {
        var m := Message(emsg, header, body);
        fault := if lib.handlerRaises(dispatched, m) then Some(HandlerRaised) else None;
        dispatched := dispatched + [m];
      }
    }

    method ProcessMulti(body: Bytes, depth: nat) returns (fault: Option<Fault>)
      requires FieldsFit(lib)
      modifies this`sessionId, this`dispatched
      ensures Outcome(View(), fault) == ReadMulti(lib, old(View()), body, depth)
      decreases depth, |body|, 1
    {
      var parsed := lib.readMulti(body);
      if parsed == None {
        return Some(BadMulti);
      }
      var data, left := parsed.value.body, depth;
      if parsed.value.sizeUnzipped > 0 {
        if depth == 0 {
          return Some(TooDeep);
        }
        var unzipped := lib.gunzip(data);
        if unzipped == None {
          return Some(BadGzip);
        }
        data, left := unzipped.value, depth - 1;
      }
      fault := ProcessFrames(data, left);
    }

    /** The loop of _process_multi over length-prefixed packets. */
    method ProcessFrames(data: Bytes, depth: nat) returns (fault: Option<Fault>)
      requires FieldsFit(lib)
      modifies this`sessionId, this`dispatched
      ensures Outcome(View(), fault) == ReadFrames(lib, old(View()), SplitFrames(data).frames, depth)
      decreases depth, |data|, 0
    {
      ghost var all := ReadFrames(lib, View(), SplitFrames(data).frames, depth);
      var offset := 0;
      assert data[0..] == data;
      while offset + 4 <= |data|
        invariant 0 <= offset
        invariant all == ReadFrom(lib, View(), data, offset, depth)
        decreases |data| - offset
      {
        var size := UnpackU32(data[offset..offset + 4]);
        ReadFrameAt(lib, View(), data, offset, depth);
        fault := ProcessPacket(data[offset + 4..Min(offset + 4 + size, |data|)], depth);
        if fault != None {
          return;
        }
        offset := offset + 4 + size;
      }
      fault := None;
    }

    // ---------- The loop of run ----------

    /** Python's list.remove: drops the first entry equal to the job. */
    method RemoveJob(job: Job)
      requires job in jobList
      modifies this`jobList
      ensures exists i :: 0 <= i < |old(jobList)| && old(jobList)[i] == job && job !in old(jobList)[..i]
                && jobList == old(jobList)[..i] + old(jobList)[i + 1..]
    {
      var i := 0;
      while jobList[i] != job
        invariant 0 <= i < |jobList| && job in jobList[i..] && job !in jobList[..i]
        decreases |jobList| - i
      {
        i := i + 1;
      }
      jobList := jobList[..i] + jobList[i + 1..];
    }

    /** Removing a job that is first on the list removes it there, whatever equal jobs follow. */
    method RemoveFirstJob(job: Job)
      requires jobList != [] && jobList[0] == job
      modifies this`jobList
      ensures jobList == old(jobList)[1..]
    {
      ghost var before := jobList;
      RemoveJob(job);
      ghost var i :| 0 <= i < |before| && before[i] == job && job !in before[..i] && jobList == before[..i] + before[i + 1..];
      HeadIsIn(before, i);
    }

    /** The jobs that other tasks append while this one is suspended. */
    method Suspend(submits: seq<Job>)
      modifies this`jobList, this`submitted
      ensures Pumping() == Submit(old(Pumping()), submits)
    {
      jobList := jobList + submits;
      submitted := submitted + submits;
    }

    /** The body of the loop over the first two jobs. */
    method HandleJob(job: Job, a: Await) returns (raised: bool)
      requires jobList != [] && jobList[0] == job
      modifies this`jobList, this`jobsToProcess, this`asked, this`submitted, this`handled
      ensures (Pumping(), raised) == HandleFirst(old(Pumping()), a)
    {
      jobsToProcess := jobsToProcess + 1;
      raised := false;
      if job.Other? {
        RemoveFirstJob(job);
      } else {
        Suspend(a.submits);
        if a.raises {
          return true;
        }
        asked := asked + [job];
        RemoveFirstJob(job);
      }
      handled := handled + [job];
    }

    method Run(turns: seq<Turn>, depth: nat) returns (end: End)
      requires FieldsFit(lib)
      modifies this
      ensures Result(Client(View(), Pumping()), end) == TakeTurns(lib, old(Client(View(), Pumping())), turns, depth)
    {
      ghost var all := TakeTurns(lib, Client(View(), Pumping()), turns, depth);
      var n := 0;
      while n < |turns|
        invariant 0 <= n <= |turns|
        invariant all == TakeTurns(lib, Client(View(), Pumping()), turns[n..], depth)
      {
        assert turns[n..][0] == turns[n] && turns[n..][1..] == turns[n + 1..];
        end := RunOnce(turns[n], depth);
        if end != Running {
          return;
        }
        n := n + 1;
      }
      end := Running;
    }

    method RunOnce(t: Turn, depth: nat) returns (end: End)
      requires FieldsFit(lib)
      modifies this
      ensures Result(Client(View(), Pumping()), end) == TakeTurn(lib, old(Client(View(), Pumping())), t, depth)
    {
      var raised := FeedJobs(t.first, t.second);
      if raised {
        return Broken;
      }
      Suspend(t.whileReceiving);
      match t.received
      case TimedOut => end := Running;
      case Cancelled => end := Closed;
      case Lost => end := Broken;
      case Packet(bytes) =>
        var fault := ProcessPacket(bytes, depth);
        Suspend(t.whileReading);
        if fault.Some? {
          return Broken;
        }
        packets := packets + 1;
        if jobsToProcess > 0 {
          jobsToProcess := jobsToProcess - 1;
        }
        end := Running;
    }

    /** Iterates over a copy of the first two jobs, while the list itself shrinks and grows. */
    method FeedJobs(first: Await, second: Await) returns (raised: bool)
      modifies this`jobList, this`jobsToProcess, this`asked, this`submitted, this`handled
      ensures (Pumping(), raised) == Feed(old(Pumping()), first, second)
    {
      raised := false;
      if jobsToProcess < 2 {
        var batch := jobList[..Min(2, |jobList|)];
        ghost var start := Pumping();
        for i := 0 to |batch|
          invariant !raised
          invariant i == 0 ==> Pumping() == start
          invariant i == 1 ==> (Pumping(), false) == HandleFirst(start, first)
          invariant i >= 1 ==> !HandleFirst(start, first).1
          invariant i == 2 ==> (Pumping(), false) == HandleFirst(HandleFirst(start, first).0, second)
          invariant forall k :: i <= k < |batch| ==> k - i < |jobList| && jobList[k - i] == batch[k]
        {
          raised := HandleJob(batch[i], if i == 0 then first else second);
          if raised {
            return;
          }
        }
      }
    }
  }

  lemma {:induction false} HeadIsIn(s: seq<Job>, i: nat)
    requires s != [] && i <= |s|
    ensures i > 0 ==> s[0] in s[..i]
  {
    assert i > 0 ==> s[..i][0] == s[0];
  }

  /** What is left to read of a Multi body from an offset, which a cut frame carries past the end. */
  ghost function ReadFrom(lib: Library, s: State, data: Bytes, offset: nat, depth: nat): Outcome
    requires FieldsFit(lib)
  {
    if offset <= |data| then ReadFrames(lib, s, SplitFrames(data[offset..]).frames, depth) else Done(s)
  }

  lemma {:induction false} ReadFrameAt(lib: Library, s: State, data: Bytes, offset: nat, depth: nat)
    requires FieldsFit(lib) && offset + 4 <= |data|
    ensures var size := UnpackU32(data[offset..offset + 4]);
            var first := ReadPacket(lib, s, data[offset + 4..Min(offset + 4 + size, |data|)], depth);
            ReadFrom(lib, s, data, offset, depth) ==
            if first.fault.Some? then first else ReadFrom(lib, first.state, data, offset + 4 + size, depth)
  {
    var size := UnpackU32(data[offset..offset + 4]);
    var frames := SplitFrames(data[offset..]).frames;
    FrameAt(data, offset);
    var first := ReadPacket(lib, s, frames[0].bytes, depth);
    assert offset + 4 + size > |data| ==> ReadFrames(lib, first.state, frames[1..], depth) == Done(first.state);
  }

  /** The frame at an offset of a Multi body, as the loop slices it and as SplitFrames takes it. */
  lemma {:induction false} FrameAt(data: Bytes, offset: nat)
    requires offset + 4 <= |data|
    ensures var size := UnpackU32(data[offset..offset + 4]);
            var end := Min(offset + 4 + size, |data|);
            var frames := SplitFrames(data[offset..]).frames;
            && frames != []
            && frames[0].bytes == data[offset + 4..end]
            && frames[1..] == (if offset + 4 + size <= |data| then SplitFrames(data[offset + 4 + size..]).frames else [])
  {
    var here := data[offset..];
    var size := UnpackU32(data[offset..offset + 4]);
    assert here[..4] == data[offset..offset + 4];
    assert here == here[..4] + here[4..];
    SplitStepAfter(here[..4], size, here[4..]);
    assert here[4..] == data[offset + 4..];
    if size <= |here| - 4 {
      assert here[4..][..size] == data[offset + 4..offset + 4 + size];
      assert here[4..][size..] == data[offset + 4 + size..];
    }
  }
}
