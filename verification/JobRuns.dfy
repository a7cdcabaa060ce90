/** When the client's loop goes on and how it ends, and what it has read and been given by then. */
module JobRuns {
  import opened Maybe
  import opened Wire
  import opened Packets
  import opened Jobs

  // ---------- One turn ----------

  /** How many jobs a turn begins with: two of the list, fewer if it is shorter, none while two answers are awaited. */
  function Batch(p: Pump): nat {
    if p.toProcess >= 2 then 0 else if |p.jobs| < 2 then |p.jobs| else 2
  }

  predicate FirstRaises(p: Pump, t: Turn) {
    Batch(p) >= 1 && !p.jobs[0].Other? && t.first.raises
  }

  /** Sending the request of one of the jobs raises. */
  predicate JobRaises(p: Pump, t: Turn) {
    FirstRaises(p, t) || (Batch(p) == 2 && !p.jobs[1].Other? && t.second.raises)
  }

  /** No job raises; then nothing comes for a while, or a packet that is read without a fault. */
  ghost predicate GoesOn(lib: Library, c: Client, t: Turn, depth: nat)
    requires FieldsFit(lib)
  {
    && !JobRaises(c.pump, t)
    && (t.received.TimedOut? || (t.received.Packet? && ReadPacket(lib, c.state, t.received.bytes, depth).fault == None))
  }

  predicate IsClosed(c: Client, t: Turn) {
    !JobRaises(c.pump, t) && t.received.Cancelled?
  }

  /** What others submit in a turn that goes on: while requests of jobs are sent, while waiting, and while a packet is read. */
  function SubmittedIn(p: Pump, t: Turn): seq<Job> {
    (if Batch(p) >= 1 && !p.jobs[0].Other? then t.first.submits else [])
    + (if Batch(p) == 2 && !p.jobs[1].Other? then t.second.submits else [])
    + t.whileReceiving
    + (if t.received.Packet? then t.whileReading else [])
  }

  lemma {:induction false} FeedRaises(p: Pump, t: Turn)
    ensures Feed(p, t.first, t.second).1 <==> JobRaises(p, t)
    ensures !JobRaises(p, t) ==>
              Feed(p, t.first, t.second).0.submitted ==
              p.submitted + (if Batch(p) >= 1 && !p.jobs[0].Other? then t.first.submits else [])
                          + (if Batch(p) == 2 && !p.jobs[1].Other? then t.second.submits else [])
    ensures Feed(p, t.first, t.second).0.packets == p.packets
  {
    if Batch(p) == 2 && !FirstRaises(p, t) {
      var q := HandleFirst(p, t.first).0;
      assert q.jobs[0] == p.jobs[1];
    }
  }

  lemma {:induction false} TurnEnds(lib: Library, c: Client, t: Turn, depth: nat)
    requires FieldsFit(lib)
    ensures var result := TakeTurn(lib, c, t, depth);
            && (result.end == Running <==> GoesOn(lib, c, t, depth))
            && (result.end == Closed <==> IsClosed(c, t))
  {
    FeedRaises(c.pump, t);
  }

  lemma {:induction false} TurnReads(lib: Library, c: Client, t: Turn, depth: nat)
    requires FieldsFit(lib) && GoesOn(lib, c, t, depth)
    ensures var d := TakeTurn(lib, c, t, depth).client;
            && d.state == (if t.received.Packet? then ReadPacket(lib, c.state, t.received.bytes, depth).state else c.state)
            && d.pump.packets == c.pump.packets + (if t.received.Packet? then 1 else 0)
  {
    FeedRaises(c.pump, t);
  }

  lemma {:induction false} TurnSubmits(lib: Library, c: Client, t: Turn, depth: nat)
    requires FieldsFit(lib) && GoesOn(lib, c, t, depth)
    ensures TakeTurn(lib, c, t, depth).client.pump.submitted == c.pump.submitted + SubmittedIn(c.pump, t)
  {
    FeedRaises(c.pump, t);
    Together(c.pump.submitted,
             if Batch(c.pump) >= 1 && !c.pump.jobs[0].Other? then t.first.submits else [],
             if Batch(c.pump) == 2 && !c.pump.jobs[1].Other? then t.second.submits else [],
             t.whileReceiving, if t.received.Packet? then t.whileReading else []);
  }

  lemma {:induction false} Together(before: seq<Job>, a: seq<Job>, b: seq<Job>, c: seq<Job>, d: seq<Job>)
    ensures (before + a + b) + c + d == before + (a + b + c + d)
    ensures (before + a + b) + c + [] == (before + a + b) + c
  {
  }

  // ---------- Whole runs ----------

  /** The packets received, in order; a wait that times out receives none. */
  function Received(turns: seq<Turn>): seq<Bytes> {
    if turns == [] then []
    else (if turns[0].received.Packet? then [turns[0].received.bytes] else []) + Received(turns[1..])
  }

  /** Reads packets one after the other, up to the first fault. */
  ghost function ReadEach(lib: Library, s: State, packets: seq<Bytes>, depth: nat): Outcome
    requires FieldsFit(lib)
    decreases |packets|
  {
    if packets == [] then Done(s)
    else
      var first := ReadPacket(lib, s, packets[0], depth);
      if first.fault.Some? then first else ReadEach(lib, first.state, packets[1..], depth)
  }

  ghost predicate AllGoOn(lib: Library, c: Client, turns: seq<Turn>, depth: nat)
    requires FieldsFit(lib)
    decreases |turns|
  {
    turns == [] || (GoesOn(lib, c, turns[0], depth) && AllGoOn(lib, TakeTurn(lib, c, turns[0], depth).client, turns[1..], depth))
  }

  /** Some receive is cancelled, and all turns before it go on. */
  ghost predicate GetsClosed(lib: Library, c: Client, turns: seq<Turn>, depth: nat)
    requires FieldsFit(lib)
    decreases |turns|
  {
    turns != []
    && (IsClosed(c, turns[0])
        || (GoesOn(lib, c, turns[0], depth) && GetsClosed(lib, TakeTurn(lib, c, turns[0], depth).client, turns[1..], depth)))
  }

  /**
   The loop goes on exactly as long as no job raises, no receive is cancelled or
   fails, and every packet is read without a fault: a socket that stays quiet does
   not end it. It closes exactly if a receive is cancelled before anything else ends it.
  */
  lemma {:induction false} RunEnds(lib: Library, c: Client, turns: seq<Turn>, depth: nat)
    requires FieldsFit(lib)
    ensures var end := TakeTurns(lib, c, turns, depth).end;
            && (end == Running <==> AllGoOn(lib, c, turns, depth))
            && (end == Closed <==> GetsClosed(lib, c, turns, depth))
    decreases |turns|
  {
    if turns != [] {
      TurnEnds(lib, c, turns[0], depth);
      RunEnds(lib, TakeTurn(lib, c, turns[0], depth).client, turns[1..], depth);
    }
  }

  /** As long as it goes on, it has read exactly the packets received, one after the other, and counted each. */
  lemma {:induction false} RunReads(lib: Library, c: Client, turns: seq<Turn>, depth: nat)
    requires FieldsFit(lib) && AllGoOn(lib, c, turns, depth)
    ensures var d := TakeTurns(lib, c, turns, depth).client;
            && ReadEach(lib, c.state, Received(turns), depth) == Done(d.state)
            && d.pump.packets == c.pump.packets + |Received(turns)|
    decreases |turns|
  {
    if turns != [] {
      TurnEnds(lib, c, turns[0], depth);
      TurnReads(lib, c, turns[0], depth);
      RunReads(lib, TakeTurn(lib, c, turns[0], depth).client, turns[1..], depth);
      ReadNext(lib, c.state, turns, depth);
    }
  }

  lemma {:induction false} ReadNext(lib: Library, s: State, turns: seq<Turn>, depth: nat)
    requires FieldsFit(lib) && turns != []
    ensures ReadEach(lib, s, Received(turns), depth) ==
            if turns[0].received.Packet? then
              var first := ReadPacket(lib, s, turns[0].received.bytes, depth);
              if first.fault.Some? then first else ReadEach(lib, first.state, Received(turns[1..]), depth)
            else ReadEach(lib, s, Received(turns[1..]), depth)
  {
    if turns[0].received.Packet? {
      assert Received(turns)[0] == turns[0].received.bytes && Received(turns)[1..] == Received(turns[1..]);
    } else {
      assert Received(turns) == Received(turns[1..]);
    }
  }
}
