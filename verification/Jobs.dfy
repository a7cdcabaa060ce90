/**
 The job list of ProtobufClient.run: requests that other tasks append, at most two
 of which are sent before the next packet, and fewer while answers are awaited.
*/
module Jobs {
  import opened Maybe
  import opened Wire
  import opened Packets

  datatype Job = GameStats(gameId: string) | Collections | GameTimes | Other(name: string)

  /** What the other tasks and the socket do at one await: jobs submitted meanwhile, and whether it raises. */
  datatype Await = Await(submits: seq<Job>, raises: bool)

  datatype Receive = Packet(bytes: Bytes) | TimedOut | Cancelled | Lost

  /** The environment's part in one turn of the loop. */
  datatype Turn = Turn(first: Await, second: Await, whileReceiving: seq<Job>, received: Receive, whileReading: seq<Job>)

  /**
   The loop's variables, and what happened so far: every job submitted, every
   job taken off the list, those a request was sent for, and the packets read.
  */
  datatype Pump = Pump(jobs: seq<Job>, toProcess: nat, submitted: seq<Job>, handled: seq<Job>, asked: seq<Job>, packets: nat)

  datatype End = Running | Closed | Broken

  datatype Client = Client(state: State, pump: Pump)

  datatype Result = Result(client: Client, end: End)

  // ---------- One turn ----------

  function Submit(p: Pump, js: seq<Job>): Pump {
    p.(jobs := p.jobs + js, submitted := p.submitted + js)
  }

  /** Sends the request of the first job, then removes the job; a send that raises leaves it on the list. */
  function HandleFirst(p: Pump, a: Await): (r: (Pump, bool))
    requires p.jobs != []
  {
    var job := p.jobs[0];
    if job.Other? then
      (p.(jobs := p.jobs[1..], toProcess := p.toProcess + 1, handled := p.handled + [job]), false)
    else
      var q := Submit(p, a.submits).(toProcess := p.toProcess + 1);
      if a.raises then (q, true)
      else (q.(jobs := q.jobs[1..], handled := p.handled + [job], asked := p.asked + [job]), false)
  }

  /** The jobs handled before waiting for a packet: none, or those among the first two of the list. */
  function Feed(p: Pump, first: Await, second: Await): (r: (Pump, bool)) {
    if p.toProcess >= 2 || p.jobs == [] then
      (p, false)
    else
      var (q, raised) := HandleFirst(p, first);
      if raised || |p.jobs| == 1 then (q, raised) else HandleFirst(q, second)
  }

  /** The loop's counter after a packet was read without an exception. */
  function AfterPacket(p: Pump): Pump {
    p.(packets := p.packets + 1, toProcess := if p.toProcess > 0 then p.toProcess - 1 else 0)
  }

  ghost function TakeTurn(lib: Library, c: Client, t: Turn, depth: nat): Result
    requires FieldsFit(lib)
  {
    var (fed, raised) := Feed(c.pump, t.first, t.second);
    if raised then
      Result(c.(pump := fed), Broken)
    else
      var p := Submit(fed, t.whileReceiving);
      match t.received
      case TimedOut => Result(c.(pump := p), Running)
      case Cancelled => Result(c.(pump := p), Closed)
      case Lost => Result(c.(pump := p), Broken)
      case Packet(bytes) =>
        var read := ReadPacket(lib, c.state, bytes, depth);
        var q := Submit(p, t.whileReading);
        if read.fault.Some? then Result(Client(read.state, q), Broken)
        else Result(Client(read.state, AfterPacket(q)), Running)
  }

  ghost function TakeTurns(lib: Library, c: Client, turns: seq<Turn>, depth: nat): Result
    requires FieldsFit(lib)
    decreases |turns|
  {
    if turns == [] then
      Result(c, Running)
    else
      var first := TakeTurn(lib, c, turns[0], depth);
      if first.end != Running then first else TakeTurns(lib, first.client, turns[1..], depth)
  }

  // ---------- Nothing is lost, repeated or reordered ----------

  function Known(js: seq<Job>): seq<Job> {
    if js == [] then []
    else Known(js[..|js| - 1]) + (if js[|js| - 1].Other? then [] else [js[|js| - 1]])
  }

  /** Jobs leave in the order they came, each once; requests are sent for the known ones; the counter is bounded. */
  ghost predicate Orderly(p: Pump) {
    && p.handled + p.jobs == p.submitted
    && p.asked == Known(p.handled)
    && p.toProcess <= 3
    && |p.handled| <= p.packets + p.toProcess
  }

  lemma {:induction false} KnownAppend(js: seq<Job>, job: Job)
    ensures Known(js + [job]) == Known(js) + (if job.Other? then [] else [job])
  {
    assert (js + [job])[..|js|] == js;
  }

  /** Moving the first job of a list, and appending to the list, keeps the whole in order. */
  lemma {:induction false} MoveFirst(handled: seq<Job>, jobs: seq<Job>, more: seq<Job>)
    requires jobs != []
    ensures (handled + [jobs[0]]) + (jobs + more)[1..] == (handled + jobs) + more
    ensures handled + (jobs + more) == (handled + jobs) + more
  {
    assert jobs == [jobs[0]] + jobs[1..];
    assert (jobs + more)[1..] == jobs[1..] + more;
  }

  lemma {:induction false} HandleFirstKeepsOrder(p: Pump, a: Await)
    requires p.handled + p.jobs == p.submitted && p.asked == Known(p.handled) && p.jobs != []
    ensures var (q, raised) := HandleFirst(p, a);
            && q.handled + q.jobs == q.submitted && q.asked == Known(q.handled)
            && q.toProcess == p.toProcess + 1 && q.packets == p.packets
            && |q.handled| == |p.handled| + (if raised then 0 else 1)
            && (!raised && |p.jobs| > 1 ==> q.jobs != [])
  {
    KnownAppend(p.handled, p.jobs[0]);
    if p.jobs[0].Other? {
      MoveFirst(p.handled, p.jobs, []);
      assert p.jobs + [] == p.jobs;
    } else {
      MoveFirst(p.handled, p.jobs, a.submits);
    }
  }

  lemma {:induction false} FeedKeepsOrder(p: Pump, first: Await, second: Await)
    requires Orderly(p)
    ensures Orderly(Feed(p, first, second).0)
  {
    if p.toProcess < 2 && p.jobs != [] {
      HandleFirstKeepsOrder(p, first);
      var (q, raised) := HandleFirst(p, first);
      if !raised && |p.jobs| > 1 {
        HandleFirstKeepsOrder(q, second);
      }
    }
  }

  lemma {:induction false} SubmitKeepsOrder(p: Pump, js: seq<Job>)
    requires Orderly(p)
    ensures Orderly(Submit(p, js))
  {
    assert p.handled + (p.jobs + js) == (p.handled + p.jobs) + js;
  }

  lemma {:induction false} TurnKeepsOrder(lib: Library, c: Client, t: Turn, depth: nat)
    requires FieldsFit(lib) && Orderly(c.pump)
    ensures Orderly(TakeTurn(lib, c, t, depth).client.pump)
  {
    FeedKeepsOrder(c.pump, t.first, t.second);
    var (fed, raised) := Feed(c.pump, t.first, t.second);
    SubmitKeepsOrder(fed, t.whileReceiving);
    SubmitKeepsOrder(Submit(fed, t.whileReceiving), t.whileReading);
  }

  /**
   Over any run, however it ends and whatever is submitted at its awaits: the
   handled jobs followed by the list are the submitted jobs, at most three
   answers are awaited, and at most three more jobs are handled than packets read.
  */
  lemma {:induction false} RunIsOrderly(lib: Library, c: Client, turns: seq<Turn>, depth: nat)
    requires FieldsFit(lib) && Orderly(c.pump)
    ensures var p := TakeTurns(lib, c, turns, depth).client.pump;
            Orderly(p) && |p.handled| <= p.packets + 3
    decreases |turns|
  {
    if turns != [] {
      TurnKeepsOrder(lib, c, turns[0], depth);
      RunIsOrderly(lib, TakeTurn(lib, c, turns[0], depth).client, turns[1..], depth);
    }
  }

  // ---------- How soon the list drains ----------

  /** How many packets must be read before the last of n jobs is handled, with k answers awaited. */
  function PacketsNeeded(n: nat, k: nat): nat
    decreases n, k
  {
    if n == 0 || (k < 2 && n <= 2) then 0
    else if k < 2 then PacketsNeeded(n - 2, k + 2)
    else 1 + PacketsNeeded(n, k - 1)
  }

  /** A turn with no submission and no exception. */
  predicate Quiet(t: Turn) {
    && !t.first.raises && !t.second.raises
    && t.first.submits == [] && t.second.submits == [] && t.whileReceiving == [] && t.whileReading == []
  }

  predicate AllQuiet(turns: seq<Turn>) {
    forall t :: t in turns ==> Quiet(t)
  }

  function PacketsIn(turns: seq<Turn>): nat {
    if turns == [] then 0 else (if turns[0].received.Packet? then 1 else 0) + PacketsIn(turns[1..])
  }

  const CALM: Await := Await([], false)

  lemma {:induction false} CalmFeed(p: Pump, first: Await, second: Await)
    requires first == CALM && second == CALM
    ensures var n := if p.toProcess < 2 then Min(2, |p.jobs|) else 0;
            var (q, raised) := Feed(p, first, second);
            !raised && q.jobs == p.jobs[n..] && q.toProcess == p.toProcess + n
  {
    if p.toProcess < 2 && |p.jobs| > 1 {
      assert p.jobs + [] == p.jobs && p.jobs[1..] + [] == p.jobs[1..];
      assert p.jobs[1..][1..] == p.jobs[2..];
    }
  }

  /** One quiet turn uses up one of the packets still needed if it brings a packet, and none otherwise. */
  lemma {:induction false} QuietTurn(lib: Library, c: Client, t: Turn, depth: nat)
    requires FieldsFit(lib) && Quiet(t) && TakeTurn(lib, c, t, depth).end == Running
    ensures var p, q := c.pump, TakeTurn(lib, c, t, depth).client.pump;
            var need := PacketsNeeded(|p.jobs|, p.toProcess);
            PacketsNeeded(|q.jobs|, q.toProcess) == (if need > 0 && t.received.Packet? then need - 1 else need)
  {
    var p := c.pump;
    CalmFeed(p, t.first, t.second);
    var fed := Feed(p, t.first, t.second).0;
    assert Submit(fed, t.whileReceiving).jobs == fed.jobs;
    assert Submit(Submit(fed, t.whileReceiving), t.whileReading).jobs == fed.jobs;
    assert PacketsNeeded(|fed.jobs|, fed.toProcess) == PacketsNeeded(|p.jobs|, p.toProcess);
    assert |fed.jobs| > 0 ==> fed.toProcess >= 2;
  }

  /**
   With no new submissions, the next feed empties the list exactly when the
   packets needed have been read. That is at most one packet more than there
   were jobs.
  */
  lemma {:induction false} ListDrains(lib: Library, c: Client, turns: seq<Turn>, depth: nat)
    requires FieldsFit(lib) && AllQuiet(turns) && TakeTurns(lib, c, turns, depth).end == Running
    ensures var p, q := c.pump, TakeTurns(lib, c, turns, depth).client.pump;
            && (Feed(q, CALM, CALM).0.jobs == [] <==> PacketsIn(turns) >= PacketsNeeded(|p.jobs|, p.toProcess))
            && (p.toProcess <= 3 && PacketsIn(turns) > |p.jobs| ==> Feed(q, CALM, CALM).0.jobs == [])
    decreases |turns|
  {
    var p := c.pump;
    if p.toProcess <= 3 {
      NeededBound(|p.jobs|, p.toProcess);
    }
    if turns == [] {
      CalmFeed(p, CALM, CALM);
    } else {
      var next := TakeTurn(lib, c, turns[0], depth);
      assert turns[0] in turns;
      assert forall t :: t in turns[1..] ==> t in turns;
      QuietTurn(lib, c, turns[0], depth);
      ListDrains(lib, next.client, turns[1..], depth);
    }
  }

  /** The bound, and the worst case that meets it: three answers awaited and an odd number of jobs. */
  lemma {:induction false} NeededBound(n: nat, k: nat)
    requires k <= 3
    ensures PacketsNeeded(n, k) <= n + 1
    ensures k == 3 && n > 0 ==> PacketsNeeded(n, k) == n + n % 2
    ensures k == 2 && n > 0 ==> PacketsNeeded(n, k) == n + n % 2 - 1
    decreases n, k
  {
    if n == 0 || (k < 2 && n <= 2) {
    } else if k < 2 {
      NeededBound(n - 2, k + 2);
    } else {
      NeededBound(n, k - 1);
      if k == 2 && n > 2 {
        NeededBound(n - 2, 3);
      }
    }
  }
}
