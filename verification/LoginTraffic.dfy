/**
 The traffic between backend and websocket task in every run, whatever times out
 or fails: how many requests and answers are on the way, and to which request
 the answer belongs that a handler is about to consume.
*/
module LoginTraffic {
  import opened Maybe
  import opened TwoFactor
  import opened LoginServer
  import opened LoginProtocol
  import UserInfos

  function Waits(w: World): nat {
    if w.backend == Idle then 0 else 1
  }

  function InService(w: World): nat {
    if w.websocket.Serving? then 1 else 0
  }

  /** A timeout that hits a waiting handler. */
  predicate Hits(w: World, e: Event) {
    e == Timeout && w.backend != Idle
  }

  /** The event loses the request in service: it breaks the service off, or the service itself fails. */
  predicate Loses(w: World, e: Event) {
    && w.websocket.Serving?
    && (e.Lose? || (e.Finish? && !Serve(w.shared, w.websocket.request, e.reply).1.Answer?))
  }

  function Timeouts(c: UserInfos.Codec, events: seq<Event>): nat {
    if events == [] then 0
    else
      var before := events[..|events| - 1];
      Timeouts(c, before) + if Hits(Run(c, before), events[|events| - 1]) then 1 else 0
  }

  function Lost(c: UserInfos.Codec, events: seq<Event>): nat {
    if events == [] then 0
    else
      var before := events[..|events| - 1];
      Lost(c, before) + if Loses(Run(c, before), events[|events| - 1]) then 1 else 0
  }

  function Without(alive: seq<nat>, k: nat): seq<nat> {
    if k < |alive| then alive[..k] + alive[k + 1..] else alive
  }

  function Arriving(w: World, v: World, alive: seq<nat>): seq<nat> {
    if |v.requests| > |w.requests| then alive + [|w.requests|] else alive
  }

  function AliveAfter(w: World, e: Event, v: World, alive: seq<nat>): seq<nat> {
    if Loses(w, e) then Without(alive, |w.produced|) else Arriving(w, v, alive)
  }

  /** The numbers of the requests that were not lost, in order. */
  function Alive(c: UserInfos.Codec, events: seq<Event>): seq<nat> {
    if events == [] then []
    else
      var before := events[..|events| - 1];
      AliveAfter(Run(c, before), events[|events| - 1], Run(c, events), Alive(c, before))
  }

  // ---------- The invariant ----------

  predicate Ascending(alive: seq<nat>, bound: nat) {
    && (forall i :: 0 <= i < |alive| ==> alive[i] < bound)
    && (forall i, j :: 0 <= i < j < |alive| ==> alive[i] < alive[j])
  }

  function Requests(entries: seq<Entry>): seq<Request> {
    seq(|entries|, i requires 0 <= i < |entries| => entries[i].request)
  }

  /** The requests that were answered, are in service, or are queued. */
  function Surviving(w: World): seq<Request> {
    Requests(w.produced) + (if w.websocket.Serving? then [w.websocket.request] else []) + w.websocketQueue
  }

  function Picked(requests: seq<Request>, alive: seq<nat>): seq<Request>
    requires Ascending(alive, |requests|)
  {
    seq(|alive|, i requires 0 <= i < |alive| => requests[alive[i]])
  }

  /** How many of the surviving requests are older than the latest one. */
  function Earlier(w: World, alive: seq<nat>): nat {
    if alive != [] && alive[|alive| - 1] + 1 == |w.requests| then |alive| - 1 else |alive|
  }

  /** Every request is consumed, given up by a timeout, or pending; every one is lost, or survives in its place. */
  ghost predicate Balanced(w: World, alive: seq<nat>, pending: nat, timeouts: nat, lost: nat) {
    && Ascending(alive, |w.requests|)
    && Surviving(w) == Picked(w.requests, alive)
    && |alive| + lost == |w.requests|
    && w.consumed + |w.pluginQueue| == |w.produced|
    && |w.requests| == w.consumed + timeouts + pending
  }

  /** The kind of request that a suspended handler has put. */
  predicate AskedBy(b: Backend, q: Request) {
    match b
    case Idle => false
    case AwaitLogin => q.RsaAndLogin?
    case AwaitTwoFactor(_) => q.UpdateTwoFactor?
    case AwaitPollNone => q == Poll(false)
    case AwaitPollCheck(_, isConfirm) => q == Poll(isConfirm)
    case AwaitToken => q == Token
    case AwaitStored => q == Token
  }

  ghost predicate Traced(w: World, alive: seq<nat>, timeouts: nat, lost: nat) {
    && Balanced(w, alive, Waits(w), timeouts, lost)
    && (w.backend != Idle ==> AskedBy(w.backend, w.requests[|w.requests| - 1]) && w.consumed <= Earlier(w, alive))
  }

  // ---------- Handlers ----------

  /** A step of the backend that puts a request and waits for it, or ends the handler. */
  ghost predicate PutOrEnd(w: World, v: World) {
    && v.produced == w.produced && v.consumed == w.consumed && v.pluginQueue == w.pluginQueue && v.websocket == w.websocket
    && if v.backend == Idle then v.requests == w.requests && v.websocketQueue == w.websocketQueue
       else exists q :: v.requests == w.requests + [q] && v.websocketQueue == w.websocketQueue + [q] && AskedBy(v.backend, q)
  }

  lemma {:induction false} PutIsPut(w: World, q: Request, b: Backend)
    requires AskedBy(b, q)
    ensures PutOrEnd(w, Put(w, q, b))
  {
  }

  lemma {:induction false} ConsumePutsOrEnds(w: World, a: Action)
    requires w.consumed > 0 && w.backend != Idle
    ensures PutOrEnd(w, Consume(w, a))
  {
    PutIsPut(w, Poll(false), AwaitPollNone);
    PutIsPut(w, Token, AwaitToken);
    if w.backend.AwaitTwoFactor? {
      PutIsPut(w, Poll(false), AwaitPollCheck(w.backend.fallback, false));
    }
  }

  predicate ByUser(e: Event) {
    e.Authenticate? || e.LoginSubmitted? || e.CodeSubmitted? || e.ConfirmSubmitted? || e.OtherUri?
  }

  lemma {:induction false} HandlerPutsOrEnds(c: UserInfos.Codec, w: World, e: Event)
    requires w.backend == Idle && ByUser(e)
    ensures PutOrEnd(w, Step(c, w, e))
  {
    match e
    case Authenticate(Some(d)) =>
      var v := w.(shared := w.shared.(user := w.shared.user.(info := UserInfos.FromDict(c, w.shared.user.info, d).0)));
      PutIsPut(v, Token, AwaitStored);
    case LoginSubmitted(Some(params)) =>
      PutIsPut(w, RsaAndLogin(params.0, Sanitize(params.1)), AwaitLogin);
    case CodeSubmitted(mail, Some(code)) =>
      PutIsPut(w, UpdateTwoFactor(code, if mail then EmailCode else PhoneCode), AwaitTwoFactor(if mail then MailPage else MobilePage));
    case ConfirmSubmitted =>
      PutIsPut(w, Poll(true), AwaitPollCheck(ConfirmPage, true));
    case _ =>
  }

  lemma {:induction false} PutOrEndTraces(w: World, v: World, alive: seq<nat>, timeouts: nat, lost: nat)
    requires Balanced(w, alive, 0, timeouts, lost) && PutOrEnd(w, v)
    ensures Traced(v, Arriving(w, v, alive), timeouts, lost)
  {
    if v.backend != Idle {
      var q :| v.requests == w.requests + [q] && v.websocketQueue == w.websocketQueue + [q] && AskedBy(v.backend, q);
      var more := alive + [|w.requests|];
      assert Surviving(v) == Surviving(w) + [q];
      assert Ascending(more, |v.requests|);
      assert Picked(v.requests, more) == Picked(w.requests, alive) + [q];
      assert |alive| == |Surviving(w)| >= |w.produced|;
    }
  }

  // ---------- One step ----------

  /** A step that at most moves requests and answers on, or changes nothing of the traffic. */
  predicate MovesOn(w: World, v: World) {
    && v.backend == w.backend && v.requests == w.requests && v.consumed == w.consumed
    && Surviving(v) == Surviving(w)
    && |v.produced| - |v.pluginQueue| == |w.produced| - |w.pluginQueue|
  }

  lemma {:induction false} MoveTraces(w: World, v: World, alive: seq<nat>, timeouts: nat, lost: nat)
    requires Traced(w, alive, timeouts, lost) && MovesOn(w, v)
    ensures Traced(v, alive, timeouts, lost)
  {
  }

  /** A request in service drops out. */
  predicate DropsOut(w: World, v: World) {
    && v.backend == w.backend && v.requests == w.requests && v.consumed == w.consumed
    && v.produced == w.produced && v.pluginQueue == w.pluginQueue && v.websocketQueue == w.websocketQueue
    && w.websocket.Serving? && !v.websocket.Serving?
  }

  lemma {:induction false} DropTraces(w: World, v: World, alive: seq<nat>, timeouts: nat, lost: nat)
    requires Traced(w, alive, timeouts, lost) && DropsOut(w, v)
    ensures Traced(v, Without(alive, |w.produced|), timeouts, lost + 1)
  {
    var k, rest := |w.produced|, Without(alive, |w.produced|);
    assert |alive| == |Surviving(w)| && k < |alive|;
    assert Ascending(rest, |w.requests|);
    assert Surviving(v) == Surviving(w)[..k] + Surviving(w)[k + 1..];
    assert Picked(w.requests, rest) == Picked(w.requests, alive)[..k] + Picked(w.requests, alive)[k + 1..];
    DropKeepsEarlier(w, v, alive, k);
  }

  lemma {:induction false} DropKeepsEarlier(w: World, v: World, alive: seq<nat>, k: nat)
    requires Ascending(alive, |w.requests|) && v.requests == w.requests && k < |alive| && w.consumed <= k
    requires w.consumed <= Earlier(w, alive)
    ensures w.consumed <= Earlier(v, Without(alive, k))
  {
    var rest := Without(alive, k);
    if k < |alive| - 1 {
      assert rest[|rest| - 1] == alive[|alive| - 1];
    } else if rest != [] {
      assert rest[|rest| - 1] == alive[k - 1] < alive[k];
    }
  }

  /** The step keeps the invariant, with the counts and the surviving requests that it makes. */
  ghost predicate StepTraced(c: UserInfos.Codec, w: World, e: Event, alive: seq<nat>, timeouts: nat, lost: nat) {
    var v := Step(c, w, e);
    Traced(v, AliveAfter(w, e, v, alive), timeouts + (if Hits(w, e) then 1 else 0), lost + (if Loses(w, e) then 1 else 0))
  }

  lemma {:induction false} AnswerTaken(w: World, x: World, alive: seq<nat>, timeouts: nat, lost: nat)
    requires Traced(w, alive, timeouts, lost) && w.backend != Idle && w.pluginQueue != []
    requires x == w.(pluginQueue := w.pluginQueue[1..], consumed := w.consumed + 1)
    ensures Balanced(x, alive, 0, timeouts, lost)
  {
    assert Surviving(x) == Surviving(w);
  }

  /** A receive step without a view of what the handler does. */
  lemma {:induction false} ReceivedTraces(w: World, x: World, v: World, alive: seq<nat>, timeouts: nat, lost: nat)
    requires Traced(w, alive, timeouts, lost) && w.backend != Idle && w.pluginQueue != []
    requires x == w.(pluginQueue := w.pluginQueue[1..], consumed := w.consumed + 1) && PutOrEnd(x, v)
    ensures Traced(v, AliveAfter(w, Receive, v, alive), timeouts, lost)
  {
    AnswerTaken(w, x, alive, timeouts, lost);
    PutOrEndTraces(x, v, alive, timeouts, lost);
  }

  lemma {:induction false} ReceiveTraces(c: UserInfos.Codec, w: World, alive: seq<nat>, timeouts: nat, lost: nat)
    requires Traced(w, alive, timeouts, lost)
    ensures StepTraced(c, w, Receive, alive, timeouts, lost)
  {
    if w.backend != Idle && w.pluginQueue != [] {
      var x := w.(pluginQueue := w.pluginQueue[1..], consumed := w.consumed + 1);
      ConsumePutsOrEnds(x, w.pluginQueue[0]);
      ReceivedTraces(w, x, Step(c, w, Receive), alive, timeouts, lost);
    }
  }

  lemma {:induction false} AnswerMoves(w: World, r: Reply, loss: Loss)
    requires w.websocket.Serving? && Serve(w.shared, w.websocket.request, r).1.Answer?
    ensures MovesOn(w, FinishRequest(w, r, loss))
  {
    assert Requests(FinishRequest(w, r, loss).produced) == Requests(w.produced) + [w.websocket.request];
  }

  lemma {:induction false} FailureDrops(w: World, r: Reply, loss: Loss)
    requires w.websocket.Serving? && !Serve(w.shared, w.websocket.request, r).1.Answer?
    ensures DropsOut(w, FinishRequest(w, r, loss))
  {
  }

  /** A step of the websocket task without a view of what was served. */
  lemma {:induction false} ServedTraces(w: World, e: Event, v: World, alive: seq<nat>, timeouts: nat, lost: nat)
    requires Traced(w, alive, timeouts, lost) && if Loses(w, e) then DropsOut(w, v) else MovesOn(w, v)
    ensures Traced(v, AliveAfter(w, e, v, alive), timeouts, lost + if Loses(w, e) then 1 else 0)
  {
    if Loses(w, e) {
      DropTraces(w, v, alive, timeouts, lost);
    } else {
      MoveTraces(w, v, alive, timeouts, lost);
    }
  }

  lemma {:induction false} FinishTraces(c: UserInfos.Codec, w: World, r: Reply, loss: Loss, alive: seq<nat>, timeouts: nat, lost: nat)
    requires Traced(w, alive, timeouts, lost)
    ensures StepTraced(c, w, Finish(r, loss), alive, timeouts, lost)
  {
    if w.websocket.Serving? {
      if Loses(w, Finish(r, loss)) {
        FailureDrops(w, r, loss);
      } else {
        AnswerMoves(w, r, loss);
      }
      ServedTraces(w, Finish(r, loss), Step(c, w, Finish(r, loss)), alive, timeouts, lost);
    }
  }

  lemma {:induction false} LoseTraces(c: UserInfos.Codec, w: World, loss: Loss, alive: seq<nat>, timeouts: nat, lost: nat)
    requires Traced(w, alive, timeouts, lost)
    ensures StepTraced(c, w, Lose(loss), alive, timeouts, lost)
  {
    if w.websocket.Serving? {
      DropTraces(w, Forget(w, loss), alive, timeouts, lost);
    } else {
      MoveTraces(w, Step(c, w, Lose(loss)), alive, timeouts, lost);
    }
  }

  lemma {:induction false} QuietTraces(c: UserInfos.Codec, w: World, e: Event, alive: seq<nat>, timeouts: nat, lost: nat)
    requires Traced(w, alive, timeouts, lost) && (e.TakeRequest? || e.Tick?)
    ensures StepTraced(c, w, e, alive, timeouts, lost)
  {
    MoveTraces(w, Step(c, w, e), alive, timeouts, lost);
  }

  lemma {:induction false} TimeoutTraces(c: UserInfos.Codec, w: World, alive: seq<nat>, timeouts: nat, lost: nat)
    requires Traced(w, alive, timeouts, lost)
    ensures StepTraced(c, w, Timeout, alive, timeouts, lost)
  {
  }

  lemma {:induction false} UserTraces(c: UserInfos.Codec, w: World, e: Event, alive: seq<nat>, timeouts: nat, lost: nat)
    requires Traced(w, alive, timeouts, lost) && ByUser(e)
    ensures StepTraced(c, w, e, alive, timeouts, lost)
  {
    if w.backend == Idle {
      HandlerPutsOrEnds(c, w, e);
      PutOrEndTraces(w, Step(c, w, e), alive, timeouts, lost);
    }
  }

  lemma {:induction false} StepTraces(c: UserInfos.Codec, w: World, e: Event, alive: seq<nat>, timeouts: nat, lost: nat)
    requires Traced(w, alive, timeouts, lost)
    ensures StepTraced(c, w, e, alive, timeouts, lost)
  {
    match e
    case Receive => ReceiveTraces(c, w, alive, timeouts, lost);
    case Finish(r, loss) => FinishTraces(c, w, r, loss, alive, timeouts, lost);
    case Lose(loss) => LoseTraces(c, w, loss, alive, timeouts, lost);
    case Timeout => TimeoutTraces(c, w, alive, timeouts, lost);
    case TakeRequest => QuietTraces(c, w, e, alive, timeouts, lost);
    case Tick => QuietTraces(c, w, e, alive, timeouts, lost);
    case _ => UserTraces(c, w, e, alive, timeouts, lost);
  }

  lemma {:induction false} EveryRunTraced(c: UserInfos.Codec, events: seq<Event>)
    ensures Traced(Run(c, events), Alive(c, events), Timeouts(c, events), Lost(c, events))
    decreases |events|
  {
    if events == [] {
      StartTraced();
    } else {
      var before, e := events[..|events| - 1], events[|events| - 1];
      var w, alive, timeouts, lost := Run(c, before), Alive(c, before), Timeouts(c, before), Lost(c, before);
      EveryRunTraced(c, before);
      StepTraces(c, w, e, alive, timeouts, lost);
      AfterLast(c, events);
    }
  }

  lemma {:induction false} StartTraced()
    ensures Traced(START, [], 0, 0)
  {
  }

  lemma {:induction false} AfterLast(c: UserInfos.Codec, events: seq<Event>)
    requires events != []
    ensures var before, e := events[..|events| - 1], events[|events| - 1];
            var w := Run(c, before);
            && Run(c, events) == Step(c, w, e)
            && Alive(c, events) == AliveAfter(w, e, Step(c, w, e), Alive(c, before))
            && Timeouts(c, events) == Timeouts(c, before) + (if Hits(w, e) then 1 else 0)
            && Lost(c, events) == Lost(c, before) + (if Loses(w, e) then 1 else 0)
  {
  }

  // ---------- The laws ----------

  /**
   Conservation, in every run: what is queued, in service or answered but not
   consumed, together with what was lost, is what waits, together with the
   waits that timed out.
  */
  lemma {:induction false} TrafficBalance(c: UserInfos.Codec, events: seq<Event>)
    ensures var w := Run(c, events);
            && |w.websocketQueue| + InService(w) + |w.pluginQueue| + Lost(c, events) == Waits(w) + Timeouts(c, events)
            && |w.requests| == w.consumed + Timeouts(c, events) + Waits(w)
  {
    EveryRunTraced(c, events);
    var w := Run(c, events);
    assert |Surviving(w)| == |w.produced| + InService(w) + |w.websocketQueue|;
  }

  /** The request whose answer is the next to be consumed. */
  function NextAnswered(c: UserInfos.Codec, events: seq<Event>): nat
    requires Run(c, events).pluginQueue != []
  {
    EveryRunTraced(c, events);
    assert |Alive(c, events)| == |Surviving(Run(c, events))|;
    Alive(c, events)[Run(c, events).consumed]
  }

  /** How many requests were lost before the latest one. */
  function LostBefore(c: UserInfos.Codec, events: seq<Event>): int {
    |Run(c, events).requests| - 1 - Earlier(Run(c, events), Alive(c, events))
  }

  /**
   Whose answer it is, in every run: a handler consumes the answer to its own
   request, which is the latest one, exactly if as many requests were lost before
   as waits have timed out. There are never fewer timeouts than that. So without
   a lost request the answer is as many requests old as there were timeouts, and
   once one wait timed out no later handler gets its own answer any more.
  */
  lemma {:induction false} StaleByTimeouts(c: UserInfos.Codec, events: seq<Event>)
    requires Run(c, events).backend != Idle && Run(c, events).pluginQueue != []
    ensures var w := Run(c, events);
            var i := NextAnswered(c, events);
            && i < |w.requests| && w.consumed < |w.produced| && w.produced[w.consumed].request == w.requests[i]
            && 0 <= LostBefore(c, events) <= Timeouts(c, events)
            && (i == |w.requests| - 1 <==> Timeouts(c, events) == LostBefore(c, events))
            && (Lost(c, events) == 0 ==> i == |w.requests| - 1 - Timeouts(c, events))
  {
    EveryRunTraced(c, events);
    StaleIn(Run(c, events), Alive(c, events), Timeouts(c, events), Lost(c, events));
  }

  lemma {:induction false} StaleIn(w: World, alive: seq<nat>, timeouts: nat, lost: nat)
    requires Traced(w, alive, timeouts, lost) && w.backend != Idle && w.pluginQueue != []
    ensures w.consumed < |w.produced| && w.consumed < |alive| && alive[w.consumed] < |w.requests|
    ensures w.produced[w.consumed].request == w.requests[alive[w.consumed]]
    ensures Earlier(w, alive) < |w.requests| && |w.requests| - 1 - Earlier(w, alive) <= timeouts
    ensures alive[w.consumed] == |w.requests| - 1 <==> timeouts == |w.requests| - 1 - Earlier(w, alive)
    ensures lost == 0 ==> alive[w.consumed] == |w.requests| - 1 - timeouts
  {
    assert |alive| == |Surviving(w)|;
    assert Surviving(w)[w.consumed] == w.produced[w.consumed].request;
    EarlierBound(w, alive);
    if lost == 0 {
      FullIsIdentity(alive, |w.requests|, w.consumed);
    }
  }

  lemma {:induction false} FullIsIdentity(alive: seq<nat>, bound: nat, i: nat)
    requires Ascending(alive, bound) && |alive| >= bound && i < |alive|
    ensures alive[i] == i && |alive| == bound
    decreases bound
  {
    if i == |alive| - 1 {
      LowEnough(alive, i);
    } else {
      assert alive[0] < bound;
      assert Ascending(alive[..|alive| - 1], bound - 1) by {
        assert forall k :: 0 <= k < |alive| - 1 ==> alive[k] < alive[|alive| - 1];
      }
      FullIsIdentity(alive[..|alive| - 1], bound - 1, i);
    }
  }

  lemma {:induction false} LowEnough(alive: seq<nat>, i: nat)
    requires i < |alive| && forall j, k :: 0 <= j < k < |alive| ==> alive[j] < alive[k]
    ensures alive[i] >= i
  {
    if i > 0 {
      LowEnough(alive, i - 1);
    }
  }

  lemma {:induction false} EarlierBound(w: World, alive: seq<nat>)
    requires Ascending(alive, |w.requests|) && w.requests != []
    ensures Earlier(w, alive) < |w.requests|
    ensures forall i :: 0 <= i < Earlier(w, alive) ==> alive[i] + 1 < |w.requests|
  {
    if Earlier(w, alive) > 0 {
      var i := Earlier(w, alive) - 1;
      LowEnough(alive, i);
      assert i < |alive| - 1 ==> alive[i] < alive[|alive| - 1];
    }
  }
}
