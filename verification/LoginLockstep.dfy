/**
 The login in lockstep. As long as no wait for an answer times out, there is at
 most one request on its way through the two queues, and each answer is consumed
 by the handler that asked for it. In every run several branches of the handlers
 are dead for a handler that meets its own answer.
*/
module LoginLockstep {
  import opened Maybe
  import opened TwoFactor
  import opened LoginServer
  import opened LoginProtocol
  import opened LoginTraffic
  import UserInfos

  /** Answer i is the answer to request i. */
  ghost predicate InOrder(w: World) {
    && w.consumed <= |w.produced| <= |w.requests|
    && (forall i :: 0 <= i < |w.produced| ==> w.produced[i].request == w.requests[i])
  }

  /** The whereabouts of the one request that is not yet dealt with. */
  datatype Place = Nowhere | Queued | Served | Answered

  predicate At(w: World, p: Place) {
    && w.consumed <= |w.requests|
    && w.websocketQueue == (if p == Queued then w.requests[w.consumed..] else [])
    && (w.websocket.Serving? <==> p == Served)
    && (p == Served ==> [w.websocket.request] == w.requests[w.consumed..])
    && (w.pluginQueue != [] <==> p == Answered)
    && |w.pluginQueue| <= 1
    && |w.produced| == w.consumed + |w.pluginQueue|
    && (p == Answered ==> w.pluginQueue[0] == w.produced[w.consumed].action)
  }

  /** An idle backend has left nothing behind; a waiting one has its own request somewhere, or lost it for good. */
  ghost predicate Locked(w: World) {
    && InOrder(w)
    && if w.backend == Idle then |w.requests| == w.consumed && At(w, Nowhere)
       else |w.requests| == w.consumed + 1 && AskedBy(w.backend, w.requests[w.consumed]) && exists p :: At(w, p)
  }

  /** Without a timeout the requests before the latest one all survive, in their places. */
  lemma {:induction false} OldOnesSurvive(w: World, alive: seq<nat>, lost: nat)
    requires Traced(w, alive, 0, lost)
    ensures w.consumed <= |alive| && forall i :: 0 <= i < |alive| ==> alive[i] == i
  {
    assert |alive| == |Surviving(w)|;
    var full := if w.backend == Idle || Earlier(w, alive) < |alive| then |w.requests| else |w.requests| - 1;
    if w.backend != Idle {
      EarlierBound(w, alive);
    }
    forall i | 0 <= i < |alive|
      ensures alive[i] == i
    {
      FullIsIdentity(alive, full, i);
    }
  }

  lemma {:induction false} SurvivingInOrder(w: World, alive: seq<nat>, lost: nat)
    requires Traced(w, alive, 0, lost)
    ensures InOrder(w) && Surviving(w) == w.requests[..|alive|]
  {
    OldOnesSurvive(w, alive, lost);
    assert |alive| == |Surviving(w)|;
    assert Surviving(w) == w.requests[..|alive|];
    forall i | 0 <= i < |w.produced|
      ensures w.produced[i].request == w.requests[i]
    {
      assert Surviving(w)[i] == w.produced[i].request;
    }
  }

  lemma {:induction false} TracedLocks(w: World, alive: seq<nat>, lost: nat)
    requires Traced(w, alive, 0, lost) && History(w)
    ensures Locked(w)
  {
    SurvivingInOrder(w, alive, lost);
    if |w.produced| == w.consumed {
      assert w.requests[..|alive|][w.consumed..] == Surviving(w)[w.consumed..];
      assert |alive| < |w.requests| ==> At(w, Nowhere);
      assert w.websocket.Serving? ==> At(w, Served);
      assert !w.websocket.Serving? ==> At(w, if w.websocketQueue == [] then Nowhere else Queued);
    } else {
      assert w.produced[w.consumed..][0] == w.produced[w.consumed];
      assert At(w, Answered);
    }
  }

  /**
   Lockstep: in every run in which no waiting handler times out, answers go with
   requests in order, and the only open request is that of the waiting handler.
  */
  lemma {:induction false} Lockstep(c: UserInfos.Codec, events: seq<Event>)
    requires Timeouts(c, events) == 0
    ensures Locked(Run(c, events))
  {
    EveryRunTraced(c, events);
    EveryRunSafe(c, events);
    TracedLocks(Run(c, events), Alive(c, events), Lost(c, events));
  }

  /**
   And without a failure nothing is lost: while a handler waits, exactly one of a
   queued request, a request in service and a queued answer exists, and it is its own.
  */
  lemma {:induction false} OneInFlight(c: UserInfos.Codec, events: seq<Event>)
    requires Timeouts(c, events) == 0 && Lost(c, events) == 0
    ensures Locked(Run(c, events)) && OnTheWay(Run(c, events)) == Waits(Run(c, events))
  {
    Lockstep(c, events);
    TrafficBalance(c, events);
  }

  /** How many requests and answers are on the way. */
  function OnTheWay(w: World): nat {
    |w.websocketQueue| + InService(w) + |w.pluginQueue|
  }

  // ---------- Dead branches ----------

  /** The answers that a handler can meet to its own request. */
  predicate Meets(b: Backend, a: Action) {
    match b
    case Idle => false
    case AwaitLogin => a == TwoFactorRequired || a == InvalidAuthData
    case AwaitTwoFactor(_) => a == NoActionConfirmLogin || a == TwoFactorExpired || a == InvalidAuthData
    case AwaitPollNone => a == NoActionConfirmToken || a == NoActionConfirmLogin || a == TwoFactorExpired
    case AwaitPollCheck(_, _) => a == NoActionConfirmToken || a == NoActionConfirmLogin || a == TwoFactorExpired
    case AwaitToken => a == NoActionRequired || a == InvalidAuthData
    case AwaitStored => a == NoActionRequired || a == InvalidAuthData
  }

  predicate AwaitsToken(b: Backend) {
    b == AwaitToken || b == AwaitStored
  }

  /** The next answer is one to the handler's request, and authenticates the user only at the end of a token login. */
  ghost predicate ConsumesOwn(c: UserInfos.Codec, w: World) {
    var v := Step(c, w, Receive);
    && w.pluginQueue != [] && Meets(w.backend, w.pluginQueue[0])
    && (v.outcomes != w.outcomes && v.outcomes != [] && v.outcomes[|v.outcomes| - 1].Authentication? <==>
          AwaitsToken(w.backend) && w.pluginQueue[0] == NoActionRequired)
    && (w.backend.AwaitTwoFactor? && v.outcomes != w.outcomes ==> v.outcomes != [] && v.outcomes[|v.outcomes| - 1] != Raised)
  }

  lemma {:induction false} OwnAnswerConsumed(c: UserInfos.Codec, w: World)
    requires w.pluginQueue != [] && Meets(w.backend, w.pluginQueue[0])
    ensures ConsumesOwn(c, w)
  {
  }

  lemma {:induction false} OwnAnswerMeets(w: World)
    requires History(w) && w.consumed < |w.produced| && AskedBy(w.backend, w.produced[w.consumed].request)
    ensures w.pluginQueue != [] && Meets(w.backend, w.pluginQueue[0])
  {
    assert w.produced[w.consumed..][0] == w.produced[w.consumed];
    assert Genuine(w.produced[w.consumed]);
  }

  lemma {:induction false} AnswersItsOwn(c: UserInfos.Codec, events: seq<Event>)
    requires Run(c, events).backend != Idle && Run(c, events).pluginQueue != []
    requires Timeouts(c, events) == LostBefore(c, events)
    ensures var w := Run(c, events); w.consumed < |w.produced| && AskedBy(w.backend, w.produced[w.consumed].request)
  {
    StaleByTimeouts(c, events);
    EveryRunTraced(c, events);
  }

  /**
   A handler that is about to consume the answer to its own request, in any run:
   a poll is never told that no action is required, or that a second factor is,
   and an authentication is made only by a handler that waits for a token login.
  */
  lemma {:induction false} DeadBranches(c: UserInfos.Codec, events: seq<Event>)
    requires Run(c, events).backend != Idle && Run(c, events).pluginQueue != []
    requires Timeouts(c, events) == LostBefore(c, events)
    ensures ConsumesOwn(c, Run(c, events))
  {
    AnswersItsOwn(c, events);
    EveryRunSafe(c, events);
    OwnAnswerMeets(Run(c, events));
    OwnAnswerConsumed(c, Run(c, events));
  }
}
