/**
 Who is authenticated: in the runs without a timeout, whether an authentication
 names the user of the token login that it ends.
*/
module LoginIdentity {
  import opened Maybe
  import opened LoginServer
  import opened LoginProtocol
  import opened LoginTraffic
  import opened LoginLockstep
  import UserInfos

  /** An authentication names the Steam id of the answer it consumed, and some persona. */
  predicate Names(w: World, o: Outcome) {
    o.Authentication? ==> o.answer < |w.produced| && o.steamId == Some(w.produced[o.answer].reply.steamId) && UserInfos.Truthy(o.personaName)
  }

  ghost predicate AllNamed(w: World) {
    forall k :: 0 <= k < |w.outcomes| ==> Names(w, w.outcomes[k])
  }

  /** The event makes the websocket client forget the user. */
  predicate Clears(w: World, e: Event) {
    || (e == Lose(AuthLost) && w.websocket != Dead)
    || (e.Finish? && e.loss == AuthLost && w.websocket.Serving? && Serve(w.shared, w.websocket.request, e.reply).1.ServerError?)
  }

  /** The user was forgotten since the waiting handler put its token request. */
  predicate Disturbed(c: UserInfos.Codec, events: seq<Event>) {
    if events == [] then false
    else
      var before := events[..|events| - 1];
      AwaitsToken(Run(c, events).backend) && DisturbedBy(Run(c, before), events[|events| - 1], Disturbed(c, before))
  }

  predicate DisturbedBy(w: World, e: Event, disturbed: bool) {
    disturbed || (AwaitsToken(w.backend) && Clears(w, e))
  }

  /** A handler is about to consume the answer that ends its token login. */
  predicate TokenAccepted(w: World) {
    AwaitsToken(w.backend) && w.pluginQueue != [] && w.pluginQueue[0] == NoActionRequired
  }

  /** While a token login is on, the fields are those of its user, or there is no persona any more. */
  ghost predicate Identified(w: World, disturbed: bool) {
    AwaitsToken(w.backend) ==>
      if disturbed then w.shared.user.info.personaName == None
      else
        && UserInfos.IsInitialized(w.shared.user.info)
        && (w.consumed < |w.produced| ==> w.shared.user.info.steamId == Some(w.produced[w.consumed].reply.steamId))
  }

  // ---------- The fields ----------

  lemma {:induction false} TokenReply(s: Shared, r: Reply)
    ensures var info := ServeToken(s, r).0.user.info;
            && info.steamId == Some(r.steamId) && info.personaName == s.user.info.personaName
            && (UserInfos.IsInitialized(s.user.info) ==> UserInfos.IsInitialized(info))
  {
  }

  lemma {:induction false} FinishIdentifies(w: World, r: Reply, loss: Loss, disturbed: bool)
    requires Locked(w) && Identified(w, disturbed) && w.websocket.Serving?
    ensures Identified(FinishRequest(w, r, loss), DisturbedBy(w, Finish(r, loss), disturbed))
  {
    assert At(w, LoginLockstep.Served);
    assert w.websocket.request == w.requests[w.consumed..][0];
    if AwaitsToken(w.backend) {
      TokenReply(w.shared, r);
    }
  }

  lemma {:induction false} ReceiveIdentifies(c: UserInfos.Codec, w: World, disturbed: bool)
    requires Locked(w) && Identified(w, disturbed) && w.backend != Idle && w.pluginQueue != []
    requires Meets(w.backend, w.pluginQueue[0])
    ensures Identified(Step(c, w, Receive), false)
  {
    assert At(w, Answered);
    var x := w.(pluginQueue := w.pluginQueue[1..], consumed := w.consumed + 1);
    assert x.consumed == |x.produced|;
    ConsumeIdentifies(x, w.pluginQueue[0]);
  }

  lemma {:induction false} ConsumeIdentifies(x: World, a: Action)
    requires x.consumed > 0 && x.consumed == |x.produced| && Meets(x.backend, a)
    ensures Identified(Consume(x, a), false)
  {
  }

  lemma {:induction false} OthersIdentify(c: UserInfos.Codec, w: World, e: Event, disturbed: bool)
    requires Locked(w) && Identified(w, disturbed) && !Hits(w, e) && !e.Receive? && !e.Finish?
    requires w.backend == Idle ==> !disturbed
    ensures Identified(Step(c, w, e), DisturbedBy(w, e, disturbed))
  {
  }

  lemma {:induction false} DisturbedWaits(c: UserInfos.Codec, events: seq<Event>)
    ensures Disturbed(c, events) ==> AwaitsToken(Run(c, events).backend)
  {
  }

  lemma {:induction false} ReceiveEndsDisturbance(c: UserInfos.Codec, w: World)
    requires w.backend != Idle && w.pluginQueue != [] && AwaitsToken(w.backend)
    ensures Step(c, w, Receive).backend == Idle
  {
  }

  // ---------- The outcomes ----------

  /** A step that adds at most one outcome and keeps the answers. */
  predicate Adds(w: World, v: World) {
    && |v.produced| >= |w.produced| && v.produced[..|w.produced|] == w.produced
    && (v.outcomes == w.outcomes || (v.outcomes != [] && v.outcomes[..|v.outcomes| - 1] == w.outcomes))
  }

  lemma {:induction false} NamedAfter(w: World, v: World)
    requires Earned(w) && Adds(w, v)
    ensures AllNamed(v) <==> AllNamed(w) && (v.outcomes != w.outcomes ==> Names(v, v.outcomes[|v.outcomes| - 1]))
  {
    var n := |w.outcomes|;
    assert forall k :: 0 <= k < n ==> v.outcomes[k] == w.outcomes[k] by {
      assert v.outcomes != w.outcomes ==> forall k :: 0 <= k < n ==> v.outcomes[..|v.outcomes| - 1][k] == v.outcomes[k];
    }
    assert forall i :: 0 <= i < |w.produced| ==> v.produced[..|w.produced|][i] == v.produced[i];
    assert forall k :: 0 <= k < n ==> (Names(w, w.outcomes[k]) <==> Names(v, v.outcomes[k]));
    if AllNamed(v) {
      forall k | 0 <= k < n
        ensures Names(w, w.outcomes[k])
      {
        assert Names(v, v.outcomes[k]);
      }
    }
  }

  /** The answer is consumed by a handler whose user was forgotten meanwhile. */
  predicate Misnames(c: UserInfos.Codec, before: seq<Event>, e: Event) {
    e == Receive && TokenAccepted(Run(c, before)) && Disturbed(c, before)
  }

  predicate NeverMisnames(c: UserInfos.Codec, events: seq<Event>) {
    events == [] || (NeverMisnames(c, events[..|events| - 1]) && !Misnames(c, events[..|events| - 1], events[|events| - 1]))
  }

  predicate Accepts(w: World, e: Event, disturbed: bool) {
    e == Receive && TokenAccepted(w) && disturbed
  }

  predicate LastNamed(w: World, v: World) {
    v.outcomes != w.outcomes ==> v.outcomes != [] && Names(v, v.outcomes[|v.outcomes| - 1])
  }

  lemma {:induction false} AcceptedNames(c: UserInfos.Codec, w: World, disturbed: bool)
    requires Locked(w) && Identified(w, disturbed) && TokenAccepted(w)
    ensures Adds(w, Step(c, w, Receive)) && (LastNamed(w, Step(c, w, Receive)) <==> !disturbed)
  {
    assert At(w, Answered);
    var v := Step(c, w, Receive);
    var o := Authentication(w.shared.user.info.steamId, w.shared.user.info.personaName, w.consumed);
    assert v.outcomes == w.outcomes + [o] && v.produced == w.produced;
    assert v.outcomes[|v.outcomes| - 1] == o && v.outcomes != w.outcomes;
  }

  lemma {:induction false} OtherAnswersName(c: UserInfos.Codec, w: World)
    requires w.backend != Idle && w.pluginQueue != [] && Meets(w.backend, w.pluginQueue[0]) && !TokenAccepted(w)
    ensures Adds(w, Step(c, w, Receive)) && LastNamed(w, Step(c, w, Receive))
  {
    ReceiveConsumes(w);
    ConsumesNames(w, Step(c, w, Receive));
  }

  lemma {:induction false} ConsumesNames(w: World, v: World)
    requires Consumes(w, v) && Meets(w.backend, w.pluginQueue[0]) && !TokenAccepted(w)
    ensures Adds(w, v) && LastNamed(w, v)
  {
  }

  lemma {:induction false} OthersName(c: UserInfos.Codec, w: World, e: Event)
    requires !e.Receive?
    ensures Adds(w, Step(c, w, e)) && LastNamed(w, Step(c, w, e))
  {
    if !e.Finish? {
      UserStepsAside(c, w, e);
    }
  }

  lemma {:induction false} StepNames(c: UserInfos.Codec, w: World, e: Event, disturbed: bool)
    requires Locked(w) && Identified(w, disturbed)
    requires w.backend != Idle && w.pluginQueue != [] ==> Meets(w.backend, w.pluginQueue[0])
    ensures Adds(w, Step(c, w, e)) && (LastNamed(w, Step(c, w, e)) <==> !Accepts(w, e, disturbed))
  {
    if !e.Receive? {
      OthersName(c, w, e);
    } else if TokenAccepted(w) {
      AcceptedNames(c, w, disturbed);
    } else if w.backend != Idle && w.pluginQueue != [] {
      OtherAnswersName(c, w);
    }
  }

  lemma {:induction false} NamesGoOn(c: UserInfos.Codec, w: World, e: Event, disturbed: bool)
    requires Locked(w) && Identified(w, disturbed) && Earned(w)
    requires w.backend != Idle && w.pluginQueue != [] ==> Meets(w.backend, w.pluginQueue[0])
    ensures AllNamed(Step(c, w, e)) <==> AllNamed(w) && !Accepts(w, e, disturbed)
  {
    StepNames(c, w, e, disturbed);
    NamedAfter(w, Step(c, w, e));
  }

  // ---------- Whole runs ----------

  /** Without a timeout every handler meets an answer to its own request. */
  lemma {:induction false} MeetsInLockstep(c: UserInfos.Codec, events: seq<Event>)
    requires Timeouts(c, events) == 0
    ensures var w := Run(c, events); w.backend != Idle && w.pluginQueue != [] ==> Meets(w.backend, w.pluginQueue[0])
  {
    var w := Run(c, events);
    if w.backend != Idle && w.pluginQueue != [] {
      StaleByTimeouts(c, events);
      AnswersItsOwn(c, events);
      EveryRunSafe(c, events);
      OwnAnswerMeets(w);
    }
  }

  lemma {:induction false} StepIdentifies(c: UserInfos.Codec, w: World, e: Event, disturbed: bool)
    requires Locked(w) && Identified(w, disturbed) && !Hits(w, e)
    requires disturbed ==> AwaitsToken(w.backend)
    requires w.backend != Idle && w.pluginQueue != [] ==> Meets(w.backend, w.pluginQueue[0])
    ensures Identified(Step(c, w, e), DisturbedBy(w, e, disturbed))
  {
    if e.Receive? {
      if w.backend != Idle && w.pluginQueue != [] {
        ReceiveIdentifies(c, w, disturbed);
        if AwaitsToken(w.backend) {
          ReceiveEndsDisturbance(c, w);
        }
      }
    } else if e.Finish? {
      if w.websocket.Serving? {
        FinishIdentifies(w, e.reply, e.loss, disturbed);
      }
    } else {
      OthersIdentify(c, w, e, disturbed);
    }
  }

  lemma {:induction false} RunIdentifies(c: UserInfos.Codec, events: seq<Event>)
    requires Timeouts(c, events) == 0
    ensures Identified(Run(c, events), Disturbed(c, events))
    decreases |events|
  {
    if events != [] {
      var before, e := events[..|events| - 1], events[|events| - 1];
      RunIdentifies(c, before);
      Lockstep(c, before);
      MeetsInLockstep(c, before);
      DisturbedWaits(c, before);
      StepIdentifies(c, Run(c, before), e, Disturbed(c, before));
    }
  }

  /**
   Who is authenticated, in every run in which no waiting handler times out: each
   authentication carries the Steam id that Steam gave with the answer it
   consumed, and a persona name that is not empty, exactly if the user was never
   forgotten between putting a token request and consuming its accepting answer.
  */
  lemma {:induction false} AuthenticatesTheUser(c: UserInfos.Codec, events: seq<Event>)
    requires Timeouts(c, events) == 0
    ensures AllNamed(Run(c, events)) <==> NeverMisnames(c, events)
    decreases |events|
  {
    if events != [] {
      var before, e := events[..|events| - 1], events[|events| - 1];
      var w := Run(c, before);
      AuthenticatesTheUser(c, before);
      RunIdentifies(c, before);
      Lockstep(c, before);
      MeetsInLockstep(c, before);
      EveryRunSafe(c, before);
      NamesGoOn(c, w, e, Disturbed(c, before));
    }
  }
}
