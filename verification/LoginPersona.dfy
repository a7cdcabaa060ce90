/**
 Whose name is authenticated: the persona comes from the poll, or the stored
 dictionary, that led to the token login. And, in every run, when the Steam id is
 that of the answer.
*/
module LoginPersona {
  import opened Maybe
  import opened LoginServer
  import opened LoginProtocol
  import opened LoginTraffic
  import opened LoginLockstep
  import opened LoginIdentity
  import UserInfos

  function Persona(w: World): Option<string> {
    w.shared.user.info.personaName
  }

  /** The step puts a token request. */
  predicate StartsToken(w: World, v: World) {
    AwaitsToken(v.backend) && !AwaitsToken(w.backend)
  }

  /** The persona at the moment when the latest token request was put. */
  function TokenPersona(c: UserInfos.Codec, events: seq<Event>): Option<string> {
    if events == [] then None
    else if StartsToken(Run(c, events[..|events| - 1]), Run(c, events)) then Persona(Run(c, events))
    else TokenPersona(c, events[..|events| - 1])
  }

  // ---------- While a token login is on ----------

  lemma {:induction false} PersonaStays(c: UserInfos.Codec, w: World, e: Event)
    requires Locked(w) && AwaitsToken(w.backend) && AwaitsToken(Step(c, w, e).backend) && !Clears(w, e)
    ensures Persona(Step(c, w, e)) == Persona(w)
  {
    if e.Finish? && w.websocket.Serving? {
      assert At(w, LoginLockstep.Served);
      assert w.websocket.request == w.requests[w.consumed..][0];
      TokenReply(w.shared, e.reply);
    } else if e.Receive? && w.pluginQueue != [] {
      ReceiveEndsDisturbance(c, w);
    }
  }

  lemma {:induction false} PersonaKept(c: UserInfos.Codec, events: seq<Event>)
    requires Timeouts(c, events) == 0 && AwaitsToken(Run(c, events).backend) && !Disturbed(c, events)
    ensures Persona(Run(c, events)) == TokenPersona(c, events)
    decreases |events|
  {
    if events != [] {
      var before, e := events[..|events| - 1], events[|events| - 1];
      var w := Run(c, before);
      if AwaitsToken(w.backend) {
        PersonaKept(c, before);
        Lockstep(c, before);
        PersonaStays(c, w, e);
      }
    }
  }

  /**
   Without a timeout, and if the user was not forgotten meanwhile, an accepted
   token login authenticates the Steam id that Steam gave with the answer, under
   the persona that the login started with.
  */
  lemma {:induction false} AuthenticatesThePersona(c: UserInfos.Codec, events: seq<Event>)
    requires Timeouts(c, events) == 0 && TokenAccepted(Run(c, events)) && !Disturbed(c, events)
    ensures var w := Run(c, events);
            && w.consumed < |w.produced|
            && Step(c, w, Receive).outcomes ==
               w.outcomes + [Authentication(Some(w.produced[w.consumed].reply.steamId), TokenPersona(c, events), w.consumed)]
  {
    PersonaKept(c, events);
    RunIdentifies(c, events);
    Lockstep(c, events);
    AcceptedOutcome(c, Run(c, events));
  }

  lemma {:induction false} AcceptedOutcome(c: UserInfos.Codec, w: World)
    requires TokenAccepted(w) && Locked(w)
    ensures w.consumed < |w.produced|
    ensures Step(c, w, Receive).outcomes == w.outcomes + [Authentication(w.shared.user.info.steamId, Persona(w), w.consumed)]
  {
    assert At(w, Answered);
  }

  // ---------- Where the persona comes from ----------

  /** While a poll's token waits to be consumed, the persona is the account name that came with it, or was forgotten. */
  ghost predicate PollNoted(w: World) {
    w.pluginQueue != [] && w.pluginQueue[0] == NoActionConfirmToken ==>
      w.consumed < |w.produced| && (Persona(w) == None || Persona(w) == Some(w.produced[w.consumed].reply.accountName))
  }

  lemma {:induction false} PollReply(s: Shared, q: Request, r: Reply)
    requires Serve(s, q, r).1 == Answer(NoActionConfirmToken)
    ensures Serve(s, q, r).0.user.info.personaName == Some(r.accountName)
  {
  }

  lemma {:induction false} FinishNotes(w: World, r: Reply, loss: Loss)
    requires Locked(w) && w.websocket.Serving?
    ensures PollNoted(FinishRequest(w, r, loss))
  {
    assert At(w, LoginLockstep.Served);
    if Serve(w.shared, w.websocket.request, r).1 == Answer(NoActionConfirmToken) {
      PollReply(w.shared, w.websocket.request, r);
    }
  }

  lemma {:induction false} ReceiveNotes(c: UserInfos.Codec, w: World)
    requires Locked(w) && w.backend != Idle && w.pluginQueue != []
    ensures Step(c, w, Receive).pluginQueue == []
  {
    assert At(w, Answered);
    ReceiveConsumes(w);
  }

  lemma {:induction false} OthersNote(c: UserInfos.Codec, w: World, e: Event)
    requires Locked(w) && PollNoted(w) && !e.Finish? && !e.Receive?
    ensures PollNoted(Step(c, w, e))
  {
    UserStepsAside(c, w, e);
  }

  lemma {:induction false} StepNotes(c: UserInfos.Codec, w: World, e: Event)
    requires Locked(w) && PollNoted(w)
    ensures PollNoted(Step(c, w, e))
  {
    if e.Finish? {
      if w.websocket.Serving? {
        FinishNotes(w, e.reply, e.loss);
      }
    } else if e.Receive? {
      if w.backend != Idle && w.pluginQueue != [] {
        ReceiveNotes(c, w);
      }
    } else {
      OthersNote(c, w, e);
    }
  }

  lemma {:induction false} RunNotes(c: UserInfos.Codec, events: seq<Event>)
    requires Timeouts(c, events) == 0
    ensures PollNoted(Run(c, events))
    decreases |events|
  {
    if events != [] {
      var before := events[..|events| - 1];
      RunNotes(c, before);
      Lockstep(c, before);
      StepNotes(c, Run(c, before), events[|events| - 1]);
    }
  }

  /** The request was put after a poll that brought a token, with the account name of its reply. */
  predicate FromPoll(w: World, e: Event, v: World) {
    && e == Receive && v.backend == AwaitToken
    && w.pluginQueue != [] && w.pluginQueue[0] == NoActionConfirmToken && w.consumed < |w.produced|
    && Persona(v) == Some(w.produced[w.consumed].reply.accountName)
  }

  /** The request was put for stored credentials, with the persona that they give to the fields. */
  predicate FromStored(c: UserInfos.Codec, w: World, e: Event, v: World) {
    && e.Authenticate? && e.stored.Some? && v.backend == AwaitStored
    && Persona(v) == UserInfos.FromDict(c, w.shared.user.info, e.stored.value).0.personaName
  }

  lemma {:induction false} TokenStarts(c: UserInfos.Codec, w: World, e: Event)
    requires StartsToken(w, Step(c, w, e)) && PollNoted(w)
    ensures FromPoll(w, e, Step(c, w, e)) || FromStored(c, w, e, Step(c, w, e))
  {
    match e
    case Receive =>
      var x := w.(pluginQueue := w.pluginQueue[1..], consumed := w.consumed + 1);
      assert w.pluginQueue != [] && Step(c, w, Receive) == Consume(x, w.pluginQueue[0]);
    case _ =>
  }

  /** Without a timeout, a token login starts from a poll's account name or from the stored persona. */
  lemma {:induction false} PersonaOrigin(c: UserInfos.Codec, events: seq<Event>)
    requires events != [] && Timeouts(c, events) == 0
    requires StartsToken(Run(c, events[..|events| - 1]), Run(c, events))
    ensures var w, e, v := Run(c, events[..|events| - 1]), events[|events| - 1], Run(c, events);
            FromPoll(w, e, v) || FromStored(c, w, e, v)
  {
    RunNotes(c, events[..|events| - 1]);
    TokenStarts(c, Run(c, events[..|events| - 1]), events[|events| - 1]);
  }

  // ---------- Late answers ----------

  lemma {:induction false} ProducedStays(c: UserInfos.Codec, events: seq<Event>, more: seq<Event>)
    ensures var w, v := Run(c, events), Run(c, events + more);
            |w.produced| <= |v.produced| && v.produced[..|w.produced|] == w.produced
    decreases |more|
  {
    if more == [] {
      assert events + more == events;
    } else {
      var before := more[..|more| - 1];
      ProducedStays(c, events, before);
      assert (events + more)[..|events + more| - 1] == events + before;
      ProducedGrows(c, Run(c, events + before), more[|more| - 1]);
    }
  }

  lemma {:induction false} ProducedGrows(c: UserInfos.Codec, w: World, e: Event)
    ensures var v := Step(c, w, e); |w.produced| <= |v.produced| && v.produced[..|w.produced|] == w.produced
  {
    if e.Receive? {
      if w.backend != Idle && w.pluginQueue != [] {
        ReceiveConsumes(w);
      }
    } else if !e.Finish? {
      UserStepsAside(c, w, e);
    }
  }

  function Last(outcomes: seq<Outcome>): Option<Outcome> {
    if outcomes == [] then None else Some(outcomes[|outcomes| - 1])
  }

  /** The next answer is consumed by authenticating the user. */
  predicate Authenticates(c: UserInfos.Codec, v: World) {
    var out := Step(c, v, Receive).outcomes;
    out != v.outcomes && Last(out).Some? && Last(out).value.Authentication?
  }

  /** What the authentication carries. */
  function Carried(c: UserInfos.Codec, v: World): Option<int>
    requires Authenticates(c, v)
  {
    Last(Step(c, v, Receive).outcomes).value.steamId
  }

  lemma {:induction false} CarriesTheId(c: UserInfos.Codec, v: World)
    requires Authenticates(c, v)
    ensures Carried(c, v) == v.shared.user.info.steamId
  {
  }

  lemma {:induction false} ServedNotesId(w: World, r: Reply, loss: Loss)
    requires w.websocket == Serving(Token) && Serve(w.shared, Token, r).1.Answer?
    ensures var v := FinishRequest(w, r, loss);
            v.shared.user.info.steamId == Some(r.steamId)
            && |v.produced| == |w.produced| + 1 && v.produced[|w.produced|].reply == r
  {
  }

  lemma {:induction false} AnswerStays(c: UserInfos.Codec, events: seq<Event>, more: seq<Event>, a: nat)
    requires a < |Run(c, events).produced|
    ensures a < |Run(c, events + more).produced| && Run(c, events + more).produced[a] == Run(c, events).produced[a]
  {
    ProducedStays(c, events, more);
    var w, v := Run(c, events), Run(c, events + more);
    assert v.produced[..|w.produced|][a] == v.produced[a];
  }

  lemma {:induction false} RunFinish(c: UserInfos.Codec, events: seq<Event>, r: Reply, loss: Loss)
    requires Run(c, events).websocket.Serving?
    ensures Run(c, events + [Finish(r, loss)]) == FinishRequest(Run(c, events), r, loss)
  {
    assert (events + [Finish(r, loss)])[..|events|] == events;
  }

  /** Steam answers a token request, and after some more events an authentication consumes that very answer. */
  predicate ConsumedLate(c: UserInfos.Codec, events: seq<Event>, r: Reply, loss: Loss, more: seq<Event>) {
    var w, v := Run(c, events), Run(c, events + [Finish(r, loss)] + more);
    && w.websocket == Serving(Token) && Serve(w.shared, Token, r).1.Answer?
    && v.consumed == |w.produced| && Authenticates(c, v)
  }

  /**
   Late answers, in every run, whatever timed out: an authentication that consumes
   the answer to a token request carries the Steam id of that answer exactly if the
   id in the fields is again what it was when the answer was produced.
  */
  lemma {:induction false} LateAnswerNames(c: UserInfos.Codec, events: seq<Event>, r: Reply, loss: Loss, more: seq<Event>)
    ensures ConsumedLate(c, events, r, loss, more) ==>
              var w := Run(c, events + [Finish(r, loss)]);
              var v := Run(c, events + [Finish(r, loss)] + more);
              && v.consumed < |v.produced| && v.produced[v.consumed].reply == r
              && (Carried(c, v) == Some(r.steamId) <==> v.shared.user.info.steamId == w.shared.user.info.steamId)
  {
    if ConsumedLate(c, events, r, loss, more) {
      RunFinish(c, events, r, loss);
      ServedNotesId(Run(c, events), r, loss);
      AnswerStays(c, events + [Finish(r, loss)], more, |Run(c, events).produced|);
      CarriesTheId(c, Run(c, events + [Finish(r, loss)] + more));
    }
  }
}
