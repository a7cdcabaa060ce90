/** Runs of the login in which something goes wrong: a wait times out, or authentication is lost. */
module LoginExamples {
  import opened Maybe
  import opened TwoFactor
  import opened LoginServer
  import opened LoginProtocol
  import opened LoginLockstep
  import opened LoginIdentity
  import opened LoginAnswers
  import opened LoginHandlers
  import opened LoginProgress
  import UserInfos

  function FourSteps(c: UserInfos.Codec, w: World, e1: Event, e2: Event, e3: Event, e4: Event): World {
    Step(c, Step(c, Step(c, Step(c, w, e1), e2), e3), e4)
  }

  lemma {:induction false} RunStep(c: UserInfos.Codec, events: seq<Event>, e: Event)
    ensures Run(c, events + [e]) == Step(c, Run(c, events), e)
  {
    assert (events + [e])[..|events|] == events;
  }

  lemma {:induction false} RunFourSteps(c: UserInfos.Codec, events: seq<Event>, e1: Event, e2: Event, e3: Event, e4: Event)
    ensures Run(c, events + [e1] + [e2] + [e3] + [e4]) == FourSteps(c, Run(c, events), e1, e2, e3, e4)
  {
    RunStep(c, events, e1);
    RunStep(c, events + [e1], e2);
    RunStep(c, events + [e1] + [e2], e3);
    RunStep(c, events + [e1] + [e2] + [e3], e4);
  }

  /**
   One timeout is enough to revive a dead branch. Whatever the run was: if the
   wait for the token login times out while its request is queued, its late
   answer authenticates the user through the poll of the confirmation page.
  */
  lemma {:induction false} TimeoutRevivesDeadBranch(c: UserInfos.Codec, events: seq<Event>, r: Reply, loss: Loss)
    requires var w := Run(c, events);
             w.backend == AwaitToken && w.websocketQueue == [Token] && w.websocket == Waiting && w.pluginQueue == []
             && w.shared.methods.Some? && r.result == OK
    ensures var w := Run(c, events + [Timeout] + [TakeRequest] + [Finish(r, loss)] + [ConfirmSubmitted]);
            && w.backend == AwaitPollCheck(ConfirmPage, true) && w.pluginQueue == [NoActionRequired]
            && !Meets(w.backend, w.pluginQueue[0])
            && Step(c, w, Receive).outcomes[|w.outcomes|..] ==
               [Authentication(Some(r.steamId), w.shared.user.info.personaName, w.consumed)]
  {
    RunFourSteps(c, events, Timeout, TakeRequest, Finish(r, loss), ConfirmSubmitted);
    LateAnswer(c, Run(c, events), r, loss);
  }

  lemma {:induction false} LateAnswer(c: UserInfos.Codec, w: World, r: Reply, loss: Loss)
    requires w.backend == AwaitToken && w.websocketQueue == [Token] && w.websocket == Waiting && w.pluginQueue == []
    requires w.shared.methods.Some? && r.result == OK
    ensures var v := FourSteps(c, w, Timeout, TakeRequest, Finish(r, loss), ConfirmSubmitted);
            && v.backend == AwaitPollCheck(ConfirmPage, true) && v.pluginQueue == [NoActionRequired]
            && Step(c, v, Receive).outcomes[|v.outcomes|..] ==
               [Authentication(Some(r.steamId), v.shared.user.info.personaName, v.consumed)]
  {
    var s := Step(c, Step(c, w, Timeout), TakeRequest);
    assert s.websocket == Serving(Token) && s.backend == Idle;
    var t := Step(c, s, Finish(r, loss));
    assert t.pluginQueue == [NoActionRequired] && t.backend == Idle && t.shared.methods.Some?;
    assert t.shared.user.info.steamId == Some(r.steamId);
  }

  /** And if authentication is lost while the answer to a token login is queued, the handler authenticates nobody. */
  lemma {:induction false} LostAuthenticationNamesNobody(c: UserInfos.Codec, events: seq<Event>)
    requires TokenAccepted(Run(c, events)) && Run(c, events).websocket != Dead
    ensures var w := Run(c, events + [Lose(AuthLost)]);
            Step(c, w, Receive).outcomes[|w.outcomes|..] == [Authentication(None, None, w.consumed)]
  {
    RunStep(c, events, Lose(AuthLost));
    NobodyLeft(c, Run(c, events));
  }

  lemma {:induction false} NobodyLeft(c: UserInfos.Codec, w: World)
    requires TokenAccepted(w) && w.websocket != Dead
    ensures var v := Step(c, w, Lose(AuthLost));
            Step(c, v, Receive).outcomes[|v.outcomes|..] == [Authentication(None, None, v.consumed)]
  {
    var v := Step(c, w, Lose(AuthLost));
    assert v.shared.user.info == UserInfos.NOBODY && v.pluginQueue == w.pluginQueue && v.backend == w.backend;
    var o := Authentication(None, None, v.consumed);
    assert Step(c, v, Receive).outcomes == v.outcomes + [o];
  }

  /** Name and password, the confirmation on the phone, and the poll after it. */
  function Confirmed(username: string, password: string, r1: Reply, r2: Reply): seq<Event> {
    ([LoginSubmitted(Some((username, password)))] + Exchange(r1)) + [ConfirmSubmitted] + Exchange(r2) + []
  }

  /** Such states are reached from any state at rest, by every accepted login for which the phone comes first. */
  lemma {:induction false} TokenLoginIsReachable(c: UserInfos.Codec, w: World, username: string, password: string, r1: Reply, r2: Reply)
    requires Rests(w) && Accepted(username, Sanitize(password), r1) && OffersKnown(r1.confirmations) && FirstOf(r1) == PhoneConfirm
    requires r2.result == OK && r2.refreshToken != "" && r2.accountName != ""
    ensures var v := Play(c, w, Confirmed(username, password, r1, r2)); Pends(v, Token, AwaitToken) && v.shared.methods.Some?
  {
    PlayFour(c, w, [LoginSubmitted(Some((username, password)))] + Exchange(r1), [ConfirmSubmitted], Exchange(r2), []);
    FirstStep(c, w, username, password, r1);
    LoginStep(c, w, username, password, r1);
    ConfirmedPends(c, AfterFirst(c, w, username, password, r1), username, r2);
  }

  lemma {:induction false} ConfirmedPends(c: UserInfos.Codec, v: World, username: string, r: Reply)
    requires Rests(v) && SignedIn(v, username, PhoneConfirm) && r.result == OK && r.refreshToken != "" && r.accountName != ""
    ensures var x := Play(c, Play(c, v, [ConfirmSubmitted]), Exchange(r)); Pends(x, Token, AwaitToken) && x.shared.methods.Some?
  {
    PlayOne(c, v, ConfirmSubmitted);
    ConfirmStep(c, v, username, PhoneConfirm);
    PollStep(c, Step(c, v, ConfirmSubmitted), true, r, username, PhoneConfirm);
  }

  /** Two steps on, Steam has accepted the token, and the answer is queued. */
  lemma {:induction false} AcceptedTokenIsReachable(c: UserInfos.Codec, w: World, r: Reply, loss: Loss)
    requires Pends(w, Token, AwaitToken) && r.result == OK
    ensures var v := Play(c, w, [TakeRequest, Finish(r, loss)]); TokenAccepted(v) && v.websocket == Finished
  {
    var taken := Step(c, w, TakeRequest);
    assert taken == w.(websocket := Serving(Token), websocketQueue := []);
    TaskSteps(c, taken, r, loss);
    TokenAnswersExactly(taken.shared, r);
    assert [TakeRequest, Finish(r, loss)][1..] == [Finish(r, loss)];
    PlayOne(c, taken, Finish(r, loss));
  }
}
