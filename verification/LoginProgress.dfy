/**
 The login gets done: whatever the user types and Steam sends, if Steam accepts
 each step, the user sees the page of the first ranked method and is then
 authenticated.
*/
module LoginProgress {
  import opened Maybe
  import opened TwoFactor
  import opened LoginServer
  import opened LoginAnswers
  import opened LoginProtocol
  import opened LoginHandlers
  import UserInfos

  // ---------- Playing events ----------

  function Play(c: UserInfos.Codec, w: World, events: seq<Event>): World
    decreases |events|
  {
    if events == [] then w else Play(c, Step(c, w, events[0]), events[1..])
  }

  lemma {:induction false} PlayAppend(c: UserInfos.Codec, w: World, a: seq<Event>, b: seq<Event>)
    ensures Play(c, w, a + b) == Play(c, Play(c, w, a), b)
    decreases |a|
  {
    if a == [] {
      assert a + b == b;
    } else {
      assert (a + b)[0] == a[0] && (a + b)[1..] == a[1..] + b;
      PlayAppend(c, Step(c, w, a[0]), a[1..], b);
    }
  }

  lemma {:induction false} RunPlay(c: UserInfos.Codec, events: seq<Event>, more: seq<Event>)
    ensures Run(c, events + more) == Play(c, Run(c, events), more)
    decreases |more|
  {
    if more == [] {
      assert events + more == events;
    } else {
      assert events + more == (events + [more[0]]) + more[1..];
      assert (events + [more[0]])[..|events|] == events;
      RunPlay(c, events + [more[0]], more[1..]);
    }
  }

  // ---------- One exchange ----------

  /** The websocket task takes the request and serves it, and the handler receives the answer. */
  function Exchange(r: Reply): seq<Event> {
    [TakeRequest, Finish(r, Retry), Receive]
  }

  /** Nothing is on the way, and both sides are ready for more. */
  predicate Rests(w: World) {
    w.backend == Idle && w.websocketQueue == [] && w.websocket == Waiting && w.pluginQueue == []
  }

  /** The handler has put the one request that is on the way. */
  predicate Pends(w: World, q: Request, b: Backend) {
    w.backend == b && w.websocketQueue == [q] && w.websocket == Waiting && w.pluginQueue == []
  }

  /** The answer is in the queue of the handler that waits for it. */
  function Arrived(w: World, q: Request, r: Reply): World
    requires Serve(w.shared, q, r).1.Answer?
  {
    var (shared, served) := Serve(w.shared, q, r);
    w.(shared := shared, websocketQueue := [], pluginQueue := [served.action], produced := w.produced + [Entry(q, r, served.action)],
       websocket := if served.action == NoActionRequired then Finished else Waiting)
  }

  lemma {:induction false} ExchangeArrives(c: UserInfos.Codec, w: World, q: Request, b: Backend, r: Reply)
    requires Pends(w, q, b) && Serve(w.shared, q, r).1.Answer?
    ensures Play(c, w, Exchange(r)) == Step(c, Arrived(w, q, r), Receive)
  {
    var taken := Step(c, w, TakeRequest);
    assert taken == w.(websocket := Serving(q), websocketQueue := []);
    TaskSteps(c, taken, r, Retry);
    assert Step(c, taken, Finish(r, Retry)) == Arrived(w, q, r);
    PlayThree(c, w, TakeRequest, Finish(r, Retry), Receive);
  }

  lemma {:induction false} PlayThree(c: UserInfos.Codec, w: World, e1: Event, e2: Event, e3: Event)
    ensures Play(c, w, [e1, e2, e3]) == Step(c, Step(c, Step(c, w, e1), e2), e3)
  {
    assert [e1, e2, e3][1..] == [e2, e3] && [e2, e3][1..] == [e3] && [e3][1..] == [];
    assert Play(c, Step(c, w, e1), [e2, e3]) == Play(c, Step(c, Step(c, w, e1), e2), [e3]);
  }

  lemma {:induction false} PlayOne(c: UserInfos.Codec, w: World, e: Event)
    ensures Play(c, w, [e]) == Step(c, w, e)
  {
    assert [e][1..] == [];
  }

  // ---------- The four steps ----------

  /** Steam knows the user, and the ranked methods are there, with this first choice. */
  predicate SignedIn(w: World, username: string, first: Method) {
    && w.shared.polling.Some? && (exists i :: 0 <= i < |w.shared.polling.value.allowed| && w.shared.polling.value.allowed[i].0 != Unknown)
    && w.shared.methods.Some? && w.shared.methods.value != [] && w.shared.methods.value[0].0 == first
    && w.shared.user.info.steamId.Some? && w.shared.user.info.accountUsername == Some(username) && username != ""
  }

  /** The page for a first choice; none if nothing has to be confirmed. */
  function Shown(first: Method): seq<Outcome> {
    match first
    case PhoneCode => [NextStep(MobilePage, false)]
    case EmailCode => [NextStep(MailPage, false)]
    case PhoneConfirm => [NextStep(ConfirmPage, false)]
    case _ => []
  }

  /** The state after some steps: what was said, how many answers were consumed, and who is signed in. */
  predicate Reached(v: World, outcomes: seq<Outcome>, consumed: nat, username: string, first: Method) {
    v.outcomes == outcomes && v.consumed == consumed && SignedIn(v, username, first)
  }

  function FirstOf(r: Reply): Method {
    var ranked := SortDescending(ToDict(r.confirmations));
    if ranked == [] then Unknown else ranked[0].0
  }

  lemma {:induction false} LoginSignsIn(s: Shared, username: string, password: string, r: Reply)
    requires Accepted(username, password, r) && OffersKnown(r.confirmations)
    ensures var (t, served) := Serve(s, RsaAndLogin(username, password), r);
            && served == Answer(TwoFactorRequired) && FirstOf(r) != Unknown
            && t.polling.Some? && (exists i :: 0 <= i < |t.polling.value.allowed| && t.polling.value.allowed[i].0 != Unknown)
            && t.methods.Some? && t.methods.value != [] && t.methods.value[0].0 == FirstOf(r)
            && t.user.info.steamId.Some? && t.user.info.accountUsername == Some(username)
  {
    KnownGuards(r.confirmations);
    LoginAsksForSecondFactor(s, username, password, r);
    FirstChoice(r.confirmations);
  }

  /** Where the first answer leaves things. */
  function AfterFirst(c: UserInfos.Codec, w: World, username: string, password: string, r: Reply): World {
    Play(c, Step(c, w, LoginSubmitted(Some((username, password)))), Exchange(r))
  }

  lemma {:induction false} LoginStep(c: UserInfos.Codec, w: World, username: string, password: string, r: Reply)
    requires Rests(w) && Accepted(username, Sanitize(password), r) && OffersKnown(r.confirmations)
    ensures var v := AfterFirst(c, w, username, password, r);
            && FirstOf(r) != Unknown && Reached(v, w.outcomes + Shown(FirstOf(r)), w.consumed + 1, username, FirstOf(r))
            && if FirstOf(r) == Nothing then Pends(v, Poll(false), AwaitPollNone) else Rests(v)
  {
    var q := RsaAndLogin(username, Sanitize(password));
    var asked := Step(c, w, LoginSubmitted(Some((username, password))));
    assert Pends(asked, q, AwaitLogin) && asked.shared == w.shared;
    LoginSignsIn(w.shared, username, Sanitize(password), r);
    ExchangeArrives(c, asked, q, AwaitLogin, r);
    AnswersHandled(c, Arrived(asked, q, r));
    AnswersGone(c, Arrived(asked, q, r));
    assert w.outcomes + [] == w.outcomes;
  }

  lemma {:induction false} CodeStep(c: UserInfos.Codec, w: World, mail: bool, code: string, r: Reply, username: string, first: Method)
    requires Rests(w) && SignedIn(w, username, first) && code != "" && r.result in {OK, DuplicateRequest}
    ensures var v := Play(c, Step(c, w, CodeSubmitted(mail, Some(code))), Exchange(r));
            Reached(v, w.outcomes, w.consumed + 1, username, first) && Pends(v, Poll(false), AwaitPollCheck(CodePage(mail), false))
  {
    var m := if mail then EmailCode else PhoneCode;
    var q := UpdateTwoFactor(code, m);
    var asked := Step(c, w, CodeSubmitted(mail, Some(code)));
    assert Pends(asked, q, AwaitTwoFactor(CodePage(mail))) && asked.shared == w.shared;
    CodeAnswersExactly(w.shared, code, m, r);
    ExchangeArrives(c, asked, q, AwaitTwoFactor(CodePage(mail)), r);
    AnswersHandled(c, Arrived(asked, q, r));
    AnswersGone(c, Arrived(asked, q, r));
  }

  lemma {:induction false} ConfirmStep(c: UserInfos.Codec, w: World, username: string, first: Method)
    requires Rests(w) && SignedIn(w, username, first)
    ensures var v := Step(c, w, ConfirmSubmitted);
            Reached(v, w.outcomes, w.consumed, username, first) && Pends(v, Poll(true), AwaitPollCheck(ConfirmPage, true))
  {
    SubmissionsTaken(c, w, ConfirmSubmitted);
  }

  lemma {:induction false} PollStep(c: UserInfos.Codec, w: World, isConfirm: bool, r: Reply, username: string, first: Method)
    requires Pends(w, Poll(isConfirm), w.backend) && (w.backend.AwaitPollNone? || w.backend.AwaitPollCheck?)
    requires SignedIn(w, username, first) && r.result == OK && r.refreshToken != "" && r.accountName != ""
    ensures var v := Play(c, w, Exchange(r));
            && v.outcomes == w.outcomes && v.consumed == w.consumed + 1 && Pends(v, Token, AwaitToken)
            && v.shared.user.info.personaName == Some(r.accountName) && v.shared.methods == w.shared.methods
  {
    PollAnswersExactly(w.shared, isConfirm, r);
    ExchangeArrives(c, w, Poll(isConfirm), w.backend, r);
    var a := Arrived(w, Poll(isConfirm), r);
    assert HasAllFields(a.shared.user.info);
    AnswersHandled(c, a);
    AnswersGone(c, a);
  }

  lemma {:induction false} TokenStep(c: UserInfos.Codec, w: World, r: Reply)
    requires Pends(w, Token, AwaitToken) && r.result == OK
    ensures Play(c, w, Exchange(r)).outcomes ==
            w.outcomes + [Authentication(Some(r.steamId), w.shared.user.info.personaName, w.consumed)]
  {
    TokenAnswersExactly(w.shared, r);
    ExchangeArrives(c, w, Token, AwaitToken, r);
    AnswersHandled(c, Arrived(w, Token, r));
  }

  // ---------- The whole login ----------

  /** What the user does about the first choice: types a code, or confirms on the phone. */
  function SecondFactor(first: Method, code: string, r: Reply): seq<Event> {
    match first
    case PhoneCode => [CodeSubmitted(false, Some(code))] + Exchange(r)
    case EmailCode => [CodeSubmitted(true, Some(code))] + Exchange(r)
    case PhoneConfirm => [ConfirmSubmitted]
    case _ => []
  }

  function Answers(first: Method): nat {
    if first == PhoneCode || first == EmailCode then 1 else 0
  }

  /** Name and password, the second factor, the poll, and the token login, each answered by Steam. */
  function Login(username: string, password: string, code: string, r1: Reply, r2: Reply, r3: Reply, r4: Reply): seq<Event> {
    ([LoginSubmitted(Some((username, password)))] + Exchange(r1)) + SecondFactor(FirstOf(r1), code, r2) + Exchange(r3) + Exchange(r4)
  }

  lemma {:induction false} SecondStep(c: UserInfos.Codec, w: World, code: string, r: Reply, username: string, first: Method)
    requires SignedIn(w, username, first) && first != Unknown
    requires if first == Nothing then Pends(w, Poll(false), AwaitPollNone) else Rests(w)
    requires first == PhoneCode || first == EmailCode ==> code != "" && r.result in {OK, DuplicateRequest}
    ensures var v := Play(c, w, SecondFactor(first, code, r));
            && Reached(v, w.outcomes, w.consumed + Answers(first), username, first)
            && (v.backend.AwaitPollNone? || v.backend.AwaitPollCheck?)
            && (Pends(v, Poll(false), v.backend) || Pends(v, Poll(true), v.backend))
  {
    match first
    case PhoneCode =>
      CodeStep(c, w, false, code, r, username, first);
      PlayAppend(c, w, [CodeSubmitted(false, Some(code))], Exchange(r));
      PlayOne(c, w, CodeSubmitted(false, Some(code)));
    case EmailCode =>
      CodeStep(c, w, true, code, r, username, first);
      PlayAppend(c, w, [CodeSubmitted(true, Some(code))], Exchange(r));
      PlayOne(c, w, CodeSubmitted(true, Some(code)));
    case PhoneConfirm =>
      ConfirmStep(c, w, username, first);
      PlayOne(c, w, ConfirmSubmitted);
    case Nothing =>
  }

  /** After the second factor, the poll and the token login authenticate the user. */
  lemma {:induction false} LastSteps(c: UserInfos.Codec, w: World, r3: Reply, r4: Reply, username: string, first: Method)
    requires SignedIn(w, username, first) && (w.backend.AwaitPollNone? || w.backend.AwaitPollCheck?)
    requires Pends(w, Poll(false), w.backend) || Pends(w, Poll(true), w.backend)
    requires r3.result == OK && r3.refreshToken != "" && r3.accountName != "" && r4.result == OK
    ensures Play(c, Play(c, w, Exchange(r3)), Exchange(r4)).outcomes ==
            w.outcomes + [Authentication(Some(r4.steamId), Some(r3.accountName), w.consumed + 1)]
  {
    PollStep(c, w, w.websocketQueue[0] == Poll(true), r3, username, first);
    TokenStep(c, Play(c, w, Exchange(r3)), r4);
  }

  lemma {:induction false} PlayFour(c: UserInfos.Codec, w: World, a: seq<Event>, b: seq<Event>, d: seq<Event>, e: seq<Event>)
    ensures Play(c, w, a + b + d + e) == Play(c, Play(c, Play(c, Play(c, w, a), b), d), e)
  {
    PlayAppend(c, w, a + b + d, e);
    PlayAppend(c, w, a + b, d);
    PlayAppend(c, w, a, b);
  }

  lemma {:induction false} FirstStep(c: UserInfos.Codec, w: World, username: string, password: string, r: Reply)
    ensures Play(c, w, [LoginSubmitted(Some((username, password)))] + Exchange(r)) ==
            Play(c, Step(c, w, LoginSubmitted(Some((username, password)))), Exchange(r))
  {
    PlayAppend(c, w, [LoginSubmitted(Some((username, password)))], Exchange(r));
    PlayOne(c, w, LoginSubmitted(Some((username, password))));
  }

  lemma {:induction false} SignedInSucceeds(c: UserInfos.Codec, w: World, code: string, r2: Reply, r3: Reply, r4: Reply,
                                            username: string, first: Method)
    requires SignedIn(w, username, first) && first != Unknown
    requires if first == Nothing then Pends(w, Poll(false), AwaitPollNone) else Rests(w)
    requires first == PhoneCode || first == EmailCode ==> code != "" && r2.result in {OK, DuplicateRequest}
    requires r3.result == OK && r3.refreshToken != "" && r3.accountName != "" && r4.result == OK
    ensures Play(c, Play(c, Play(c, w, SecondFactor(first, code, r2)), Exchange(r3)), Exchange(r4)).outcomes ==
            w.outcomes + [Authentication(Some(r4.steamId), Some(r3.accountName), w.consumed + Answers(first) + 1)]
  {
    SecondStep(c, w, code, r2, username, first);
    LastSteps(c, Play(c, w, SecondFactor(first, code, r2)), r3, r4, username, first);
  }

  lemma {:induction false} PlayLogin(c: UserInfos.Codec, w: World, username: string, password: string, code: string,
                                     r1: Reply, r2: Reply, r3: Reply, r4: Reply)
    ensures Play(c, w, Login(username, password, code, r1, r2, r3, r4)) ==
            Play(c, Play(c, Play(c, AfterFirst(c, w, username, password, r1), SecondFactor(FirstOf(r1), code, r2)),
                         Exchange(r3)), Exchange(r4))
  {
    PlayFour(c, w, [LoginSubmitted(Some((username, password)))] + Exchange(r1), SecondFactor(FirstOf(r1), code, r2),
             Exchange(r3), Exchange(r4));
    FirstStep(c, w, username, password, r1);
  }

  /** Steam accepts each step: the credentials, the code if one is asked for, the poll, and the token. */
  ghost predicate AllAccepted(username: string, password: string, code: string, r1: Reply, r2: Reply, r3: Reply, r4: Reply) {
    && Accepted(username, Sanitize(password), r1) && OffersKnown(r1.confirmations)
    && (FirstOf(r1) == PhoneCode || FirstOf(r1) == EmailCode ==> code != "" && r2.result in {OK, DuplicateRequest})
    && r3.result == OK && r3.refreshToken != "" && r3.accountName != "" && r4.result == OK
  }

  /**
   Progress, from any state in which both sides are at rest: if Steam accepts the
   name and password and offers a known method, accepts the code (or the
   confirmation), answers the poll with a token and a name, and accepts the token,
   then the user is shown the page of the first ranked method, if it has one, and
   nothing else, and is authenticated under Steam's id and that name.
  */
  lemma {:induction false} LoginSucceeds(c: UserInfos.Codec, w: World, username: string, password: string, code: string,
                                         r1: Reply, r2: Reply, r3: Reply, r4: Reply)
    requires Rests(w) && AllAccepted(username, password, code, r1, r2, r3, r4)
    ensures Play(c, w, Login(username, password, code, r1, r2, r3, r4)).outcomes ==
            w.outcomes + Shown(FirstOf(r1))
            + [Authentication(Some(r4.steamId), Some(r3.accountName), w.consumed + 2 + Answers(FirstOf(r1)))]
  {
    PlayLogin(c, w, username, password, code, r1, r2, r3, r4);
    LoginStep(c, w, username, password, r1);
    FirstLeads(c, w, AfterFirst(c, w, username, password, r1), username, code, r1, r2, r3, r4);
  }

  lemma {:induction false} FirstLeads(c: UserInfos.Codec, w: World, v: World, username: string, code: string,
                                      r1: Reply, r2: Reply, r3: Reply, r4: Reply)
    requires FirstOf(r1) != Unknown && Reached(v, w.outcomes + Shown(FirstOf(r1)), w.consumed + 1, username, FirstOf(r1))
    requires if FirstOf(r1) == Nothing then Pends(v, Poll(false), AwaitPollNone) else Rests(v)
    requires FirstOf(r1) == PhoneCode || FirstOf(r1) == EmailCode ==> code != "" && r2.result in {OK, DuplicateRequest}
    requires r3.result == OK && r3.refreshToken != "" && r3.accountName != "" && r4.result == OK
    ensures Play(c, Play(c, Play(c, v, SecondFactor(FirstOf(r1), code, r2)), Exchange(r3)), Exchange(r4)).outcomes ==
            w.outcomes + Shown(FirstOf(r1))
            + [Authentication(Some(r4.steamId), Some(r3.accountName), w.consumed + 2 + Answers(FirstOf(r1)))]
  {
    SignedInSucceeds(c, v, code, r2, r3, r4, username, FirstOf(r1));
  }
}
