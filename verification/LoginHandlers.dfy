/**
 What the backend's handlers do: with what the user submits, and with each answer
 to their own requests. Told as a relation between the worlds before and after.
*/
module LoginHandlers {
  import opened Maybe
  import opened Selections
  import opened TwoFactor
  import opened LoginServer
  import opened LoginProtocol
  import opened LoginTraffic
  import opened LoginLockstep
  import UserInfos

  /** The handler puts a request and waits on; nothing is said to Galaxy yet. */
  predicate Asks(w: World, v: World, q: Request, b: Backend) {
    && v.backend == b && v.requests == w.requests + [q] && v.websocketQueue == w.websocketQueue + [q]
    && v.outcomes == w.outcomes
  }

  /** The handler ends. */
  predicate Ends(w: World, v: World, o: Outcome) {
    && v.backend == Idle && v.requests == w.requests && v.websocketQueue == w.websocketQueue
    && v.outcomes == w.outcomes + [o]
  }

  predicate HasAllFields(info: UserInfos.Info) {
    && info.steamId.Some?
    && (info.accountUsername.Some? && info.accountUsername.value != "")
    && (info.personaName.Some? && info.personaName.value != "")
    && (info.refreshToken.Some? && info.refreshToken.value != "")
  }

  // ---------- Answers ----------

  /** The user's name and password were answered. */
  predicate LoginHandled(w: World, a: Action, v: World) {
    match a
    case NoActionConfirmLogin => Asks(w, v, Poll(false), AwaitPollNone)
    case TwoFactorRequired =>
      if w.shared.methods == None || w.shared.methods == Some([]) then Ends(w, v, Raised)
      else (match w.shared.methods.value[0].0
            case Nothing => Asks(w, v, Poll(false), AwaitPollNone)
            case PhoneCode => Ends(w, v, NextStep(MobilePage, false))
            case EmailCode => Ends(w, v, NextStep(MailPage, false))
            case PhoneConfirm => Ends(w, v, NextStep(ConfirmPage, false))
            case Unknown => Ends(w, v, Raised))
    case _ => Ends(w, v, NextStep(LoginPage, true))
  }

  /** A code was answered; the page to go back to is the one it came from. */
  predicate CodeHandled(w: World, fallback: Page, a: Action, v: World) {
    match a
    case NoActionConfirmLogin => Asks(w, v, Poll(false), AwaitPollCheck(fallback, false))
    case TwoFactorExpired => Ends(w, v, NextStep(LoginPage, true))
    case InvalidAuthData => Ends(w, v, NextStep(fallback, true))
    case _ => Ends(w, v, Raised)
  }

  /** A poll brought a token: with it the login goes on, if all fields are there. */
  predicate TokenGained(w: World, v: World) {
    if HasAllFields(w.shared.user.info) then Asks(w, v, Token, AwaitToken) else Ends(w, v, Raised)
  }

  /** The authentication of the fields as they are, for the answer that is consumed. */
  function Now(w: World): Outcome {
    Authentication(w.shared.user.info.steamId, w.shared.user.info.personaName, w.consumed)
  }

  predicate PlainPollHandled(w: World, a: Action, v: World) {
    match a
    case NoActionRequired => Ends(w, v, Now(w))
    case NoActionConfirmToken => TokenGained(w, v)
    case _ => Ends(w, v, Raised)
  }

  predicate PollHandled(w: World, fallback: Page, a: Action, v: World) {
    match a
    case NoActionRequired => Ends(w, v, Now(w))
    case NoActionConfirmToken => TokenGained(w, v)
    case NoActionConfirmLogin => Ends(w, v, NextStep(fallback, true))
    case TwoFactorRequired => Ends(w, v, NextStep(fallback, true))
    case TwoFactorExpired => Ends(w, v, NextStep(LoginPage, true))
    case InvalidAuthData => Ends(w, v, Raised)
  }

  predicate TokenHandled(w: World, stored: bool, a: Action, v: World) {
    Ends(w, v, if a == NoActionRequired then Now(w) else if stored then NextStep(LoginPage, false) else Raised)
  }

  predicate AnswerHandled(w: World, a: Action, v: World) {
    match w.backend
    case Idle => false
    case AwaitLogin => LoginHandled(w, a, v)
    case AwaitTwoFactor(fallback) => CodeHandled(w, fallback, a, v)
    case AwaitPollNone => PlainPollHandled(w, a, v)
    case AwaitPollCheck(fallback, _) => PollHandled(w, fallback, a, v)
    case AwaitToken => TokenHandled(w, false, a, v)
    case AwaitStored => TokenHandled(w, true, a, v)
  }

  /** One answer is gone; only refused stored credentials touch the caches, and make the client forget the user. */
  predicate AnswerGone(w: World, a: Action, v: World) {
    && w.pluginQueue != [] && v.pluginQueue == w.pluginQueue[1..] && v.consumed == w.consumed + 1
    && v.produced == w.produced && v.websocket == w.websocket
    && (if w.backend == AwaitStored && a != NoActionRequired
        then v.shared.user.info == UserInfos.NOBODY && v.shared == w.shared.(user := v.shared.user)
        else v.shared == w.shared)
  }

  /** Every answer that a handler consumes, to its own request or another, is handled as said. */
  lemma {:induction false} AnswersHandled(c: UserInfos.Codec, w: World)
    requires w.pluginQueue != [] && w.backend != Idle
    ensures AnswerHandled(w, w.pluginQueue[0], Step(c, w, Receive))
  {
  }

  lemma {:induction false} AnswersGone(c: UserInfos.Codec, w: World)
    requires w.pluginQueue != [] && w.backend != Idle
    ensures AnswerGone(w, w.pluginQueue[0], Step(c, w, Receive))
  {
  }

  /** Nothing happens to a handler without an answer, or to an answer without a handler. */
  lemma {:induction false} NothingReceived(c: UserInfos.Codec, w: World)
    requires w.pluginQueue == [] || w.backend == Idle
    ensures Step(c, w, Receive) == w
  {
  }

  // ---------- Submissions ----------

  predicate StoredTaken(w: World, info: UserInfos.Info, raised: bool, v: World) {
    && v.shared == w.shared.(user := w.shared.user.(info := info))
    && if raised then Ends(w, v, Raised)
       else if HasAllFields(info) then Asks(w, v, Token, AwaitStored)
       else Ends(w, v, NextStep(LoginPage, false))
  }

  function CodePage(mail: bool): Page {
    if mail then MailPage else MobilePage
  }

  /** What an idle backend does when Galaxy calls it. */
  predicate SubmissionTaken(c: UserInfos.Codec, w: World, e: Event, v: World) {
    match e
    case Authenticate(None) => Ends(w, v, NextStep(LoginPage, false)) && v.shared == w.shared
    case Authenticate(Some(d)) =>
      StoredTaken(w, UserInfos.FromDict(c, w.shared.user.info, d).0, UserInfos.FromDict(c, w.shared.user.info, d).1, v)
    case LoginSubmitted(None) => Ends(w, v, NextStep(LoginPage, true)) && v.shared == w.shared
    case LoginSubmitted(Some(p)) => Asks(w, v, RsaAndLogin(p.0, Sanitize(p.1)), AwaitLogin) && v.shared == w.shared
    case CodeSubmitted(mail, None) => Ends(w, v, NextStep(CodePage(mail), true)) && v.shared == w.shared
    case CodeSubmitted(mail, Some(code)) =>
      && Asks(w, v, UpdateTwoFactor(code, if mail then EmailCode else PhoneCode), AwaitTwoFactor(CodePage(mail)))
      && v.shared == w.shared
    case ConfirmSubmitted =>
      && (if w.shared.methods.Some? then Asks(w, v, Poll(true), AwaitPollCheck(ConfirmPage, true)) else Ends(w, v, Raised))
      && v.shared == w.shared
    case OtherUri => Ends(w, v, Raised) && v.shared == w.shared
    case _ => true
  }

  lemma {:induction false} SubmissionsTaken(c: UserInfos.Codec, w: World, e: Event)
    requires ByUser(e)
    ensures w.backend == Idle ==> SubmissionTaken(c, w, e, Step(c, w, e))
    ensures w.backend != Idle ==> Step(c, w, e) == w
    ensures var v := Step(c, w, e);
            v.pluginQueue == w.pluginQueue && v.produced == w.produced && v.consumed == w.consumed && v.websocket == w.websocket
  {
  }

  /** The first 64 of the password's ASCII characters. */
  lemma {:induction false} SanitizedExactly(s: string)
    ensures exists ascii :: Selects(s, IsAscii(), ascii) && Sanitize(s) == ascii[..if |ascii| < 64 then |ascii| else 64]
  {
    AsciiSelected(s);
  }

  ghost function IsAscii(): char -> bool {
    (x: char) => x as int < 128
  }

  lemma {:induction false} AsciiSelected(s: string)
    ensures Selects(s, IsAscii(), Ascii(s))
    decreases |s|
  {
    if s == [] {
      SelectsNothing(IsAscii());
    } else {
      AsciiSelected(s[..|s| - 1]);
      SelectsAll(s, IsAscii(), Ascii(s[..|s| - 1]), Ascii(s));
    }
  }

  // ---------- The other events ----------

  /** What a lost connection does: the task starts again, forgets the user, or dies. */
  predicate LossTaken(w: World, loss: Loss, v: World) {
    && v.backend == w.backend && v.websocketQueue == w.websocketQueue && v.pluginQueue == w.pluginQueue
    && v.outcomes == w.outcomes && v.requests == w.requests && v.consumed == w.consumed && v.produced == w.produced
    && v.websocket == (if loss == Fatal then Dead else Waiting)
    && v.shared.polling == w.shared.polling && v.shared.methods == w.shared.methods
    && v.shared.user.info == (if loss == AuthLost then UserInfos.NOBODY else w.shared.user.info)
  }

  /** What serving a request does to the task and the queues. */
  predicate ServiceTaken(w: World, r: Reply, loss: Loss, v: World) {
    w.websocket.Serving? ==>
      var (shared, served) := Serve(w.shared, w.websocket.request, r);
      match served
      case Answer(a) =>
        && v.pluginQueue == w.pluginQueue + [a] && v.produced == w.produced + [Entry(w.websocket.request, r, a)]
        && v.shared == shared && v.websocket == (if a == NoActionRequired then Finished else Waiting)
        && v.backend == w.backend && v.websocketQueue == w.websocketQueue
        && v.outcomes == w.outcomes && v.requests == w.requests && v.consumed == w.consumed
      case ServerError => LossTaken(w.(shared := shared), loss, v)
      case Crash => LossTaken(w.(shared := shared), Fatal, v)
  }

  lemma {:induction false} TaskSteps(c: UserInfos.Codec, w: World, r: Reply, loss: Loss)
    ensures w.websocket != Dead ==> LossTaken(w, loss, Step(c, w, Lose(loss)))
    ensures w.websocket == Dead ==> Step(c, w, Lose(loss)) == w
    ensures ServiceTaken(w, r, loss, Step(c, w, Finish(r, loss)))
    ensures !w.websocket.Serving? ==> Step(c, w, Finish(r, loss)) == w
    ensures Step(c, w, TakeRequest) ==
            if w.websocket == Waiting && w.websocketQueue != []
            then w.(websocket := Serving(w.websocketQueue[0]), websocketQueue := w.websocketQueue[1..]) else w
  {
  }

  /** A tick stores the credentials if the flag is up, and takes it down; it touches nothing else. */
  lemma {:induction false} TicksStore(c: UserInfos.Codec, w: World)
    ensures var v, m := Step(c, w, Tick), w.shared.user;
            v == w.(shared := w.shared.(user := if m.changed then m.(changed := false, stored := Some(UserInfos.ToDict(c, m.info))) else m))
  {
  }

  lemma {:induction false} TimeoutsEnd(c: UserInfos.Codec, w: World)
    ensures if w.backend == Idle then Step(c, w, Timeout) == w
            else Ends(w, Step(c, w, Timeout), TimedOut)
                 && Step(c, w, Timeout) == w.(backend := Idle, outcomes := w.outcomes + [TimedOut])
  {
  }
}
