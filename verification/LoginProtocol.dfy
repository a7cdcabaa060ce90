/**
 The login as two tasks and two queues. The backend's handlers put requests and
 wait for answers, up to a timeout; the websocket task takes requests, talks to
 Steam and puts answers, and may fail at any moment. A run is any list of events;
 an event that cannot happen in the state it meets leaves the state alone.
*/
module LoginProtocol {
  import opened Maybe
  import opened TwoFactor
  import opened LoginServer
  import UserInfos

  datatype Page = LoginPage | MailPage | MobilePage | ConfirmPage

  /** What the backend's handler is suspended in, if any. */
  datatype Backend = Idle
                   | AwaitLogin
                   | AwaitTwoFactor(fallback: Page)
                   | AwaitPollNone
                   | AwaitPollCheck(fallback: Page, isConfirm: bool)
                   | AwaitToken
                   | AwaitStored

  datatype Websocket = Waiting | Serving(request: Request) | Finished | Dead

  /** How a handler ended; an authentication carries the place of the answer it consumed. */
  datatype Outcome = Authentication(steamId: Option<int>, personaName: Option<string>, answer: nat)
                   | NextStep(page: Page, errored: bool)
                   | Raised
                   | TimedOut

  /** One served request: what was asked, what Steam replied, and the action put on the plugin queue. */
  datatype Entry = Entry(request: Request, reply: Reply, action: Action)

  datatype World = World(backend: Backend, websocketQueue: seq<Request>, websocket: Websocket, pluginQueue: seq<Action>,
                         shared: Shared,
                         requests: seq<Request>, produced: seq<Entry>, consumed: nat, outcomes: seq<Outcome>)

  const START: World := World(Idle, [], Waiting, [], FRESH, [], [], 0, [])

  /** How run treats an exception: reconnect, forget the user and reconnect, or give up. */
  datatype Loss = Retry | AuthLost | Fatal

  datatype Event =
    | Authenticate(stored: Option<UserInfos.Dict>)
    | LoginSubmitted(params: Option<(string, string)>)
    | CodeSubmitted(mail: bool, code: Option<string>)
    | ConfirmSubmitted
    | OtherUri
    | Receive
    | Timeout
    | TakeRequest
    | Finish(reply: Reply, loss: Loss)
    | Lose(loss: Loss)
    | Tick

  // ---------- The backend ----------

  /** The first 64 of the password's ASCII characters. */
  function Sanitize(s: string): string {
    var ascii := Ascii(s);
    if |ascii| <= 64 then ascii else ascii[..64]
  }

  function Ascii(s: string): string {
    if s == [] then []
    else
      var earlier := Ascii(s[..|s| - 1]);
      if s[|s| - 1] as int < 128 then earlier + [s[|s| - 1]] else earlier
  }

  function Put(w: World, q: Request, b: Backend): World {
    w.(websocketQueue := w.websocketQueue + [q], requests := w.requests + [q], backend := b)
  }

  function End(w: World, o: Outcome): World {
    w.(backend := Idle, outcomes := w.outcomes + [o])
  }

  function Authenticated(w: World): World
    requires w.consumed > 0
  {
    End(w, Authentication(w.shared.user.info.steamId, w.shared.user.info.personaName, w.consumed - 1))
  }

  /** _finish_auth_process up to its request. */
  function FinishAuth(w: World): World {
    if UserInfos.IsInitialized(w.shared.user.info) then Put(w, Token, AwaitToken) else End(w, Raised)
  }

  /** The next page for the first choice of the ranked methods. */
  function AskSecondFactor(w: World): World {
    if w.shared.methods == None || w.shared.methods.value == [] then End(w, Raised)
    else match w.shared.methods.value[0].0
      case Nothing => Put(w, Poll(false), AwaitPollNone)
      case PhoneCode => End(w, NextStep(MobilePage, false))
      case EmailCode => End(w, NextStep(MailPage, false))
      case PhoneConfirm => End(w, NextStep(ConfirmPage, false))
      case Unknown => End(w, Raised)
  }

  /** What a handler does with the answer it was waiting for. */
  function Consume(w: World, a: Action): World
    requires w.consumed > 0
  {
    match w.backend
    case Idle => w
    case AwaitLogin =>
      (match a
       case NoActionConfirmLogin => Put(w, Poll(false), AwaitPollNone)
       case TwoFactorRequired => AskSecondFactor(w)
       case _ => End(w, NextStep(LoginPage, true)))
    case AwaitTwoFactor(fallback) =>
      (match a
       case NoActionConfirmLogin => Put(w, Poll(false), AwaitPollCheck(fallback, false))
       case TwoFactorExpired => End(w, NextStep(LoginPage, true))
       case InvalidAuthData => End(w, NextStep(fallback, true))
       case _ => End(w, Raised))
    case AwaitPollNone =>
      (match a
       case NoActionRequired => Authenticated(w)
       case NoActionConfirmToken => FinishAuth(w)
       case _ => End(w, Raised))
    case AwaitPollCheck(fallback, _) =>
      (match a
       case NoActionRequired => Authenticated(w)
       case NoActionConfirmToken => FinishAuth(w)
       case NoActionConfirmLogin => End(w, NextStep(fallback, true))
       case TwoFactorRequired => End(w, NextStep(fallback, true))
       case TwoFactorExpired => End(w, NextStep(LoginPage, true))
       case InvalidAuthData => End(w, Raised))
    case AwaitToken =>
      if a == NoActionRequired then Authenticated(w) else End(w, Raised)
    case AwaitStored =>
      if a == NoActionRequired then Authenticated(w)
      else End(w.(shared := w.shared.(user := UserInfos.Clear(w.shared.user))), NextStep(LoginPage, false))
  }

  /** authenticate: with stored credentials that are complete, a token login. */
  function StartLogin(c: UserInfos.Codec, w: World, stored: Option<UserInfos.Dict>): World {
    match stored
    case None => End(w, NextStep(LoginPage, false))
    case Some(d) =>
      var (info, raised) := UserInfos.FromDict(c, w.shared.user.info, d);
      var v := w.(shared := w.shared.(user := w.shared.user.(info := info)));
      if raised then End(v, Raised)
      else if UserInfos.IsInitialized(info) then Put(v, Token, AwaitStored)
      else End(v, NextStep(LoginPage, false))
  }

  // ---------- One event ----------

  function Forget(w: World, loss: Loss): World {
    match loss
    case Retry => w.(websocket := Waiting)
    case AuthLost => w.(websocket := Waiting, shared := w.shared.(user := UserInfos.Clear(w.shared.user)))
    case Fatal => w.(websocket := Dead)
  }

  /** The websocket task ends its request: it puts the answer, and stops for good after "no action required". */
  function FinishRequest(w: World, r: Reply, loss: Loss): World
    requires w.websocket.Serving?
  {
    var (shared, served) := Serve(w.shared, w.websocket.request, r);
    match served
    case Answer(a) =>
      w.(shared := shared, pluginQueue := w.pluginQueue + [a], produced := w.produced + [Entry(w.websocket.request, r, a)],
         websocket := if a == NoActionRequired then Finished else Waiting)
    case ServerError => Forget(w.(shared := shared), loss)
    case Crash => Forget(w.(shared := shared), Fatal)
  }

  function Step(c: UserInfos.Codec, w: World, e: Event): World {
    match e
    case Authenticate(stored) => if w.backend == Idle then StartLogin(c, w, stored) else w
    case LoginSubmitted(params) =>
      if w.backend != Idle then w
      else if params == None then End(w, NextStep(LoginPage, true))
      else Put(w, RsaAndLogin(params.value.0, Sanitize(params.value.1)), AwaitLogin)
    case CodeSubmitted(mail, code) =>
      var page := if mail then MailPage else MobilePage;
      if w.backend != Idle then w
      else if code == None then End(w, NextStep(page, true))
      else Put(w, UpdateTwoFactor(code.value, if mail then EmailCode else PhoneCode), AwaitTwoFactor(page))
    case ConfirmSubmitted =>
      if w.backend != Idle then w
      else if w.shared.methods == None then End(w, Raised)
      else Put(w, Poll(true), AwaitPollCheck(ConfirmPage, true))
    case OtherUri => if w.backend == Idle then End(w, Raised) else w
    case Receive =>
      if w.backend == Idle || w.pluginQueue == [] then w
      else Consume(w.(pluginQueue := w.pluginQueue[1..], consumed := w.consumed + 1), w.pluginQueue[0])
    case Timeout => if w.backend == Idle then w else End(w, TimedOut)
    case TakeRequest =>
      if w.websocket != Waiting || w.websocketQueue == [] then w
      else w.(websocket := Serving(w.websocketQueue[0]), websocketQueue := w.websocketQueue[1..])
    case Finish(r, loss) => if w.websocket.Serving? then FinishRequest(w, r, loss) else w
    case Lose(loss) => if w.websocket == Dead then w else Forget(w, loss)
    case Tick => w.(shared := w.shared.(user := UserInfos.Tick(c, w.shared.user)))
  }

  function Run(c: UserInfos.Codec, events: seq<Event>): World {
    if events == [] then START else Step(c, Run(c, events[..|events| - 1]), events[|events| - 1])
  }

  // ---------- Safety of every run ----------

  function Actions(entries: seq<Entry>): seq<Action> {
    seq(|entries|, i requires 0 <= i < |entries| => entries[i].action)
  }

  /** An entry of the history is one that the server side could have produced. */
  predicate Genuine(e: Entry) {
    Fits(e.request, e.action) && (e.action == NoActionRequired <==> e.request == Token && e.reply.result == OK)
  }

  /** The plugin queue holds the answers produced and not yet consumed, all genuine. */
  ghost predicate History(w: World) {
    && w.consumed <= |w.produced|
    && w.pluginQueue == Actions(w.produced[w.consumed..])
    && (forall i :: 0 <= i < |w.produced| ==> Genuine(w.produced[i]))
  }

  /** Every authentication consumed an answer of its own that ended a token login. */
  ghost predicate Earned(w: World) {
    && (forall k :: 0 <= k < |w.outcomes| && w.outcomes[k].Authentication? ==>
          w.outcomes[k].answer < w.consumed <= |w.produced|
          && w.produced[w.outcomes[k].answer].action == NoActionRequired)
    && (forall j, k :: 0 <= j < k < |w.outcomes| && w.outcomes[j].Authentication? && w.outcomes[k].Authentication? ==>
          w.outcomes[j].answer < w.outcomes[k].answer)
  }

  /** A second factor is asked for only when the ranked methods are assigned, and start with a known one. */
  ghost predicate MethodsKnown(w: World) {
    && Ranked(w.shared)
    && ((exists i :: 0 <= i < |w.produced| && w.produced[i].action == TwoFactorRequired) ==> w.shared.methods.Some?)
  }

  ghost predicate Safe(w: World) {
    History(w) && Earned(w) && MethodsKnown(w)
  }

  /** A step that consumes and produces no answer, and authenticates nobody. */
  predicate Aside(w: World, v: World) {
    && v.produced == w.produced && v.consumed == w.consumed && v.pluginQueue == w.pluginQueue
    && v.shared.methods == w.shared.methods
    && (v.outcomes == w.outcomes
        || (v.outcomes != [] && v.outcomes[..|v.outcomes| - 1] == w.outcomes && !v.outcomes[|v.outcomes| - 1].Authentication?))
  }

  /** A step that consumes one answer, and authenticates at most on "no action required". */
  predicate Consumes(w: World, v: World) {
    && w.pluginQueue != [] && v.pluginQueue == w.pluginQueue[1..] && v.consumed == w.consumed + 1
    && v.produced == w.produced && v.shared.methods == w.shared.methods
    && (v.outcomes == w.outcomes
        || (v.outcomes != [] && v.outcomes[..|v.outcomes| - 1] == w.outcomes
            && (v.outcomes[|v.outcomes| - 1].Authentication? ==>
                  v.outcomes[|v.outcomes| - 1].answer == w.consumed && w.pluginQueue[0] == NoActionRequired)))
  }

  lemma {:induction false} UserStepsAside(c: UserInfos.Codec, w: World, e: Event)
    requires !e.Receive? && !e.Finish?
    ensures Aside(w, Step(c, w, e))
  {
  }

  lemma {:induction false} ReceiveConsumes(w: World)
    requires w.backend != Idle && w.pluginQueue != []
    ensures Consumes(w, Consume(w.(pluginQueue := w.pluginQueue[1..], consumed := w.consumed + 1), w.pluginQueue[0]))
  {
  }

  lemma {:induction false} AsideKeepsSafe(w: World, v: World)
    requires Safe(w) && Aside(w, v)
    ensures Safe(v)
  {
    assert forall k :: 0 <= k < |v.outcomes| && v.outcomes[k].Authentication? ==> k < |w.outcomes| && v.outcomes[k] == w.outcomes[k] by {
      assert v.outcomes != w.outcomes ==> forall k :: 0 <= k < |w.outcomes| ==> v.outcomes[..|v.outcomes| - 1][k] == v.outcomes[k];
    }
  }

  lemma {:induction false} ConsumesKeepsSafe(w: World, v: World)
    requires Safe(w) && Consumes(w, v)
    ensures Safe(v)
  {
    var left := w.produced[w.consumed..];
    assert |left| == |w.pluginQueue|;
    assert left[0] == w.produced[w.consumed] && w.pluginQueue[0] == left[0].action;
    assert v.produced[v.consumed..] == left[1..];
    assert v.pluginQueue == Actions(left[1..]);
    ConsumesKeepsEarned(w, v);
  }

  lemma {:induction false} ConsumesKeepsEarned(w: World, v: World)
    requires Earned(w) && Consumes(w, v) && w.consumed < |w.produced| && w.pluginQueue[0] == w.produced[w.consumed].action
    ensures Earned(v)
  {
    var n := |w.outcomes|;
    assert forall k :: 0 <= k < n ==> v.outcomes[k] == w.outcomes[k] by {
      assert v.outcomes != w.outcomes ==> forall k :: 0 <= k < n ==> v.outcomes[..|v.outcomes| - 1][k] == v.outcomes[k];
    }
    assert |v.outcomes| <= n + 1;
  }

  lemma {:induction false} FinishKeepsSafe(w: World, r: Reply, loss: Loss)
    requires Safe(w) && w.websocket.Serving?
    ensures Safe(FinishRequest(w, r, loss))
  {
    AnswersFit(w.shared, w.websocket.request, r);
    var (shared, served) := Serve(w.shared, w.websocket.request, r);
    var v := FinishRequest(w, r, loss);
    if served.Answer? {
      var e := Entry(w.websocket.request, r, served.action);
      assert v.produced == w.produced + [e];
      assert v.produced[v.consumed..] == w.produced[w.consumed..] + [e];
      assert Genuine(e);
    } else {
      assert v.produced == w.produced;
    }
  }

  /**
   Login safety. In every run, with timeouts, failures and any user steps: each
   authentication consumed an answer, different from that of every other one,
   which the websocket side produced from a token login that Steam answered OK.
  */
  lemma {:induction false} EveryRunSafe(c: UserInfos.Codec, events: seq<Event>)
    ensures Safe(Run(c, events))
    decreases |events|
  {
    if events != [] {
      var w, e := Run(c, events[..|events| - 1]), events[|events| - 1];
      EveryRunSafe(c, events[..|events| - 1]);
      if e.Finish? {
        if w.websocket.Serving? {
          FinishKeepsSafe(w, e.reply, e.loss);
        }
      } else if e.Receive? {
        if w.backend != Idle && w.pluginQueue != [] {
          ReceiveConsumes(w);
          ConsumesKeepsSafe(w, Step(c, w, e));
        }
      } else {
        UserStepsAside(c, w, e);
        AsideKeepsSafe(w, Step(c, w, e));
      }
    }
  }

  lemma {:induction false} AuthenticationIsEarned(c: UserInfos.Codec, events: seq<Event>, k: nat)
    requires k < |Run(c, events).outcomes| && Run(c, events).outcomes[k].Authentication?
    ensures var w := Run(c, events);
            var answer := w.outcomes[k].answer;
            && answer < w.consumed <= |w.produced|
            && w.produced[answer].request == Token && w.produced[answer].reply.result == OK
            && (forall j :: 0 <= j < |w.outcomes| && j != k && w.outcomes[j].Authentication? ==> w.outcomes[j].answer != answer)
  {
    EveryRunSafe(c, events);
    var w := Run(c, events);
    assert Genuine(w.produced[w.outcomes[k].answer]);
  }

  /** In every run, a handler that is told to ask for a second factor finds a known method to ask for. */
  lemma {:induction false} SecondFactorAlwaysHandled(c: UserInfos.Codec, events: seq<Event>)
    requires var w := Run(c, events); w.backend == AwaitLogin && w.pluginQueue != [] && w.pluginQueue[0] == TwoFactorRequired
    ensures var w := Run(c, events);
            var v := Step(c, w, Receive);
            && w.shared.methods.Some? && w.shared.methods.value != [] && w.shared.methods.value[0].0 != Unknown
            && (v.backend == AwaitPollNone
                || (v.backend == Idle && v.outcomes[|v.outcomes| - 1] in
                      {NextStep(MobilePage, false), NextStep(MailPage, false), NextStep(ConfirmPage, false)}))
  {
    var w := Run(c, events);
    EveryRunSafe(c, events);
    assert w.produced[w.consumed..][0].action == w.pluginQueue[0];
    assert w.produced[w.consumed].action == TwoFactorRequired;
  }
}
