/**
 The websocket task as it is written: two caches, two queues and the loop that
 serves one request after the other, proved to do what the login protocol says
 of its steps.
*/
module WebSocketClient {
  import opened Maybe
  import opened TwoFactor
  import opened LoginServer
  import LoginProtocol
  import UserInfos

  /** How the loop stands: waiting for a request, finished, or left by an exception. */
  datatype Ending = Suspended | Done | Failed(why: Served)

  datatype Progress = Progress(shared: Shared, queue: seq<Request>, answers: seq<Action>, ending: Ending)

  /** Serves the requests of a queue in order; steam(n) is Steam's reply to the n-th request of all. */
  function ServeAll(s: Shared, queue: seq<Request>, steam: nat -> Reply, n: nat, answers: seq<Action>): Progress
    decreases |queue|
  {
    if queue == [] then Progress(s, [], answers, Suspended)
    else
      var (t, served) := Serve(s, queue[0], steam(n));
      match served
      case Answer(a) =>
        if a == NoActionRequired then Progress(t, queue[1..], answers + [a], Done)
        else ServeAll(t, queue[1..], steam, n + 1, answers + [a])
      case _ => Progress(t, queue[1..], answers, Failed(served))
  }

  /** The i-th of the answers is a possible one for the i-th request, and ends the login iff it must. */
  ghost predicate AnswersRequest(queue: seq<Request>, steam: nat -> Reply, n: nat, answers: seq<Action>, i: nat)
    requires i < |answers| <= |queue|
  {
    && Fits(queue[i], answers[i])
    && (answers[i] == NoActionRequired <==> queue[i] == Token && steam(n + i).result == OK)
  }

  ghost predicate AnswersInOrder(queue: seq<Request>, steam: nat -> Reply, n: nat, answers: seq<Action>) {
    |answers| <= |queue| && forall i :: 0 <= i < |answers| ==> AnswersRequest(queue, steam, n, answers, i)
  }

  /**
   Every request taken has its own answer, except the one whose service raised;
   the loop ends at the first token login that Steam accepts, or waits for more.
  */
  ghost predicate Orderly(p: Progress, queue: seq<Request>, steam: nat -> Reply, n: nat) {
    var taken := |p.answers| + (if p.ending.Failed? then 1 else 0);
    && taken <= |queue| && p.queue == queue[taken..]
    && AnswersInOrder(queue, steam, n, p.answers)
    && (forall i :: 0 <= i < |p.answers| && p.answers[i] == NoActionRequired ==> i == |p.answers| - 1)
    && (p.ending == Done <==> p.answers != [] && p.answers[|p.answers| - 1] == NoActionRequired)
    && (p.ending == Suspended ==> p.queue == [])
  }

  lemma {:induction false} OrderlyFirst(p: Progress, a: Action, queue: seq<Request>, steam: nat -> Reply, n: nat)
    requires queue != [] && a != NoActionRequired && Orderly(p, queue[1..], steam, n + 1)
    requires AnswersRequest(queue, steam, n, [a], 0)
    ensures Orderly(p.(answers := [a] + p.answers), queue, steam, n)
  {
    var answers := [a] + p.answers;
    forall i | 0 <= i < |answers|
      ensures AnswersRequest(queue, steam, n, answers, i)
    {
      if i > 0 {
        assert AnswersRequest(queue[1..], steam, n + 1, p.answers, i - 1);
      } else {
        assert AnswersRequest(queue, steam, n, [a], 0);
      }
    }
    assert p.answers != [] ==> answers[|answers| - 1] == p.answers[|p.answers| - 1];
  }

  /** One answer for each request, in order, in every run of the loop. */
  lemma {:induction false} OneAnswerEach(s: Shared, queue: seq<Request>, steam: nat -> Reply, n: nat)
    requires Ranked(s)
    ensures Orderly(ServeAll(s, queue, steam, n, []), queue, steam, n)
    decreases |queue|
  {
    if queue != [] {
      var (t, served) := Serve(s, queue[0], steam(n));
      AnswersFit(s, queue[0], steam(n));
      if served.Answer? {
        assert AnswersRequest(queue, steam, n, [served.action], 0);
        if served.action != NoActionRequired {
          OneAnswerEach(t, queue[1..], steam, n + 1);
          AnswersAccumulate(t, queue[1..], steam, n + 1, [served.action]);
          assert [] + [served.action] == [served.action];
          OrderlyFirst(ServeAll(t, queue[1..], steam, n + 1, []), served.action, queue, steam, n);
        } else {
          assert [] + [served.action] == [served.action];
        }
      }
    }
  }

  lemma {:induction false} AnswersAccumulate(s: Shared, queue: seq<Request>, steam: nat -> Reply, n: nat, answers: seq<Action>)
    ensures var p := ServeAll(s, queue, steam, n, []);
            ServeAll(s, queue, steam, n, answers) == p.(answers := answers + p.answers)
    decreases |queue|
  {
    if queue != [] {
      var (t, served) := Serve(s, queue[0], steam(n));
      if served.Answer? && served.action != NoActionRequired {
        var a := served.action;
        AnswersAccumulate(t, queue[1..], steam, n + 1, answers + [a]);
        AnswersAccumulate(t, queue[1..], steam, n + 1, [] + [a]);
        var rest := ServeAll(t, queue[1..], steam, n + 1, []).answers;
        assert (answers + [a]) + rest == answers + ([a] + rest);
      }
    }
  }

  // ---------- The loop and the protocol's steps ----------

  /** Lets the websocket task of the protocol take and finish requests until it stops; an exception is for good. */
  function Drive(c: UserInfos.Codec, w: LoginProtocol.World, steam: nat -> Reply, n: nat): LoginProtocol.World
    decreases |w.websocketQueue|
  {
    if w.websocket != LoginProtocol.Waiting || w.websocketQueue == [] then w
    else
      var v := LoginProtocol.Step(c, w, LoginProtocol.TakeRequest);
      Drive(c, LoginProtocol.Step(c, v, LoginProtocol.Finish(steam(n), LoginProtocol.Fatal)), steam, n + 1)
  }

  function WebsocketAfter(e: Ending): LoginProtocol.Websocket {
    match e
    case Suspended => LoginProtocol.Waiting
    case Done => LoginProtocol.Finished
    case Failed(_) => LoginProtocol.Dead
  }

  /** The loop refines the protocol: it leaves the queues and caches as the protocol's steps do. */
  lemma {:induction false} LoopRefinesSteps(c: UserInfos.Codec, w: LoginProtocol.World, steam: nat -> Reply, n: nat)
    requires w.websocket == LoginProtocol.Waiting
    ensures var p := ServeAll(w.shared, w.websocketQueue, steam, n, w.pluginQueue);
            var v := Drive(c, w, steam, n);
            && v.shared == p.shared && v.websocketQueue == p.queue && v.pluginQueue == p.answers
            && v.websocket == WebsocketAfter(p.ending)
            && v.backend == w.backend && v.requests == w.requests && v.consumed == w.consumed && v.outcomes == w.outcomes
    decreases |w.websocketQueue|
  {
    if w.websocketQueue != [] {
      var v := LoginProtocol.Step(c, w, LoginProtocol.TakeRequest);
      var x := LoginProtocol.Step(c, v, LoginProtocol.Finish(steam(n), LoginProtocol.Fatal));
      if x.websocket == LoginProtocol.Waiting {
        LoopRefinesSteps(c, x, steam, n + 1);
      }
    }
  }

  // ---------- The classes ----------

  class AuthenticationCache {
    var twoFactorAllowedMethods: Option<Methods>
    var errorMessage: Option<string>

    constructor ()
      ensures twoFactorAllowedMethods == None && errorMessage == None
    {
      twoFactorAllowedMethods, errorMessage := None, None;
    }

    method Update(items: Methods, message: string)
      modifies this
      ensures twoFactorAllowedMethods == Some(SortDescending(items))
      ensures errorMessage == Some(message)
    {
      errorMessage := Some(message);
      var methods: Methods := [];
      for i := 0 to |items|
        invariant methods == items[..i]
      {
        methods := methods + [items[i]];
      }
      assert methods == items;
      twoFactorAllowedMethods := Some(SortDescending(methods));
    }
  }

  class Client {
    const authentication: AuthenticationCache
    const user: UserInfos.UserInfoCache
    var polling: Option<Polling>
    var websocketQueue: seq<Request>
    var pluginQueue: seq<Action>

    constructor (codec: UserInfos.Codec)
      ensures fresh(authentication) && fresh(user)
      ensures View() == FRESH && websocketQueue == [] && pluginQueue == []
    {
      authentication := new AuthenticationCache();
      user := new UserInfos.UserInfoCache(codec);
      polling, websocketQueue, pluginQueue := None, [], [];
    }

    ghost function View(): Shared
      reads this, authentication, user
    {
      Shared(polling, authentication.twoFactorAllowedMethods, authentication.errorMessage, user.View())
    }

    method NoteSteamId(id: int)
      modifies user
      ensures user.View() == SetSteamId(old(user.View()), id)
    {
      if user.steamId != Some(id) {
        user.SetSteamId(Some(id));
      }
    }

    /** The answer to the credentials; None if Steam's result is raised as an error. */
    method AuthenticatePassword(r: Reply) returns (data: Option<Option<Polling>>)
      modifies user
      ensures data == if r.result == OK then Some(Some(Polling(r.clientId, r.steamId, r.requestId, ToDict(r.confirmations), r.errorMessage)))
                      else if BadCredentials(r.result) then Some(None) else None
      ensures user.View() == if r.result == OK then SetSteamId(old(user.View()), r.steamId) else old(user.View())
    {
      var polled: Option<Polling> := None;
      if r.result == OK {
        NoteSteamId(r.steamId);
        polled := Some(Polling(r.clientId, r.steamId, r.requestId, ToDict(r.confirmations), r.errorMessage));
      }
      if r.result != OK && !BadCredentials(r.result) {
        return None;
      }
      data := Some(polled);
    }

    method LogIn(username: string, password: string, r: Reply) returns (served: Served)
      modifies this`polling, authentication, user
      ensures (View(), served) == Serve(old(View()), RsaAndLogin(username, password), r)
    {
      served := Answer(InvalidAuthData);
      if username != "" && password != "" && r.rsa == OK {
        var data := AuthenticatePassword(r);
        if data == None {
          return ServerError;
        }
        polling := data.value;
        if polling.Some? && HasValidMethod(polling.value.allowed) {
          FirstChoice(r.confirmations);
          user.SetAccountUsername(Some(username));
          authentication.Update(polling.value.allowed, polling.value.errorMessage);
          var first := authentication.twoFactorAllowedMethods.value[0];
          served := Answer(ToUserAction(Pair(first.0, first.1)));
        }
      }
    }

    method CheckCode(code: string, method_: Method, r: Reply) returns (served: Served)
      ensures (View(), served) == Serve(old(View()), UpdateTwoFactor(code, method_), r)
    {
      if polling == None || !HasValidMethod(polling.value.allowed) || code == "" || method_ == Nothing {
        served := Answer(InvalidAuthData);
      } else if r.result == OK || r.result == DuplicateRequest {
        served := Answer(NoActionConfirmLogin);
      } else if r.result == Expired {
        served := Answer(TwoFactorExpired);
      } else if r.result == InvalidLoginAuthCode || r.result == TwoFactorCodeMismatch {
        served := Answer(InvalidAuthData);
      } else {
        served := ServerError;
      }
    }

    method CheckAuthStatus(isConfirm: bool, r: Reply) returns (served: Served)
      modifies this`polling, user
      ensures (View(), served) == Serve(old(View()), Poll(isConfirm), r)
    {
      if polling == None {
        return Crash;
      }
      if r.result == OK {
        if r.refreshToken != "" {
          user.SetRefreshToken(Some(r.refreshToken));
          user.SetPersonaName(Some(r.accountName));
          user.SetAccessToken(Some(r.accessToken));
          served := Answer(NoActionConfirmToken);
        } else {
          served := Answer(NoActionConfirmLogin);
        }
      } else if r.result == Expired {
        served := Answer(TwoFactorExpired);
      } else if r.result == FileNotFound {
        served := Answer(if isConfirm then NoActionConfirmLogin else TwoFactorExpired);
      } else {
        return ServerError;
      }
      polling := Some(polling.value.(clientId := r.newClientId));
    }

    method FinalizeLogin(r: Reply) returns (served: Served)
      modifies user
      ensures (View(), served) == Serve(old(View()), Token, r)
    {
      NoteSteamId(r.steamId);
      if r.result == OK {
        served := Answer(NoActionRequired);
      } else if r.result == AccessDenied {
        served := Answer(InvalidAuthData);
      } else {
        served := ServerError;
      }
    }

    method ServeRequest(q: Request, r: Reply) returns (served: Served)
      modifies this`polling, authentication, user
      ensures (View(), served) == Serve(old(View()), q, r)
    {
      match q
      case RsaAndLogin(username, password) => served := LogIn(username, password, r);
      case UpdateTwoFactor(code, m) => served := CheckCode(code, m, r);
      case Poll(isConfirm) => served := CheckAuthStatus(isConfirm, r);
      case Token => served := FinalizeLogin(r);
      case OtherMode => served := Answer(InvalidAuthData);
    }

    /** Runs until it waits on an empty queue, the login is over, or a request raises. */
    method AllAuthCalls(steam: nat -> Reply) returns (ending: Ending)
      modifies this, authentication, user
      ensures Progress(View(), websocketQueue, pluginQueue, ending) ==
              ServeAll(old(View()), old(websocketQueue), steam, 0, old(pluginQueue))
    {
      var retCode: Option<Action> := None;
      var n := 0;
      assert pluginQueue + Pending(None) == pluginQueue;
      while retCode != Some(NoActionRequired)
        invariant retCode != Some(NoActionRequired) ==>
                    ServeAll(old(View()), old(websocketQueue), steam, 0, old(pluginQueue)) ==
                    ServeAll(View(), websocketQueue, steam, n, pluginQueue + Pending(retCode))
        invariant retCode == Some(NoActionRequired) ==>
                    ServeAll(old(View()), old(websocketQueue), steam, 0, old(pluginQueue)) ==
                    Progress(View(), websocketQueue, pluginQueue + [NoActionRequired], Done)
        decreases |websocketQueue|, retCode != Some(NoActionRequired)
      {
        if retCode != None {
          pluginQueue := pluginQueue + [retCode.value];
        }
        retCode := None;
        assert pluginQueue + Pending(None) == pluginQueue;
        if websocketQueue == [] {
          return Suspended;
        }
        var q := websocketQueue[0];
        websocketQueue := websocketQueue[1..];
        var served := ServeRequest(q, steam(n));
        n := n + 1;
        if !served.Answer? {
          return Failed(served);
        }
        retCode := Some(served.action);
      }
      pluginQueue := pluginQueue + [NoActionRequired];
      ending := Done;
    }
  }

  /** The answer that is not yet put. */
  function Pending(retCode: Option<Action>): seq<Action> {
    if retCode == None then [] else [retCode.value]
  }
}
