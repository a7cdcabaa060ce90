/**
 The websocket side of the login: what one request of the backend does, given
 what Steam answers. Each request is served by at most one call to Steam after
 the other, and ends in an action code for the backend or in an exception.
*/
module LoginServer {
  import opened Maybe
  import opened TwoFactor
  import UserInfos

  datatype Action = NoActionRequired | NoActionConfirmToken | NoActionConfirmLogin
                  | TwoFactorRequired | TwoFactorExpired | InvalidAuthData

  /** Steam's result codes, as far as the login tells them apart. */
  datatype Result = OK | InvalidPassword | InvalidParam | InvalidSteamID | AccountNotFound | InvalidLoginAuthCode
                  | DuplicateRequest | Expired | TwoFactorCodeMismatch | FileNotFound | AccessDenied | OtherResult(code: int)

  datatype Request = RsaAndLogin(username: string, password: string)
                   | UpdateTwoFactor(code: string, method_: Method)
                   | Poll(isConfirm: bool)
                   | Token
                   | OtherMode

  /** What Steam answers while a request is served; 0 and "" stand for fields that are not set. */
  datatype Reply = Reply(rsa: Result, result: Result, steamId: int, clientId: int, requestId: string,
                         confirmations: seq<Confirmation>, errorMessage: string,
                         refreshToken: string, accountName: string, accessToken: string, newClientId: int)

  datatype Polling = Polling(clientId: int, steamId: int, requestId: string, allowed: Methods, errorMessage: string)

  /** What outlives a request: the polling data, the ranked methods (not assigned at first), and the user's fields. */
  datatype Shared = Shared(polling: Option<Polling>, methods: Option<Methods>, errorMessage: Option<string>,
                           user: UserInfos.Memory)

  const FRESH: Shared := Shared(None, None, None, UserInfos.BLANK)

  /** The end of a request: an answer, an error that Steam reported, or a mistake of the client's own. */
  datatype Served = Answer(action: Action) | ServerError | Crash

  // ---------- to_UserAction ----------

  /** The argument of to_UserAction: the declared method, or the pair that the login passes. */
  datatype Argument = JustMethod(m: Method) | Pair(m: Method, text: string)

  function ToUserAction(a: Argument): Action {
    if a == JustMethod(Nothing) then NoActionConfirmLogin
    else if a != JustMethod(Unknown) then TwoFactorRequired
    else InvalidAuthData
  }

  // ---------- Serving ----------

  function SetSteamId(user: UserInfos.Memory, id: int): UserInfos.Memory {
    if user.info.steamId != Some(id) then UserInfos.Set(user, UserInfos.SteamId(Some(id))) else user
  }

  predicate BadCredentials(r: Result) {
    r.InvalidPassword? || r.InvalidParam? || r.InvalidSteamID? || r.AccountNotFound? || r.InvalidLoginAuthCode?
  }

  function ServeLogin(s: Shared, username: string, password: string, r: Reply): (Shared, Served) {
    if username == "" || password == "" || r.rsa != OK then
      (s, Answer(InvalidAuthData))
    else if r.result == OK then
      var allowed := ToDict(r.confirmations);
      var t := s.(polling := Some(Polling(r.clientId, r.steamId, r.requestId, allowed, r.errorMessage)),
                  user := SetSteamId(s.user, r.steamId));
      if HasValidMethod(allowed) then
        var ranked := SortDescending(allowed);
        FirstChoice(r.confirmations);
        (t.(user := UserInfos.Set(t.user, UserInfos.AccountUsername(Some(username))),
            methods := Some(ranked), errorMessage := Some(r.errorMessage)),
         Answer(ToUserAction(Pair(ranked[0].0, ranked[0].1))))
      else
        (t, Answer(InvalidAuthData))
    else if BadCredentials(r.result) then
      (s.(polling := None), Answer(InvalidAuthData))
    else
      (s, ServerError)
  }

  lemma {:induction false} FirstChoice(confirmations: seq<Confirmation>)
    ensures HasValidMethod(ToDict(confirmations)) ==>
              SortDescending(ToDict(confirmations)) != [] && SortDescending(ToDict(confirmations))[0].0 != Unknown
  {
    ToDictExact(confirmations, Unknown);
    FirstChoiceIsKnown(ToDict(confirmations));
  }

  function ServeTwoFactor(s: Shared, code: string, m: Method, r: Reply): (Shared, Served) {
    (s, if s.polling == None || !HasValidMethod(s.polling.value.allowed) || code == "" || m == Nothing then Answer(InvalidAuthData)
        else match r.result
          case OK => Answer(NoActionConfirmLogin)
          case DuplicateRequest => Answer(NoActionConfirmLogin)
          case Expired => Answer(TwoFactorExpired)
          case InvalidLoginAuthCode => Answer(InvalidAuthData)
          case TwoFactorCodeMismatch => Answer(InvalidAuthData)
          case _ => ServerError)
  }

  /** Any answer to a poll overwrites the client id, even when Steam sent none. */
  function ServePoll(s: Shared, isConfirm: bool, r: Reply): (Shared, Served) {
    if s.polling == None then (s, Crash)
    else
      var t := s.(polling := Some(s.polling.value.(clientId := r.newClientId)));
      match r.result
      case OK =>
        if r.refreshToken != "" then
          var u1 := UserInfos.Set(s.user, UserInfos.RefreshToken(Some(r.refreshToken)));
          var u2 := UserInfos.Set(u1, UserInfos.PersonaName(Some(r.accountName)));
          (t.(user := UserInfos.Set(u2, UserInfos.AccessToken(Some(r.accessToken)))), Answer(NoActionConfirmToken))
        else
          (t, Answer(NoActionConfirmLogin))
      case Expired => (t, Answer(TwoFactorExpired))
      case FileNotFound => (t, Answer(if isConfirm then NoActionConfirmLogin else TwoFactorExpired))
      case _ => (s, ServerError)
  }

  function ServeToken(s: Shared, r: Reply): (Shared, Served) {
    (s.(user := SetSteamId(s.user, r.steamId)),
     match r.result
     case OK => Answer(NoActionRequired)
     case AccessDenied => Answer(InvalidAuthData)
     case _ => ServerError)
  }

  function Serve(s: Shared, q: Request, r: Reply): (Shared, Served) {
    match q
    case RsaAndLogin(username, password) => ServeLogin(s, username, password, r)
    case UpdateTwoFactor(code, m) => ServeTwoFactor(s, code, m, r)
    case Poll(isConfirm) => ServePoll(s, isConfirm, r)
    case Token => ServeToken(s, r)
    case OtherMode => (s, Answer(InvalidAuthData))
  }

  // ---------- What the answers can be ----------

  /** The answers that a request of each kind can get. */
  predicate Fits(q: Request, a: Action) {
    match q
    case RsaAndLogin(_, _) => a == TwoFactorRequired || a == InvalidAuthData
    case UpdateTwoFactor(_, _) => a == NoActionConfirmLogin || a == TwoFactorExpired || a == InvalidAuthData
    case Poll(_) => a == NoActionConfirmToken || a == NoActionConfirmLogin || a == TwoFactorExpired
    case Token => a == NoActionRequired || a == InvalidAuthData
    case OtherMode => a == InvalidAuthData
  }

  /** Once assigned, the ranked methods start with a known one. */
  predicate Ranked(s: Shared) {
    s.methods.Some? ==> s.methods.value != [] && s.methods.value[0].0 != Unknown
  }

  /**
   Answers by request: the login never answers "confirm login", as its pair never
   equals a method; and only a token login that Steam answered OK ends the login.
  */
  lemma {:induction false} AnswersFit(s: Shared, q: Request, r: Reply)
    requires Ranked(s)
    ensures var (t, served) := Serve(s, q, r);
            && Ranked(t)
            && (s.methods.Some? ==> t.methods.Some?)
            && (served.Answer? ==> Fits(q, served.action))
            && (served == Answer(NoActionRequired) <==> q == Token && r.result == OK)
            && (served == Answer(TwoFactorRequired) ==> t.methods.Some?)
  {
    if q.RsaAndLogin? {
      FirstChoice(r.confirmations);
    }
  }

  /** A login request asks for a second factor exactly when Steam accepts it and offers a known method. */
  lemma {:induction false} LoginAsksForSecondFactor(s: Shared, username: string, password: string, r: Reply)
    ensures Serve(s, RsaAndLogin(username, password), r).1 == Answer(TwoFactorRequired) <==>
            username != "" && password != "" && r.rsa == OK && r.result == OK
            && exists c :: c in r.confirmations && ToMethod(c.guard) != Unknown
  {
    KnownOffered(r.confirmations);
  }

  lemma {:induction false} KnownOffered(confirmations: seq<Confirmation>)
    ensures HasValidMethod(ToDict(confirmations)) <==> exists c :: c in confirmations && ToMethod(c.guard) != Unknown
  {
    var items := ToDict(confirmations);
    if i :| 0 <= i < |items| && items[i].0 != Unknown {
      HasAt(items, items[i].0);
      ToDictExact(confirmations, items[i].0);
      MentionedSomewhere(confirmations, items[i].0);
    }
    if c :| c in confirmations && ToMethod(c.guard) != Unknown {
      MentionedSomewhere(confirmations, ToMethod(c.guard));
      ToDictExact(confirmations, ToMethod(c.guard));
      HasAt(items, ToMethod(c.guard));
    }
  }

  lemma {:induction false} MentionedSomewhere(confirmations: seq<Confirmation>, m: Method)
    ensures LastMessage(confirmations, m).Some? <==> exists c :: c in confirmations && ToMethod(c.guard) == m
    decreases |confirmations|
  {
    if confirmations != [] {
      var before, last := confirmations[..|confirmations| - 1], confirmations[|confirmations| - 1];
      MentionedSomewhere(before, m);
      assert confirmations == before + [last];
      assert last in confirmations;
    }
  }
}
