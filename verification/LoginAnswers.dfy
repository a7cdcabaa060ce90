/** What each request is answered, and what it stores, as conditions on the request and on what Steam replies. */
module LoginAnswers {
  import opened Maybe
  import opened TwoFactor
  import opened LoginServer
  import UserInfos

  /** Steam accepts the user's name and password. */
  predicate Accepted(username: string, password: string, r: Reply) {
    username != "" && password != "" && r.rsa == OK && r.result == OK
  }

  ghost predicate OffersKnown(confirmations: seq<Confirmation>) {
    exists c :: c in confirmations && c.guard in {GuardNone, GuardEmailCode, GuardDeviceCode, GuardDeviceConfirmation}
  }

  /** The results that refuse the credentials; any other but OK is raised. */
  const REFUSALS: set<Result> := {InvalidPassword, InvalidParam, InvalidSteamID, AccountNotFound, InvalidLoginAuthCode}

  lemma {:induction false} KnownGuards(confirmations: seq<Confirmation>)
    ensures OffersKnown(confirmations) <==> exists c :: c in confirmations && ToMethod(c.guard) != Unknown
  {
    assert forall c: Confirmation :: ToMethod(c.guard) != Unknown <==>
             c.guard in {GuardNone, GuardEmailCode, GuardDeviceCode, GuardDeviceConfirmation};
  }

  /** Names and passwords: each answer exactly. */
  lemma {:induction false} LoginAnswersExactly(s: Shared, username: string, password: string, r: Reply)
    ensures var served := Serve(s, RsaAndLogin(username, password), r).1;
            && (served == Answer(TwoFactorRequired) <==> Accepted(username, password, r) && OffersKnown(r.confirmations))
            && (served == ServerError <==>
                username != "" && password != "" && r.rsa == OK && r.result != OK && r.result !in REFUSALS)
            && (served == Answer(InvalidAuthData) <==>
                username == "" || password == "" || r.rsa != OK || r.result in REFUSALS
                || (r.result == OK && !OffersKnown(r.confirmations)))
  {
    KnownGuards(r.confirmations);
    LoginAsksForSecondFactor(s, username, password, r);
  }

  /** What a login leaves of the polling data and of the user's fields. */
  lemma {:induction false} LoginStores(s: Shared, username: string, password: string, r: Reply)
    ensures var (t, served) := Serve(s, RsaAndLogin(username, password), r);
            && t.polling == (if Accepted(username, password, r)
                             then Some(Polling(r.clientId, r.steamId, r.requestId, ToDict(r.confirmations), r.errorMessage))
                             else if username != "" && password != "" && r.rsa == OK && r.result in REFUSALS then None
                             else s.polling)
            && t.user.info == s.user.info.(
                 steamId := if Accepted(username, password, r) then Some(r.steamId) else s.user.info.steamId,
                 accountUsername := if served == Answer(TwoFactorRequired) then Some(username) else s.user.info.accountUsername)
  {
    FirstChoice(r.confirmations);
  }

  /** And of the methods: the ranked ones of Steam's list, if a second factor is asked for. */
  lemma {:induction false} LoginRanks(s: Shared, username: string, password: string, r: Reply)
    ensures var (t, served) := Serve(s, RsaAndLogin(username, password), r);
            if served == Answer(TwoFactorRequired) then
              && t.methods.Some? && StrictlyDescending(t.methods.value)
              && multiset(t.methods.value) == multiset(ToDict(r.confirmations)) && t.errorMessage == Some(r.errorMessage)
            else t.methods == s.methods && t.errorMessage == s.errorMessage
  {
    ToDictExact(r.confirmations, Unknown);
    SortSorts(ToDict(r.confirmations));
    FirstChoice(r.confirmations);
  }

  /** Two-factor codes: each answer exactly; nothing is stored. */
  lemma {:induction false} CodeAnswersExactly(s: Shared, code: string, m: Method, r: Reply)
    ensures var (t, served) := Serve(s, UpdateTwoFactor(code, m), r);
            var sent := s.polling.Some? && code != "" && m != Nothing
                        && exists i :: 0 <= i < |s.polling.value.allowed| && s.polling.value.allowed[i].0 != Unknown;
            && t == s
            && (served == Answer(NoActionConfirmLogin) <==> sent && r.result in {OK, DuplicateRequest})
            && (served == Answer(TwoFactorExpired) <==> sent && r.result == Expired)
            && (served == Answer(InvalidAuthData) <==> !sent || r.result in {InvalidLoginAuthCode, TwoFactorCodeMismatch})
            && (served == ServerError <==>
                sent && r.result !in {OK, DuplicateRequest, Expired, InvalidLoginAuthCode, TwoFactorCodeMismatch})
  {
  }

  /** Polls: each answer exactly, the tokens and the client id that are stored, and the crash without polling data. */
  lemma {:induction false} PollAnswersExactly(s: Shared, isConfirm: bool, r: Reply)
    ensures var (t, served) := Serve(s, Poll(isConfirm), r);
            var token := s.polling.Some? && r.result == OK && r.refreshToken != "";
            && (served == Crash <==> s.polling == None)
            && (served == Answer(NoActionConfirmToken) <==> token)
            && (served == Answer(NoActionConfirmLogin) <==>
                s.polling.Some? && ((r.result == OK && r.refreshToken == "") || (r.result == FileNotFound && isConfirm)))
            && (served == Answer(TwoFactorExpired) <==>
                s.polling.Some? && (r.result == Expired || (r.result == FileNotFound && !isConfirm)))
            && (served == ServerError <==> s.polling.Some? && r.result !in {OK, Expired, FileNotFound})
            && t.methods == s.methods && t.errorMessage == s.errorMessage
            && t.polling == (if served.Answer? then Some(s.polling.value.(clientId := r.newClientId)) else s.polling)
            && t.user.info == (if token then s.user.info.(refreshToken := Some(r.refreshToken), personaName := Some(r.accountName),
                                                          accessToken := Some(r.accessToken))
                               else s.user.info)
  {
  }

  /** Token logins: each answer exactly; the Steam id is noted whatever Steam's result. */
  lemma {:induction false} TokenAnswersExactly(s: Shared, r: Reply)
    ensures var (t, served) := Serve(s, Token, r);
            && (served == Answer(NoActionRequired) <==> r.result == OK)
            && (served == Answer(InvalidAuthData) <==> r.result == AccessDenied)
            && (served == ServerError <==> r.result != OK && r.result != AccessDenied)
            && t.user.info == s.user.info.(steamId := Some(r.steamId))
            && (s.user.info.steamId == Some(r.steamId) ==> t.user == s.user)
            && t.polling == s.polling && t.methods == s.methods && t.errorMessage == s.errorMessage
  {
  }
}
