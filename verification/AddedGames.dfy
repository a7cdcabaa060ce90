/** The apps that are handed to Galaxy after the first import: how often each of them is, over whole runs. */
module AddedGames {
  import opened Maybe
  import opened Licenses

  /** A report, a licence list, raising the lever, handing out what was added, or a reading of the library that sends some apps. */
  datatype Moment = Reported(r: Report) | Listed(steam: seq<SteamLicense>) | RaisingLever | Handing | Reading(apps: seq<App>)

  /** The cache, and all apps handed out so far. */
  datatype History = History(cache: Cache, handed: seq<App>)

  function Step(h: History, m: Moment): History {
    match m
    case Reported(r) => h.(cache := Take(h.cache, r))
    case Listed(steam) => h.(cache := ImportLicenses(h.cache, steam).0)
    case RaisingLever => h.(cache := h.cache.(lever := true))
    case Handing => History(h.cache.(sent := h.cache.sent + h.cache.added, added := []), h.handed + h.cache.added)
    case Reading(apps) => h.(cache := h.cache.(sent := h.cache.sent + apps))
  }

  function Run(c: Cache, moments: seq<Moment>): History {
    if moments == [] then History(c, []) else Step(Run(c, moments[..|moments| - 1]), moments[|moments| - 1])
  }

  /** The moments give the app a title: this very app, with all its fields. */
  predicate Titles(m: Moment, x: App) {
    m.Reported? && m.r == AppTitled(x)
  }

  /** The lever was raised, at first or since. */
  predicate LeverUp(c: Cache, moments: seq<Moment>) {
    c.lever || RaisingLever in moments
  }

  /** How often the app was titled with the lever up, before it was first sent. */
  function EarlyTitles(c: Cache, moments: seq<Moment>, x: App): nat {
    if moments == [] then 0
    else
      var before := moments[..|moments| - 1];
      EarlyTitles(c, before, x) + if Titles(moments[|moments| - 1], x) && LeverUp(c, before) && !Sent(c, before, x) then 1 else 0
  }

  /** The app was sent: before the moments, by a reading, or by handing out what had been titled. */
  predicate Sent(c: Cache, moments: seq<Moment>, x: App) {
    if moments == [] then x in c.sent
    else
      var before, m := moments[..|moments| - 1], moments[|moments| - 1];
      || Sent(c, before, x)
      || (m.Handing? && EarlyTitles(c, before, x) > 0)
      || (m.Reading? && x in m.apps)
  }

  /** An import was started, after which the counters stay numbers. */
  predicate Started(c: Cache) {
    c.appsToParse.Some? && c.packagesToParse.Some?
  }

  ghost predicate Accounted(h: History, x: App, lever: bool, titles: nat, sent: bool) {
    && Started(h.cache) && h.cache.lever == lever
    && (x in h.cache.sent <==> sent)
    && (x in h.handed ==> sent)
    && multiset(h.handed)[x] + multiset(h.cache.added)[x] == titles
  }

  lemma {:induction false} StepAccounts(h: History, m: Moment, x: App, lever: bool, titles: nat, sent: bool)
    requires Accounted(h, x, lever, titles, sent)
    ensures Accounted(Step(h, m), x, lever || m.RaisingLever?, titles + (if Titles(m, x) && lever && !sent then 1 else 0),
                      sent || (m.Handing? && titles > 0) || (m.Reading? && x in m.apps))
  {
    match m
    case Reported(r) =>
      if r.AppTitled? {
        assert Step(h, m).cache.added == if r.app in h.cache.sent || !lever then h.cache.added else h.cache.added + [r.app];
      }
    case Listed(steam) =>
    case RaisingLever =>
    case Handing =>
      assert x in h.handed <==> multiset(h.handed)[x] > 0;
      assert x in h.cache.added <==> multiset(h.cache.added)[x] > 0;
    case Reading(apps) =>
  }

  /**
   In every run an app has been handed out, or waits to be, exactly as often as it
   was titled with the lever up before it was first sent; and once sent it is never
   added again.
  */
  lemma {:induction false} HandedExactly(c: Cache, moments: seq<Moment>, x: App)
    requires Started(c) && c.added == []
    ensures Accounted(Run(c, moments), x, LeverUp(c, moments), EarlyTitles(c, moments, x), Sent(c, moments, x))
    decreases |moments|
  {
    if moments != [] {
      var before := moments[..|moments| - 1];
      HandedExactly(c, before, x);
      assert moments == before + [moments[|moments| - 1]];
      StepAccounts(Run(c, before), moments[|moments| - 1], x, LeverUp(c, before), EarlyTitles(c, before, x), Sent(c, before, x));
    }
  }

  /** So, once everything added is handed out, Galaxy got an app twice exactly if it was so titled twice. */
  lemma {:induction false} RepeatedExactly(c: Cache, moments: seq<Moment>, x: App)
    requires Started(c) && c.added == [] && Run(c, moments).cache.added == []
    ensures multiset(Run(c, moments).handed)[x] > 1 <==> EarlyTitles(c, moments, x) > 1
  {
    HandedExactly(c, moments, x);
  }

  /** For one: two titles between two ticks, in any cache that has not sent the app. */
  lemma {:induction false} TitledTwiceHandedTwice(c: Cache, x: App)
    requires Started(c) && c.lever && c.added == [] && x !in c.sent
    ensures Run(c, [Reported(AppTitled(x)), Reported(AppTitled(x)), Handing]).handed == [x, x]
  {
    var m := [Reported(AppTitled(x)), Reported(AppTitled(x)), Handing];
    assert m[..2] == [Reported(AppTitled(x)), Reported(AppTitled(x))];
    assert m[..2][..1] == [Reported(AppTitled(x))] && m[..2][..1][..0] == [];
    var h1 := Step(History(c, []), m[0]);
    assert h1.cache.added == [x] && h1.cache.sent == c.sent;
    assert Run(c, m[..2][..1]) == h1;
    assert Step(h1, m[1]).cache.added == [x, x];
  }
}
