/**
 Reading the library while it moves: between two licences the reader pauses, and
 reports and licence lists may change the cache under it.
*/
module LibraryReading {
  import opened Maybe
  import opened Licenses
  import opened LibraryImport
  import Library = GamesCache

  /**
   The cache, and the list that the loop walks: that of the cache, as long as no
   licence list made the client drop the map; after that the old one, which no
   report reaches any more, while titles are looked up in the new map.
  */
  datatype Reader = Reader(cache: Cache, list: seq<License>, live: bool)

  function Change(r: Reader, change: Library.Change): Reader {
    var c := Library.After(r.cache, change);
    if change.Listing? && StartsAfresh(r.cache, change.steam) then Reader(c, r.list, false)
    else Reader(c, if r.live then c.licenses else r.list, r.live)
  }

  function ChangeAll(r: Reader, changes: seq<Library.Change>): Reader {
    if changes == [] then r else Change(ChangeAll(r, changes[..|changes| - 1]), changes[|changes| - 1])
  }

  /** The reader after n pauses; the k-th licence is read after k + 1 of them. */
  function At(c: Cache, pauses: nat -> seq<Library.Change>, n: nat): Reader {
    if n == 0 then Reader(c, c.licenses, true) else ChangeAll(At(c, pauses, n - 1), pauses(n - 1))
  }

  /** Reading the k-th licence meets no app without a title. */
  ghost predicate MeetsNone(r: Reader, k: nat) {
    k < |r.list| ==> r.list[k].appIds <= r.cache.apps.Keys
  }

  // ---------- Changes that do no harm ----------

  /** The map is kept, and a pair is reported only of a titled app, or of a package without a licence. */
  predicate Harmless(c: Cache, change: Library.Change) {
    match change
    case Listing(steam) => !StartsAfresh(c, steam)
    case Reporting(AppReported(packageId, appid)) => appid in c.apps || Matches(c.licenses, packageId) == 0
    case Reporting(_) => true
  }

  /** So is every change of a pause, when it comes. */
  predicate AllHarmless(r: Reader, changes: seq<Library.Change>) {
    changes == []
    || (AllHarmless(r, changes[..|changes| - 1])
        && Harmless(ChangeAll(r, changes[..|changes| - 1]).cache, changes[|changes| - 1]))
  }

  /** And every change of the first n pauses. */
  predicate HarmlessPauses(c: Cache, pauses: nat -> seq<Library.Change>, n: nat) {
    n == 0 || (HarmlessPauses(c, pauses, n - 1) && AllHarmless(At(c, pauses, n - 1), pauses(n - 1)))
  }

  /** The reader still walks the cache's own list, and all its apps are titled. */
  ghost predicate InStep(r: Reader) {
    r.live && r.list == r.cache.licenses && AllTitled(r.cache)
  }

  lemma {:induction false} NothingGained(licenses: seq<License>, packageId: string, appid: string, titled: set<string>)
    requires appid in titled || Matches(licenses, packageId) == 0
    ensures Gains(licenses, packageId, appid, titled) == 0
  {
    if licenses != [] {
      NothingGained(licenses[1..], packageId, appid, titled);
    }
  }

  lemma {:induction false} ListKeepsTitled(c: Cache, steam: seq<SteamLicense>)
    requires AllTitled(c) && !StartsAfresh(c, steam)
    ensures AllTitled(ImportLicenses(c, steam).0)
  {
    var open := StillOpen(steam, Resolved(c.licenses, c.apps.Keys));
    NothingUnresolved(c.licenses, c.apps.Keys);
    UnresolvedAppend(c.licenses, NewLicenses(open), c.apps.Keys);
    NewLicensesEmpty(open, c.apps.Keys);
    NothingUnresolved(c.licenses + NewLicenses(open), c.apps.Keys);
  }

  lemma {:induction false} ReportKeepsTitled(c: Cache, r: Report)
    requires AllTitled(c) && Harmless(c, Library.Reporting(r))
    ensures AllTitled(Take(c, r))
  {
    if r.AppReported? && !Raises(c, r) {
      NothingUnresolved(c.licenses, c.apps.Keys);
      AddAppGains(c.licenses, r.packageId, r.appid, c.apps.Keys);
      NothingGained(c.licenses, r.packageId, r.appid, c.apps.Keys);
      NothingUnresolved(Take(c, r).licenses, c.apps.Keys);
    }
  }

  lemma {:induction false} ChangeKeepsStep(r: Reader, change: Library.Change)
    requires InStep(r) && Harmless(r.cache, change)
    ensures InStep(Change(r, change))
  {
    match change
    case Listing(steam) => ListKeepsTitled(r.cache, steam);
    case Reporting(report) => ReportKeepsTitled(r.cache, report);
  }

  lemma {:induction false} ChangesKeepStep(r: Reader, changes: seq<Library.Change>)
    requires InStep(r) && AllHarmless(r, changes)
    ensures InStep(ChangeAll(r, changes))
    decreases |changes|
  {
    if changes != [] {
      var before := changes[..|changes| - 1];
      ChangesKeepStep(r, before);
      ChangeKeepsStep(ChangeAll(r, before), changes[|before|]);
    }
  }

  lemma {:induction false} PausesKeepStep(c: Cache, pauses: nat -> seq<Library.Change>, n: nat)
    requires AllTitled(c) && HarmlessPauses(c, pauses, n)
    ensures InStep(At(c, pauses, n))
    decreases n
  {
    if n > 0 {
      PausesKeepStep(c, pauses, n - 1);
      ChangesKeepStep(At(c, pauses, n - 1), pauses(n - 1));
    }
  }

  /**
   A library whose apps are all titled is read without meeting an unresolved app,
   through any pauses in which the map is kept and every new pair is of a titled app.
  */
  lemma {:induction false} NothingMissingOnTheMove(c: Cache, pauses: nat -> seq<Library.Change>, k: nat)
    requires AllTitled(c) && HarmlessPauses(c, pauses, k + 1)
    ensures MeetsNone(At(c, pauses, k + 1), k)
  {
    PausesKeepStep(c, pauses, k + 1);
    InStepMeetsNone(At(c, pauses, k + 1), k);
  }

  lemma {:induction false} InStepMeetsNone(r: Reader, k: nat)
    requires InStep(r)
    ensures MeetsNone(r, k)
  {
    assert k < |r.list| ==> r.list[k] in r.cache.licenses;
  }

  // ---------- Changes that do ----------

  /** A licence list that makes the client drop the map leaves every app of the old licences unresolved. */
  lemma {:induction false} DroppedMapUnresolves(r: Reader, steam: seq<SteamLicense>, k: nat)
    requires StartsAfresh(r.cache, steam) && k < |r.list|
    ensures var d := Change(r, Library.Listing(steam));
            d.list[k] == r.list[k] && Library.Open(d.list[k], d.cache.apps.Keys) == r.list[k].appIds
  {
  }

  /** And a pair of an untitled app, reported for a licence that is still to be read, is met as unresolved. */
  lemma {:induction false} NewPairUnresolved(r: Reader, packageId: string, appid: string, k: nat)
    requires r.live && r.list == r.cache.licenses && r.cache.appsToParse.Some?
    requires k < |r.list| && r.list[k].packageId == packageId && appid !in r.cache.apps
    ensures !MeetsNone(Change(r, Library.Reporting(AppReported(packageId, appid))), k)
  {
    AddAppAt(r.list, packageId, appid, k);
    var d := Change(r, Library.Reporting(AppReported(packageId, appid)));
    assert d.list == AddApp(r.list, packageId, appid);
    assert appid in d.list[k].appIds;
  }
}
