/** What a licence list makes the client do: which path it takes, what it asks for, and what the cache holds then. */
module ListedImports {
  import opened Maybe
  import opened Licenses
  import opened Selections
  import Decimal

  /** Some cached licence of the package has apps, and all of them are titled. */
  ghost predicate IsResolved(c: Cache, l: SteamLicense) {
    exists i :: 0 <= i < |c.licenses| && c.licenses[i].packageId == Decimal.Text(l.packageId)
                && c.licenses[i].appIds != {} && (forall a :: a in c.licenses[i].appIds ==> a in c.apps)
  }

  ghost function Wanted(c: Cache): SteamLicense -> bool {
    (l: SteamLicense) => !IsResolved(c, l)
  }

  /** The package is listed by Steam. */
  predicate IsListed(steam: seq<SteamLicense>, packageId: string) {
    exists i :: 0 <= i < |steam| && Decimal.Text(steam[i].packageId) == packageId
  }

  predicate IsCached(c: Cache, packageId: string) {
    exists i :: 0 <= i < |c.licenses| && c.licenses[i].packageId == packageId
  }

  /** The map is dropped: fewer than 12000 packages are listed, and they are not the cached ones. */
  ghost predicate Drops(c: Cache, steam: seq<SteamLicense>) {
    && |set l | l in steam :: Decimal.Text(l.packageId)| < 12000
    && exists packageId :: IsListed(steam, packageId) != IsCached(c, packageId)
  }

  /** The licences are the old ones, and then an empty one for each package asked for, in order. */
  predicate Extended(old_: seq<License>, asked: seq<SteamLicense>, licenses: seq<License>) {
    && |licenses| == |old_| + |asked|
    && (forall i :: 0 <= i < |old_| ==> licenses[i] == old_[i])
    && (forall i :: 0 <= i < |asked| ==>
          licenses[|old_| + i] == License(Decimal.Text(asked[i].packageId), asked[i].shared, {}))
  }

  /** All that a licence list does to the cache, and all that is asked for. */
  ghost predicate Lists(c: Cache, steam: seq<SteamLicense>, d: Cache, asked: seq<SteamLicense>) {
    && (if Drops(c, steam) then
          asked == steam && Extended([], asked, d.licenses) && d.apps == map[]
        else
          Selects(steam, Wanted(c), asked) && Extended(c.licenses, asked, d.licenses) && d.apps == c.apps)
    && d.packagesToParse == Some(|asked|) && d.appsToParse == Some(0) && (d.ready <==> asked == [])
    && d.lever == c.lever && d.sent == c.sent && d.added == c.added
  }

  // ---------- The proof ----------

  lemma {:induction false} DropsExactly(c: Cache, steam: seq<SteamLicense>)
    ensures StartsAfresh(c, steam) <==> Drops(c, steam)
  {
    forall p
      ensures p in SteamIds(steam) <==> IsListed(steam, p)
      ensures p in PackageIds(c.licenses) <==> IsCached(c, p)
    {
      if p in SteamIds(steam) {
        var l :| l in steam && Decimal.Text(l.packageId) == p;
        var i :| 0 <= i < |steam| && steam[i] == l;
      }
      if p in PackageIds(c.licenses) {
        var l :| l in c.licenses && l.packageId == p;
        var i :| 0 <= i < |c.licenses| && c.licenses[i] == l;
      }
    }
    assert SteamIds(steam) == set l | l in steam :: Decimal.Text(l.packageId);
    if SteamIds(steam) != PackageIds(c.licenses) {
      var p :| (p in SteamIds(steam)) != (p in PackageIds(c.licenses));
      assert IsListed(steam, p) != IsCached(c, p);
    }
  }

  lemma {:induction false} ResolvedExactly(c: Cache, l: SteamLicense)
    ensures Decimal.Text(l.packageId) in Resolved(c.licenses, c.apps.Keys) <==> IsResolved(c, l)
  {
    var p := Decimal.Text(l.packageId);
    if p in Resolved(c.licenses, c.apps.Keys) {
      var k :| k in c.licenses && k.appIds != {} && k.appIds <= c.apps.Keys && k.packageId == p;
      var i :| 0 <= i < |c.licenses| && c.licenses[i] == k;
    }
    if IsResolved(c, l) {
      var i :| 0 <= i < |c.licenses| && c.licenses[i].packageId == p
               && c.licenses[i].appIds != {} && (forall a :: a in c.licenses[i].appIds ==> a in c.apps);
      assert c.licenses[i] in c.licenses;
    }
  }

  lemma {:induction false} WantedExactly(c: Cache, l: SteamLicense)
    ensures Wanted(c)(l) <==> Decimal.Text(l.packageId) !in Resolved(c.licenses, c.apps.Keys)
  {
    ResolvedExactly(c, l);
  }

  lemma {:induction false} OpenSelected(steam: seq<SteamLicense>, resolved: set<string>, wanted: SteamLicense -> bool)
    requires forall l :: wanted(l) <==> Decimal.Text(l.packageId) !in resolved
    ensures Selects(steam, wanted, StillOpen(steam, resolved))
    decreases |steam|
  {
    if steam == [] {
      SelectsNothing(wanted);
    } else {
      var earlier := StillOpen(steam[..|steam| - 1], resolved);
      OpenSelected(steam[..|steam| - 1], resolved, wanted);
      SelectsAll(steam, wanted, earlier, StillOpen(steam, resolved));
    }
  }

  lemma {:induction false} AskedExactly(c: Cache, steam: seq<SteamLicense>)
    ensures Selects(steam, Wanted(c), StillOpen(steam, Resolved(c.licenses, c.apps.Keys)))
  {
    forall l
      ensures Wanted(c)(l) <==> Decimal.Text(l.packageId) !in Resolved(c.licenses, c.apps.Keys)
    {
      WantedExactly(c, l);
    }
    OpenSelected(steam, Resolved(c.licenses, c.apps.Keys), Wanted(c));
  }

  lemma {:induction false} NewAt(steam: seq<SteamLicense>, i: nat)
    requires i < |steam|
    ensures NewLicenses(steam)[i] == License(Decimal.Text(steam[i].packageId), steam[i].shared, {})
    decreases |steam|
  {
    if i < |steam| - 1 {
      NewAt(steam[..|steam| - 1], i);
    }
  }

  lemma {:induction false} StartsExtended(c: Cache, steam: seq<SteamLicense>)
    ensures Extended(c.licenses, steam, StartImport(c, steam).licenses)
  {
    forall i | 0 <= i < |steam|
      ensures StartImport(c, steam).licenses[|c.licenses| + i] == License(Decimal.Text(steam[i].packageId), steam[i].shared, {})
    {
      NewAt(steam, i);
    }
  }

  /**
   A list asks for every listed package when it drops the map, and otherwise for
   exactly the unresolved ones, in order and as often as they are listed; and it
   leaves the kept licences, if any, and one empty licence for each one asked for.
  */
  lemma {:induction false} ListsExactly(c: Cache, steam: seq<SteamLicense>)
    ensures Lists(c, steam, ImportLicenses(c, steam).0, ImportLicenses(c, steam).1)
  {
    DropsExactly(c, steam);
    if Drops(c, steam) {
      StartsExtended(ResetMap(c), steam);
    } else {
      var open := StillOpen(steam, Resolved(c.licenses, c.apps.Keys));
      StartsExtended(c, open);
      AskedExactly(c, steam);
    }
  }
}
