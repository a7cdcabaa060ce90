/** How ProtobufClient turns Steam's licence list into the licences to import. */
module LicenseLists {
  import opened Maybe
  import opened Licenses
  import opened SteamIds
  import opened LibraryImport
  import opened Selections

  datatype Listed = Listed(packageId: nat, flags: int, ownerId: int)

  /** A member of a Python list: a number never equals a licence entry. */
  datatype Item = Number(n: nat) | Entry(license: SteamLicense)

  const TRASH_FLAGS := 520

  predicate Kept(l: Listed) {
    l.flags != TRASH_FLAGS && l.packageId != 0
  }

  function ToImport(listed: seq<Listed>, accountId: int): seq<SteamLicense> {
    if listed == [] then []
    else
      var l := listed[|listed| - 1];
      ToImport(listed[..|listed| - 1], accountId)
      + (if Kept(l) then [SteamLicense(l.packageId, l.ownerId != accountId)] else [])
  }

  function KeptOnly(listed: seq<Listed>): seq<Listed> {
    if listed == [] then []
    else KeptOnly(listed[..|listed| - 1]) + (if Kept(listed[|listed| - 1]) then [listed[|listed| - 1]] else [])
  }

  function Items(licenses: seq<SteamLicense>): seq<Item> {
    seq(|licenses|, i requires 0 <= i < |licenses| => Entry(licenses[i]))
  }

  /** Raises when an entry must be compared with an account that is not confirmed yet. */
  method ProcessLicenseList(listed: seq<Listed>, confirmedSteamId: Option<nat>)
    returns (toCheck: seq<SteamLicense>, raised: bool)
    ensures raised <==> confirmedSteamId == None && KeptOnly(listed) != []
    ensures !raised && confirmedSteamId.Some? ==> toCheck == ToImport(listed, confirmedSteamId.value - ACCOUNT_ID_MASK)
    ensures !raised && confirmedSteamId == None ==> toCheck == []
  {
    toCheck, raised := [], false;
    for i := 0 to |listed|
      invariant confirmedSteamId == None ==> KeptOnly(listed[..i]) == [] && toCheck == []
      invariant confirmedSteamId.Some? ==> toCheck == ToImport(listed[..i], confirmedSteamId.value - ACCOUNT_ID_MASK)
    {
      var l := listed[i];
      assert listed[..i + 1][..i] == listed[..i];
      if l.flags == TRASH_FLAGS || l.packageId == 0 {
        continue;
      }
      if confirmedSteamId == None {
        KeptOnlyGrows(listed, i + 1);
        return [], true;
      }
      if l.ownerId == confirmedSteamId.value - ACCOUNT_ID_MASK {
        toCheck := toCheck + [SteamLicense(l.packageId, false)];
      } else {
        if Number(l.packageId) in Items(toCheck) {
          continue;
        }
        toCheck := toCheck + [SteamLicense(l.packageId, true)];
      }
    }
    assert listed[..|listed|] == listed;
  }

  lemma {:induction false} KeptOnlyGrows(listed: seq<Listed>, n: nat)
    requires n <= |listed| && KeptOnly(listed[..n]) != []
    ensures KeptOnly(listed) != []
    decreases |listed|
  {
    if n < |listed| {
      assert listed[..|listed| - 1][..n] == listed[..n];
      KeptOnlyGrows(listed[..|listed| - 1], n);
    } else {
      assert listed[..n] == listed;
    }
  }

  lemma {:induction false} ImportsTheKept(listed: seq<Listed>, accountId: int)
    ensures |ToImport(listed, accountId)| == |KeptOnly(listed)|
    ensures forall i :: 0 <= i < |KeptOnly(listed)| ==>
              ToImport(listed, accountId)[i] == SteamLicense(KeptOnly(listed)[i].packageId, KeptOnly(listed)[i].ownerId != accountId)
    decreases |listed|
  {
    if listed != [] {
      ImportsTheKept(listed[..|listed| - 1], accountId);
    }
  }

  /**
   The check for duplicates never fires: the imported packages are distinct, as
   the accounting of the games cache needs, exactly when Steam lists no package
   twice among the entries kept. A package owned and also shared is imported twice.
  */
  lemma {:induction false} DistinctOnlyIfListedOnce(listed: seq<Listed>, accountId: int)
    ensures DistinctPackages(ToImport(listed, accountId)) <==>
            forall i, j :: 0 <= i < j < |KeptOnly(listed)| ==> KeptOnly(listed)[i].packageId != KeptOnly(listed)[j].packageId
  {
    ImportsTheKept(listed, accountId);
    var kept, imported := KeptOnly(listed), ToImport(listed, accountId);
    assert forall i :: 0 <= i < |kept| ==> imported[i].packageId == kept[i].packageId;
  }

  /** Neither trash nor the package that every user has. */
  ghost function Wanted(): Listed -> bool {
    (l: Listed) => l.flags != 520 && l.packageId != 0
  }

  /** The entries kept are exactly the wanted ones, in order and as often as they are listed. */
  lemma {:induction false} KeepsTheWanted(listed: seq<Listed>)
    ensures Selects(listed, Wanted(), KeptOnly(listed))
    decreases |listed|
  {
    if listed == [] {
      SelectsNothing(Wanted());
    } else {
      KeepsTheWanted(listed[..|listed| - 1]);
      SelectsAll(listed, Wanted(), KeptOnly(listed[..|listed| - 1]), KeptOnly(listed));
    }
  }
}
