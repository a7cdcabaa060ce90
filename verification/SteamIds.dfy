/** Steam's 64-bit account identifiers and the mask that turns one into an account number. */
module SteamIds {
  import opened Maybe

  const INDIVIDUAL: nat := 1
  const ACCOUNT_ID_MASK: nat := 0x0110000100000000

  const TWO20: nat := 0x10_0000
  const TWO24: nat := 0x100_0000
  const TWO32: nat := 0x1_0000_0000
  const TWO64: nat := 0x1_0000_0000_0000_0000

  datatype SteamId = SteamId(id: nat, instance: nat, accountType: nat, universe: nat)

  /** The widths of the four fields: 32, 20, 4 and 8 bits. */
  predicate InWidth(s: SteamId) {
    s.id < TWO32 && s.instance < TWO20 && s.accountType < 16 && s.universe < 256
  }

  /** struct.pack("<Q") raises outside 64 bits; otherwise two 32-bit halves, the upper one cut into three. */
  function Parse(steamId: int): (r: Option<SteamId>) {
    if 0 <= steamId < TWO64 then
      var rest := steamId / TWO32;
      Some(SteamId(steamId % TWO32, rest % TWO20, rest / TWO20 % 16, rest / TWO24))
    else
      None
  }

  /** The number with the given fields. */
  function Compose(s: SteamId): nat {
    s.id + TWO32 * (s.instance + TWO20 * (s.accountType + 16 * s.universe))
  }

  lemma {:induction false} UpperFields(instance: nat, accountType: nat, universe: nat)
    requires instance < TWO20 && accountType < 16
    ensures var rest := instance + TWO20 * (accountType + 16 * universe);
            rest % TWO20 == instance && rest / TWO20 % 16 == accountType && rest / TWO24 == universe
  {
    var upper := accountType + 16 * universe;
    var rest := instance + TWO20 * upper;
    assert rest / TWO20 == upper;
    assert upper / 16 == universe;
    assert rest == instance + TWO20 * accountType + TWO24 * universe;
  }

  /** Parse is a bijection between the 64-bit numbers and the fields within their widths. */
  lemma {:induction false} ParseIsBijective(steamId: int, s: SteamId)
    ensures Parse(steamId).Some? <==> 0 <= steamId < TWO64
    ensures Parse(steamId).Some? ==> InWidth(Parse(steamId).value) && Compose(Parse(steamId).value) == steamId
    ensures InWidth(s) ==> Parse(Compose(s)) == Some(s)
  {
    if Parse(steamId).Some? {
      var rest := steamId / TWO32;
      assert rest < TWO32;
      assert rest / TWO24 == rest / TWO20 / 16;
    }
    if InWidth(s) {
      var rest := s.instance + TWO20 * (s.accountType + 16 * s.universe);
      UpperFields(s.instance, s.accountType, s.universe);
      assert Compose(s) / TWO32 == rest && Compose(s) % TWO32 == s.id;
      assert rest < TWO32;
    }
  }

  /**
   Subtracting the mask gives the account number of exactly the individual
   accounts of universe 1 and instance 1, and of no other 64-bit identifier.
  */
  lemma {:induction false} MaskGivesAccountNumber(steamId: int)
    requires Parse(steamId).Some?
    ensures var s := Parse(steamId).value;
            steamId - ACCOUNT_ID_MASK == s.id <==> s.universe == 1 && s.accountType == INDIVIDUAL && s.instance == 1
  {
    var s := Parse(steamId).value;
    ParseIsBijective(steamId, s);
    var upper := s.accountType + 16 * s.universe;
    assert steamId - ACCOUNT_ID_MASK == s.id + TWO32 * (s.instance - 1 + TWO20 * (upper - 17));
    if steamId - ACCOUNT_ID_MASK == s.id {
      assert s.instance - 1 + TWO20 * (upper - 17) == 0;
      assert upper == 17;
    }
  }
}
