/**
 The collections that the Steam client keeps in its local storage: which of many
 stored versions is the latest, and which tags the games get from them.
*/
module Collections {
  import opened Maybe
  import opened Selections
  import Decimal

  // ---------- Latest wins ----------

  /** A stored object; keys that it lacks are None. */
  datatype Entry = Entry(key: Option<string>, timestamp: Option<int>, isDeleted: Option<bool>, value: Option<string>)

  predicate Usable(e: Entry) {
    e.key.Some? && e.timestamp.Some?
  }

  predicate Has(e: Entry, key: string) {
    Usable(e) && e.key.value == key
  }

  /** The keys of the usable entries, in the order in which they are first seen. */
  function Keys(list: seq<Entry>): seq<string> {
    if list == [] then []
    else
      var earlier, last := Keys(list[..|list| - 1]), list[|list| - 1];
      if Usable(last) && last.key.value !in earlier then earlier + [last.key.value] else earlier
  }

  /** The better of two entries of a key: the later one only if its timestamp is greater. */
  function Better(a: Option<Entry>, b: Option<Entry>): Option<Entry>
    requires (a.Some? ==> Usable(a.value)) && (b.Some? ==> Usable(b.value))
  {
    if a == None then b
    else if b.Some? && b.value.timestamp.value > a.value.timestamp.value then b
    else a
  }

  function Best(list: seq<Entry>, key: string): (r: Option<Entry>)
    ensures r.Some? ==> Has(r.value, key)
  {
    if list == [] then None
    else
      var earlier, last := Best(list[..|list| - 1], key), list[|list| - 1];
      if Has(last, key) then Better(earlier, Some(last)) else earlier
  }

  lemma {:induction false} KeysExact(list: seq<Entry>, key: string)
    ensures key in Keys(list) <==> Best(list, key).Some?
    ensures key in Keys(list) <==> exists i :: 0 <= i < |list| && Has(list[i], key)
    decreases |list|
  {
    if list != [] {
      var init := list[..|list| - 1];
      KeysExact(init, key);
      if i :| 0 <= i < |list| && Has(list[i], key) {
        assert i < |init| ==> Has(init[i], key);
      }
      assert Has(list[|list| - 1], key) ==> Has(list[|list| - 1], key) && 0 <= |list| - 1 < |list|;
      if i :| 0 <= i < |init| && Has(init[i], key) {
        assert Has(list[i], key);
      }
    }
  }

  /** The entry at i is the newest of its key, and the earliest of the newest ones. */
  predicate Wins(list: seq<Entry>, key: string, i: int) {
    && 0 <= i < |list| && Has(list[i], key)
    && (forall j :: 0 <= j < |list| && Has(list[j], key) ==>
          list[j].timestamp.value <= list[i].timestamp.value && (j < i ==> list[j].timestamp.value < list[i].timestamp.value))
  }

  lemma {:induction false} LastWins(list: seq<Entry>, key: string)
    requires list != [] && Has(list[|list| - 1], key)
    requires forall j :: 0 <= j < |list| - 1 && Has(list[j], key) ==> list[j].timestamp.value < list[|list| - 1].timestamp.value
    ensures Wins(list, key, |list| - 1)
  {
  }

  lemma {:induction false} StillWins(list: seq<Entry>, key: string, i: int)
    requires list != [] && Wins(list[..|list| - 1], key, i)
    requires Has(list[|list| - 1], key) ==> list[|list| - 1].timestamp.value <= list[i].timestamp.value
    ensures Wins(list, key, i)
  {
    assert forall j :: 0 <= j < |list| - 1 ==> list[..|list| - 1][j] == list[j];
  }

  lemma {:induction false} BestWins(list: seq<Entry>, key: string)
    ensures Best(list, key).Some? ==> exists i :: Wins(list, key, i) && list[i] == Best(list, key).value
    decreases |list|
  {
    if list != [] && Best(list, key).Some? {
      var init, last := list[..|list| - 1], list[|list| - 1];
      BestWins(init, key);
      if Best(init, key) == None {
        KeysExact(init, key);
        assert forall j :: 0 <= j < |init| ==> init[j] == list[j] && !Has(init[j], key);
        LastWins(list, key);
      } else {
        var i :| Wins(init, key, i) && init[i] == Best(init, key).value;
        if Has(last, key) && last.timestamp.value > init[i].timestamp.value {
          assert forall j :: 0 <= j < |init| ==> init[j] == list[j];
          LastWins(list, key);
        } else {
          StillWins(list, key, i);
        }
      }
    }
  }

  /** Exactly: the entry of a key is the one that wins, and nothing else does. */
  lemma {:induction false} BestExact(list: seq<Entry>, key: string, e: Entry)
    ensures Best(list, key) == Some(e) <==> exists i :: Wins(list, key, i) && list[i] == e
  {
    BestWins(list, key);
    if i :| Wins(list, key, i) && list[i] == e {
      KeysExact(list, key);
      var j :| Wins(list, key, j) && list[j] == Best(list, key).value;
      assert list[i].timestamp.value <= list[j].timestamp.value;
    }
  }

  predicate DistinctKeys(keys: seq<string>) {
    forall i, j :: 0 <= i < j < |keys| ==> keys[i] != keys[j]
  }

  lemma {:induction false} KeysDistinct(list: seq<Entry>)
    ensures DistinctKeys(Keys(list))
    decreases |list|
  {
    if list != [] {
      KeysDistinct(list[..|list| - 1]);
    }
  }

  /** One entry for each key, in the order of the keys. */
  function Select(keys: seq<string>, list: seq<Entry>): seq<Entry>
    requires forall k :: k in keys ==> Best(list, k).Some?
  {
    seq(|keys|, i requires 0 <= i < |keys| => Best(list, keys[i]).value)
  }

  function Fresh(list: seq<Entry>): seq<Entry> {
    KeysHaveBest(list);
    Select(Keys(list), list)
  }

  lemma {:induction false} KeysHaveBest(list: seq<Entry>)
    ensures forall k :: k in Keys(list) ==> Best(list, k).Some?
  {
    forall k | k in Keys(list)
      ensures Best(list, k).Some?
    {
      KeysExact(list, k);
    }
  }

  /** The loop over the stored objects; order and pretenders are the dictionary, in insertion order. */
  method FreshCollections(list: seq<Entry>) returns (latest: seq<Entry>)
    ensures latest == Fresh(list)
  {
    var order: seq<string> := [];
    var pretenders: map<string, Entry> := map[];
    for i := 0 to |list|
      invariant order == Keys(list[..i])
      invariant forall k :: k in pretenders <==> k in order
      invariant forall k :: k in pretenders ==> Best(list[..i], k) == Some(pretenders[k])
    {
      assert list[..i + 1][..i] == list[..i];
      KeysHaveBest(list[..i]);
      var e := list[i];
      if e.key.Some? && e.timestamp.Some? {
        var key := e.key.value;
        KeysExact(list[..i], key);
        if key !in pretenders {
          order := order + [key];
          pretenders := pretenders[key := e];
        } else if e.timestamp.value > pretenders[key].timestamp.value {
          pretenders := pretenders[key := e];
        }
      }
    }
    assert list[..|list|] == list;
    latest := [];
    for i := 0 to |order|
      invariant |latest| == i
      invariant forall j :: 0 <= j < i ==> latest[j] == pretenders[order[j]]
    {
      latest := latest + [pretenders[order[i]]];
    }
    assert forall j :: 0 <= j < |order| ==> order[j] in pretenders;
    assert latest == Fresh(list);
  }

  // ---------- Merging in parts ----------

  lemma {:induction false} BestAppend(a: seq<Entry>, b: seq<Entry>, key: string)
    ensures Best(a + b, key) == Better(Best(a, key), Best(b, key))
    decreases |b|
  {
    if b == [] {
      assert a + b == a;
    } else {
      assert (a + b)[..|a + b| - 1] == a + b[..|b| - 1];
      BestAppend(a, b[..|b| - 1], key);
    }
  }

  /** The keys that the others do not have. */
  function Others(keys: seq<string>, known: seq<string>): seq<string> {
    if keys == [] then []
    else
      var earlier, last := Others(keys[..|keys| - 1], known), keys[|keys| - 1];
      if last in known then earlier else earlier + [last]
  }

  lemma {:induction false} OthersExact(keys: seq<string>, known: seq<string>, key: string)
    ensures key in Others(keys, known) <==> key in keys && key !in known
    decreases |keys|
  {
    if keys != [] {
      OthersExact(keys[..|keys| - 1], known, key);
      assert keys == keys[..|keys| - 1] + [keys[|keys| - 1]];
    }
  }

  lemma {:induction false} KeysAppend(a: seq<Entry>, b: seq<Entry>)
    ensures Keys(a + b) == Keys(a) + Others(Keys(b), Keys(a))
    decreases |b|
  {
    if b == [] {
      assert a + b == a;
    } else {
      var init, last := b[..|b| - 1], b[|b| - 1];
      assert (a + b)[..|a + b| - 1] == a + init;
      KeysAppend(a, init);
      if Usable(last) {
        var key := last.key.value;
        OthersExact(Keys(init), Keys(a), key);
        if key !in Keys(init) {
          assert (Keys(init) + [key])[..|Keys(init)|] == Keys(init);
        }
      }
    }
  }

  /** A list of usable entries with different keys is its own fresh list. */
  lemma {:induction false} AlreadyFresh(list: seq<Entry>, keys: seq<string>, key: string)
    requires DistinctKeys(keys) && |list| == |keys| && forall i :: 0 <= i < |list| ==> Has(list[i], keys[i])
    ensures Keys(list) == keys
    ensures forall i :: 0 <= i < |list| && keys[i] == key ==> Best(list, key) == Some(list[i])
    decreases |list|
  {
    if list != [] {
      var n := |list| - 1;
      AlreadyFresh(list[..n], keys[..n], key);
      KeysExact(list[..n], key);
      assert keys == keys[..n] + [keys[n]];
      forall i | 0 <= i < |list| && keys[i] == key
        ensures Best(list, key) == Some(list[i])
      {
        if i < n {
          assert keys[i] != keys[n] && list[..n][i] == list[i] && keys[..n][i] == key;
        } else {
          assert key !in keys[..n];
        }
      }
    }
  }

  /** The fresh list has the same keys in the same order, and the same best entries. */
  lemma {:induction false} FreshKeeps(list: seq<Entry>, key: string)
    ensures Keys(Fresh(list)) == Keys(list) && Best(Fresh(list), key) == Best(list, key)
  {
    var keys := Keys(list);
    KeysDistinct(list);
    KeysHaveBest(list);
    AlreadyFresh(Fresh(list), keys, key);
    KeysExact(list, key);
    KeysExact(Fresh(list), key);
    if key in keys {
      var i :| 0 <= i < |keys| && keys[i] == key;
      assert Fresh(list)[i] == Best(list, key).value;
    }
  }

  /** Merging in parts: two lists may each be reduced before they are merged; in particular, reducing twice changes nothing. */
  lemma {:induction false} MergeInParts(a: seq<Entry>, b: seq<Entry>)
    ensures Fresh(Fresh(a) + Fresh(b)) == Fresh(a + b)
    ensures Fresh(Fresh(a)) == Fresh(a)
  {
    var parts := Fresh(a) + Fresh(b);
    FreshKeeps(a, "");
    FreshKeeps(b, "");
    KeysAppend(a, b);
    KeysAppend(Fresh(a), Fresh(b));
    forall key
      ensures Best(parts, key) == Best(a + b, key) && Best(Fresh(a), key) == Best(a, key)
    {
      FreshKeeps(a, key);
      FreshKeeps(b, key);
      BestAppend(a, b, key);
      BestAppend(Fresh(a), Fresh(b), key);
    }
    KeysHaveBest(parts);
    KeysHaveBest(a + b);
    KeysHaveBest(a);
  }

  // ---------- Tags ----------

  /** A collection as decoded: not an object at all, or an object that may lack any of its keys. */
  datatype Collection = NotAnObject | Collection(id: Option<string>, name: Option<string>, added: Option<seq<nat>>)

  /** ('favorite' 'hidden') is one string, so that membership is a search in it. */
  const SPECIAL: string := "favoritehidden"

  predicate OccursAt(text: string, part: string, i: int) {
    0 <= i <= |text| - |part| && text[i..i + |part|] == part
  }

  predicate Contains(text: string, part: string) {
    exists i :: 0 <= i <= |text| && OccursAt(text, part, i)
  }

  /** The collection gives tags: it has a name and some games. */
  predicate Tagging(c: Collection) {
    c.Collection? && c.name.Some? && c.added.Some? && c.added.value != []
  }

  function Label(c: Collection): string
    requires Tagging(c) && c.id.Some?
  {
    if Contains(SPECIAL, c.id.value) then c.id.value else c.name.value
  }

  /** What the code means to write: the id of the two special collections, the name of any other. */
  function Intended(c: Collection): string
    requires Tagging(c) && c.id.Some?
  {
    if c.id.value in {"favorite", "hidden"} then c.id.value else c.name.value
  }

  lemma {:induction false} SpecialOnes()
    ensures Contains(SPECIAL, "favorite") && Contains(SPECIAL, "hidden") && Contains(SPECIAL, "")
  {
    assert OccursAt(SPECIAL, "favorite", 0);
    assert OccursAt(SPECIAL, "hidden", 8);
    assert OccursAt(SPECIAL, "", 0);
  }

  /** The tag is the wrong one exactly for another id that happens to occur in the joined word, such as the empty one. */
  lemma {:induction false} LabelIsIntended(c: Collection)
    requires Tagging(c) && c.id.Some?
    ensures Label(c) == Intended(c) <==>
            !Contains(SPECIAL, c.id.value) || c.id.value in {"favorite", "hidden"} || c.id.value == c.name.value
  {
    SpecialOnes();
  }

  lemma {:induction false} EmptyIdMislabels(name: string, games: seq<nat>)
    requires name != "" && games != []
    ensures var c := Collection(Some(""), Some(name), Some(games)); Label(c) == "" && Intended(c) == name
  {
    SpecialOnes();
  }

  function Repeat(name: string, n: nat): seq<string> {
    seq(n, _ => name)
  }

  /** Reading the tags raises: a collection that gives tags has no id. */
  predicate Raises(cs: seq<Collection>) {
    exists i :: 0 <= i < |cs| && Tagging(cs[i]) && cs[i].id == None
  }

  /** The tags of one game: each collection's label as often as the collection lists the game, in order. */
  function TagsOf(cs: seq<Collection>, game: nat): seq<string> {
    if cs == [] then []
    else
      var earlier, last := TagsOf(cs[..|cs| - 1], game), cs[|cs| - 1];
      if Tagging(last) && last.id.Some? then earlier + Repeat(Label(last), multiset(last.added.value)[game]) else earlier
  }

  /** How often the collections of one label list a game. */
  function Listings(cs: seq<Collection>, tag: string, game: nat): nat {
    if cs == [] then 0
    else
      var last := cs[|cs| - 1];
      Listings(cs[..|cs| - 1], tag, game)
      + if Tagging(last) && last.id.Some? && Label(last) == tag then multiset(last.added.value)[game] else 0
  }

  lemma {:induction false} RepeatCounts(name: string, n: nat, tag: string)
    ensures multiset(Repeat(name, n))[tag] == if name == tag then n else 0
    decreases n
  {
    if n > 0 {
      RepeatCounts(name, n - 1, tag);
      assert Repeat(name, n) == Repeat(name, n - 1) + [name];
    }
  }

  /** Inversion: a game has a tag as often as the collections of that label list the game. */
  lemma {:induction false} TagsInvert(cs: seq<Collection>, tag: string, game: nat)
    ensures multiset(TagsOf(cs, game))[tag] == Listings(cs, tag, game)
    decreases |cs|
  {
    if cs != [] {
      var last := cs[|cs| - 1];
      TagsInvert(cs[..|cs| - 1], tag, game);
      if Tagging(last) && last.id.Some? {
        RepeatCounts(Label(last), multiset(last.added.value)[game], tag);
      }
    }
  }

  /** How often a collection lists a game, if it has a name. */
  function Mentions(c: Collection, game: nat): nat {
    if c.Collection? && c.name.Some? && c.added.Some? then multiset(c.added.value)[game] else 0
  }

  /** The tag that a collection gives: its name, or the id if that occurs in "favoritehidden". */
  predicate GivesTag(c: Collection, tag: string) {
    && c.Collection? && c.name.Some? && c.id.Some?
    && tag == if Contains("favoritehidden", c.id.value) then c.id.value else c.name.value
  }

  predicate NonDecreasing(places: seq<nat>) {
    forall i, j :: 0 <= i < j < |places| ==> places[i] <= places[j]
  }

  /** The tags of a game come from these collections, in order, each as often as it mentions the game. */
  ghost predicate TagsFrom(cs: seq<Collection>, game: nat, places: seq<nat>, tags: seq<string>) {
    && NonDecreasing(places) && |places| == |tags|
    && (forall j :: 0 <= j < |tags| ==> places[j] < |cs| && GivesTag(cs[places[j]], tags[j]))
    && (forall i: nat :: i < |cs| ==> multiset(places)[i] == Mentions(cs[i], game))
  }

  lemma {:induction false} LabelGiven(c: Collection)
    requires Tagging(c) && c.id.Some?
    ensures GivesTag(c, Label(c))
  {
  }

  function Copies(place: nat, n: nat): seq<nat> {
    seq(n, _ => place)
  }

  lemma {:induction false} CopiesCount(place: nat, n: nat, i: nat)
    ensures multiset(Copies(place, n))[i] == if i == place then n else 0
    decreases n
  {
    if n > 0 {
      CopiesCount(place, n - 1, i);
      assert Copies(place, n) == Copies(place, n - 1) + [place];
    }
  }

  lemma {:induction false} TagsNext(cs: seq<Collection>, game: nat, places: seq<nat>, tags: seq<string>, c: Collection, tag: string)
    requires TagsFrom(cs, game, places, tags)
    requires Mentions(c, game) > 0 ==> GivesTag(c, tag)
    ensures TagsFrom(cs + [c], game, places + Copies(|cs|, Mentions(c, game)), tags + Repeat(tag, Mentions(c, game)))
  {
    var n := Mentions(c, game);
    var all: seq<nat> := places + Copies(|cs|, n);
    forall i: nat | i < |cs| + 1
      ensures multiset(all)[i] == Mentions((cs + [c])[i], game)
    {
      CopiesCount(|cs|, n, i);
      if i == |cs| {
        assert i !in places;
      }
    }
  }

  /** If nothing raises, a game's tags come from the collections in order, each as often as it lists the game. */
  lemma {:induction false} TagsInOrder(cs: seq<Collection>, game: nat)
    requires !Raises(cs)
    ensures exists places :: TagsFrom(cs, game, places, TagsOf(cs, game))
    decreases |cs|
  {
    if cs == [] {
      assert TagsFrom(cs, game, [], TagsOf(cs, game));
    } else {
      var init, last := cs[..|cs| - 1], cs[|cs| - 1];
      assert cs == init + [last];
      assert !Raises(init) by {
        assert forall i :: 0 <= i < |init| ==> init[i] == cs[i];
      }
      TagsInOrder(init, game);
      var places :| TagsFrom(init, game, places, TagsOf(init, game));
      assert Tagging(last) ==> last.id.Some?;
      if Tagging(last) {
        LabelGiven(last);
        TagsNext(init, game, places, TagsOf(init, game), last, Label(last));
        assert TagsFrom(cs, game, places + Copies(|init|, Mentions(last, game)), TagsOf(cs, game));
      } else {
        assert Mentions(last, game) == 0;
        TagsNext(init, game, places, TagsOf(init, game), last, "");
        assert TagsOf(init, game) + Repeat("", 0) == TagsOf(cs, game);
        assert TagsFrom(cs, game, places + Copies(|init|, 0), TagsOf(cs, game));
      }
    }
  }

  /** The dictionary's entry of one game, under the game's text: its tags so far. */
  ghost predicate Holds(tags: map<string, seq<string>>, game: nat, names: seq<string>) {
    if names == [] then Decimal.Text(game) !in tags
    else Decimal.Text(game) in tags && tags[Decimal.Text(game)] == names
  }

  ghost predicate IsGame(key: string) {
    exists game: nat :: key == Decimal.Text(game)
  }

  ghost predicate OnlyGames(tags: map<string, seq<string>>) {
    forall key :: key in tags ==> IsGame(key)
  }

  /** The dictionary is that of some collections. */
  ghost predicate HoldsAll(tags: map<string, seq<string>>, cs: seq<Collection>) {
    OnlyGames(tags) && forall game: nat :: Holds(tags, game, TagsOf(cs, game))
  }

  ghost function TagsDuring(cs: seq<Collection>, name: string, games: seq<nat>, game: nat): seq<string> {
    TagsOf(cs, game) + Repeat(name, multiset(games)[game])
  }

  /** The dictionary is that of some collections and of some more games of the name. */
  ghost predicate HoldsDuring(tags: map<string, seq<string>>, cs: seq<Collection>, name: string, games: seq<nat>) {
    OnlyGames(tags) && forall game: nat :: Holds(tags, game, TagsDuring(cs, name, games, game))
  }

  function AddTag(tags: map<string, seq<string>>, game: nat, name: string): map<string, seq<string>> {
    var key := Decimal.Text(game);
    tags[key := if key in tags then tags[key] + [name] else [name]]
  }

  lemma {:induction false} OneMoreTag(tags: map<string, seq<string>>, cs: seq<Collection>, name: string, games: seq<nat>, game: nat)
    requires HoldsDuring(tags, cs, name, games)
    ensures HoldsDuring(AddTag(tags, game, name), cs, name, games + [game])
  {
    forall other: nat
      ensures Holds(AddTag(tags, game, name), other, TagsDuring(cs, name, games + [game], other))
    {
      assert Holds(tags, other, TagsDuring(cs, name, games, other));
      OneMoreTagOf(tags, cs, name, games, game, other);
    }
    assert IsGame(Decimal.Text(game));
  }

  lemma {:induction false} OneMoreTagOf(tags: map<string, seq<string>>, cs: seq<Collection>, name: string, games: seq<nat>, game: nat, other: nat)
    requires Holds(tags, other, TagsDuring(cs, name, games, other))
    ensures Holds(AddTag(tags, game, name), other, TagsDuring(cs, name, games + [game], other))
  {
    var n := multiset(games)[other];
    assert multiset(games + [game])[other] == n + if other == game then 1 else 0;
    if other == game {
      assert Repeat(name, n + 1) == Repeat(name, n) + [name];
      assert TagsDuring(cs, name, games + [game], other) == TagsDuring(cs, name, games, other) + [name];
    } else if Decimal.Text(other) == Decimal.Text(game) {
      Decimal.TextIsInjective(other, game);
    }
  }

  lemma {:induction false} CollectionBegins(tags: map<string, seq<string>>, cs: seq<Collection>, name: string)
    requires HoldsAll(tags, cs)
    ensures HoldsDuring(tags, cs, name, [])
  {
    forall game: nat
      ensures Holds(tags, game, TagsDuring(cs, name, [], game))
    {
      assert Holds(tags, game, TagsOf(cs, game));
      assert TagsOf(cs, game) + Repeat(name, 0) == TagsOf(cs, game);
    }
  }

  lemma {:induction false} CollectionEnds(tags: map<string, seq<string>>, cs: seq<Collection>, c: Collection)
    requires if Tagging(c) && c.id.Some? then HoldsDuring(tags, cs, Label(c), c.added.value) else HoldsAll(tags, cs)
    ensures HoldsAll(tags, cs + [c])
  {
    assert (cs + [c])[..|cs|] == cs;
    forall game: nat
      ensures Holds(tags, game, TagsOf(cs + [c], game))
    {
      if Tagging(c) && c.id.Some? {
        assert Holds(tags, game, TagsDuring(cs, Label(c), c.added.value, game));
      } else {
        assert Holds(tags, game, TagsOf(cs, game));
      }
    }
  }

  // ---------- The parser ----------

  datatype Parsed = Stored | NothingFound | BadValue

  /** The values to decode: of entries that have one and are not deleted. */
  function Values(list: seq<Entry>): seq<string> {
    if list == [] then []
    else
      var earlier, last := Values(list[..|list| - 1]), list[|list| - 1];
      if last.value.Some? && (last.isDeleted == None || !last.isDeleted.value) then earlier + [last.value.value] else earlier
  }

  /** The values are those of exactly the entries that have one and are not marked as deleted, in order. */
  lemma {:induction false} ValuesExactly(list: seq<Entry>)
    ensures SelectsAs(list, (e: Entry) => e.value.Some? && e.isDeleted != Some(true),
                      (e: Entry, v: string) => e.value == Some(v), Values(list))
  {
    ValuesSelected(list, (e: Entry) => e.value.Some? && e.isDeleted != Some(true), (e: Entry, v: string) => e.value == Some(v));
  }

  lemma {:induction false} ValuesSelected(list: seq<Entry>, p: Entry -> bool, r: (Entry, string) -> bool)
    requires forall e :: p(e) <==> e.value.Some? && e.isDeleted != Some(true)
    requires forall e, v :: r(e, v) <==> e.value == Some(v)
    ensures SelectsAs(list, p, r, Values(list))
    decreases |list|
  {
    if list == [] {
      SelectsAsNothing(p, r);
    } else {
      var init, last := list[..|list| - 1], list[|list| - 1];
      assert list == init + [last];
      ValuesSelected(init, p, r);
      if p(last) {
        SelectsAsTaken(init, p, r, Values(init), last, last.value.value);
      } else {
        SelectsAsSkipped(init, p, r, Values(init), last);
      }
    }
  }

  /** What loading all of the values gives; None if one of them raises. */
  function LoadAll(values: seq<string>, loads: string -> Option<Collection>): Option<seq<Collection>> {
    if values == [] then Some([])
    else
      var earlier, last := LoadAll(values[..|values| - 1], loads), loads(values[|values| - 1]);
      if earlier == None || last == None then None else Some(earlier.value + [last.value])
  }

  lemma {:induction false} LoadAllExact(values: seq<string>, loads: string -> Option<Collection>)
    ensures LoadAll(values, loads) == None <==> exists i :: 0 <= i < |values| && loads(values[i]) == None
    ensures LoadAll(values, loads).Some? ==>
              |LoadAll(values, loads).value| == |values|
              && forall i :: 0 <= i < |values| ==> loads(values[i]) == Some(LoadAll(values, loads).value[i])
    decreases |values|
  {
    if values != [] {
      var init := values[..|values| - 1];
      LoadAllExact(init, loads);
      if i :| 0 <= i < |values| && loads(values[i]) == None {
        assert i < |init| ==> init[i] == values[i];
      }
      if i :| 0 <= i < |init| && loads(init[i]) == None {
        assert values[i] == init[i];
      }
    }
  }

  lemma {:induction false} RaisingPrefix(values: seq<string>, n: nat, loads: string -> Option<Collection>)
    requires n <= |values| && LoadAll(values[..n], loads) == None
    ensures LoadAll(values, loads) == None
  {
    LoadAllExact(values, loads);
    LoadAllExact(values[..n], loads);
    var i :| 0 <= i < n && loads(values[..n][i]) == None;
    assert values[i] == values[..n][i];
  }

  lemma {:induction false} ValuesPrefix(list: seq<Entry>, n: nat)
    requires n <= |list|
    ensures |Values(list[..n])| <= |Values(list)|
    ensures Values(list)[..|Values(list[..n])|] == Values(list[..n])
    decreases |list|
  {
    if n < |list| {
      assert list[..|list| - 1][..n] == list[..n];
      ValuesPrefix(list[..|list| - 1], n);
    } else {
      assert list[..n] == list;
    }
  }

  class LevelDbParser {
    var collections: seq<Collection>

    constructor ()
      ensures collections == []
    {
      collections := [];
    }

    /** The end of parse_leveldb, from the objects found; loads decodes a value or raises (None). */
    method Adopt(list: seq<Entry>, loads: string -> Option<Collection>) returns (parsed: Parsed)
      modifies this
      ensures var loaded := LoadAll(Values(Fresh(list)), loads);
              && parsed == (if loaded == None then BadValue else if loaded.value == [] then NothingFound else Stored)
              && collections == (if parsed == Stored then loaded.value else old(collections))
    {
      var recent := FreshCollections(list);
      var decoded: seq<Collection> := [];
      for i := 0 to |recent|
        invariant LoadAll(Values(recent[..i]), loads) == Some(decoded)
      {
        assert recent[..i + 1][..i] == recent[..i];
        var e := recent[i];
        if e.value.Some? && (e.isDeleted == None || !e.isDeleted.value) {
          var c := loads(e.value.value);
          assert Values(recent[..i + 1])[..|Values(recent[..i])|] == Values(recent[..i]);
          if c == None {
            ValuesPrefix(recent, i + 1);
            RaisingPrefix(Values(recent), |Values(recent[..i + 1])|, loads);
            return BadValue;
          }
          decoded := decoded + [c.value];
        }
      }
      assert recent[..|recent|] == recent;
      if |decoded| == 0 {
        return NothingFound;
      }
      collections := decoded;
      parsed := Stored;
    }

    /** The dictionary from games to tags; None if a collection's missing id raises. */
    method GetStaticCollectionsTags() returns (settings: Option<map<string, seq<string>>>)
      ensures settings == None <==> Raises(collections)
      ensures settings.Some? ==> HoldsAll(settings.value, collections)
    {
      var tags: map<string, seq<string>> := map[];
      for k := 0 to |collections|
        invariant forall i :: 0 <= i < k ==> Tagging(collections[i]) ==> collections[i].id.Some?
        invariant HoldsAll(tags, collections[..k])
      {
        ghost var before := collections[..k];
        var c := collections[k];
        if Tagging(c) {
          if c.id == None {
            return None;
          }
          tags := TagGames(tags, c, before);
        }
        CollectionEnds(tags, before, c);
        assert collections[..k + 1] == before + [c];
      }
      assert collections[..|collections|] == collections;
      settings := Some(tags);
    }
  }

  /** The inner loop: the games of one collection. */
  method TagGames(settings: map<string, seq<string>>, c: Collection, ghost before: seq<Collection>)
    returns (tags: map<string, seq<string>>)
    requires Tagging(c) && c.id.Some? && HoldsAll(settings, before)
    ensures HoldsDuring(tags, before, Label(c), c.added.value)
  {
    var name := if Contains(SPECIAL, c.id.value) then c.id.value else c.name.value;
    tags := settings;
    CollectionBegins(tags, before, name);
    var games := c.added.value;
    for i := 0 to |games|
      invariant HoldsDuring(tags, before, name, games[..i])
    {
      OneMoreTag(tags, before, name, games[..i], games[i]);
      assert games[..i] + [games[i]] == games[..i + 1];
      var key := Decimal.Text(games[i]);
      if key !in tags {
        tags := tags[key := [name]];
      } else {
        tags := tags[key := tags[key] + [name]];
      }
    }
    assert games[..|games|] == games;
  }

  // ---------- The search for entries ----------

  /** str.find: the first occurrence at or after a position, or -1. */
  method Find(log: string, part: string, start: nat) returns (pos: int)
    ensures pos == -1 <==> forall p :: start <= p <= |log| ==> !OccursAt(log, part, p)
    ensures pos != -1 ==> start <= pos && OccursAt(log, part, pos)
    ensures pos != -1 ==> forall p :: start <= p < pos ==> !OccursAt(log, part, p)
  {
    pos := start;
    while pos <= |log|
      invariant start <= pos
      invariant forall p :: start <= p < pos ==> !OccursAt(log, part, p)
    {
      if OccursAt(log, part, pos) {
        return;
      }
      pos := pos + 1;
    }
    pos := -1;
  }

  /** All occurrences, overlapping ones included, in ascending order; the scan resumes one behind the last hit. */
  method FindMetaPairs(log: string, meta: string) returns (current: nat, found: seq<nat>)
    ensures forall j, k :: 0 <= j < k < |found| ==> found[j] < found[k]
    ensures forall p: nat :: p in found <==> OccursAt(log, meta, p)
    ensures current == if found == [] then 0 else found[|found| - 1] + 1
  {
    current, found := 0, [];
    var future := 0;
    while future != -1
      invariant -1 <= future <= |log|
      invariant forall j, k :: 0 <= j < k < |found| ==> found[j] < found[k]
      invariant forall p: nat :: p in found ==> p < current
      invariant current == if found == [] then 0 else found[|found| - 1] + 1
      invariant forall p: nat :: p in found <==> p < current && OccursAt(log, meta, p)
      invariant future == -1 ==> forall p :: current <= p ==> !OccursAt(log, meta, p)
      decreases future != -1, |log| + 1 - current
    {
      future := Find(log, meta, current);
      if future != -1 {
        current := future + 1;
        found := found + [future];
      }
    }
  }
}
