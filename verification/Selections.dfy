/** What a filtering loop selects from a list: which entries, how often, and in which order. */
module Selections {

  predicate Rising(places: seq<nat>) {
    forall i, j :: 0 <= i < j < |places| ==> places[i] < places[j]
  }

  /** The places are those of the list whose entries have the property, in order. */
  ghost predicate PlacesOf<T(!new)>(s: seq<T>, places: seq<nat>, p: T -> bool) {
    && Rising(places)
    && (forall i :: 0 <= i < |places| ==> places[i] < |s|)
    && (forall i: nat :: i < |s| ==> (i in places <==> p(s[i])))
  }

  ghost predicate ReadAt<T>(s: seq<T>, places: seq<nat>, selected: seq<T>) {
    && |selected| == |places|
    && (forall i :: 0 <= i < |places| ==> places[i] < |s| && selected[i] == s[places[i]])
  }

  /** Exactly the entries with the property, each as often as it is listed, in the list's order. */
  ghost predicate Selects<T(!new)>(s: seq<T>, p: T -> bool, selected: seq<T>) {
    exists places :: PlacesOf(s, places, p) && ReadAt(s, places, selected)
  }

  lemma {:induction false} SelectsNothing<T(!new)>(p: T -> bool)
    ensures Selects([], p, [])
  {
    assert PlacesOf([], [], p) && ReadAt<T>([], [], []);
  }

  lemma {:induction false} PlacesNext<T(!new)>(s: seq<T>, places: seq<nat>, p: T -> bool, x: T)
    requires PlacesOf(s, places, p)
    ensures PlacesOf(s + [x], if p(x) then places + [|s|] else places, p)
  {
    var all := s + [x];
    var more: seq<nat> := if p(x) then places + [|s|] else places;
    assert forall j :: j in places ==> j < |s|;
    forall i: nat | i < |all|
      ensures i in more <==> p(all[i])
    {
      if i < |s| {
        assert i in more <==> i in places;
        assert all[i] == s[i];
      } else {
        assert i !in places && all[i] == x;
      }
    }
  }

  lemma {:induction false} SelectsNext<T(!new)>(s: seq<T>, p: T -> bool, selected: seq<T>, x: T)
    requires Selects(s, p, selected)
    ensures Selects(s + [x], p, if p(x) then selected + [x] else selected)
  {
    var places: seq<nat> :| PlacesOf(s, places, p) && ReadAt(s, places, selected);
    PlacesNext(s, places, p, x);
    ReadNext(s, places, selected, x);
    if p(x) {
      assert PlacesOf(s + [x], places + [|s|], p) && ReadAt(s + [x], places + [|s|], selected + [x]);
    } else {
      assert PlacesOf(s + [x], places, p) && ReadAt(s + [x], places, selected);
    }
  }

  lemma {:induction false} ReadNext<T>(s: seq<T>, places: seq<nat>, selected: seq<T>, x: T)
    requires ReadAt(s, places, selected)
    ensures ReadAt(s + [x], places, selected) && ReadAt(s + [x], places + [|s|], selected + [x])
  {
  }

  /** The step of a loop, or of a recursion, from all entries but the last one to all. */
  lemma {:induction false} SelectsAll<T(!new)>(s: seq<T>, p: T -> bool, earlier: seq<T>, selected: seq<T>)
    requires s != [] && Selects(s[..|s| - 1], p, earlier)
    requires selected == if p(s[|s| - 1]) then earlier + [s[|s| - 1]] else earlier
    ensures Selects(s, p, selected)
  {
    assert s == s[..|s| - 1] + [s[|s| - 1]];
    SelectsNext(s[..|s| - 1], p, earlier, s[|s| - 1]);
  }

  // ---------- Selecting and converting ----------

  /** Each entry of the list is what the relation says of the chosen one. */
  ghost predicate Converts<T, U>(chosen: seq<T>, list: seq<U>, r: (T, U) -> bool) {
    |list| == |chosen| && forall j :: 0 <= j < |list| ==> r(chosen[j], list[j])
  }

  /** The list holds, in order, what the relation says of exactly the entries with the property. */
  ghost predicate SelectsAs<T(!new), U>(s: seq<T>, p: T -> bool, r: (T, U) -> bool, list: seq<U>) {
    exists chosen :: Selects(s, p, chosen) && Converts(chosen, list, r)
  }

  lemma {:induction false} SelectsAsNothing<T(!new), U>(p: T -> bool, r: (T, U) -> bool)
    ensures SelectsAs([], p, r, [])
  {
    SelectsNothing(p);
    assert Converts<T, U>([], [], r);
  }

  lemma {:induction false} SelectsAsTaken<T(!new), U>(s: seq<T>, p: T -> bool, r: (T, U) -> bool, list: seq<U>, x: T, y: U)
    requires SelectsAs(s, p, r, list) && p(x) && r(x, y)
    ensures SelectsAs(s + [x], p, r, list + [y])
  {
    var chosen :| Selects(s, p, chosen) && Converts(chosen, list, r);
    SelectsNext(s, p, chosen, x);
    ConvertsNext(chosen, list, r, x, y);
    assert Selects(s + [x], p, chosen + [x]) && Converts(chosen + [x], list + [y], r);
  }

  lemma {:induction false} ConvertsNext<T, U>(chosen: seq<T>, list: seq<U>, r: (T, U) -> bool, x: T, y: U)
    requires Converts(chosen, list, r) && r(x, y)
    ensures Converts(chosen + [x], list + [y], r)
  {
  }

  lemma {:induction false} SelectsAsSkipped<T(!new), U>(s: seq<T>, p: T -> bool, r: (T, U) -> bool, list: seq<U>, x: T)
    requires SelectsAs(s, p, r, list) && !p(x)
    ensures SelectsAs(s + [x], p, r, list)
  {
    var chosen :| Selects(s, p, chosen) && Converts(chosen, list, r);
    SelectsNext(s, p, chosen, x);
  }

  /** There is only one such selection. */
  lemma {:induction false} SelectionIsUnique<T(!new)>(s: seq<T>, p: T -> bool, a: seq<T>, b: seq<T>)
    requires Selects(s, p, a) && Selects(s, p, b)
    ensures a == b
  {
    var v: seq<nat> :| PlacesOf(s, v, p) && ReadAt(s, v, a);
    var w: seq<nat> :| PlacesOf(s, w, p) && ReadAt(s, w, b);
    forall i: nat
      ensures i in v <==> i in w
    {
      assert i < |s| ==> (i in v <==> p(s[i])) && (i in w <==> p(s[i]));
    }
    SamePlaces(v, w);
  }

  lemma {:induction false} InFront(v: seq<nat>, k: nat)
    requires Rising(v) && v != []
    ensures k in v[..|v| - 1] <==> k in v && k != v[|v| - 1]
    ensures k in v ==> k <= v[|v| - 1]
  {
    assert v == v[..|v| - 1] + [v[|v| - 1]];
  }

  lemma {:induction false} SamePlaces(v: seq<nat>, w: seq<nat>)
    requires Rising(v) && Rising(w) && forall i: nat :: i in v <==> i in w
    ensures v == w
    decreases |v|
  {
    if v == [] {
      assert forall i :: 0 <= i < |w| ==> w[i] in v;
    } else {
      var n, m := |v| - 1, |w| - 1;
      assert v[n] in w && w[m] in v;
      InFront(v, w[m]);
      InFront(w, v[n]);
      forall k: nat
        ensures k in v[..n] <==> k in w[..m]
      {
        InFront(v, k);
        InFront(w, k);
      }
      SamePlaces(v[..n], w[..m]);
      assert v == v[..n] + [v[n]] && w == w[..m] + [w[m]];
    }
  }
}
