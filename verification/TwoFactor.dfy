/** Two-factor methods: how Steam's confirmations become a dictionary, and how the plugin ranks them. */
module TwoFactor {
  import opened Maybe

  datatype Method = Nothing | PhoneCode | EmailCode | PhoneConfirm | Unknown

  /** Steam's guard types; the last three and any other number have no counterpart here. */
  datatype GuardType = GuardUnknown | GuardNone | GuardEmailCode | GuardDeviceCode | GuardDeviceConfirmation
                     | GuardEmailConfirmation | GuardMachineToken | GuardOther(n: int)

  datatype Confirmation = Confirmation(guard: GuardType, message: string)

  function ToMethod(g: GuardType): Method {
    match g
    case GuardNone => Nothing
    case GuardEmailCode => EmailCode
    case GuardDeviceCode => PhoneCode
    case GuardDeviceConfirmation => PhoneConfirm
    case _ => Unknown
  }

  function ToGuardType(m: Method): GuardType {
    match m
    case Nothing => GuardNone
    case EmailCode => GuardEmailCode
    case PhoneCode => GuardDeviceCode
    case PhoneConfirm => GuardDeviceConfirmation
    case Unknown => GuardUnknown
  }

  /** What a code is sent back with: the guard type that Steam named, exactly if the plugin knows it; every method survives. */
  lemma {:induction false} GuardRoundTrip(g: GuardType, m: Method)
    ensures ToMethod(ToGuardType(m)) == m
    ensures ToGuardType(ToMethod(g)) == g <==> ToMethod(g) != Unknown || g == GuardUnknown
  {
  }

  /** A Python dict from methods to messages, as its items in insertion order. */
  type Methods = seq<(Method, string)>

  predicate Has(items: Methods, m: Method) {
    items != [] && (items[0].0 == m || Has(items[1..], m))
  }

  predicate DistinctMethods(items: Methods) {
    items == [] || (!Has(items[1..], items[0].0) && DistinctMethods(items[1..]))
  }

  /** d[m] */
  function Lookup(items: Methods, m: Method): string
    requires Has(items, m)
  {
    if items[0].0 == m then items[0].1 else Lookup(items[1..], m)
  }

  /** d[m] = text: a known key keeps its place. */
  function Assign(items: Methods, m: Method, text: string): Methods {
    if items == [] then [(m, text)]
    else if items[0].0 == m then [(m, text)] + items[1..]
    else [items[0]] + Assign(items[1..], m, text)
  }

  function ToDict(confirmations: seq<Confirmation>): Methods {
    if confirmations == [] then []
    else
      var last := confirmations[|confirmations| - 1];
      Assign(ToDict(confirmations[..|confirmations| - 1]), ToMethod(last.guard), last.message)
  }

  lemma {:induction false} AssignExact(items: Methods, m: Method, text: string, k: Method)
    ensures Has(Assign(items, m, text), k) <==> k == m || Has(items, k)
    ensures k == m || Has(items, k) ==>
              Lookup(Assign(items, m, text), k) == if k == m then text else Lookup(items, k)
    decreases |items|
  {
    if items == [] {
      assert [(m, text)][1..] == [];
    } else if items[0].0 == m {
      assert Assign(items, m, text)[1..] == items[1..];
    } else {
      assert Assign(items, m, text)[1..] == Assign(items[1..], m, text);
      AssignExact(items[1..], m, text, k);
    }
  }

  lemma {:induction false} AssignDistinct(items: Methods, m: Method, text: string)
    requires DistinctMethods(items)
    ensures DistinctMethods(Assign(items, m, text))
    decreases |items|
  {
    if items == [] {
      assert [(m, text)][1..] == [];
    } else if items[0].0 == m {
      assert Assign(items, m, text)[1..] == items[1..];
    } else {
      assert Assign(items, m, text)[1..] == Assign(items[1..], m, text);
      AssignDistinct(items[1..], m, text);
      AssignExact(items[1..], m, text, items[0].0);
    }
  }

  /** The message of the last confirmation that stands for the method, if any does. */
  function LastMessage(confirmations: seq<Confirmation>, m: Method): Option<string> {
    if confirmations == [] then None
    else if ToMethod(confirmations[|confirmations| - 1].guard) == m then Some(confirmations[|confirmations| - 1].message)
    else LastMessage(confirmations[..|confirmations| - 1], m)
  }

  /** The dictionary has exactly the methods that Steam mentioned, each once, with the last message for it. */
  lemma {:induction false} ToDictExact(confirmations: seq<Confirmation>, m: Method)
    ensures DistinctMethods(ToDict(confirmations))
    ensures Has(ToDict(confirmations), m) <==> LastMessage(confirmations, m).Some?
    ensures Has(ToDict(confirmations), m) ==> LastMessage(confirmations, m) == Some(Lookup(ToDict(confirmations), m))
    decreases |confirmations|
  {
    if confirmations != [] {
      var before, last := confirmations[..|confirmations| - 1], confirmations[|confirmations| - 1];
      ToDictExact(before, m);
      AssignDistinct(ToDict(before), ToMethod(last.guard), last.message);
      AssignExact(ToDict(before), ToMethod(last.guard), last.message, m);
    }
  }

  // ---------- Ranking ----------

  function Priority(m: Method): int {
    match m
    case Unknown => 0
    case Nothing => 1
    case EmailCode => 2
    case PhoneCode => 3
    case PhoneConfirm => 4
  }

  predicate StrictlyDescending(items: Methods) {
    forall i, j :: 0 <= i < j < |items| ==> Priority(items[i].0) > Priority(items[j].0)
  }

  /** Puts an item behind those of its priority or a higher one, as a stable descending sort does. */
  function Insert(items: Methods, x: (Method, string)): Methods {
    if items == [] then [x]
    else if Priority(items[0].0) >= Priority(x.0) then [items[0]] + Insert(items[1..], x)
    else [x] + items
  }

  /** list.sort(key=priority, reverse=True). */
  function SortDescending(items: Methods): Methods {
    if items == [] then [] else Insert(SortDescending(items[..|items| - 1]), items[|items| - 1])
  }

  lemma {:induction false} ConsDescending(x: (Method, string), rest: Methods)
    requires StrictlyDescending(rest) && (rest != [] ==> Priority(x.0) > Priority(rest[0].0))
    ensures StrictlyDescending([x] + rest)
  {
    var all := [x] + rest;
    forall i, j | 0 <= i < j < |all|
      ensures Priority(all[i].0) > Priority(all[j].0)
    {
      assert all[j] == rest[j - 1];
      if i == 0 {
        assert j - 1 == 0 || Priority(rest[0].0) > Priority(rest[j - 1].0);
      } else {
        assert all[i] == rest[i - 1];
      }
    }
  }

  lemma {:induction false} TailDescending(items: Methods)
    requires items != [] && StrictlyDescending(items)
    ensures StrictlyDescending(items[1..])
  {
    assert forall i :: 0 <= i < |items| - 1 ==> items[1..][i] == items[i + 1];
  }

  lemma {:induction false} InsertPermutes(items: Methods, x: (Method, string))
    ensures multiset(Insert(items, x)) == multiset(items) + multiset{x}
    decreases |items|
  {
    if items != [] {
      assert items == [items[0]] + items[1..];
      if Priority(items[0].0) >= Priority(x.0) {
        InsertPermutes(items[1..], x);
      }
    }
  }

  lemma {:induction false} InsertSorts(items: Methods, x: (Method, string))
    requires StrictlyDescending(items) && !Has(items, x.0)
    ensures StrictlyDescending(Insert(items, x))
    ensures Insert(items, x)[0] == if items != [] && Priority(items[0].0) >= Priority(x.0) then items[0] else x
    decreases |items|
  {
    if items == [] {
      ConsDescending(x, items);
    } else if Priority(items[0].0) >= Priority(x.0) {
      TailDescending(items);
      InsertSorts(items[1..], x);
      ConsDescending(items[0], Insert(items[1..], x));
    } else {
      ConsDescending(x, items);
    }
  }

  lemma {:induction false} HasAt(items: Methods, m: Method)
    ensures Has(items, m) <==> exists i :: 0 <= i < |items| && items[i].0 == m
    decreases |items|
  {
    if items != [] {
      HasAt(items[1..], m);
      assert forall i :: 0 <= i < |items| - 1 ==> items[1..][i] == items[i + 1];
      if i :| 0 <= i < |items| && items[i].0 == m {
        assert i > 0 ==> items[1..][i - 1] == items[i];
      }
    }
  }

  lemma {:induction false} HasByMultiset(a: Methods, b: Methods, m: Method)
    requires multiset(a) == multiset(b) && Has(a, m)
    ensures Has(b, m)
  {
    HasAt(a, m);
    HasAt(b, m);
    var i :| 0 <= i < |a| && a[i].0 == m;
    assert a[i] in multiset(b);
  }

  lemma {:induction false} InitDistinct(items: Methods)
    requires items != [] && DistinctMethods(items)
    ensures DistinctMethods(items[..|items| - 1]) && !Has(items[..|items| - 1], items[|items| - 1].0)
    decreases |items|
  {
    if |items| > 1 {
      InitDistinct(items[1..]);
      assert items[1..][..|items| - 2] == items[..|items| - 1][1..];
      HasAt(items[1..], items[0].0);
      HasAt(items[..|items| - 1][1..], items[0].0);
      assert forall i :: 0 <= i < |items| - 2 ==> items[1..][i] == items[..|items| - 1][1..][i];
      assert items[1..][|items| - 2] == items[|items| - 1];
    }
  }

  lemma {:induction false} SortPermutes(items: Methods)
    ensures multiset(SortDescending(items)) == multiset(items)
    decreases |items|
  {
    if items != [] {
      SortPermutes(items[..|items| - 1]);
      InsertPermutes(SortDescending(items[..|items| - 1]), items[|items| - 1]);
      assert items == items[..|items| - 1] + [items[|items| - 1]];
    }
  }

  lemma {:induction false} SortDescends(items: Methods)
    requires DistinctMethods(items)
    ensures StrictlyDescending(SortDescending(items))
    decreases |items|
  {
    if items != [] {
      var before, last := items[..|items| - 1], items[|items| - 1];
      InitDistinct(items);
      SortDescends(before);
      SortPermutes(before);
      if Has(SortDescending(before), last.0) {
        HasByMultiset(SortDescending(before), before, last.0);
      }
      InsertSorts(SortDescending(before), last);
    }
  }

  lemma {:induction false} SortSorts(items: Methods)
    requires DistinctMethods(items)
    ensures StrictlyDescending(SortDescending(items)) && multiset(SortDescending(items)) == multiset(items)
  {
    SortPermutes(items);
    SortDescends(items);
  }

  /** The first of a strictly descending list is the only item of its priority or a higher one. */
  lemma {:induction false} HighestFirst(a: Methods, x: (Method, string))
    requires StrictlyDescending(a) && x in a && Priority(x.0) >= Priority(a[0].0)
    ensures x == a[0]
  {
    var i :| 0 <= i < |a| && a[i] == x;
  }

  lemma {:induction false} FirstIsHighest(a: Methods, x: (Method, string))
    requires StrictlyDescending(a) && x in a
    ensures Priority(a[0].0) >= Priority(x.0)
  {
    var i :| 0 <= i < |a| && a[i] == x;
  }

  /** Two strictly descending lists of the same items are the same list. */
  lemma {:induction false} DescendingIsUnique(a: Methods, b: Methods)
    requires StrictlyDescending(a) && StrictlyDescending(b) && multiset(a) == multiset(b)
    ensures a == b
    decreases |a|
  {
    assert |multiset(a)| == |multiset(b)|;
    if a != [] {
      assert a[0] in multiset(b) && b[0] in multiset(a);
      FirstIsHighest(a, b[0]);
      HighestFirst(b, a[0]);
      assert a == [a[0]] + a[1..] && b == [b[0]] + b[1..];
      assert multiset(a[1..]) == multiset(a) - multiset{a[0]};
      assert multiset(b[1..]) == multiset(b) - multiset{b[0]};
      TailDescending(a);
      TailDescending(b);
      DescendingIsUnique(a[1..], b[1..]);
    }
  }

  /** The ranked list is the one strictly descending permutation of the dictionary's items. */
  lemma {:induction false} RankingIsCanonical(items: Methods, ranked: Methods)
    requires DistinctMethods(items)
    ensures StrictlyDescending(ranked) && multiset(ranked) == multiset(items) <==> ranked == SortDescending(items)
  {
    SortSorts(items);
    if StrictlyDescending(ranked) && multiset(ranked) == multiset(items) {
      DescendingIsUnique(ranked, SortDescending(items));
    }
  }

  /** So the ranking does not depend on the order of the dictionary's items. */
  lemma {:induction false} RankingIgnoresOrder(a: Methods, b: Methods)
    requires DistinctMethods(a) && DistinctMethods(b) && multiset(a) == multiset(b)
    ensures SortDescending(a) == SortDescending(b)
  {
    SortSorts(a);
    SortSorts(b);
    DescendingIsUnique(SortDescending(a), SortDescending(b));
  }

  /** An item of a dictionary is a method with the text that lookup finds. */
  lemma {:induction false} ItemIsLookup(items: Methods, m: Method, text: string)
    requires DistinctMethods(items)
    ensures (m, text) in items <==> Has(items, m) && Lookup(items, m) == text
    decreases |items|
  {
    if items != [] {
      assert items == [items[0]] + items[1..];
      ItemIsLookup(items[1..], m, text);
    }
  }

  lemma {:induction false} ItemsOnce(items: Methods, x: (Method, string))
    requires DistinctMethods(items)
    ensures multiset(items)[x] == if x in items then 1 else 0
    decreases |items|
  {
    if items != [] {
      assert items == [items[0]] + items[1..];
      ItemsOnce(items[1..], x);
      ItemIsLookup(items[1..], items[0].0, items[0].1);
    }
  }

  /** The items of the dictionary are the methods with their last messages. */
  lemma {:induction false} ItemIsLastMessage(confirmations: seq<Confirmation>, m: Method, text: string)
    ensures (m, text) in ToDict(confirmations) <==> LastMessage(confirmations, m) == Some(text)
  {
    ToDictExact(confirmations, m);
    ItemIsLookup(ToDict(confirmations), m, text);
  }

  lemma {:induction false} SameLastMessages(a: seq<Confirmation>, b: seq<Confirmation>)
    requires SameMessages(a, b)
    ensures multiset(ToDict(a)) == multiset(ToDict(b))
  {
    ToDictExact(a, Unknown);
    ToDictExact(b, Unknown);
    forall x: (Method, string)
      ensures multiset(ToDict(a))[x] == multiset(ToDict(b))[x]
    {
      ItemsOnce(ToDict(a), x);
      ItemsOnce(ToDict(b), x);
      ItemIsLastMessage(a, x.0, x.1);
      ItemIsLastMessage(b, x.0, x.1);
    }
  }

  lemma {:induction false} SameItems(a: seq<Confirmation>, b: seq<Confirmation>, m: Method)
    requires multiset(ToDict(a)) == multiset(ToDict(b))
    ensures LastMessage(a, m) == LastMessage(b, m)
  {
    forall text
      ensures LastMessage(a, m) == Some(text) <==> LastMessage(b, m) == Some(text)
    {
      ItemIsLastMessage(a, m, text);
      ItemIsLastMessage(b, m, text);
      assert (m, text) in ToDict(a) <==> (m, text) in multiset(ToDict(a));
      assert (m, text) in ToDict(b) <==> (m, text) in multiset(ToDict(b));
    }
    SameContents(LastMessage(a, m), LastMessage(b, m));
  }

  lemma {:induction false} SameContents(x: Option<string>, y: Option<string>)
    requires forall text :: x == Some(text) <==> y == Some(text)
    ensures x == y
  {
    assert x.Some? ==> x == Some(x.value);
    assert y.Some? ==> y == Some(y.value);
  }

  /** Both lists have the same last message for every method, or none. */
  ghost predicate SameMessages(a: seq<Confirmation>, b: seq<Confirmation>) {
    forall m :: LastMessage(a, m) == LastMessage(b, m)
  }

  lemma {:induction false} SameRanking(a: seq<Confirmation>, b: seq<Confirmation>)
    requires SortDescending(ToDict(a)) == SortDescending(ToDict(b))
    ensures SameMessages(a, b)
  {
    SortPermutes(ToDict(a));
    SortPermutes(ToDict(b));
    forall m
      ensures LastMessage(a, m) == LastMessage(b, m)
    {
      SameItems(a, b, m);
    }
  }

  /** Two of Steam's lists are ranked alike exactly if they give every method the same last message, or both none. */
  lemma {:induction false} RankedAlikeExactly(a: seq<Confirmation>, b: seq<Confirmation>)
    ensures SortDescending(ToDict(a)) == SortDescending(ToDict(b)) <==> SameMessages(a, b)
  {
    if SameMessages(a, b) {
      SameLastMessages(a, b);
      ToDictExact(a, Unknown);
      ToDictExact(b, Unknown);
      RankingIgnoresOrder(ToDict(a), ToDict(b));
    } else if SortDescending(ToDict(a)) == SortDescending(ToDict(b)) {
      SameRanking(a, b);
    }
  }

  /** So the order of Steam's list matters if two of its types stand for one method, as all the unknown ones do. */
  lemma {:induction false} OrderMatters(first: string, second: string)
    requires first != second
    ensures var a, b := Confirmation(GuardEmailConfirmation, first), Confirmation(GuardMachineToken, second);
            SortDescending(ToDict([a, b])) != SortDescending(ToDict([b, a]))
  {
    var a, b := Confirmation(GuardEmailConfirmation, first), Confirmation(GuardMachineToken, second);
    assert LastMessage([a, b], Unknown) == Some(second);
    assert LastMessage([b, a], Unknown) == Some(first);
    RankedAlikeExactly([a, b], [b, a]);
  }

  /** The order of choice, by name. */
  const CHOICES: seq<Method> := [PhoneConfirm, PhoneCode, EmailCode, Nothing, Unknown]

  predicate Before(a: Method, b: Method) {
    exists i, j :: 0 <= i < j < |CHOICES| && CHOICES[i] == a && CHOICES[j] == b
  }

  lemma {:induction false} PriorityExactly(a: Method, b: Method)
    ensures Priority(a) > Priority(b) <==> Before(a, b)
  {
    assert CHOICES[0] == PhoneConfirm && CHOICES[1] == PhoneCode && CHOICES[2] == EmailCode && CHOICES[3] == Nothing
           && CHOICES[4] == Unknown;
  }

  /** The ranked methods come in the order of choice. */
  lemma {:induction false} RankedInOrder(items: Methods)
    requires DistinctMethods(items)
    ensures forall i, j :: 0 <= i < j < |SortDescending(items)| ==> Before(SortDescending(items)[i].0, SortDescending(items)[j].0)
  {
    SortSorts(items);
    var ranked := SortDescending(items);
    forall i, j | 0 <= i < j < |ranked|
      ensures Before(ranked[i].0, ranked[j].0)
    {
      PriorityExactly(ranked[i].0, ranked[j].0);
    }
  }

  /** Steam offers this guard type. */
  predicate Offers(confirmations: seq<Confirmation>, g: GuardType) {
    exists i :: 0 <= i < |confirmations| && confirmations[i].guard == g
  }

  lemma {:induction false} OfferedHas(confirmations: seq<Confirmation>, g: GuardType)
    requires Offers(confirmations, g)
    ensures Has(ToDict(confirmations), ToMethod(g))
    decreases |confirmations|
  {
    var init, last := confirmations[..|confirmations| - 1], confirmations[|confirmations| - 1];
    AssignExact(ToDict(init), ToMethod(last.guard), last.message, ToMethod(g));
    if last.guard != g {
      var i :| 0 <= i < |confirmations| && confirmations[i].guard == g;
      assert init[i].guard == g;
      OfferedHas(init, g);
    }
  }

  lemma {:induction false} HasOffered(confirmations: seq<Confirmation>, m: Method)
    requires Has(ToDict(confirmations), m)
    ensures exists i :: 0 <= i < |confirmations| && ToMethod(confirmations[i].guard) == m
    decreases |confirmations|
  {
    var init, last := confirmations[..|confirmations| - 1], confirmations[|confirmations| - 1];
    AssignExact(ToDict(init), ToMethod(last.guard), last.message, m);
    if ToMethod(last.guard) != m {
      HasOffered(init, m);
      var i :| 0 <= i < |init| && ToMethod(init[i].guard) == m;
      assert confirmations[i] == init[i];
    }
  }

  /** The best of what Steam offers: a confirmation on the phone, a code on the phone, a code by mail, nothing. */
  ghost function BestOffer(confirmations: seq<Confirmation>): Method {
    if Offers(confirmations, GuardDeviceConfirmation) then PhoneConfirm
    else if Offers(confirmations, GuardDeviceCode) then PhoneCode
    else if Offers(confirmations, GuardEmailCode) then EmailCode
    else if Offers(confirmations, GuardNone) then Nothing
    else Unknown
  }

  lemma {:induction false} RankedHas(items: Methods, m: Method)
    requires DistinctMethods(items) && Has(items, m)
    ensures SortDescending(items) != [] && Has(items, SortDescending(items)[0].0)
    ensures m == SortDescending(items)[0].0 || Before(SortDescending(items)[0].0, m)
  {
    SortSorts(items);
    var ranked := SortDescending(items);
    HasByMultiset(items, ranked, m);
    HasAt(ranked, m);
    var j :| 0 <= j < |ranked| && ranked[j].0 == m;
    HasAt(ranked, ranked[0].0);
    HasByMultiset(ranked, items, ranked[0].0);
    PriorityExactly(ranked[0].0, ranked[j].0);
  }

  /** The first of the ranked methods is the best that Steam offers. */
  lemma {:induction false} FirstChoiceExactly(confirmations: seq<Confirmation>)
    ensures SortDescending(ToDict(confirmations)) != [] <==> confirmations != []
    ensures confirmations != [] ==> SortDescending(ToDict(confirmations))[0].0 == BestOffer(confirmations)
  {
    var items := ToDict(confirmations);
    ToDictExact(confirmations, Unknown);
    SortSorts(items);
    if confirmations == [] {
      assert |multiset(SortDescending(items))| == 0;
    } else {
      OfferedHas(confirmations, confirmations[0].guard);
      RankedHas(items, ToMethod(confirmations[0].guard));
      FirstIsBest(confirmations);
    }
  }

  lemma {:induction false} FirstIsBest(confirmations: seq<Confirmation>)
    requires DistinctMethods(ToDict(confirmations)) && SortDescending(ToDict(confirmations)) != []
    requires Has(ToDict(confirmations), SortDescending(ToDict(confirmations))[0].0)
    ensures SortDescending(ToDict(confirmations))[0].0 == BestOffer(confirmations)
  {
    var items, first := ToDict(confirmations), SortDescending(ToDict(confirmations))[0].0;
    HasOffered(confirmations, first);
    forall g: GuardType | Offers(confirmations, g)
      ensures ToMethod(g) == first || Before(first, ToMethod(g))
    {
      OfferedHas(confirmations, g);
      RankedHas(items, ToMethod(g));
    }
    var i :| 0 <= i < |confirmations| && ToMethod(confirmations[i].guard) == first;
    TopIsBest(confirmations, first, confirmations[i].guard);
  }

  lemma {:induction false} TopIsBest(confirmations: seq<Confirmation>, first: Method, guard: GuardType)
    requires Offers(confirmations, guard) && ToMethod(guard) == first
    requires forall g: GuardType :: Offers(confirmations, g) ==> ToMethod(g) == first || Before(first, ToMethod(g))
    ensures first == BestOffer(confirmations)
  {
    BetterIsGone(confirmations, first, GuardDeviceConfirmation);
    BetterIsGone(confirmations, first, GuardDeviceCode);
    BetterIsGone(confirmations, first, GuardEmailCode);
    BetterIsGone(confirmations, first, GuardNone);
  }

  lemma {:induction false} BetterIsGone(confirmations: seq<Confirmation>, first: Method, g: GuardType)
    requires Offers(confirmations, g) ==> ToMethod(g) == first || Before(first, ToMethod(g))
    ensures Offers(confirmations, g) ==> Priority(first) >= Priority(ToMethod(g))
  {
    PriorityExactly(first, ToMethod(g));
  }

  /** Whether any key is known: SteamPollingData.has_valid_confirmation_method. */
  predicate HasValidMethod(items: Methods) {
    exists i :: 0 <= i < |items| && items[i].0 != Unknown
  }

  /** The first choice is a known method exactly when there is one. */
  lemma {:induction false} FirstChoiceIsKnown(items: Methods)
    requires DistinctMethods(items)
    ensures HasValidMethod(items) <==> SortDescending(items) != [] && SortDescending(items)[0].0 != Unknown
  {
    SortSorts(items);
    var ranked := SortDescending(items);
    if i :| 0 <= i < |items| && items[i].0 != Unknown {
      assert items[i] in multiset(ranked);
      var j :| 0 <= j < |ranked| && ranked[j] == items[i];
      assert Priority(ranked[0].0) >= Priority(ranked[j].0);
    }
    if ranked != [] && ranked[0].0 != Unknown {
      assert ranked[0] in multiset(items);
    }
  }
}
