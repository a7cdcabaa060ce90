/**
 The state of the friends cache: merged records, the index of incomplete ones,
 and the callbacks given about each user; and what every operation keeps of it.
*/
module Friendships {
  import opened Maybe
  import opened UserRecords

  /** The two maps of the cache, the updates since each user was last added, and all callbacks so far. */
  datatype Book = Book(info: map<int, UserInfo>, pending: map<int, AvailableInfo>,
                       logs: map<int, seq<UserInfo>>, notices: seq<Callback>)

  const EMPTY: Book := Book(map[], map[], map[], [])

  predicate IsReady(b: Book, u: int) {
    u in b.info && u !in b.pending
  }

  // ---------- The operations ----------

  function AddTo(b: Book, u: int): Book {
    if u in b.info then b
    else b.(info := b.info[u := BLANK], pending := b.pending[u := AvailableInfo(false, false)], logs := b.logs[u := []])
  }

  /** Only a user whose record was complete is announced as removed. */
  function RemoveFrom(b: Book, u: int): Book {
    Book(b.info - {u}, b.pending - {u}, b.logs - {u},
         b.notices + (if IsReady(b, u) then [Callback(u, R, BLANK)] else []))
  }

  /**
   An update of a stranger is ignored. A ready friend's record that changes is
   announced as updated, and a friend whose record becomes complete as added.
  */
  function UpdateIn(b: Book, u: int, update: UserInfo): Book
    requires b.logs.Keys == b.info.Keys
  {
    if u !in b.info then b
    else
      var merged := Overlay(b.info[u], update);
      var c := b.(info := b.info[u := merged], logs := b.logs[u := b.logs[u] + [update]]);
      if u !in b.pending then
        if merged != b.info[u] then c.(notices := b.notices + [Callback(u, U, merged)]) else c
      else
        var flags := AvailableInfo(b.pending[u].personalInfo || update[NAME].Some?, b.pending[u].state || update[STATE].Some?);
        if flags.Ready() then c.(pending := b.pending - {u}, notices := b.notices + [Callback(u, A, merged)])
        else c.(pending := b.pending[u := flags])
  }

  // ---------- The invariants ----------

  /** The pending map is exactly the index of the users without name or state, with their flags. */
  ghost predicate Indexed(b: Book) {
    && (forall u :: u in b.pending <==> u in b.info && !Complete(b.info[u]))
    && (forall u :: u in b.pending ==> b.pending[u] == Available(b.info[u]))
  }

  /** Each record holds, field by field, the last value since the user was last added. */
  ghost predicate Logged(b: Book) {
    && b.logs.Keys == b.info.Keys
    && (forall u :: u in b.info ==> b.info[u] == Merged(b.logs[u]))
  }

  /** After a user's callbacks the automaton of (added updated* removed)* is inside exactly if the user is ready. */
  ghost predicate Spoken(b: Book) {
    forall u :: PhaseAfter(Out, About(b.notices, u)) == if IsReady(b, u) then In else Out
  }

  ghost predicate Consistent(b: Book) {
    Indexed(b) && Logged(b) && Spoken(b)
  }

  /** Whatever happened, the callbacks about a user form a prefix of (added updated* removed)*. */
  lemma {:induction false} TraceInLanguage(b: Book, user: int)
    requires Spoken(b)
    ensures InLanguage(About(b.notices, user))
    ensures !IsReady(b, user) ==> About(b.notices, user) == [] || About(b.notices, user)[|About(b.notices, user)| - 1] == R
  {
    var w := About(b.notices, user);
    AutomatonDecides(w);
    if w != [] {
      assert PhaseAfter(Out, w) == Next(PhaseAfter(Out, w[..|w| - 1]), w[|w| - 1]);
    }
  }

  lemma {:induction false} SpokenAfter(b: Book, c: Callback, d: Book)
    requires Spoken(b) && d.notices == b.notices + [c]
    requires forall u :: u != c.user ==> (IsReady(b, u) <==> IsReady(d, u))
    requires Next(if IsReady(b, c.user) then In else Out, c.kind) == if IsReady(d, c.user) then In else Out
    ensures Spoken(d)
  {
    forall u
      ensures PhaseAfter(Out, About(d.notices, u)) == if IsReady(d, u) then In else Out
    {
      AboutAppend(b.notices, c, u);
      if u == c.user {
        PhaseAppend(Out, About(b.notices, u), [c.kind]);
        OneCallback(if IsReady(b, u) then In else Out, c.kind);
      } else {
        assert About(d.notices, u) == About(b.notices, u);
      }
    }
  }

  lemma {:induction false} OneCallback(p: Phase, k: Kind)
    ensures PhaseAfter(p, [k]) == Next(p, k)
  {
    assert [k][..0] == [];
  }

  lemma {:induction false} AddKeeps(b: Book, u: int)
    requires Consistent(b)
    ensures Consistent(AddTo(b, u))
  {
    MergedAfter([], BLANK);
    var d := AddTo(b, u);
    assert Spoken(d) by {
      assert forall v :: IsReady(d, v) <==> IsReady(b, v);
    }
  }

  lemma {:induction false} RemoveKeeps(b: Book, u: int)
    requires Consistent(b)
    ensures Consistent(RemoveFrom(b, u))
  {
    var d := RemoveFrom(b, u);
    if IsReady(b, u) {
      SpokenAfter(b, Callback(u, R, BLANK), d);
    } else {
      assert d.notices == b.notices;
      assert forall v :: IsReady(d, v) <==> IsReady(b, v);
    }
  }

  lemma {:induction false} UpdateKeepsIndex(b: Book, u: int, update: UserInfo)
    requires Indexed(b) && b.logs.Keys == b.info.Keys
    ensures Indexed(UpdateIn(b, u, update))
  {
    if u in b.info {
      var d := UpdateIn(b, u, update);
      assert forall v :: v != u ==> (v in d.pending <==> v in b.pending) && (v in d.info <==> v in b.info);
    }
  }

  lemma {:induction false} UpdateKeepsLogs(b: Book, u: int, update: UserInfo)
    requires Logged(b)
    ensures Logged(UpdateIn(b, u, update))
  {
    if u in b.info {
      MergedAfter(b.logs[u], update);
    }
  }

  lemma {:induction false} UpdateKeepsSpoken(b: Book, u: int, update: UserInfo)
    requires Spoken(b) && b.logs.Keys == b.info.Keys
    ensures Spoken(UpdateIn(b, u, update))
  {
    var d := UpdateIn(b, u, update);
    assert forall v :: v != u ==> (IsReady(b, v) <==> IsReady(d, v));
    if |d.notices| > |b.notices| {
      SpokenAfter(b, d.notices[|b.notices|], d);
    } else {
      assert forall v :: IsReady(d, v) <==> IsReady(b, v);
    }
  }

  lemma {:induction false} UpdateKeeps(b: Book, u: int, update: UserInfo)
    requires Consistent(b)
    ensures Consistent(UpdateIn(b, u, update))
  {
    UpdateKeepsIndex(b, u, update);
    UpdateKeepsLogs(b, u, update);
    UpdateKeepsSpoken(b, u, update);
  }

  // ---------- Whole runs ----------

  /** What the cache's operations are made of; a reset is some removals followed by some additions. */
  datatype Event = Adding(user: int) | Removing(user: int) | Updating(user: int, update: UserInfo)

  ghost function Happen(b: Book, e: Event): Book
    requires Consistent(b)
  {
    match e
    case Adding(u) => AddTo(b, u)
    case Removing(u) => RemoveFrom(b, u)
    case Updating(u, update) => UpdateIn(b, u, update)
  }

  lemma {:induction false} HappenKeeps(b: Book, e: Event)
    requires Consistent(b)
    ensures Consistent(Happen(b, e))
  {
    match e
    case Adding(u) => AddKeeps(b, u);
    case Removing(u) => RemoveKeeps(b, u);
    case Updating(u, update) => UpdateKeeps(b, u, update);
  }

  ghost function HappenAll(events: seq<Event>): (b: Book)
    ensures Consistent(b)
  {
    if events == [] then EMPTY
    else
      var before := HappenAll(events[..|events| - 1]);
      HappenKeeps(before, events[|events| - 1]);
      Happen(before, events[|events| - 1])
  }

  /** The updates of a user since the last time the user was added. */
  function SinceAdded(events: seq<Event>, u: int): (log: seq<UserInfo>) {
    if events == [] then []
    else
      var before := events[..|events| - 1];
      match events[|events| - 1]
      case Adding(v) => if v == u && !Cached(before, u) then [] else SinceAdded(before, u)
      case Removing(v) => if v == u then [] else SinceAdded(before, u)
      case Updating(v, update) => if v == u && Cached(before, u) then SinceAdded(before, u) + [update] else SinceAdded(before, u)
  }

  /** Whether the last addition or removal of a user was an addition. */
  predicate Cached(events: seq<Event>, u: int) {
    events != [] &&
    match events[|events| - 1]
    case Adding(v) => v == u || Cached(events[..|events| - 1], u)
    case Removing(v) => v != u && Cached(events[..|events| - 1], u)
    case Updating(_, _) => Cached(events[..|events| - 1], u)
  }

  lemma {:induction false} LogIsHistory(events: seq<Event>, u: int)
    ensures u in HappenAll(events).info <==> Cached(events, u)
    ensures u in HappenAll(events).info ==> HappenAll(events).logs[u] == SinceAdded(events, u)
    decreases |events|
  {
    if events != [] {
      var before := HappenAll(events[..|events| - 1]);
      LogIsHistory(events[..|events| - 1], u);
      LogAfter(before, events[|events| - 1], u);
    }
  }

  /** What one event does to a user's membership and log. */
  lemma {:induction false} LogAfter(b: Book, e: Event, u: int)
    requires Consistent(b) && b.logs.Keys == b.info.Keys
    ensures Happen(b, e).logs.Keys == Happen(b, e).info.Keys
    ensures u in Happen(b, e).info <==> (u in b.info && e != Removing(u)) || e == Adding(u)
    ensures u in Happen(b, e).info ==>
              Happen(b, e).logs[u] ==
              (if u !in b.info then [] else if e.Updating? && e.user == u then b.logs[u] + [e.update] else b.logs[u])
  {
    HappenKeeps(b, e);
  }

  /**
   In every run: who is cached and what each record holds follow from the events
   alone; the pending users are the incomplete ones; and the callbacks about
   anyone are a prefix of (added updated* removed)*.
  */
  lemma {:induction false} EveryRun(events: seq<Event>, u: int)
    ensures var b := HappenAll(events);
            && (u in b.info <==> Cached(events, u))
            && (u in b.info ==> b.info[u] == Merged(SinceAdded(events, u)))
            && (u in b.pending <==> Cached(events, u) && !Complete(Merged(SinceAdded(events, u))))
            && InLanguage(About(b.notices, u))
  {
    LogIsHistory(events, u);
    TraceInLanguage(HappenAll(events), u);
  }

  // ---------- Resetting ----------

  function Members(users: seq<int>): set<int> {
    if users == [] then {} else Members(users[..|users| - 1]) + {users[|users| - 1]}
  }

  lemma {:induction false} MembersAppend(users: seq<int>, u: int)
    ensures Members(users + [u]) == Members(users) + {u}
  {
    assert (users + [u])[..|users|] == users;
  }

  /** Each member listed once. */
  predicate Distinct(users: seq<int>) {
    users == [] || (users[|users| - 1] !in Members(users[..|users| - 1]) && Distinct(users[..|users| - 1]))
  }

  function RemoveEach(b: Book, users: seq<int>): Book {
    if users == [] then b else RemoveFrom(RemoveEach(b, users[..|users| - 1]), users[|users| - 1])
  }

  function AddEach(b: Book, users: seq<int>): Book {
    if users == [] then b else AddTo(AddEach(b, users[..|users| - 1]), users[|users| - 1])
  }

  /** _reset: the cached users not wanted leave, then the wanted ones not cached join, each group in any order. */
  function ResetInOrder(b: Book, leaving: seq<int>, joining: seq<int>): Book {
    AddEach(RemoveEach(b, leaving), joining)
  }

  lemma {:induction false} RemoveEachKeeps(b: Book, users: seq<int>)
    requires Consistent(b)
    ensures Consistent(RemoveEach(b, users))
    decreases |users|
  {
    if users != [] {
      RemoveEachKeeps(b, users[..|users| - 1]);
      RemoveKeeps(RemoveEach(b, users[..|users| - 1]), users[|users| - 1]);
    }
  }

  lemma {:induction false} AddEachKeeps(b: Book, users: seq<int>)
    requires Consistent(b)
    ensures Consistent(AddEach(b, users))
    decreases |users|
  {
    if users != [] {
      AddEachKeeps(b, users[..|users| - 1]);
      AddKeeps(AddEach(b, users[..|users| - 1]), users[|users| - 1]);
    }
  }

  /** What removing several users does to one of them, or to another. */
  lemma {:induction false} RemoveEachOne(b: Book, users: seq<int>, u: int)
    requires Distinct(users)
    ensures var d := RemoveEach(b, users);
            && (u in d.info <==> u in b.info && u !in Members(users))
            && (u in d.pending <==> u in b.pending && u !in Members(users))
            && (u in d.info ==> d.info[u] == b.info[u])
            && About(d.notices, u) == About(b.notices, u) + (if u in Members(users) && IsReady(b, u) then [R] else [])
    decreases |users|
  {
    if users != [] {
      var before := users[..|users| - 1];
      RemoveEachOne(b, before, u);
      AboutAppend(RemoveEach(b, before).notices, Callback(users[|users| - 1], R, BLANK), u);
      assert RemoveEach(b, before).notices + [] == RemoveEach(b, before).notices;
    }
  }

  lemma {:induction false} AddEachOne(b: Book, users: seq<int>, u: int)
    ensures var d := AddEach(b, users);
            && (u in d.info <==> u in b.info || u in Members(users))
            && (u in d.info ==> d.info[u] == if u in b.info then b.info[u] else BLANK)
            && d.notices == b.notices
    decreases |users|
  {
    if users != [] {
      AddEachOne(b, users[..|users| - 1], u);
    }
  }

  /**
   What resetting means for each user, whatever the orders: exactly the wanted
   are cached, those cached before with the record they had, and exactly the
   ready users that left are announced as removed.
  */
  ghost predicate ResetTo(b: Book, wanted: set<int>, d: Book) {
    forall u ::
      && (u in d.info <==> u in wanted)
      && (u in d.info ==> d.info[u] == if u in b.info then b.info[u] else BLANK)
      && About(d.notices, u) == About(b.notices, u) + (if u !in wanted && IsReady(b, u) then [R] else [])
  }

  lemma {:induction false} ResetIsExact(b: Book, wanted: set<int>, leaving: seq<int>, joining: seq<int>)
    requires Consistent(b) && Distinct(leaving)
    requires Members(leaving) == b.info.Keys - wanted && Members(joining) == wanted - b.info.Keys
    ensures Consistent(ResetInOrder(b, leaving, joining))
    ensures ResetTo(b, wanted, ResetInOrder(b, leaving, joining))
  {
    RemoveEachKeeps(b, leaving);
    AddEachKeeps(RemoveEach(b, leaving), joining);
    forall u
      ensures var d := ResetInOrder(b, leaving, joining);
              && (u in d.info <==> u in wanted)
              && (u in d.info ==> d.info[u] == if u in b.info then b.info[u] else BLANK)
              && About(d.notices, u) == About(b.notices, u) + (if u !in wanted && IsReady(b, u) then [R] else [])
    {
      RemoveEachOne(b, leaving, u);
      AddEachOne(RemoveEach(b, leaving), joining, u);
    }
  }
}
