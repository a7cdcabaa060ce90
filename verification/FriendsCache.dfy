/** The friends cache as an object, and the handler of relationship messages that drives it. */
module FriendsCache {
  import opened Maybe
  import opened UserRecords
  import opened Friendships

  /** The callbacks whose handler is installed. */
  function Heard(notices: seq<Callback>, installed: set<Kind>): seq<Callback> {
    if notices == [] then []
    else Heard(notices[..|notices| - 1], installed)
         + (if notices[|notices| - 1].kind in installed then [notices[|notices| - 1]] else [])
  }

  lemma {:induction false} HeardAppend(notices: seq<Callback>, c: Callback, installed: set<Kind>)
    ensures Heard(notices + [c], installed) == Heard(notices, installed) + (if c.kind in installed then [c] else [])
  {
    assert (notices + [c])[..|notices|] == notices;
  }

  /** With all three handlers installed, every callback is heard. */
  lemma {:induction false} AllHeard(notices: seq<Callback>)
    ensures Heard(notices, {A, U, R}) == notices
    decreases |notices|
  {
    if notices != [] {
      var last := notices[|notices| - 1];
      AllHeard(notices[..|notices| - 1]);
      assert last.kind == A || last.kind == U || last.kind == R;
      assert notices == notices[..|notices| - 1] + [last];
    }
  }

  class FriendsCache {
    const installed: set<Kind>
    var pending: map<int, AvailableInfo>
    var info: map<int, UserInfo>
    var ready: bool
    var calls: seq<Callback>
    ghost var notices: seq<Callback>
    ghost var logs: map<int, seq<UserInfo>>
    ghost var used: bool

    ghost function View(): Book
      reads this
    {
      Book(info, pending, logs, notices)
    }

    /**
     Besides the invariants of the book: the calls made are the notices with a
     handler; and once reset, add or remove was called, ready says that nothing
     is pending (before that nothing is cached).
    */
    ghost predicate Valid()
      reads this
    {
      && Consistent(View())
      && calls == Heard(notices, installed)
      && (if used then ready <==> pending == map[] else !ready && info == map[])
    }

    constructor (installed: set<Kind>)
      ensures Valid() && !used && this.installed == installed && View() == EMPTY
    {
      this.installed := installed;
      pending, info, ready, calls := map[], map[], false, [];
      notices, logs, used := [], map[], false;
    }

    method Notify(c: Callback)
      requires calls == Heard(notices, installed)
      modifies this`calls, this`notices
      ensures notices == old(notices) + [c] && calls == Heard(notices, installed)
    {
      HeardAppend(notices, c, installed);
      if c.kind in installed {
        calls := calls + [c];
      }
      notices := notices + [c];
    }

    method UpdateReadyState()
      modifies this`ready
      ensures ready <==> pending == map[]
    {
      ready := pending == map[];
    }

    // ---------- Adding and removing ----------

    method AddUser(user: int)
      modifies this`pending, this`info, this`logs
      ensures View() == AddTo(old(View()), user)
    {
      if user in info {
        return;
      }
      pending := pending[user := AvailableInfo(false, false)];
      info := info[user := BLANK];
      logs := logs[user := []];
    }

    method RemoveUser(user: int)
      requires calls == Heard(notices, installed)
      modifies this`pending, this`info, this`logs, this`calls, this`notices
      ensures View() == RemoveFrom(old(View()), user) && calls == Heard(notices, installed)
    {
      var wasPending, wasCached := user in pending, user in info;
      pending := pending - {user};
      info := info - {user};
      logs := logs - {user};
      if !wasCached {
        return;
      }
      if !wasPending {
        Notify(Callback(user, R, BLANK));
      }
    }

    method Add(user: int)
      requires Valid()
      modifies this
      ensures Valid() && used && View() == AddTo(old(View()), user)
    {
      AddKeeps(View(), user);
      AddUser(user);
      UpdateReadyState();
      used := true;
    }

    method Remove(user: int)
      requires Valid()
      modifies this
      ensures Valid() && used && View() == RemoveFrom(old(View()), user)
    {
      RemoveKeeps(View(), user);
      RemoveUser(user);
      UpdateReadyState();
      used := true;
    }

    // ---------- Resetting ----------

    method Reset(users: seq<int>)
      requires Valid()
      modifies this
      ensures Valid() && used && ResetTo(old(View()), Members(users), View())
    {
      ghost var b := View();
      var wanted := Members(users);
      var leaving := AnyOrder(info.Keys - wanted);
      var joining := AnyOrder(wanted - info.Keys);
      ResetIsExact(b, wanted, leaving, joining);
      ResetUsers(leaving, joining);
      UpdateReadyState();
      used := true;
    }

    method ResetUsers(leaving: seq<int>, joining: seq<int>)
      requires calls == Heard(notices, installed)
      modifies this`pending, this`info, this`logs, this`calls, this`notices
      ensures View() == ResetInOrder(old(View()), leaving, joining) && calls == Heard(notices, installed)
    {
      ghost var b := View();
      for i := 0 to |leaving|
        invariant calls == Heard(notices, installed) && View() == RemoveEach(b, leaving[..i])
      {
        assert leaving[..i + 1][..i] == leaving[..i];
        RemoveUser(leaving[i]);
      }
      assert leaving[..|leaving|] == leaving;
      ghost var c := View();
      for i := 0 to |joining|
        invariant calls == Heard(notices, installed) && View() == AddEach(c, joining[..i])
      {
        assert joining[..i + 1][..i] == joining[..i];
        AddUser(joining[i]);
      }
      assert joining[..|joining|] == joining;
    }

    // ---------- Updating ----------

    method UpdateUser(user: int, update: UserInfo)
      requires Valid()
      modifies this
      ensures Valid() && used == old(used) && View() == UpdateIn(old(View()), user, update)
    {
      UpdateKeeps(View(), user, update);
      MergeUpdate(user, update);
    }

    method MergeUpdate(user: int, update: UserInfo)
      requires calls == Heard(notices, installed) && logs.Keys == info.Keys
      modifies this`info, this`pending, this`logs, this`ready, this`calls, this`notices
      ensures calls == Heard(notices, installed) && View() == UpdateIn(old(View()), user, update)
      ensures ready == if user in old(pending) && user !in pending then pending == map[] else old(ready)
      ensures pending == map[] ==> old(pending) == map[] || (user in old(pending) && user !in pending)
      ensures info == map[] <==> old(info) == map[]
    {
      if user !in info {
        return;
      }
      var merged, changed := Update(info[user], update);
      info := info[user := merged];
      logs := logs[user := logs[user] + [update]];
      if user !in pending {
        if changed {
          Notify(Callback(user, U, merged));
        }
      } else {
        MarkAvailable(user, update, merged);
      }
    }

    /** Notes which fields of a pending user are known, and announces the user once both are. */
    method MarkAvailable(user: int, update: UserInfo, merged: UserInfo)
      requires calls == Heard(notices, installed) && user in pending
      modifies this`pending, this`ready, this`calls, this`notices
      ensures calls == Heard(notices, installed)
      ensures var flags := AvailableInfo(old(pending)[user].personalInfo || update[NAME].Some?,
                                         old(pending)[user].state || update[STATE].Some?);
              if flags.Ready() then
                && pending == old(pending) - {user} && notices == old(notices) + [Callback(user, A, merged)]
                && (ready <==> pending == map[])
              else pending == old(pending)[user := flags] && notices == old(notices) && ready == old(ready)
    {
      var available := pending[user];
      if update[NAME].Some? {
        available := available.(personalInfo := true);
      }
      if update[STATE].Some? {
        available := available.(state := true);
      }
      if available.Ready() {
        pending := pending - {user};
        Notify(Callback(user, A, merged));
        UpdateReadyState();
      } else {
        pending := pending[user := available];
      }
    }
  }

  lemma {:induction false} SomeMember(users: set<int>)
    requires users != {}
    ensures exists u :: u in users
  {
    if forall u :: u !in users {
      assert false;
    }
  }

  /** The members of a set in the order in which it is iterated. */
  method AnyOrder(users: set<int>) returns (order: seq<int>)
    ensures Members(order) == users && Distinct(order)
  {
    order := [];
    var rest := users;
    while rest != {}
      invariant Listed(users, rest, order)
      decreases |rest|
    {
      SomeMember(rest);
      var u :| u in rest;
      OneMoreListed(users, rest, order, u);
      order := order + [u];
      rest := rest - {u};
    }
  }

  ghost predicate Listed(users: set<int>, rest: set<int>, order: seq<int>) {
    rest <= users && Members(order) == users - rest && Distinct(order)
  }

  lemma {:induction false} OneMoreListed(users: set<int>, rest: set<int>, order: seq<int>, u: int)
    requires Listed(users, rest, order) && u in rest
    ensures Listed(users, rest - {u}, order + [u])
  {
    MembersAppend(order, u);
    assert (order + [u])[..|order|] == order;
  }

  // ---------- Relationship messages ----------

  datatype Relationship = Friend | NoRelation | Elsewhere

  /** A Python dict from users to relations, as its items in order. */
  type Relations = seq<(int, Relationship)>

  ghost predicate DistinctUsers(friends: Relations) {
    forall i, j :: 0 <= i < j < |friends| ==> friends[i].0 != friends[j].0
  }

  function FriendList(friends: Relations): seq<int> {
    if friends == [] then []
    else FriendList(friends[..|friends| - 1]) + (if friends[|friends| - 1].1 == Friend then [friends[|friends| - 1].0] else [])
  }

  function Change(b: Book, change: (int, Relationship)): Book {
    match change.1
    case Friend => AddTo(b, change.0)
    case NoRelation => RemoveFrom(b, change.0)
    case Elsewhere => b
  }

  function ChangeAll(b: Book, friends: Relations): Book {
    if friends == [] then b else Change(ChangeAll(b, friends[..|friends| - 1]), friends[|friends| - 1])
  }

  /** An incremental message adds its friends and removes its strangers, and asks for the friends' records. */
  method HandleChanges(cache: FriendsCache, friends: Relations) returns (asked: seq<int>)
    requires cache.Valid()
    modifies cache
    ensures cache.Valid() && cache.View() == ChangeAll(old(cache.View()), friends) && asked == FriendList(friends)
  {
    asked := [];
    ghost var b := cache.View();
    for n := 0 to |friends|
      invariant cache.Valid() && cache.View() == ChangeAll(b, friends[..n]) && asked == FriendList(friends[..n])
    {
      var (user, relation) := friends[n];
      assert friends[..n + 1][..n] == friends[..n];
      if relation == Friend {
        cache.Add(user);
        asked := asked + [user];
      } else if relation == NoRelation {
        cache.Remove(user);
      }
    }
    assert friends[..|friends|] == friends;
  }

  /** The friends of a full list; the assertion in the loop raises at the first user without relation. */
  method InitialFriends(friends: Relations) returns (initial: seq<int>, raised: bool)
    ensures raised <==> exists i :: 0 <= i < |friends| && friends[i].1 == NoRelation
    ensures !raised ==> initial == FriendList(friends)
  {
    raised, initial := false, [];
    for n := 0 to |friends|
      invariant initial == FriendList(friends[..n]) && forall i :: 0 <= i < n ==> friends[i].1 != NoRelation
    {
      assert friends[..n + 1][..n] == friends[..n];
      if friends[n].1 == Friend {
        initial := initial + [friends[n].0];
      } else if friends[n].1 == NoRelation {
        return [], true;
      }
    }
    assert friends[..|friends|] == friends;
  }

  /** A full list that names a user without relation raises before the cache is touched; any other resets it to the friends. */
  method HandleFullList(cache: FriendsCache, friends: Relations) returns (asked: seq<int>, raised: bool)
    requires cache.Valid()
    modifies cache
    ensures raised <==> exists i :: 0 <= i < |friends| && friends[i].1 == NoRelation
    ensures cache.Valid() && (raised ==> cache.View() == old(cache.View()))
    ensures !raised ==> ResetTo(old(cache.View()), Members(FriendList(friends)), cache.View()) && asked == FriendList(friends)
  {
    asked, raised := InitialFriends(friends);
    if !raised {
      cache.Reset(asked);
    }
  }

  lemma {:induction false} FriendListExact(friends: Relations, u: int)
    ensures u in Members(FriendList(friends)) <==> (u, Friend) in friends
    decreases |friends|
  {
    if friends != [] {
      var before, last := friends[..|friends| - 1], friends[|friends| - 1];
      FriendListExact(before, u);
      MembersAppend(FriendList(before), last.0);
      assert FriendList(before) + [] == FriendList(before);
      assert friends == before + [last];
    }
  }

  /** After an incremental message: the friends are cached, the strangers are not, the others as before. */
  lemma {:induction false} ChangesExact(b: Book, friends: Relations, u: int)
    requires DistinctUsers(friends)
    ensures u in ChangeAll(b, friends).info <==> (u, Friend) in friends || (u in b.info && (u, NoRelation) !in friends)
    decreases |friends|
  {
    if friends != [] {
      var before, last := friends[..|friends| - 1], friends[|friends| - 1];
      ChangesExact(b, before, u);
      assert friends == before + [last];
      assert last.0 == u ==> forall r :: (u, r) !in before;
    }
  }
}
