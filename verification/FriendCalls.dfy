/** What Galaxy hears about a friend, told from the events alone: which callbacks, when, and with which record. */
module FriendCalls {
  import opened Maybe
  import opened UserRecords
  import opened Friendships

  /** The callbacks about one user, with their records. */
  function Calls(notices: seq<Callback>, u: int): seq<Callback> {
    if notices == [] then []
    else
      var earlier, last := Calls(notices[..|notices| - 1], u), notices[|notices| - 1];
      if last.user == u then earlier + [last] else earlier
  }

  lemma {:induction false} CallsNext(notices: seq<Callback>, c: Callback, u: int)
    ensures Calls(notices + [c], u) == if c.user == u then Calls(notices, u) + [c] else Calls(notices, u)
  {
    assert (notices + [c])[..|notices|] == notices;
  }

  /** The last value set of each field since the user was last added. */
  function Record(events: seq<Event>, u: int): UserInfo {
    Merged(SinceAdded(events, u))
  }

  predicate Known(events: seq<Event>, u: int) {
    Cached(events, u) && Record(events, u)[NAME].Some? && Record(events, u)[STATE].Some?
  }

  /**
   The callbacks that the events call for: "added" when the name and the state
   are first both known, "updated" when the record of a known user changes, and
   "removed" when a known user goes; each with the record as it is then.
  */
  function Due(events: seq<Event>, u: int): seq<Callback> {
    if events == [] then []
    else
      var before, e := events[..|events| - 1], events[|events| - 1];
      if e == Removing(u) && Known(before, u) then Due(before, u) + [Callback(u, R, BLANK)]
      else if e.Updating? && Known(events, u) && !Known(before, u) then Due(before, u) + [Callback(u, A, Record(events, u))]
      else if e.Updating? && Known(before, u) && Record(events, u) != Record(before, u) then
        Due(before, u) + [Callback(u, U, Record(events, u))]
      else Due(before, u)
  }

  /** An update leaves all other users alone. */
  lemma {:induction false} OtherUpdate(events: seq<Event>, u: int, v: int, update: UserInfo)
    requires u != v
    ensures Record(events + [Updating(v, update)], u) == Record(events, u)
    ensures Cached(events + [Updating(v, update)], u) == Cached(events, u)
  {
    assert (events + [Updating(v, update)])[..|events|] == events;
  }

  lemma {:induction false} OwnUpdate(events: seq<Event>, u: int, update: UserInfo)
    ensures Cached(events + [Updating(u, update)], u) == Cached(events, u)
    ensures SinceAdded(events + [Updating(u, update)], u) ==
            if Cached(events, u) then SinceAdded(events, u) + [update] else SinceAdded(events, u)
  {
    assert (events + [Updating(u, update)])[..|events|] == events;
  }

  /** What one update of a cached user says, from the records before and after it. */
  lemma {:induction false} UpdateSays(b: Book, u: int, update: UserInfo)
    requires Consistent(b) && u in b.info
    ensures UpdateIn(b, u, update).notices == b.notices + Said(b.info[u], Overlay(b.info[u], update), u)
  {
  }

  lemma {:induction false} StaysComplete(before: UserInfo, update: UserInfo)
    ensures Complete(before) ==> Complete(Overlay(before, update))
  {
  }

  /** The callback about an updated user, if any. */
  function Said(before: UserInfo, merged: UserInfo, u: int): seq<Callback> {
    if !Complete(before) && Complete(merged) then [Callback(u, A, merged)]
    else if Complete(before) && merged != before then [Callback(u, U, merged)] else []
  }

  lemma {:induction false} CallsAfter(notices: seq<Callback>, said: seq<Callback>, v: int, u: int)
    requires said == [] || (|said| == 1 && said[0].user == v)
    ensures Calls(notices + said, u) == if u == v then Calls(notices, u) + said else Calls(notices, u)
  {
    if said == [] {
      assert notices + said == notices;
    } else {
      assert said == [said[0]];
      CallsNext(notices, said[0], u);
    }
  }

  /** The record of a cached user before and after one more update. */
  lemma {:induction false} RecordAfter(events: seq<Event>, u: int, update: UserInfo)
    requires Cached(events, u)
    ensures Record(events + [Updating(u, update)], u) == Overlay(Record(events, u), update)
    ensures Cached(events + [Updating(u, update)], u)
  {
    OwnUpdate(events, u, update);
    MergedAfter(SinceAdded(events, u), update);
  }

  lemma {:induction false} DueAfter(events: seq<Event>, u: int, update: UserInfo)
    ensures Due(events + [Updating(u, update)], u) ==
            Due(events, u) + if Cached(events, u) then Said(Record(events, u), Overlay(Record(events, u), update), u) else []
  {
    assert (events + [Updating(u, update)])[..|events|] == events;
    OwnUpdate(events, u, update);
    if Cached(events, u) {
      RecordAfter(events, u, update);
      StaysComplete(Record(events, u), update);
    }
  }

  lemma {:induction false} DueUnmoved(events: seq<Event>, u: int, v: int, update: UserInfo)
    requires u != v
    ensures Due(events + [Updating(v, update)], u) == Due(events, u)
  {
    assert (events + [Updating(v, update)])[..|events|] == events;
    OtherUpdate(events, u, v, update);
  }

  lemma {:induction false} UpdateDue(events: seq<Event>, v: int, update: UserInfo, u: int)
    requires Calls(HappenAll(events).notices, u) == Due(events, u)
    ensures Calls(UpdateIn(HappenAll(events), v, update).notices, u) == Due(events + [Updating(v, update)], u)
  {
    var b := HappenAll(events);
    EveryRun(events, v);
    if v in b.info {
      UpdateSays(b, v, update);
      CallsAfter(b.notices, Said(b.info[v], Overlay(b.info[v], update), v), v, u);
    }
    if u == v {
      DueAfter(events, u, update);
    } else {
      DueUnmoved(events, u, v, update);
    }
  }

  lemma {:induction false} RemovalDue(events: seq<Event>, v: int, u: int)
    requires Calls(HappenAll(events).notices, u) == Due(events, u)
    ensures Calls(RemoveFrom(HappenAll(events), v).notices, u) == Due(events + [Removing(v)], u)
  {
    var b := HappenAll(events);
    assert (events + [Removing(v)])[..|events|] == events;
    EveryRun(events, v);
    CallsNext(b.notices, Callback(v, R, BLANK), u);
    assert b.notices + [] == b.notices;
  }

  lemma {:induction false} AdditionDue(events: seq<Event>, v: int, u: int)
    ensures Due(events + [Adding(v)], u) == Due(events, u)
  {
    assert (events + [Adding(v)])[..|events|] == events;
  }

  /** In every run exactly the callbacks that are due are given about each user, in order, with their records. */
  lemma {:induction false} CallsExact(events: seq<Event>, u: int)
    ensures Calls(HappenAll(events).notices, u) == Due(events, u)
    decreases |events|
  {
    if events != [] {
      var before, e := events[..|events| - 1], events[|events| - 1];
      assert events == before + [e];
      CallsExact(before, u);
      match e
      case Adding(v) => AdditionDue(before, v, u);
      case Removing(v) => RemovalDue(before, v, u);
      case Updating(v, update) => UpdateDue(before, v, update, u);
    }
  }
}
