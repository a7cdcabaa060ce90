/** The notifications about installed and running games: a list of changes between two scans. */
module LocalGames {
  datatype State = State(installed: bool, running: bool)

  /** LocalGameState.None_, and how a game that is not listed counts. */
  const NONE: State := State(false, false)

  datatype Game = Game(id: string, state: State)

  /** {x.game_id: x.local_game_state for x in games}: the last entry of a game wins. */
  function Dict(games: seq<Game>): map<string, State> {
    if games == [] then map[]
    else Dict(games[..|games| - 1])[games[|games| - 1].id := games[|games| - 1].state]
  }

  function ViewOf(games: seq<Game>, id: string): State {
    if id in Dict(games) then Dict(games)[id] else NONE
  }

  /** The states that a list mentions for one game, in order. */
  function Trace(games: seq<Game>, id: string): seq<State> {
    if games == [] then []
    else
      var earlier := Trace(games[..|games| - 1], id);
      if games[|games| - 1].id == id then earlier + [games[|games| - 1].state] else earlier
  }

  lemma {:induction false} TraceOneMore(games: seq<Game>, g: Game, id: string)
    ensures Trace(games + [g], id) == if g.id == id then Trace(games, id) + [g.state] else Trace(games, id)
  {
    assert (games + [g])[..|games|] == games;
  }

  lemma {:induction false} TraceAppend(a: seq<Game>, b: seq<Game>, id: string)
    ensures Trace(a + b, id) == Trace(a, id) + Trace(b, id)
    decreases |b|
  {
    if b == [] {
      assert a + b == a;
    } else {
      assert (a + b)[..|a + b| - 1] == a + b[..|b| - 1];
      TraceAppend(a, b[..|b| - 1], id);
    }
  }

  lemma {:induction false} DictIsLast(games: seq<Game>, id: string)
    ensures id in Dict(games) <==> Trace(games, id) != []
    ensures id in Dict(games) ==> Dict(games)[id] == Trace(games, id)[|Trace(games, id)| - 1]
    decreases |games|
  {
    if games != [] {
      DictIsLast(games[..|games| - 1], id);
    }
  }

  // ---------- The changes ----------

  function Removed(before: map<string, State>, after: map<string, State>): set<string> {
    before.Keys - after.Keys
  }

  function Changed(before: map<string, State>, after: map<string, State>): set<string> {
    set id | id in after.Keys * before.Keys && after[id] != before[id]
  }

  /** The entries of the new list whose games the old one lacks, repeated ones included. */
  function Added(news: seq<Game>, before: map<string, State>): seq<Game> {
    if news == [] then []
    else
      var earlier := Added(news[..|news| - 1], before);
      if news[|news| - 1].id !in before then earlier + [news[|news| - 1]] else earlier
  }

  /** Lists each of the ids once, in some order, with the state that a mapping gives it. */
  ghost predicate ListsOnce(games: seq<Game>, ids: set<string>, state: string -> State) {
    forall id :: Trace(games, id) == if id in ids then [state(id)] else []
  }

  function StateIn(d: map<string, State>): string -> State {
    (id: string) => if id in d then d[id] else NONE
  }

  /** What the comprehensions and set operations allow: sets are listed in any order. */
  ghost predicate IsDiff(olds: seq<Game>, news: seq<Game>, result: seq<Game>) {
    var before, after := Dict(olds), Dict(news);
    exists removed, changed ::
      && result == removed + Added(news, before) + changed
      && ListsOnce(removed, Removed(before, after), StateIn(map[]))
      && ListsOnce(changed, Changed(before, after), StateIn(after))
  }

  lemma {:induction false} AddedTrace(news: seq<Game>, before: map<string, State>, id: string)
    ensures Trace(Added(news, before), id) == if id in before then [] else Trace(news, id)
    decreases |news|
  {
    if news != [] {
      var init, last := news[..|news| - 1], news[|news| - 1];
      AddedTrace(init, before, id);
      TraceOneMore(Added(init, before), last, id);
    }
  }

  /** All that one game hears: nothing, that it is gone, its new entries, or its new state. */
  function Heard(olds: seq<Game>, news: seq<Game>, id: string): seq<State> {
    var before, after := Dict(olds), Dict(news);
    if id !in after then (if id in before then [NONE] else [])
    else if id !in before then Trace(news, id)
    else if before[id] == after[id] then []
    else [after[id]]
  }

  lemma {:induction false} EachHears(olds: seq<Game>, news: seq<Game>, result: seq<Game>, id: string)
    requires IsDiff(olds, news, result)
    ensures Trace(result, id) == Heard(olds, news, id)
  {
    var before, after := Dict(olds), Dict(news);
    var removed, changed :|
      && result == removed + Added(news, before) + changed
      && ListsOnce(removed, Removed(before, after), StateIn(map[]))
      && ListsOnce(changed, Changed(before, after), StateIn(after));
    GroupsHear(removed, Added(news, before), changed, id);
    AddedTrace(news, before, id);
    Once(removed, Removed(before, after), StateIn(map[]), id);
    Once(changed, Changed(before, after), StateIn(after), id);
    DictIsLast(news, id);
  }

  lemma {:induction false} Once(games: seq<Game>, ids: set<string>, state: string -> State, id: string)
    requires ListsOnce(games, ids, state)
    ensures Trace(games, id) == if id in ids then [state(id)] else []
  {
  }

  lemma {:induction false} GroupsHear(removed: seq<Game>, added: seq<Game>, changed: seq<Game>, id: string)
    ensures Trace(removed + added + changed, id) == Trace(removed, id) + Trace(added, id) + Trace(changed, id)
  {
    TraceAppend(removed + added, changed, id);
    TraceAppend(removed, added, id);
  }

  /**
   Diff, then patch: told to someone who knows the old list, the changes give the
   new view of every game, whatever the lists repeat and however sets are ordered.
  */
  lemma {:induction false} DiffThenPatch(olds: seq<Game>, news: seq<Game>, result: seq<Game>, id: string)
    requires IsDiff(olds, news, result)
    ensures ViewOf(olds + result, id) == ViewOf(news, id)
  {
    EachHears(olds, news, result, id);
    TraceAppend(olds, result, id);
    DictIsLast(olds, id);
    DictIsLast(news, id);
    DictIsLast(olds + result, id);
  }

  /** Nothing idle is said: a game is mentioned exactly if its entry appeared, vanished or changed. */
  lemma {:induction false} MentionedIffDifferent(olds: seq<Game>, news: seq<Game>, result: seq<Game>, id: string)
    requires IsDiff(olds, news, result)
    ensures id in Dict(result) <==>
            (id in Dict(olds)) != (id in Dict(news)) || (id in Dict(olds) && Dict(olds)[id] != Dict(news)[id])
  {
    EachHears(olds, news, result, id);
    DictIsLast(news, id);
    DictIsLast(result, id);
  }

  // ---------- The method ----------

  method ToDict(games: seq<Game>) returns (d: map<string, State>)
    ensures d == Dict(games)
  {
    d := map[];
    for i := 0 to |games|
      invariant d == Dict(games[..i])
    {
      assert games[..i + 1][..i] == games[..i];
      d := d[games[i].id := games[i].state];
    }
    assert games[..|games|] == games;
  }

  lemma {:induction false} OneMore(games: seq<Game>, done: set<string>, state: string -> State, id: string)
    requires ListsOnce(games, done, state) && id !in done
    ensures ListsOnce(games + [Game(id, state(id))], done + {id}, state)
  {
    forall other
      ensures Trace(games + [Game(id, state(id))], other) == if other in done + {id} then [state(other)] else []
    {
      TraceOneMore(games, Game(id, state(id)), other);
      assert Trace(games, other) == if other in done then [state(other)] else [];
    }
  }

  /** Lists a set in whatever order it is walked. */
  method ListSet(ids: set<string>, state: string -> State) returns (games: seq<Game>)
    ensures ListsOnce(games, ids, state)
  {
    games := [];
    var rest := ids;
    while rest != {}
      invariant rest <= ids && ListsOnce(games, ids - rest, state)
    {
      var id :| id in rest;
      OneMore(games, ids - rest, state, id);
      assert ids - (rest - {id}) == (ids - rest) + {id};
      games := games + [Game(id, state(id))];
      rest := rest - {id};
    }
    assert ids - rest == ids;
  }

  method GetStateChanges(olds: seq<Game>, news: seq<Game>) returns (result: seq<Game>)
    ensures IsDiff(olds, news, result)
    ensures forall id :: Trace(result, id) == Heard(olds, news, id)
    ensures forall id :: ViewOf(olds + result, id) == ViewOf(news, id)
  {
    var before := ToDict(olds);
    var after := ToDict(news);
    var removed := ListSet(Removed(before, after), StateIn(map[]));
    var added: seq<Game> := [];
    for i := 0 to |news|
      invariant added == Added(news[..i], before)
    {
      assert news[..i + 1][..i] == news[..i];
      if news[i].id in after.Keys - before.Keys {
        added := added + [news[i]];
      } else {
        Listed(news, i);
      }
    }
    assert news[..|news|] == news;
    var changed := ListSet(Changed(before, after), StateIn(after));
    result := removed + added + changed;
    forall id
      ensures Trace(result, id) == Heard(olds, news, id) && ViewOf(olds + result, id) == ViewOf(news, id)
    {
      EachHears(olds, news, result, id);
      DiffThenPatch(olds, news, result, id);
    }
  }

  lemma {:induction false} Listed(games: seq<Game>, i: nat)
    requires i < |games|
    ensures games[i].id in Dict(games)
    decreases |games|
  {
    if i < |games| - 1 {
      Listed(games[..|games| - 1], i);
    }
  }
}
