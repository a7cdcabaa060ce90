/** What is known about a user: a record whose fields arrive one by one and are merged. */
module UserRecords {
  import opened Maybe

  datatype Value = Text(s: string) | Number(n: int) | Presence(d: map<string, string>)

  const FIELDS: nat := 6
  const NAME: nat := 0
  const AVATAR_HASH: nat := 1
  const STATE: nat := 2
  const GAME_ID: nat := 3
  const GAME_NAME: nat := 4
  const RICH_PRESENCE: nat := 5

  /** The fields of ProtoUserInfo in the order of their declaration. */
  type UserInfo = s: seq<Option<Value>> | |s| == FIELDS witness [None, None, None, None, None, None]

  const BLANK: UserInfo := [None, None, None, None, None, None]

  // ---------- Merging ----------

  function Overlay(a: UserInfo, b: UserInfo): UserInfo {
    seq(FIELDS, i requires 0 <= i < FIELDS => if b[i].Some? then b[i] else a[i])
  }

  /** ProtoUserInfo.update: takes the fields that are not None, and tells whether any of them was new. */
  method Update(self: UserInfo, other: UserInfo) returns (merged: UserInfo, updated: bool)
    ensures merged == Overlay(self, other)
    ensures updated <==> merged != self
  {
    merged, updated := self, false;
    for i := 0 to FIELDS
      invariant forall k :: 0 <= k < i ==> merged[k] == Overlay(self, other)[k]
      invariant forall k :: i <= k < FIELDS ==> merged[k] == self[k]
      invariant updated <==> exists k :: 0 <= k < i && merged[k] != self[k]
    {
      if other[i].Some? {
        if other[i] != self[i] {
          merged := merged[i := other[i]];
          updated := true;
          assert merged[i] != self[i];
        }
      }
    }
  }

  /** The last value that any of the updates had for a field. */
  function LastValue(log: seq<UserInfo>, field: nat): Option<Value>
    requires field < FIELDS
  {
    if log == [] then None
    else if log[|log| - 1][field].Some? then log[|log| - 1][field]
    else LastValue(log[..|log| - 1], field)
  }

  function Merged(log: seq<UserInfo>): UserInfo {
    seq(FIELDS, i requires 0 <= i < FIELDS => LastValue(log, i))
  }

  /** Merging updates one by one keeps each field's last value. */
  lemma {:induction false} MergedAfter(log: seq<UserInfo>, info: UserInfo)
    ensures Merged(log + [info]) == Overlay(Merged(log), info)
    ensures Merged([]) == BLANK
  {
    assert (log + [info])[..|log|] == log;
  }

  /** A friend is complete when both the name and the state are known. */
  predicate Complete(info: UserInfo) {
    info[NAME].Some? && info[STATE].Some?
  }

  datatype AvailableInfo = AvailableInfo(personalInfo: bool, state: bool) {
    predicate Ready() {
      personalInfo && state
    }
  }

  function Available(info: UserInfo): AvailableInfo {
    AvailableInfo(info[NAME].Some?, info[STATE].Some?)
  }

  // ---------- Callbacks ----------

  datatype Kind = A | U | R

  datatype Callback = Callback(user: int, kind: Kind, info: UserInfo)

  /** The kinds of the callbacks about one user, in order. */
  function About(trace: seq<Callback>, user: int): seq<Kind> {
    if trace == [] then []
    else About(trace[..|trace| - 1], user) + (if trace[|trace| - 1].user == user then [trace[|trace| - 1].kind] else [])
  }

  lemma {:induction false} AboutAppend(trace: seq<Callback>, c: Callback, user: int)
    ensures About(trace + [c], user) == About(trace, user) + (if c.user == user then [c.kind] else [])
  {
    assert (trace + [c])[..|trace|] == trace;
  }

  /** Any number of updates. */
  predicate Updates(w: seq<Kind>) {
    forall i :: 0 <= i < |w| ==> w[i] == U
  }

  /** The prefixes of (added updated* removed)*. */
  ghost predicate InLanguage(w: seq<Kind>)
    decreases |w|
  {
    w == [] ||
    (w[0] == A && (Updates(w[1..])
                   || exists k :: 1 <= k < |w| && Updates(w[1..k]) && w[k] == R && InLanguage(w[k + 1..])))
  }

  datatype Phase = Out | In | Broken

  /** The automaton of the language. */
  function Next(p: Phase, k: Kind): Phase {
    match (p, k)
    case (Out, A) => In
    case (In, U) => In
    case (In, R) => Out
    case _ => Broken
  }

  function PhaseAfter(p: Phase, w: seq<Kind>): Phase {
    if w == [] then p else Next(PhaseAfter(p, w[..|w| - 1]), w[|w| - 1])
  }

  lemma {:induction false} PhaseAppend(p: Phase, a: seq<Kind>, b: seq<Kind>)
    ensures PhaseAfter(p, a + b) == PhaseAfter(PhaseAfter(p, a), b)
    decreases |b|
  {
    if b == [] {
      assert a + b == a;
    } else {
      assert (a + b)[..|a + b| - 1] == a + b[..|b| - 1];
      PhaseAppend(p, a, b[..|b| - 1]);
    }
  }

  lemma {:induction false} UpdatesStayIn(w: seq<Kind>)
    requires Updates(w)
    ensures PhaseAfter(In, w) == In
    decreases |w|
  {
    if w != [] {
      UpdatesStayIn(w[..|w| - 1]);
    }
  }

  lemma {:induction false} BrokenStays(w: seq<Kind>)
    ensures PhaseAfter(Broken, w) == Broken
    decreases |w|
  {
    if w != [] {
      BrokenStays(w[..|w| - 1]);
    }
  }

  /** Where the updates at the front of a word end. */
  lemma {:induction false} FirstOther(w: seq<Kind>) returns (k: nat)
    ensures k <= |w| && Updates(w[..k]) && (k < |w| ==> w[k] != U)
    decreases |w|
  {
    if w == [] || w[0] != U {
      k := 0;
    } else {
      var j := FirstOther(w[1..]);
      k := j + 1;
      assert forall i :: 1 <= i < k ==> w[i] == w[1..][..j][i - 1];
    }
  }

  lemma {:induction false} PhaseFront(p: Phase, w: seq<Kind>)
    requires w != []
    ensures PhaseAfter(p, w) == PhaseAfter(Next(p, w[0]), w[1..])
  {
    PhaseAppend(p, [w[0]], w[1..]);
    assert [w[0]][..0] == [];
    assert w == [w[0]] + w[1..];
  }

  /** A word is in the language exactly when the automaton does not break on it. */
  lemma {:induction false} AutomatonDecides(w: seq<Kind>)
    ensures InLanguage(w) <==> PhaseAfter(Out, w) != Broken
    decreases |w|
  {
    if w != [] {
      PhaseFront(Out, w);
      if w[0] == A {
        assert w == [A] + w[1..];
        AfterAdded(w[1..]);
      } else {
        BrokenStays(w[1..]);
      }
    }
  }

  lemma {:induction false} AfterAdded(w: seq<Kind>)
    ensures InLanguage([A] + w) <==> PhaseAfter(In, w) != Broken
    decreases |w|
  {
    var v := [A] + w;
    assert v[1..] == w;
    var j := FirstOther(w);
    UpdatesStayIn(w[..j]);
    assert w == w[..j] + w[j..];
    PhaseAppend(In, w[..j], w[j..]);
    if j == |w| {
      assert w[..j] == w;
    } else {
      PhaseFront(In, w[j..]);
      assert w[j..][1..] == w[j + 1..] && v[j + 2..] == w[j + 1..] && v[1..j + 1] == w[..j];
      if w[j] == R {
        AutomatonDecides(w[j + 1..]);
        OnlyBreak(v, j + 1);
      } else {
        BrokenStays(w[j + 1..]);
        OnlyBreak(v, j + 1);
      }
    }
  }

  /** The first callback after an addition that is no update decides the word. */
  lemma {:induction false} OnlyBreak(v: seq<Kind>, b: nat)
    requires 1 <= b < |v| && v[0] == A && Updates(v[1..b]) && v[b] != U
    ensures InLanguage(v) <==> v[b] == R && InLanguage(v[b + 1..])
  {
    assert v[1..][b - 1] == v[b];
    assert forall i :: 1 <= i < b ==> v[1..b][i - 1] == v[i];
    forall k | b < k < |v|
      ensures !Updates(v[1..k])
    {
      assert v[1..k][b - 1] == v[b];
    }
  }
}
