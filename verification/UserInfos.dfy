/** The stored credentials: five fields, a dirty flag, and the dictionary that Galaxy keeps. */
module UserInfos {
  import opened Maybe

  datatype Info = Info(steamId: Option<int>, accountUsername: Option<string>, personaName: Option<string>,
                       refreshToken: Option<string>, accessToken: Option<string>)

  const NOBODY: Info := Info(None, None, None, None, None)

  type Dict = map<string, string>

  /** Base64 over UTF-8, and Python's str and int; a decoder that raises gives None. */
  datatype Codec = Codec(encode: string -> string, decode: string -> Option<string>,
                         showInt: int -> string, readInt: string -> Option<int>)

  ghost predicate Lossless(c: Codec, info: Info) {
    && (info.steamId.Some? ==>
          && c.decode(c.encode(c.showInt(info.steamId.value))) == Some(c.showInt(info.steamId.value))
          && c.readInt(c.showInt(info.steamId.value)) == info.steamId)
    && (forall o :: o in {info.accountUsername, info.personaName, info.refreshToken} && o.Some? ==>
          c.decode(c.encode(o.value)) == o)
  }

  /** Neither None nor empty. */
  predicate Truthy(o: Option<string>) {
    o.Some? && o.value != ""
  }

  predicate IsInitialized(info: Info) {
    info.steamId.Some? && Truthy(info.accountUsername) && Truthy(info.personaName) && Truthy(info.refreshToken)
  }

  function ToDict(c: Codec, info: Info): Dict {
    if !IsInitialized(info) then map[]
    else map[
      "steam_id" := c.encode(c.showInt(info.steamId.value)),
      "refresh_token" := c.encode(info.refreshToken.value),
      "account_username" := c.encode(info.accountUsername.value),
      "persona_name" := c.encode(info.personaName.value)]
  }

  // ---------- The flag and the storage ----------

  /** The cache's state with the last dictionary stored, if any. */
  datatype Memory = Memory(info: Info, changed: bool, initialized: bool, stored: Option<Dict>)

  const BLANK: Memory := Memory(NOBODY, false, false, None)

  datatype Write = SteamId(id: Option<int>) | AccountUsername(s: Option<string>) | PersonaName(s: Option<string>)
                 | RefreshToken(s: Option<string>) | AccessToken(s: Option<string>)

  function Put(info: Info, w: Write): Info {
    match w
    case SteamId(v) => info.(steamId := v)
    case AccountUsername(v) => info.(accountUsername := v)
    case PersonaName(v) => info.(personaName := v)
    case RefreshToken(v) => info.(refreshToken := v)
    case AccessToken(v) => info.(accessToken := v)
  }

  /** A setter: marks a difference once initialized; before that, marks the write that completes the fields. */
  function Set(m: Memory, w: Write): Memory {
    var info := Put(m.info, w);
    if m.initialized then m.(info := info, changed := m.changed || info != m.info)
    else if IsInitialized(info) then m.(info := info, changed := true, initialized := true)
    else m.(info := info)
  }

  /** The periodic tick: stores the credentials if the flag is up, and takes it down. */
  function Tick(c: Codec, m: Memory): Memory {
    if m.changed then m.(changed := false, stored := Some(ToDict(c, m.info))) else m
  }

  /** Clear forgets the fields but neither event nor flag. */
  function Clear(m: Memory): Memory {
    m.(info := NOBODY)
  }

  datatype Op = Writing(w: Write) | Ticking

  function Run(c: Codec, ops: seq<Op>): Memory {
    if ops == [] then BLANK
    else
      var m := Run(c, ops[..|ops| - 1]);
      match ops[|ops| - 1]
      case Writing(w) => Set(m, w)
      case Ticking => Tick(c, m)
  }

  /** When the flag is down, what is stored is what the fields say. */
  ghost predicate Sound(c: Codec, m: Memory) {
    m.initialized && !m.changed ==> m.stored == Some(ToDict(c, m.info))
  }

  /** Before the fields were first complete nothing is marked and nothing stored. */
  ghost predicate Untouched(m: Memory) {
    !m.initialized ==> !m.changed && m.stored == None && !IsInitialized(m.info)
  }

  function Writes(ops: seq<Op>): Info {
    if ops == [] then NOBODY
    else
      var before := Writes(ops[..|ops| - 1]);
      if ops[|ops| - 1].Writing? then Put(before, ops[|ops| - 1].w) else before
  }

  /**
   In every run of setters and ticks the flag is sound, the fields are what was
   last written to each, and nothing is stored before they were first complete.
  */
  lemma {:induction false} FlagIsSound(c: Codec, ops: seq<Op>)
    ensures Sound(c, Run(c, ops)) && Untouched(Run(c, ops)) && Run(c, ops).info == Writes(ops)
    decreases |ops|
  {
    if ops != [] {
      FlagIsSound(c, ops[..|ops| - 1]);
    }
  }

  /** The writes were complete at some moment. */
  ghost predicate EverComplete(ops: seq<Op>) {
    exists n :: 0 <= n <= |ops| && IsInitialized(Writes(ops[..n]))
  }

  /** Since the last tick a write changed the fields, once they were complete, or first completed them. */
  ghost predicate Dirty(ops: seq<Op>) {
    ops != [] && ops[|ops| - 1].Writing?
    && (Dirty(ops[..|ops| - 1])
        || (if EverComplete(ops[..|ops| - 1]) then Writes(ops) != Writes(ops[..|ops| - 1]) else IsInitialized(Writes(ops))))
  }

  /** The flag is up exactly if there is something new to store: a write that changes nothing does not raise it. */
  lemma {:induction false} FlagExactly(c: Codec, ops: seq<Op>)
    ensures Run(c, ops).changed <==> Dirty(ops)
    decreases |ops|
  {
    if ops != [] {
      var before := ops[..|ops| - 1];
      FlagExactly(c, before);
      FlagIsSound(c, before);
      FlagIsSound(c, ops);
      InitializedWhen(c, before);
    }
  }

  /** So after a tick Galaxy holds the present credentials, once they were ever complete. */
  lemma {:induction false} StoredAfterTick(c: Codec, ops: seq<Op>)
    ensures var m := Tick(c, Run(c, ops)); m.initialized ==> m.stored == Some(ToDict(c, m.info))
    ensures (exists n :: 0 <= n <= |ops| && IsInitialized(Writes(ops[..n]))) <==> Run(c, ops).initialized
  {
    FlagIsSound(c, ops);
    InitializedWhen(c, ops);
  }

  lemma {:induction false} InitializedWhen(c: Codec, ops: seq<Op>)
    ensures (exists n :: 0 <= n <= |ops| && IsInitialized(Writes(ops[..n]))) <==> Run(c, ops).initialized
    decreases |ops|
  {
    assert ops[..|ops|] == ops;
    FlagIsSound(c, ops);
    if ops != [] {
      var before := ops[..|ops| - 1];
      InitializedWhen(c, before);
      assert forall n :: 0 <= n <= |before| ==> before[..n] == ops[..n];
    }
  }

  /** Clearing a quiet cache leaves stale credentials stored, exactly if there were any to forget. */
  lemma {:induction false} ClearLeavesStored(c: Codec, m: Memory)
    requires Sound(c, m) && m.initialized && !m.changed
    ensures Sound(c, Clear(m)) <==> !IsInitialized(m.info)
  {
    if IsInitialized(m.info) {
      assert "steam_id" in ToDict(c, m.info);
    }
  }

  // ---------- Loading ----------

  /** Reads one field; None if its decoder raises. */
  function Field(c: Codec, d: Dict, key: string, present: Option<string>): Option<Option<string>> {
    if key !in d then Some(present)
    else match c.decode(d[key])
      case None => None
      case Some(s) => Some(Some(s))
  }

  /** from_dict: overwrites the fields that the dictionary has, in the source's order; neither event nor flag. */
  function FromDict(c: Codec, info: Info, d: Dict): (Info, bool) {
    match (if "steam_id" !in d then Some(info.steamId)
           else match c.decode(d["steam_id"])
             case None => None
             case Some(s) => if c.readInt(s) == None then None else Some(c.readInt(s)))
    case None => (info, true)
    case Some(id) =>
      var i1 := info.(steamId := id);
      match Field(c, d, "account_username", info.accountUsername)
      case None => (i1, true)
      case Some(account) =>
        var i2 := i1.(accountUsername := account);
        match Field(c, d, "persona_name", info.personaName)
        case None => (i2, true)
        case Some(persona) =>
          var i3 := i2.(personaName := persona);
          match Field(c, d, "refresh_token", info.refreshToken)
          case None => (i3, true)
          case Some(refresh) => (i3.(refreshToken := refresh), false)
  }

  /** Loading what was stored restores the four stored fields, and keeps the access token of the loading cache. */
  lemma {:induction false} LoadRestores(c: Codec, info: Info, other: Info)
    requires Lossless(c, info) && IsInitialized(info)
    ensures FromDict(c, other, ToDict(c, info)) == (info.(accessToken := other.accessToken), false)
  {
    var d := ToDict(c, info);
    assert "steam_id" in d && "account_username" in d && "persona_name" in d && "refresh_token" in d;
    assert d["account_username"] == c.encode(info.accountUsername.value);
    assert d["persona_name"] == c.encode(info.personaName.value);
    assert d["refresh_token"] == c.encode(info.refreshToken.value);
    assert info.accountUsername in {info.accountUsername, info.personaName, info.refreshToken};
    assert info.personaName in {info.accountUsername, info.personaName, info.refreshToken};
    assert info.refreshToken in {info.accountUsername, info.personaName, info.refreshToken};
  }

  /** The text of a stored field. */
  function Stored(c: Codec, d: Dict, key: string): Option<string> {
    if key in d then c.decode(d[key]) else None
  }

  predicate Fails(c: Codec, d: Dict, key: string) {
    key in d && c.decode(d[key]) == None
  }

  predicate IdFails(c: Codec, d: Dict) {
    "steam_id" in d && (c.decode(d["steam_id"]) == None || c.readInt(c.decode(d["steam_id"]).value) == None)
  }

  /** Loading any dictionary: when it raises, and what each field is then, in the order id, account, persona, refresh token. */
  lemma {:induction false} LoadExactly(c: Codec, info: Info, d: Dict)
    ensures var (loaded, raised) := FromDict(c, info, d);
            var one := !IdFails(c, d);
            var two := one && !Fails(c, d, "account_username");
            var three := two && !Fails(c, d, "persona_name");
            var four := three && !Fails(c, d, "refresh_token");
            && (raised <==> !four)
            && loaded.steamId == (if one && "steam_id" in d then c.readInt(c.decode(d["steam_id"]).value) else info.steamId)
            && loaded.accountUsername == (if two && "account_username" in d then Stored(c, d, "account_username") else info.accountUsername)
            && loaded.personaName == (if three && "persona_name" in d then Stored(c, d, "persona_name") else info.personaName)
            && loaded.refreshToken == (if four && "refresh_token" in d then Stored(c, d, "refresh_token") else info.refreshToken)
            && loaded.accessToken == info.accessToken
  {
  }

  /** After loading into a new cache the flag is down, but any later write raises it, even one that changes nothing. */
  lemma {:induction false} FirstWriteAfterLoad(c: Codec, info: Info, w: Write)
    requires Lossless(c, info) && IsInitialized(info)
    ensures var m := BLANK.(info := FromDict(c, NOBODY, ToDict(c, info)).0);
            && !m.changed && !m.initialized
            && (Set(m, w).changed <==> IsInitialized(Put(info, w)))
  {
    LoadRestores(c, info, NOBODY);
  }

  class UserInfoCache {
    const codec: Codec
    var steamId: Option<int>
    var accountUsername: Option<string>
    var personaName: Option<string>
    var refreshToken: Option<string>
    var accessToken: Option<string>
    var changed: bool
    var initialized: bool
    ghost var stored: Option<Dict>

    constructor (codec: Codec)
      ensures this.codec == codec && View() == BLANK
    {
      this.codec := codec;
      steamId, accountUsername, personaName, refreshToken, accessToken := None, None, None, None, None;
      changed, initialized, stored := false, false, None;
    }

    function Fields(): Info
      reads this
    {
      Info(steamId, accountUsername, personaName, refreshToken, accessToken)
    }

    ghost function View(): Memory
      reads this
    {
      Memory(Fields(), changed, initialized, stored)
    }

    method CheckInitialized()
      modifies this`changed, this`initialized
      ensures changed == (old(changed) || IsInitialized(Fields()))
      ensures initialized == (old(initialized) || IsInitialized(Fields()))
    {
      if IsInitialized(Fields()) {
        initialized := true;
        changed := true;
      }
    }

    method SetSteamId(val: Option<int>)
      modifies this
      ensures View() == Set(old(View()), SteamId(val))
    {
      if steamId != val && initialized {
        changed := true;
      }
      steamId := val;
      if !initialized {
        CheckInitialized();
      }
    }

    method SetAccountUsername(val: Option<string>)
      modifies this
      ensures View() == Set(old(View()), AccountUsername(val))
    {
      if accountUsername != val && initialized {
        changed := true;
      }
      accountUsername := val;
      if !initialized {
        CheckInitialized();
      }
    }

    method SetPersonaName(val: Option<string>)
      modifies this
      ensures View() == Set(old(View()), PersonaName(val))
    {
      if personaName != val && initialized {
        changed := true;
      }
      personaName := val;
      if !initialized {
        CheckInitialized();
      }
    }

    method SetRefreshToken(val: Option<string>)
      modifies this
      ensures View() == Set(old(View()), RefreshToken(val))
    {
      if refreshToken != val && initialized {
        changed := true;
      }
      refreshToken := val;
      if !initialized {
        CheckInitialized();
      }
    }

    method SetAccessToken(val: Option<string>)
      modifies this
      ensures View() == Set(old(View()), AccessToken(val))
    {
      if accessToken != val && initialized {
        changed := true;
      }
      accessToken := val;
      if !initialized {
        CheckInitialized();
      }
    }

    method ClearFields()
      modifies this`steamId, this`accountUsername, this`personaName, this`refreshToken, this`accessToken
      ensures View() == Clear(old(View())) && Fields() == Info(None, None, None, None, None)
      ensures changed == old(changed) && initialized == old(initialized) && stored == old(stored)
    {
      refreshToken, steamId, accountUsername, personaName, accessToken := None, None, None, None, None;
    }

    /** Reading the changed property takes the flag down. */
    method TakeChanged() returns (was: bool)
      modifies this`changed
      ensures was == old(changed) && !changed
    {
      if changed {
        changed := false;
        return true;
      }
      was := false;
    }

    /** The credentials part of the backend's tick; gives what is handed to Galaxy, if anything. */
    method TickOnce() returns (handed: Option<Dict>)
      modifies this`changed, this`stored
      ensures View() == Tick(codec, old(View()))
      ensures handed == if old(changed) then Some(ToDict(codec, Fields())) else None
    {
      handed := None;
      var was := TakeChanged();
      if was {
        handed := Some(ToDict(codec, Fields()));
        stored := handed;
      }
    }

    method Load(lookup: Dict) returns (raised: bool)
      modifies this`steamId, this`accountUsername, this`personaName, this`refreshToken
      ensures (Fields(), raised) == FromDict(codec, old(Fields()), lookup)
    {
      if "steam_id" in lookup {
        var text := codec.decode(lookup["steam_id"]);
        if text == None || codec.readInt(text.value) == None {
          return true;
        }
        steamId := codec.readInt(text.value);
      }
      if "account_username" in lookup {
        var text := codec.decode(lookup["account_username"]);
        if text == None {
          return true;
        }
        accountUsername := text;
      }
      if "persona_name" in lookup {
        var text := codec.decode(lookup["persona_name"]);
        if text == None {
          return true;
        }
        personaName := text;
      }
      if "refresh_token" in lookup {
        var text := codec.decode(lookup["refresh_token"]);
        if text == None {
          return true;
        }
        refreshToken := text;
      }
      raised := false;
    }
  }
}
