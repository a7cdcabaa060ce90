/** Achievements: how Steam's blocks of unlock times become a list, and when an import of them is complete. */
module Stats {
  import opened Selections

  datatype Block = Block(id: int, times: seq<int>)

  /** The names that a game's schema resolves: by block, then by bit. Whatever is missing on the way is missing here. */
  type Schema = map<int, map<int, string>>

  datatype Achievement = Achievement(id: int, time: int, name: string)

  // ---------- The list ----------

  predicate Unlocked(b: Block, names: map<int, string>, i: int) {
    0 <= i < |b.times| && b.times[i] > 0 && i in names
  }

  function At(b: Block, names: map<int, string>, i: int): Achievement
    requires Unlocked(b, names, i)
  {
    Achievement(32 * (b.id - 1) + i, b.times[i], names[i])
  }

  /** What the first n bits of a block unlock. */
  function FromBits(b: Block, names: map<int, string>, n: nat): seq<Achievement>
    requires n <= |b.times|
  {
    if n == 0 then []
    else
      var earlier := FromBits(b, names, n - 1);
      if Unlocked(b, names, n - 1) then earlier + [At(b, names, n - 1)] else earlier
  }

  function FromBlocks(blocks: seq<Block>, schema: Schema): seq<Achievement> {
    if blocks == [] then []
    else
      var earlier, b := FromBlocks(blocks[..|blocks| - 1], schema), blocks[|blocks| - 1];
      if b.id in schema then earlier + FromBits(b, schema[b.id], |b.times|) else earlier
  }

  method AchievementsUnlocked(blocks: seq<Block>, schema: Schema) returns (unlocked: seq<Achievement>)
    ensures unlocked == FromBlocks(blocks, schema)
  {
    unlocked := [];
    for k := 0 to |blocks|
      invariant unlocked == FromBlocks(blocks[..k], schema)
    {
      assert blocks[..k + 1][..k] == blocks[..k];
      var b := blocks[k];
      if b.id !in schema {
        continue;
      }
      ghost var before := unlocked;
      for i := 0 to |b.times|
        invariant unlocked == before + FromBits(b, schema[b.id], i)
      {
        if b.times[i] > 0 {
          if i !in schema[b.id] {
            continue;
          }
          unlocked := unlocked + [Achievement(32 * (b.id - 1) + i, b.times[i], schema[b.id][i])];
        }
      }
    }
    assert blocks[..|blocks|] == blocks;
  }

  // ---------- The numbering ----------

  predicate DistinctBlocks(blocks: seq<Block>) {
    forall j, k :: 0 <= j < k < |blocks| ==> blocks[j].id != blocks[k].id
  }

  /** No block has more unlock times than an achievement number has room for. */
  predicate Narrow(blocks: seq<Block>) {
    forall k :: 0 <= k < |blocks| ==> |blocks[k].times| <= 32
  }

  predicate DistinctIds(s: seq<Achievement>) {
    forall j, k :: 0 <= j < k < |s| ==> s[j].id != s[k].id
  }

  /** Some block unlocks this very achievement. */
  predicate Comes(blocks: seq<Block>, schema: Schema, a: Achievement, k: int, i: int) {
    && 0 <= k < |blocks| && blocks[k].id in schema
    && Unlocked(blocks[k], schema[blocks[k].id], i) && a == At(blocks[k], schema[blocks[k].id], i)
  }

  lemma {:induction false} BitsExact(b: Block, names: map<int, string>, n: nat, a: Achievement)
    requires n <= |b.times|
    ensures a in FromBits(b, names, n) <==>
            var i := a.id - 32 * (b.id - 1); i < n && Unlocked(b, names, i) && a == At(b, names, i)
    decreases n
  {
    if n > 0 {
      BitsExact(b, names, n - 1, a);
    }
  }

  /** The list has exactly the unlocked bits for which there is a schema. */
  lemma {:induction false} ListExact(blocks: seq<Block>, schema: Schema, a: Achievement)
    ensures a in FromBlocks(blocks, schema) <==> exists k, i :: Comes(blocks, schema, a, k, i)
    decreases |blocks|
  {
    if blocks != [] {
      var init, b := blocks[..|blocks| - 1], blocks[|blocks| - 1];
      ListExact(init, schema, a);
      if b.id in schema {
        BitsExact(b, schema[b.id], |b.times|, a);
      }
      if a in FromBlocks(blocks, schema) {
        if a in FromBlocks(init, schema) {
          var k, i :| Comes(init, schema, a, k, i);
          assert Comes(blocks, schema, a, k, i);
        } else {
          assert Comes(blocks, schema, a, |blocks| - 1, a.id - 32 * (b.id - 1));
        }
      }
      if k, i :| Comes(blocks, schema, a, k, i) {
        if k < |init| {
          assert Comes(init, schema, a, k, i);
        }
      }
    }
  }

  // ---------- The list, bit by bit ----------

  /** A bit: the place of its block, and its own place in the block. */
  datatype Bit = Bit(block: nat, place: nat)

  /** The first n bits of a block, in order. */
  function BitsOf(k: nat, n: nat): seq<Bit> {
    if n == 0 then [] else BitsOf(k, n - 1) + [Bit(k, n - 1)]
  }

  /** All bits of the first n blocks, in order. */
  function AllBits(blocks: seq<Block>, n: nat): seq<Bit>
    requires n <= |blocks|
  {
    if n == 0 then [] else AllBits(blocks, n - 1) + BitsOf(n - 1, |blocks[n - 1].times|)
  }

  /** The bit has an unlock time, and the schema a block and a name for it. */
  predicate Unlocks(blocks: seq<Block>, schema: Schema, bit: Bit) {
    && bit.block < |blocks| && bit.place < |blocks[bit.block].times| && blocks[bit.block].times[bit.place] > 0
    && blocks[bit.block].id in schema && bit.place in schema[blocks[bit.block].id]
  }

  /** The achievement of a bit: its number, its time, and its name. */
  predicate IsOf(blocks: seq<Block>, schema: Schema, bit: Bit, a: Achievement) {
    && bit.block < |blocks| && bit.place < |blocks[bit.block].times| && blocks[bit.block].id in schema && bit.place in schema[blocks[bit.block].id]
    && a.id == 32 * (blocks[bit.block].id - 1) + bit.place
    && a.time == blocks[bit.block].times[bit.place]
    && a.name == schema[blocks[bit.block].id][bit.place]
  }

  type Pick = Bit -> bool
  type Link = (Bit, Achievement) -> bool

  ghost predicate Reads(blocks: seq<Block>, schema: Schema, p: Pick, r: Link) {
    && (forall bit :: p(bit) <==> Unlocks(blocks, schema, bit))
    && (forall bit, a :: r(bit, a) <==> IsOf(blocks, schema, bit, a))
  }

  lemma {:induction false} ShowsBits(blocks: seq<Block>, schema: Schema, p: Pick, r: Link,
                                     k: nat, n: nat, bits: seq<Bit>, list: seq<Achievement>)
    requires Reads(blocks, schema, p, r) && k < |blocks| && n <= |blocks[k].times| && blocks[k].id in schema
    requires SelectsAs(bits, p, r, list)
    ensures SelectsAs(bits + BitsOf(k, n), p, r, list + FromBits(blocks[k], schema[blocks[k].id], n))
    decreases n
  {
    var names := schema[blocks[k].id];
    if n == 0 {
      assert bits + BitsOf(k, 0) == bits && list + FromBits(blocks[k], names, 0) == list;
    } else {
      ShowsBits(blocks, schema, p, r, k, n - 1, bits, list);
      var front, earlier := bits + BitsOf(k, n - 1), list + FromBits(blocks[k], names, n - 1);
      assert bits + BitsOf(k, n) == front + [Bit(k, n - 1)];
      if Unlocked(blocks[k], names, n - 1) {
        SelectsAsTaken(front, p, r, earlier, Bit(k, n - 1), At(blocks[k], names, n - 1));
        assert list + FromBits(blocks[k], names, n) == earlier + [At(blocks[k], names, n - 1)];
      } else {
        SelectsAsSkipped(front, p, r, earlier, Bit(k, n - 1));
      }
    }
  }

  lemma {:induction false} ShowsNone(blocks: seq<Block>, schema: Schema, p: Pick, r: Link,
                                     k: nat, n: nat, bits: seq<Bit>, list: seq<Achievement>)
    requires Reads(blocks, schema, p, r) && k < |blocks| && n <= |blocks[k].times| && blocks[k].id !in schema
    requires SelectsAs(bits, p, r, list)
    ensures SelectsAs(bits + BitsOf(k, n), p, r, list)
    decreases n
  {
    if n == 0 {
      assert bits + BitsOf(k, 0) == bits;
    } else {
      ShowsNone(blocks, schema, p, r, k, n - 1, bits, list);
      assert bits + BitsOf(k, n) == (bits + BitsOf(k, n - 1)) + [Bit(k, n - 1)];
      SelectsAsSkipped(bits + BitsOf(k, n - 1), p, r, list, Bit(k, n - 1));
    }
  }

  lemma {:induction false} ShowsBlocks(blocks: seq<Block>, schema: Schema, p: Pick, r: Link, n: nat)
    requires Reads(blocks, schema, p, r) && n <= |blocks|
    ensures SelectsAs(AllBits(blocks, n), p, r, FromBlocks(blocks[..n], schema))
    decreases n
  {
    if n == 0 {
      SelectsAsNothing(p, r);
    } else {
      ShowsBlocks(blocks, schema, p, r, n - 1);
      assert blocks[..n][..n - 1] == blocks[..n - 1];
      var b := blocks[n - 1];
      if b.id in schema {
        ShowsBits(blocks, schema, p, r, n - 1, |b.times|, AllBits(blocks, n - 1), FromBlocks(blocks[..n - 1], schema));
      } else {
        ShowsNone(blocks, schema, p, r, n - 1, |b.times|, AllBits(blocks, n - 1), FromBlocks(blocks[..n - 1], schema));
      }
    }
  }

  /** The list is that of the unlocked bits with a schema, block by block and bit by bit, each with its number, time and name. */
  lemma {:induction false} ListInOrder(blocks: seq<Block>, schema: Schema)
    ensures SelectsAs(AllBits(blocks, |blocks|), (bit: Bit) => Unlocks(blocks, schema, bit),
                      (bit: Bit, a: Achievement) => IsOf(blocks, schema, bit, a), FromBlocks(blocks, schema))
  {
    ShowsBlocks(blocks, schema, (bit: Bit) => Unlocks(blocks, schema, bit),
                (bit: Bit, a: Achievement) => IsOf(blocks, schema, bit, a), |blocks|);
    assert blocks[..|blocks|] == blocks;
  }

  // ---------- Numbers ----------

  lemma {:induction false} BitsAscend(b: Block, names: map<int, string>, n: nat)
    requires n <= |b.times|
    ensures forall j, k :: 0 <= j < k < |FromBits(b, names, n)| ==> FromBits(b, names, n)[j].id < FromBits(b, names, n)[k].id
    decreases n
  {
    if n > 0 {
      BitsAscend(b, names, n - 1);
      var earlier := FromBits(b, names, n - 1);
      forall j | 0 <= j < |earlier|
        ensures earlier[j].id < 32 * (b.id - 1) + n - 1
      {
        BitsExact(b, names, n - 1, earlier[j]);
        assert earlier[j] in earlier;
      }
    }
  }

  lemma {:induction false} DistinctAppend(s: seq<Achievement>, t: seq<Achievement>)
    requires DistinctIds(s) && DistinctIds(t)
    requires forall a, b :: a in s && b in t ==> a.id != b.id
    ensures DistinctIds(s + t)
  {
    var all := s + t;
    forall j, k | 0 <= j < k < |all|
      ensures all[j].id != all[k].id
    {
      if j < |s| <= k {
        assert s[j] in s && t[k - |s|] in t;
      }
    }
  }

  /** The numbers of one block end before those of any other block with times start. */
  predicate Apart(blocks: seq<Block>) {
    forall j, k :: 0 <= j < |blocks| && 0 <= k < |blocks| && j != k && blocks[j].id <= blocks[k].id && blocks[k].times != [] ==>
      |blocks[j].times| <= 32 * (blocks[k].id - blocks[j].id)
  }

  /** Different blocks of at most 32 times are apart. */
  lemma {:induction false} NarrowIsApart(blocks: seq<Block>)
    requires DistinctBlocks(blocks) && Narrow(blocks)
    ensures Apart(blocks)
  {
    forall j, k | 0 <= j < |blocks| && 0 <= k < |blocks| && j != k && blocks[j].id <= blocks[k].id && blocks[k].times != []
      ensures |blocks[j].times| <= 32 * (blocks[k].id - blocks[j].id)
    {
      assert blocks[j].id != blocks[k].id;
      assert |blocks[j].times| <= 32;
    }
  }

  /** In narrow blocks a number can be taken apart again: 32 divides it into block and bit. */
  lemma {:induction false} NumberDecodes(blocks: seq<Block>, schema: Schema, a: Achievement)
    requires Narrow(blocks) && a in FromBlocks(blocks, schema)
    ensures exists k :: Comes(blocks, schema, a, k, a.id % 32) && blocks[k].id == a.id / 32 + 1
  {
    ListExact(blocks, schema, a);
    var k, i :| Comes(blocks, schema, a, k, i);
    assert a.id == 32 * (blocks[k].id - 1) + i && 0 <= i < 32;
    assert a.id % 32 == i && a.id / 32 == blocks[k].id - 1;
  }

  lemma {:induction false} DifferentNumbers(blocks: seq<Block>, j: nat, i: nat, k: nat, m: nat)
    requires Apart(blocks) && j < |blocks| && k < |blocks| && j != k && i < |blocks[j].times| && m < |blocks[k].times|
    ensures 32 * (blocks[j].id - 1) + i != 32 * (blocks[k].id - 1) + m
  {
    assert blocks[j].id <= blocks[k].id ==> i < 32 * (blocks[k].id - blocks[j].id);
    assert blocks[k].id <= blocks[j].id ==> m < 32 * (blocks[j].id - blocks[k].id);
  }

  /** In blocks that are apart, a number stands for one block and one bit. */
  lemma {:induction false} OnePlace(blocks: seq<Block>, j: nat, i: nat, k: nat, m: nat)
    requires Apart(blocks) && j < |blocks| && k < |blocks| && i < |blocks[j].times| && m < |blocks[k].times|
    requires 32 * (blocks[j].id - 1) + i == 32 * (blocks[k].id - 1) + m
    ensures j == k && i == m
  {
    if j != k {
      DifferentNumbers(blocks, j, i, k, m);
    }
  }

  /** So whatever is unlocked, no two achievements share a number. */
  lemma {:induction false} NumbersAreDistinct(blocks: seq<Block>, schema: Schema)
    requires Apart(blocks)
    ensures DistinctIds(FromBlocks(blocks, schema))
    decreases |blocks|
  {
    if blocks != [] {
      var init, b := blocks[..|blocks| - 1], blocks[|blocks| - 1];
      assert forall k :: 0 <= k < |init| ==> init[k] == blocks[k];
      NumbersAreDistinct(init, schema);
      if b.id in schema {
        var earlier, later := FromBlocks(init, schema), FromBits(b, schema[b.id], |b.times|);
        BitsAscend(b, schema[b.id], |b.times|);
        forall a, c | a in earlier && c in later
          ensures a.id != c.id
        {
          ListExact(init, schema, a);
          var k, i :| Comes(init, schema, a, k, i);
          BitsExact(b, schema[b.id], |b.times|, c);
          DifferentNumbers(blocks, k, i, |init|, c.id - 32 * (b.id - 1));
        }
        DistinctAppend(earlier, later);
      }
    }
  }

  /** The number is also enough to find the time and the name again. */
  lemma {:induction false} NumberDetermines(blocks: seq<Block>, schema: Schema, k: nat, i: nat, a: Achievement)
    requires Apart(blocks) && a in FromBlocks(blocks, schema)
    requires k < |blocks| && i < |blocks[k].times| && a.id == 32 * (blocks[k].id - 1) + i
    ensures Comes(blocks, schema, a, k, i)
  {
    ListExact(blocks, schema, a);
    var j, m :| Comes(blocks, schema, a, j, m);
    OnePlace(blocks, j, m, k, i);
  }

  /** Every time is set, and the schema has a name for it. */
  predicate AllUnlocked(blocks: seq<Block>, schema: Schema) {
    forall k, i :: 0 <= k < |blocks| && 0 <= i < |blocks[k].times| ==> BitUnlocked(blocks[k], schema, i)
  }

  predicate BitUnlocked(b: Block, schema: Schema, i: int) {
    b.id in schema && Unlocked(b, schema[b.id], i)
  }

  lemma {:induction false} FromBlocksPrefix(blocks: seq<Block>, schema: Schema, n: nat)
    requires n <= |blocks|
    ensures |FromBlocks(blocks[..n], schema)| <= |FromBlocks(blocks, schema)|
    ensures FromBlocks(blocks, schema)[..|FromBlocks(blocks[..n], schema)|] == FromBlocks(blocks[..n], schema)
    decreases |blocks|
  {
    if n == |blocks| {
      assert blocks[..n] == blocks;
    } else {
      assert blocks[..|blocks| - 1][..n] == blocks[..n];
      FromBlocksPrefix(blocks[..|blocks| - 1], schema, n);
    }
  }

  /** Two bits of one number, in two blocks, are two achievements of the list. */
  lemma {:induction false} TwoOfOneNumber(blocks: seq<Block>, schema: Schema, j: nat, i: nat, k: nat, m: nat)
    requires AllUnlocked(blocks, schema) && j < k < |blocks| && i < |blocks[j].times| && m < |blocks[k].times|
    requires 32 * (blocks[j].id - 1) + i == 32 * (blocks[k].id - 1) + m
    ensures !DistinctIds(FromBlocks(blocks, schema))
  {
    var init, b := blocks[..k], blocks[k];
    assert blocks[..k + 1][..k] == init && init[j] == blocks[j];
    assert BitUnlocked(blocks[j], schema, i) && BitUnlocked(b, schema, m);
    var earlier, later := FromBlocks(init, schema), FromBits(b, schema[b.id], |b.times|);
    assert FromBlocks(blocks[..k + 1], schema) == earlier + later;
    var a, c := At(blocks[j], schema[blocks[j].id], i), At(b, schema[b.id], m);
    assert Comes(init, schema, a, j, i);
    ListExact(init, schema, a);
    BitsExact(b, schema[b.id], |b.times|, c);
    var p :| 0 <= p < |earlier| && earlier[p] == a;
    var q :| 0 <= q < |later| && later[q] == c;
    FromBlocksPrefix(blocks, schema, k + 1);
    var all := FromBlocks(blocks, schema);
    assert all[..|earlier + later|][p] == a && all[..|earlier + later|][|earlier| + q] == c;
    assert all[p].id == all[|earlier| + q].id;
  }

  /** Exactly: when everything is unlocked, the numbers are different if and only if the blocks are apart. */
  lemma {:induction false} DistinctExactlyIfApart(blocks: seq<Block>, schema: Schema)
    requires AllUnlocked(blocks, schema)
    ensures DistinctIds(FromBlocks(blocks, schema)) <==> Apart(blocks)
  {
    if Apart(blocks) {
      NumbersAreDistinct(blocks, schema);
    } else {
      var j, k :| 0 <= j < |blocks| && 0 <= k < |blocks| && j != k && blocks[j].id <= blocks[k].id && blocks[k].times != []
                  && |blocks[j].times| > 32 * (blocks[k].id - blocks[j].id);
      var i := 32 * (blocks[k].id - blocks[j].id);
      if j < k {
        TwoOfOneNumber(blocks, schema, j, i, k, 0);
      } else {
        TwoOfOneNumber(blocks, schema, k, 0, j, i);
      }
    }
  }

  /** A block of 33 times runs into the next block: two achievements, one number. */
  lemma {:induction false} WideBlockCollides(names: map<int, string>)
    requires forall i :: 0 <= i < 33 ==> i in names
    ensures var blocks := [Block(1, seq(33, _ => 1)), Block(2, [1])];
            DistinctBlocks(blocks) && !DistinctIds(FromBlocks(blocks, map[1 := names, 2 := names]))
  {
    var blocks := [Block(1, seq(33, _ => 1)), Block(2, [1])];
    assert blocks[0].id <= blocks[1].id && |blocks[0].times| > 32 * (blocks[1].id - blocks[0].id);
    DistinctExactlyIfApart(blocks, map[1 := names, 2 := names]);
  }

  // ---------- The import ----------

  datatype Entry = Empty | Filled(stats: seq<(int, int)>, achievements: seq<Achievement>)

  datatype Answer = Answer(game: string, stats: seq<(int, int)>, achievements: seq<Achievement>)

  /** The cache's state: an entry per game, the games still to be answered for, and the ready event. */
  datatype Cache = Cache(info: map<string, Entry>, left: seq<string>, ready: bool)

  function WithEmpty(info: map<string, Entry>, games: seq<string>): map<string, Entry> {
    if games == [] then info else WithEmpty(info, games[..|games| - 1])[games[|games| - 1] := Empty]
  }

  function Start(c: Cache, games: seq<string>): Cache {
    Cache(WithEmpty(c.info, games), games, games == [])
  }

  /** list.remove: the first occurrence. */
  function RemoveFirst(s: seq<string>, x: string): seq<string>
    requires x in s
  {
    if s[0] == x then s[1..] else [s[0]] + RemoveFirst(s[1..], x)
  }

  /** update_stats; removing a game that is not on the list raises after the entry was written. */
  function Take(c: Cache, a: Answer): (Cache, bool) {
    var info := c.info[a.game := Filled(a.stats, a.achievements)];
    if a.game in c.left then
      var left := RemoveFirst(c.left, a.game);
      (Cache(info, left, left == []), false)
    else (c.(info := info), true)
  }

  /** Answers one after the other, up to the first that raises. */
  function TakeAll(c: Cache, answers: seq<Answer>): (Cache, bool) {
    if answers == [] then (c, false)
    else
      var (d, raised) := TakeAll(c, answers[..|answers| - 1]);
      if raised then (d, true) else Take(d, answers[|answers| - 1])
  }

  function Games(answers: seq<Answer>): seq<string> {
    seq(|answers|, i requires 0 <= i < |answers| => answers[i].game)
  }

  lemma {:induction false} RemoveFirstTakesOne(s: seq<string>, x: string)
    requires x in s
    ensures multiset(RemoveFirst(s, x)) == multiset(s) - multiset{x}
    ensures |RemoveFirst(s, x)| == |s| - 1
    decreases |s|
  {
    assert s == [s[0]] + s[1..];
    if s[0] != x {
      RemoveFirstTakesOne(s[1..], x);
    }
  }

  /** The state agrees with what was asked for and what was answered. */
  ghost predicate Accounts(d: Cache, raised: bool, asked: multiset<string>, got: multiset<string>) {
    && (!raised <==> got <= asked)
    && (!raised ==> multiset(d.left) == asked - got)
    && (!raised ==> (d.ready <==> |got| == |asked|))
  }

  lemma {:induction false} TakeAccounts(d: Cache, a: Answer, asked: multiset<string>, got: multiset<string>)
    requires Accounts(d, false, asked, got)
    ensures Accounts(Take(d, a).0, Take(d, a).1, asked, got + multiset{a.game})
  {
    assert multiset(d.left)[a.game] == asked[a.game] - got[a.game];
    if a.game in d.left {
      RemoveFirstTakesOne(d.left, a.game);
      var left := RemoveFirst(d.left, a.game);
      assert got + multiset{a.game} <= asked;
      assert multiset(left) == asked - (got + multiset{a.game});
      LeftCounts(left, asked, got + multiset{a.game});
    } else {
      assert (got + multiset{a.game})[a.game] > asked[a.game];
    }
  }

  /**
   Import completion. Nothing raises exactly as long as no game is answered for
   more often than it was asked for, in whatever order; the games left are then
   those asked for minus those answered, and ready holds iff all are answered.
  */
  lemma {:induction false} ImportExact(c: Cache, games: seq<string>, answers: seq<Answer>)
    ensures var (d, raised) := TakeAll(Start(c, games), answers);
            Accounts(d, raised, multiset(games), multiset(Games(answers)))
    decreases |answers|
  {
    var asked, got := multiset(games), multiset(Games(answers));
    if answers == [] {
      LeftCounts(games, asked, got);
    } else {
      var init, a := answers[..|answers| - 1], answers[|answers| - 1];
      ImportExact(c, games, init);
      assert Games(answers) == Games(init) + [a.game];
      var (d, raised) := TakeAll(Start(c, games), init);
      if raised {
        NotWithin(multiset(Games(init)), multiset{a.game}, asked);
      } else {
        TakeAccounts(d, a, asked, multiset(Games(init)));
      }
    }
  }

  lemma {:induction false} NotWithin(got: multiset<string>, more: multiset<string>, asked: multiset<string>)
    requires !(got <= asked)
    ensures !(got + more <= asked)
  {
    var x :| got[x] > asked[x];
    assert (got + more)[x] > asked[x];
  }

  lemma {:induction false} LeftCounts(left: seq<string>, asked: multiset<string>, got: multiset<string>)
    requires got <= asked && multiset(left) == asked - got
    ensures |left| == |asked| - |got|
  {
    assert |multiset(left)| == |left|;
    assert asked == (asked - got) + got;
  }

  /** Each game asked for holds its last answer, or nothing until it has one; every other entry is untouched. */
  function LastAnswer(answers: seq<Answer>, game: string, otherwise: Entry): Entry {
    if answers == [] then otherwise
    else
      var a := answers[|answers| - 1];
      if a.game == game then Filled(a.stats, a.achievements) else LastAnswer(answers[..|answers| - 1], game, otherwise)
  }

  lemma {:induction false} EntriesExact(c: Cache, games: seq<string>, answers: seq<Answer>, game: string)
    requires !TakeAll(Start(c, games), answers).1
    ensures var info := TakeAll(Start(c, games), answers).0.info;
            && (game in info <==> game in games || game in c.info || game in Games(answers))
            && (game in info ==>
                  info[game] == LastAnswer(answers, game, if game in games || game !in c.info then Empty else c.info[game]))
    decreases |answers|
  {
    if answers == [] {
      WithEmptyExact(c.info, games, game);
    } else {
      var init, a := answers[..|answers| - 1], answers[|answers| - 1];
      EntriesExact(c, games, init, game);
      assert Games(answers) == Games(init) + [a.game];
    }
  }

  lemma {:induction false} WithEmptyExact(info: map<string, Entry>, games: seq<string>, game: string)
    ensures game in WithEmpty(info, games) <==> game in games || game in info
    ensures game in WithEmpty(info, games) ==>
              WithEmpty(info, games)[game] == if game in games || game !in info then Empty else info[game]
    decreases |games|
  {
    if games != [] {
      WithEmptyExact(info, games[..|games| - 1], game);
      assert games == games[..|games| - 1] + [games[|games| - 1]];
    }
  }

  class StatsCache {
    var info: map<string, Entry>
    var gamesToImport: seq<string>
    var ready: bool

    constructor ()
      ensures View() == Cache(map[], [], false)
    {
      info, gamesToImport, ready := map[], [], false;
    }

    function View(): Cache
      reads this
    {
      Cache(info, gamesToImport, ready)
    }

    method UpdateReadyState()
      modifies this`ready
      ensures ready <==> gamesToImport == []
    {
      if |gamesToImport| == 0 {
        if ready {
          return;
        }
        ready := true;
      } else {
        ready := false;
      }
    }

    method StartGameStatsImport(games: seq<string>)
      modifies this
      ensures View() == Start(old(View()), games)
    {
      for i := 0 to |games|
        invariant info == WithEmpty(old(info), games[..i])
      {
        assert games[..i + 1][..i] == games[..i];
        info := info[games[i] := Empty];
      }
      assert games[..|games|] == games;
      gamesToImport := games;
      UpdateReadyState();
    }

    method ImportInProgress() returns (inProgress: bool)
      modifies this`ready
      ensures inProgress <==> gamesToImport != []
      ensures ready == !inProgress
    {
      UpdateReadyState();
      inProgress := !ready;
    }

    method UpdateStats(a: Answer) returns (raised: bool)
      modifies this
      ensures (View(), raised) == Take(old(View()), a)
    {
      info := info[a.game := Filled(a.stats, a.achievements)];
      if a.game !in gamesToImport {
        return true;
      }
      gamesToImport := RemoveFirst(gamesToImport, a.game);
      UpdateReadyState();
      raised := false;
    }
  }
}
