/**
 The byte layout of Steam's websocket packets: 32-bit little-endian numbers,
 the protobuf mask of the message number, and the length-prefixed frames that
 a Multi message carries.
*/
module Wire {

  type Byte = x: int | 0 <= x < 256

  type Bytes = seq<Byte>

  const PROTO_MASK: nat := 0x8000_0000
  const WORD: nat := 0x1_0000_0000

  function Min(a: nat, b: nat): nat {
    if a <= b then a else b
  }

  // ---------- 32-bit numbers ----------

  /** The k low bytes of n, least significant first. */
  function LittleEndian(k: nat, n: nat): (b: Bytes)
    ensures |b| == k
    decreases k, n
  {
    if k == 0 then [] else [n % 256] + LittleEndian(k - 1, n / 256)
  }

  function Value(b: Bytes): (n: nat) {
    if b == [] then 0 else b[0] + 256 * Value(b[1..])
  }

  function Range(k: nat): nat {
    if k == 0 then 1 else 256 * Range(k - 1)
  }

  lemma {:induction false} ValueInRange(b: Bytes)
    ensures Value(b) < Range(|b|)
  {
    if b != [] {
      ValueInRange(b[1..]);
    }
  }

  lemma {:induction false} ValueOfLittleEndian(k: nat, n: nat)
    requires n < Range(k)
    ensures Value(LittleEndian(k, n)) == n
  {
    if k > 0 {
      ValueOfLittleEndian(k - 1, n / 256);
      assert LittleEndian(k, n)[1..] == LittleEndian(k - 1, n / 256);
    }
  }

  lemma {:induction false} DivideByte(low: Byte, high: nat)
    ensures (low + 256 * high) % 256 == low && (low + 256 * high) / 256 == high
  {
  }

  lemma {:induction false} LittleEndianOfValue(b: Bytes)
    ensures LittleEndian(|b|, Value(b)) == b
  {
    if b != [] {
      LittleEndianOfValue(b[1..]);
      DivideByte(b[0], Value(b[1..]));
      assert b == [b[0]] + b[1..];
    }
  }

  /** The "<I" format of Python's struct: four bytes. */
  function PackU32(n: nat): (b: Bytes)
    ensures |b| == 4
  {
    LittleEndian(4, n)
  }

  function UnpackU32(b: Bytes): nat
    requires |b| == 4
  {
    Value(b)
  }

  /** Packing and unpacking are inverse to each other on 32-bit numbers and four-byte strings. */
  lemma {:induction false} PackIsBijective(n: nat, b: Bytes)
    requires n < WORD && |b| == 4
    ensures UnpackU32(PackU32(n)) == n
    ensures UnpackU32(b) < WORD
    ensures PackU32(UnpackU32(b)) == b
  {
    assert Range(4) == WORD;
    ValueOfLittleEndian(4, n);
    ValueInRange(b);
    LittleEndianOfValue(b);
  }

  // ---------- The protobuf mask ----------

  predicate IsMasked(raw: nat) {
    raw / PROTO_MASK % 2 == 1
  }

  function SetMask(emsg: nat): (raw: nat) {
    if IsMasked(emsg) then emsg else emsg + PROTO_MASK
  }

  function ClearMask(raw: nat): (emsg: nat) {
    if IsMasked(raw) then raw - PROTO_MASK else raw
  }

  /** A message number below 2^31 survives the mask, and the masked number still is 32 bits wide. */
  lemma {:induction false} MaskRoundTrip(emsg: nat)
    ensures IsMasked(SetMask(emsg))
    ensures emsg < PROTO_MASK <==> ClearMask(SetMask(emsg)) == emsg && SetMask(emsg) < WORD
  {
    var q := emsg / PROTO_MASK;
    assert (emsg + PROTO_MASK) / PROTO_MASK == q + 1;
    if emsg >= PROTO_MASK && !IsMasked(emsg) {
      assert q >= 2;
    }
  }

  // ---------- Frames ----------

  /** One frame of a Multi body: the length it declares and the bytes there were. */
  datatype Frame = Frame(declared: nat, bytes: Bytes)

  datatype Split = Split(frames: seq<Frame>, rest: Bytes)

  /** The bytes that a list of frames came from. */
  function Glue(frames: seq<Frame>): Bytes {
    if frames == [] then [] else PackU32(frames[0].declared) + frames[0].bytes + Glue(frames[1..])
  }

  /** How many bytes the frames take, length prefixes included. */
  function Weight(frames: seq<Frame>): (w: nat)
    ensures w == |Glue(frames)|
  {
    if frames == [] then 0 else 4 + |frames[0].bytes| + Weight(frames[1..])
  }

  /** A frame list in which only the last frame may be cut short, and what may follow it. */
  ghost predicate WellCut(s: Split)
    decreases |s.frames|
  {
    if s.frames == [] then
      |s.rest| < 4
    else
      var f := s.frames[0];
      && f.declared < WORD
      && |f.bytes| <= f.declared
      && (if |f.bytes| < f.declared
          then s.frames[1..] == [] && s.rest == []
          else WellCut(Split(s.frames[1..], s.rest)))
  }

  /**
   What splitting means, without saying how: the frames are consecutive and
   account for every byte but the rest; only the last can be cut short; and
   nothing that could hold another length prefix is left unread.
  */
  ghost predicate IsSplit(data: Bytes, s: Split) {
    WellCut(s) && data == Glue(s.frames) + s.rest
  }

  /** Takes frames off the front of data while a whole length prefix is left. */
  function SplitFrames(data: Bytes): (s: Split)
    decreases |data|
  {
    if |data| < 4 then
      Split([], data)
    else
      var n := UnpackU32(data[..4]);
      if n <= |data| - 4 then
        var tail := SplitFrames(data[4 + n..]);
        Split([Frame(n, data[4..4 + n])] + tail.frames, tail.rest)
      else
        Split([Frame(n, data[4..])], [])
  }

  lemma {:induction false} GlueCons(f: Frame, fs: seq<Frame>, rest: Bytes)
    ensures Glue([f] + fs) + rest == PackU32(f.declared) + (f.bytes + (Glue(fs) + rest))
  {
    assert ([f] + fs)[1..] == fs;
  }

  lemma {:induction false} WellCutCons(f: Frame, s: Split)
    requires WellCut(s) && |f.bytes| == f.declared < WORD
    ensures WellCut(Split([f] + s.frames, s.rest))
  {
    assert ([f] + s.frames)[1..] == s.frames;
  }

  lemma {:induction false} SplitIsSound(data: Bytes)
    ensures IsSplit(data, SplitFrames(data))
    decreases |data|
  {
    if |data| >= 4 {
      var prefix, more := data[..4], data[4..];
      var n := UnpackU32(prefix);
      PackIsBijective(0, prefix);
      assert data == prefix + more;
      SplitStepAfter(prefix, n, more);
      if n <= |more| {
        SplitIsSound(more[n..]);
        WholeFrame(n, more, SplitFrames(more[n..]));
      } else {
        CutFrame(n, more);
      }
    }
  }

  /** Putting a whole frame in front of a split. */
  lemma {:induction false} WholeFrame(n: nat, more: Bytes, tail: Split)
    requires n <= |more| && n < WORD && IsSplit(more[n..], tail)
    ensures IsSplit(PackU32(n) + more, Split([Frame(n, more[..n])] + tail.frames, tail.rest))
  {
    var f := Frame(n, more[..n]);
    WellCutCons(f, tail);
    GlueCons(f, tail.frames, tail.rest);
    assert more == more[..n] + more[n..];
  }

  lemma {:induction false} CutFrame(n: nat, more: Bytes)
    requires |more| < n < WORD
    ensures IsSplit(PackU32(n) + more, Split([Frame(n, more)], []))
  {
    GlueCons(Frame(n, more), [], []);
    assert more + [] == more;
  }

  lemma {:induction false} SplitStepAfter(prefix: Bytes, n: nat, more: Bytes)
    requires |prefix| == 4 && UnpackU32(prefix) == n
    ensures var s := SplitFrames(prefix + more);
            if n <= |more|
            then var tail := SplitFrames(more[n..]);
                 s == Split([Frame(n, more[..n])] + tail.frames, tail.rest)
            else s == Split([Frame(n, more)], [])
  {
    var data := prefix + more;
    assert data[..4] == prefix;
    assert data[4..] == more;
    if n <= |more| {
      assert data[4..4 + n] == more[..n];
      assert data[4 + n..] == more[n..];
    }
  }

  /** What SplitFrames takes off the front of bytes that begin with a frame. */
  lemma {:induction false} SplitStep(n: nat, more: Bytes)
    requires n < WORD
    ensures var s := SplitFrames(PackU32(n) + more);
            if n <= |more|
            then var tail := SplitFrames(more[n..]);
                 s == Split([Frame(n, more[..n])] + tail.frames, tail.rest)
            else s == Split([Frame(n, more)], [])
  {
    var prefix := PackU32(n);
    PackIsBijective(n, prefix);
    SplitStepAfter(prefix, n, more);
  }

  lemma {:induction false} SplitIsUnique(data: Bytes, s: Split)
    requires IsSplit(data, s)
    ensures s == SplitFrames(data)
    decreases |s.frames|
  {
    if s.frames != [] {
      var f, tail := s.frames[0], Split(s.frames[1..], s.rest);
      var more := f.bytes + (Glue(tail.frames) + s.rest);
      assert s.frames == [f] + tail.frames;
      GlueCons(f, tail.frames, s.rest);
      SplitStep(f.declared, more);
      if |f.bytes| == f.declared {
        assert more[..f.declared] == f.bytes;
        assert more[f.declared..] == Glue(tail.frames) + s.rest;
        SplitIsUnique(more[f.declared..], tail);
      } else {
        assert more == f.bytes;
      }
    }
  }

  /** Any bytes at all split in exactly one way, and SplitFrames finds it. */
  lemma {:induction false} SplitCharacterised(data: Bytes, s: Split)
    ensures IsSplit(data, s) <==> s == SplitFrames(data)
  {
    SplitIsSound(data);
    if IsSplit(data, s) {
      SplitIsUnique(data, s);
    }
  }

  lemma {:induction false} SplitWeight(data: Bytes)
    ensures Weight(SplitFrames(data).frames) <= |data|
  {
    SplitIsSound(data);
  }
}
