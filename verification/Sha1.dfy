/** SHA-1 (aliyun_iot_common_sha1.c): a context that is fed in pieces, against the definition
    of the digest in FIPS 180-4, sections 5.1.1, 5.3.1 and 6.1.2. */
module Sha1 {

  type Word = bv32
  type Bytes = seq<bv8>

  // ---------- the standard ----------

  datatype State = State(a: Word, b: Word, c: Word, d: Word, e: Word)

  const H0 := State(0x67452301, 0xEFCDAB89, 0x98BADCFE, 0x10325476, 0xC3D2E1F0)

  function Rotl(x: Word, n: nat): Word
    requires 0 < n < 32
  {
    (x << n) | (x >> (32 - n))
  }

  function Ch(x: Word, y: Word, z: Word): Word { (x & y) ^ (!x & z) }
  function Parity(x: Word, y: Word, z: Word): Word { x ^ y ^ z }
  function Maj(x: Word, y: Word, z: Word): Word { (x & y) ^ (x & z) ^ (y & z) }

  function Ft(t: nat, x: Word, y: Word, z: Word): Word {
    if t < 20 then Ch(x, y, z) else if t < 40 then Parity(x, y, z) else if t < 60 then Maj(x, y, z) else Parity(x, y, z)
  }

  function Kt(t: nat): Word {
    if t < 20 then 0x5A827999 else if t < 40 then 0x6ED9EBA1 else if t < 60 then 0x8F1BBCDC else 0xCA62C1D6
  }

  type Block = b: Bytes | |b| == 64 witness seq(64, _ => 0)

  function BigEndian(b0: bv8, b1: bv8, b2: bv8, b3: bv8): Word {
    ((b0 as Word) << 24) | ((b1 as Word) << 16) | ((b2 as Word) << 8) | (b3 as Word)
  }

  function BlockWord(b: Block, t: nat): Word
    requires t < 16
  {
    BigEndian(b[4 * t], b[4 * t + 1], b[4 * t + 2], b[4 * t + 3])
  }

  /** The message schedule: 80 words from the 16 of a block. */
  function Schedule(b: Block, t: nat): Word {
    if t < 16 then BlockWord(b, t)
    else Mix(Schedule(b, t - 3), Schedule(b, t - 8), Schedule(b, t - 14), Schedule(b, t - 16))
  }

  function Mix(p: Word, q: Word, r: Word, s: Word): Word { Rotl(p ^ q ^ r ^ s, 1) }

  function Sum(p: Word, f: Word, e: Word, k: Word, w: Word): Word { p + f + e + k + w }

  function Round(s: State, t: nat, w: Word): State {
    State(Sum(Rotl(s.a, 5), Ft(t, s.b, s.c, s.d), s.e, Kt(t), w), s.a, Rotl(s.b, 30), s.c, s.d)
  }

  function Rounds(s: State, b: Block, t: nat): State {
    if t == 0 then s else Round(Rounds(s, b, t - 1), t - 1, Schedule(b, t - 1))
  }

  function Add(s: State, r: State): State {
    State(s.a + r.a, s.b + r.b, s.c + r.c, s.d + r.d, s.e + r.e)
  }

  function Compress(s: State, b: Block): State { Add(s, Rounds(s, b, 80)) }

  function Blocks(s: State, m: Bytes): State
    decreases |m|
  {
    if |m| < 64 then s else Blocks(Compress(s, m[..64]), m[64..])
  }

  const TWO32 := 0x1_0000_0000

  // The bytes of a number below 2^32, the most significant first.
  function Put32(n: nat): Bytes
    requires n < TWO32
  {
    [(n / 0x100_0000) as bv8, (n / 0x1_0000 % 0x100) as bv8, (n / 0x100 % 0x100) as bv8, (n % 0x100) as bv8]
  }

  // The length of the message in bits, as a 64-bit number.
  function LengthBytes(len: nat): Bytes { Put32(8 * len / TWO32 % TWO32) + Put32(8 * len % TWO32) }

  function PadZeros(len: nat): nat { if len % 64 < 56 then 55 - len % 64 else 119 - len % 64 }

  function Padding(len: nat): Bytes { [0x80] + seq(PadZeros(len), _ => 0) + LengthBytes(len) }

  function PutWord(w: Word): Bytes { Put32(w as nat) }

  function PutState(s: State): Bytes { PutWord(s.a) + PutWord(s.b) + PutWord(s.c) + PutWord(s.d) + PutWord(s.e) }

  /** The digest of a message. */
  function Digest(m: Bytes): Bytes { PutState(Blocks(H0, m + Padding(|m|))) }

  // ---------- the code's round functions ----------

  // The formulas of the code are those of the standard.
  lemma ChooseIsCh(x: Word, y: Word, z: Word)
    ensures z ^ (x & (y ^ z)) == Ch(x, y, z)
  {
  }

  lemma MajorityIsMaj(x: Word, y: Word, z: Word)
    ensures (x & y) | (z & (x | y)) == Maj(x, y, z)
  {
  }

  function F(t: nat, x: Word, y: Word, z: Word): Word {
    if t < 20 then z ^ (x & (y ^ z))
    else if t < 40 then x ^ y ^ z
    else if t < 60 then (x & y) | (z & (x | y))
    else x ^ y ^ z
  }

  lemma FIsFt(t: nat, x: Word, y: Word, z: Word)
    ensures F(t, x, y, z) == Ft(t, x, y, z)
  {
    ChooseIsCh(x, y, z);
    MajorityIsMaj(x, y, z);
  }

  // P: the new values of the registers e and b.
  function StepE(t: nat, a: Word, b: Word, c: Word, d: Word, e: Word, x: Word): Word {
    PlusSum(e, Rotl(a, 5), F(t, b, c, d), Kt(t), x)
  }

  function PlusSum(e: Word, p: Word, f: Word, k: Word, x: Word): Word { e + (p + f + k + x) }

  lemma StepIsRound(t: nat, s: State, x: Word)
    ensures Round(s, t, x) == State(StepE(t, s.a, s.b, s.c, s.d, s.e, x), s.a, Rotl(s.b, 30), s.c, s.d)
  {
    FIsFt(t, s.b, s.c, s.d);
    hide Rotl, F, Ft, Kt, Sum, PlusSum;
    SumOrder(Rotl(s.a, 5), F(t, s.b, s.c, s.d), s.e, Kt(t), x);
  }

  lemma SumOrder(p: Word, f: Word, e: Word, k: Word, x: Word)
    ensures Sum(p, f, e, k, x) == PlusSum(e, p, f, k, x)
  {
  }

  // ---------- the schedule in sixteen words ----------

  // The 16 words hold the schedule's last 16 values before t, each at its index modulo 16.
  ghost predicate Circular(w: seq<Word>, b: Block, t: nat) {
    |w| == 16 && forall s :: t - 16 <= s < t && 0 <= s ==> SlotIs(w, b, s)
  }

  predicate SlotIs(w: seq<Word>, b: Block, s: nat)
    requires |w| == 16
  {
    w[s % 16] == Schedule(b, s)
  }

  lemma ModApart(s: nat, t: nat)
    requires s < t < s + 16
    ensures s % 16 != t % 16 && (s + 16) % 16 == s % 16
  {
  }

  lemma CircularNext(w: seq<Word>, b: Block, t: nat)
    requires Circular(w, b, t) && 16 <= t
    ensures Mix(w[(t - 3) % 16], w[(t - 8) % 16], w[(t - 14) % 16], w[t % 16]) == Schedule(b, t)
    ensures Circular(w[t % 16 := Schedule(b, t)], b, t + 1)
  {
    ScheduleStep(b, t);
    hide Schedule, Mix;
    assert SlotIs(w, b, t - 3) && SlotIs(w, b, t - 8) && SlotIs(w, b, t - 14) && SlotIs(w, b, t - 16);
    ModApart(t - 16, t - 1);
    var w1 := w[t % 16 := Schedule(b, t)];
    forall s | t + 1 - 16 <= s < t + 1 && 0 <= s ensures SlotIs(w1, b, s) {
      if s < t {
        assert SlotIs(w, b, s);
        ModApart(s, t);
      }
    }
  }

  lemma ScheduleStep(b: Block, t: nat)
    requires 16 <= t
    ensures Schedule(b, t) == Mix(Schedule(b, t - 3), Schedule(b, t - 8), Schedule(b, t - 14), Schedule(b, t - 16))
  {
    hide Mix, BlockWord;
  }

  lemma RoundsZero(s: State, b: Block)
    ensures Rounds(s, b, 0) == s
  {
  }

  // ---------- feeding ----------

  // The state after the whole blocks of m, with the last `left' bytes in the buffer.
  ghost predicate Fed(state: State, buffer: Bytes, m: Bytes, left: nat) {
    && |buffer| == 64 && left < 64 && left <= |m| && (|m| - left) % 64 == 0
    && state == Blocks(H0, m[..|m| - left]) && buffer[..left] == m[|m| - left..]
  }

  lemma FedLeft(state: State, buffer: Bytes, m: Bytes, left: nat)
    requires Fed(state, buffer, m, left)
    ensures left == |m| % 64
  {
  }

  lemma FillBlock(state: State, buffer: Bytes, m: Bytes, left: nat, fill: Bytes)
    requires Fed(state, buffer, m, left) && left + |fill| == 64
    ensures Fed(Compress(state, buffer[..left] + fill), buffer[..left] + fill, m + fill, 0)
  {
    hide Compress;
    var full := m[..|m| - left];
    BlocksSnoc(H0, full, buffer[..left] + fill);
    assert full + (buffer[..left] + fill) == m + fill;
    assert (m + fill)[..|m + fill|] == m + fill;
  }

  lemma FeedBlock(state: State, buffer: Bytes, m: Bytes, block: Block)
    requires Fed(state, buffer, m, 0)
    ensures Fed(Compress(state, block), buffer, m + block, 0)
  {
    hide Compress;
    assert m[..|m|] == m && (m + block)[..|m + block|] == m + block;
    BlocksSnoc(H0, m, block);
  }

  lemma KeepRest(state: State, buffer: Bytes, m: Bytes, left: nat, rest: Bytes)
    requires Fed(state, buffer, m, left) && left + |rest| < 64
    ensures Fed(state, buffer[..left] + rest + buffer[left + |rest|..], m + rest, left + |rest|)
  {
    hide Blocks;
    var m1, n := m + rest, left + |rest|;
    assert m1[..|m1| - n] == m[..|m| - left];
    assert m1[|m1| - n..] == m[|m| - left..] + rest;
  }

  // ---------- counting ----------

  lemma DivMod32(n: nat, q: nat, r: nat)
    requires n == q * TWO32 + r && r < TWO32
    ensures n / TWO32 == q && n % TWO32 == r
  {
  }

  // ---------- the context ----------

  class Context {
    var state: State
    var total0: nat     // number of bytes, modulo 2^32
    var total1: nat     // and its high part
    var buffer: Bytes
    ghost var msg: Bytes   // everything that was fed

    ghost predicate Valid()
      reads this
    {
      Fed(state, buffer, msg, |msg| % 64) && Counted(total0, total1, |msg|)
    }

    constructor Starts()
      ensures Valid() && msg == []
    {
      state := H0;
      total0, total1 := 0, 0;
      buffer := seq(64, _ => 0);
      msg := [];
    }

    /** process: the schedule is kept in sixteen words, and the five registers change roles
        instead of being moved. */
    method Process(data: Block)
      modifies this`state
      ensures state == Compress(old(state), data)
    {
      hide Schedule, Round, Rounds, Rotl, F, Ft, Kt, StepE, Circular, Add, BlockWord;
      var w: seq<Word> := seq(16, i requires 0 <= i < 16 => BlockWord(data, i));
      LoadedCircular(w, data);
      RoundsZero(state, data);
      var A, B, C, D, E := state.a, state.b, state.c, state.d, state.e;
      var t := 0;
      while t < 80
        invariant state == old(state) && 0 <= t <= 80 && t % 5 == 0 && |w| == 16
        invariant Circular(w, data, if t < 16 then 16 else t)
        invariant State(A, B, C, D, E) == Rounds(state, data, t)
        decreases 80 - t
      {
        A, B, C, D, E, w := FiveRounds(state, data, t, A, B, C, D, E, w);
        t := t + 5;
      }
      state := Add(state, State(A, B, C, D, E));
    }

    // Five turns, after which the registers have their own roles again.
    method FiveRounds(ghost s: State, data: Block, t: nat, a: Word, b: Word, c: Word, d: Word, e: Word, w0: seq<Word>)
      returns (A: Word, B: Word, C: Word, D: Word, E: Word, w: seq<Word>)
      requires State(a, b, c, d, e) == Rounds(s, data, t) && |w0| == 16 && Circular(w0, data, if t < 16 then 16 else t)
      ensures State(A, B, C, D, E) == Rounds(s, data, t + 5) && |w| == 16
      ensures Circular(w, data, if t + 5 < 16 then 16 else t + 5)
    {
      hide Schedule, Rounds, Circular;
      A, B, C, D, E, w := a, b, c, d, e, w0;
      var x;
      x, w := NextWord(w, t, data);
      E, B := P(s, data, t, A, B, C, D, E, x);
      x, w := NextWord(w, t + 1, data);
      D, A := P(s, data, t + 1, E, A, B, C, D, x);
      x, w := NextWord(w, t + 2, data);
      C, E := P(s, data, t + 2, D, E, A, B, C, x);
      x, w := NextWord(w, t + 3, data);
      B, D := P(s, data, t + 3, C, D, E, A, B, x);
      x, w := NextWord(w, t + 4, data);
      A, C := P(s, data, t + 4, B, C, D, E, A, x);
    }

    // P( a, b, c, d, e, x )
    method P(ghost s: State, ghost data: Block, t: nat, a: Word, b: Word, c: Word, d: Word, e: Word, x: Word)
      returns (e1: Word, b1: Word)
      requires State(a, b, c, d, e) == Rounds(s, data, t) && x == Schedule(data, t)
      ensures State(e1, a, b1, c, d) == Rounds(s, data, t + 1)
    {
      hide Schedule, Rotl, F, Ft, Kt, Sum, PlusSum;
      StepIsRound(t, State(a, b, c, d, e), x);
      e1 := StepE(t, a, b, c, d, e, x);
      b1 := Rotl(b, 30);
    }

    // W[t], or R(t) once the words of the block are used up.
    method NextWord(w: seq<Word>, t: nat, ghost data: Block) returns (x: Word, w1: seq<Word>)
      requires Circular(w, data, if t < 16 then 16 else t) && |w| == 16
      ensures x == Schedule(data, t) && Circular(w1, data, if t + 1 < 16 then 16 else t + 1) && |w1| == 16
    {
      hide Schedule, Mix;
      if t < 16 {
        assert SlotIs(w, data, t);
        return w[t], w;
      }
      CircularNext(w, data, t);
      x := Mix(w[(t - 3) % 16], w[(t - 8) % 16], w[(t - 14) % 16], w[t % 16]);
      w1 := w[t % 16 := x];
    }

    /** update: feeding a piece is feeding its bytes, wherever the pieces are cut. */
    method Update(input: Bytes)
      requires Valid() && |input| < TWO32
      modifies this
      ensures Valid() && msg == old(msg) + input
    {
      if |input| == 0 {
        assert msg + input == msg;
        return;
      }
      hide Fed, Compress;
      var left := total0 % 64;
      LeftIsTail(|msg|);
      var fill := 64 - left;
      ghost var m := msg;
      AddCount(|input|);
      var rest := input;
      if left > 0 && |rest| >= fill {
        FillBlock(state, buffer, m, left, rest[..fill]);
        FedSize(state, buffer, m, left);
        buffer := buffer[..left] + rest[..fill];
        Process(buffer);
        m := m + rest[..fill];
        rest := rest[fill..];
        left := 0;
      }
      assert m + rest == msg + input;
      Rest(rest, left, m);
    }

    // The whole blocks of the rest of the input; what remains goes to the buffer.
    method Rest(input: Bytes, left: nat, ghost m0: Bytes)
      requires Fed(state, buffer, m0, left) && (left > 0 ==> |input| < 64 - left)
      requires Counted(total0, total1, |m0 + input|)
      modifies this`state, this`buffer, this`msg
      ensures Valid() && msg == m0 + input
    {
      hide Fed, Compress, Counted;
      ghost var m := m0;
      var rest := input;
      while |rest| >= 64
        invariant Fed(state, buffer, m, left) && m + rest == m0 + input && (left > 0 ==> |rest| < 64 - left)
        decreases |rest|
      {
        FeedBlock(state, buffer, m, rest[..64]);
        Process(rest[..64]);
        m := m + rest[..64];
        rest := rest[64..];
      }
      KeepRest(state, buffer, m, left, rest);
      FedSize(state, buffer, m, left);
      buffer := buffer[..left] + rest + buffer[left + |rest|..];
      msg := m0 + input;
      FedLeft(state, buffer, msg, left + |rest|);
    }

    // The 64-bit length counter.
    method AddCount(ilen: nat)
      requires Counted(total0, total1, |msg|) && ilen < TWO32
      modifies this`total0, this`total1
      ensures Counted(total0, total1, |msg| + ilen)
    {
      Count(|msg|, ilen);
      total0 := if total0 + ilen >= TWO32 then total0 + ilen - TWO32 else total0 + ilen;
      if total0 < ilen {
        total1 := if total1 + 1 == TWO32 then 0 else total1 + 1;
      }
    }

    /** finish: the digest of everything that was fed. */
    method Finish() returns (output: Bytes)
      requires Valid()
      modifies this
      ensures output == Digest(old(msg))
    {
      hide Fed, Blocks, Compress, Counted, LengthBytes, PutWord;
      ghost var m := msg;
      var msglen := LengthOf();
      var last := total0 % 64;
      LeftIsTail2(total0, total1, |msg|);
      var padn := if last < 56 then 56 - last else 120 - last;
      var padding: Bytes := [0x80] + seq(63, _ => 0);
      assert padding[..padn] == [0x80] + seq(PadZeros(|m|), _ => 0);
      LengthSize(|m|);
      Update(padding[..padn]);
      Update(msglen);
      assert msg == m + Padding(|m|);
      PaddedWhole(|m|);
      FedWhole(state, buffer, msg);
      output := PutWord(state.a) + PutWord(state.b) + PutWord(state.c) + PutWord(state.d) + PutWord(state.e);
    }

    method LengthOf() returns (msglen: Bytes)
      requires Counted(total0, total1, |msg|)
      ensures msglen == LengthBytes(|msg|)
    {
      hide Put32;
      BitLength(|msg|);
      var high := total0 / 0x2000_0000 + total1 * 8 % TWO32;
      var low := total0 * 8 % TWO32;
      msglen := Put32(high) + Put32(low);
    }
  }

  function Concat(chunks: seq<Bytes>): Bytes { if chunks == [] then [] else chunks[0] + Concat(chunks[1..]) }

  /** However a message is cut into pieces, the digest is that of the whole. */
  method HashChunks(chunks: seq<Bytes>) returns (output: Bytes)
    requires forall c :: c in chunks ==> |c| < TWO32
    ensures output == Digest(Concat(chunks))
  {
    var ctx := new Context.Starts();
    ConcatPrefix(chunks, 0);
    for i := 0 to |chunks|
      invariant ctx.Valid() && ctx.msg == Concat(chunks[..i])
    {
      ConcatPrefix(chunks, i);
      ctx.Update(chunks[i]);
    }
    assert chunks[..|chunks|] == chunks;
    output := ctx.Finish();
  }

  lemma {:induction false} ConcatPrefix(chunks: seq<Bytes>, i: nat)
    requires i <= |chunks|
    ensures Concat(chunks[..0]) == []
    ensures i < |chunks| ==> Concat(chunks[..i + 1]) == Concat(chunks[..i]) + chunks[i]
    decreases |chunks|
  {
    if i < |chunks| {
      var s := chunks[..i + 1];
      if i == 0 {
        assert s == [chunks[0]] && s[1..] == [];
        assert Concat(s) == chunks[0] + Concat(s[1..]);
      } else {
        ConcatPrefix(chunks[1..], i - 1);
        assert s[1..] == chunks[1..][..i];
        assert chunks[..i][1..] == chunks[1..][..i - 1];
      }
    }
  }

  // ---------- blocks and counts ----------

  lemma {:induction false} BlocksSnoc(s: State, m: Bytes, b: Block)
    requires |m| % 64 == 0
    ensures Blocks(s, m + b) == Compress(Blocks(s, m), b)
    decreases |m|
  {
    if |m| < 64 {
      assert m == [];
      assert m + b == b && b[..64] == b && b[64..] == [];
    } else {
      assert (m + b)[..64] == m[..64] && (m + b)[64..] == m[64..] + b;
      BlocksSnoc(Compress(s, m[..64]), m[64..], b);
    }
  }

  lemma LoadedCircular(w: seq<Word>, b: Block)
    requires |w| == 16 && forall i :: 0 <= i < 16 ==> w[i] == BlockWord(b, i)
    ensures Circular(w, b, 16)
  {
  }

  ghost predicate Counted(total0: nat, total1: nat, n: nat) {
    total0 == n % TWO32 && total1 == n / TWO32 % TWO32
  }

  lemma LeftIsTail(n: nat)
    ensures n % TWO32 % 64 == n % 64
  {
    var q, r := n / TWO32, n % TWO32;
    assert n == q * TWO32 + r && r == r / 64 * 64 + r % 64;
    assert n == (q * 0x400_0000 + r / 64) * 64 + r % 64;
  }

  lemma LeftIsTail2(total0: nat, total1: nat, n: nat)
    requires Counted(total0, total1, n)
    ensures total0 % 64 == n % 64
  {
    LeftIsTail(n);
  }

  lemma FedSize(state: State, buffer: Bytes, m: Bytes, left: nat)
    requires Fed(state, buffer, m, left)
    ensures |buffer| == 64 && left < 64
  {
  }

  lemma FedWhole(state: State, buffer: Bytes, m: Bytes)
    requires Fed(state, buffer, m, |m| % 64) && |m| % 64 == 0
    ensures state == Blocks(H0, m)
  {
    assert m[..|m|] == m;
  }

  lemma Count(n: nat, k: nat)
    requires k < TWO32
    ensures var lo := if n % TWO32 + k >= TWO32 then n % TWO32 + k - TWO32 else n % TWO32 + k;
      && lo == (n + k) % TWO32
      && (n + k) / TWO32 % TWO32 ==
         if lo < k then (if n / TWO32 % TWO32 + 1 == TWO32 then 0 else n / TWO32 % TWO32 + 1) else n / TWO32 % TWO32
  {
  }

  lemma BitLength(n: nat)
    ensures var hi := n % TWO32 / 0x2000_0000 + n / TWO32 % TWO32 * 8 % TWO32;
            hi < TWO32 && hi == 8 * n / TWO32 % TWO32
    ensures n % TWO32 * 8 % TWO32 == 8 * n % TWO32
  {
    var q, r := n / TWO32, n % TWO32;
    var r1, r0 := r / 0x2000_0000, r % 0x2000_0000;
    assert r == r1 * 0x2000_0000 + r0;
    DivMod32(8 * n, 8 * q + r1, 8 * r0);
    DivMod32(8 * r, r1, 8 * r0);
    var q1, t1 := q / TWO32, q % TWO32;
    var e, g := t1 / 0x2000_0000, t1 % 0x2000_0000;
    assert t1 == e * 0x2000_0000 + g;
    DivMod32(8 * t1, e, 8 * g);
    assert q == q1 * TWO32 + t1;
    DivMod32(8 * q + r1, 8 * q1 + e, 8 * g + r1);
  }

  lemma LengthSize(n: nat)
    ensures |LengthBytes(n)| == 8
  {
  }

  lemma PaddedWhole(n: nat)
    ensures (n + |Padding(n)|) % 64 == 0
  {
    LengthSize(n);
    hide LengthBytes;
    assert |Padding(n)| == PadZeros(n) + 9;
    assert n == n / 64 * 64 + n % 64;
  }
}
