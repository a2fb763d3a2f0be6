/**
 MD5 streaming of kernel/libk/md5.c.  The block step of __MD5Transform is the
 parameter `compress`; what is modelled is the bit counter, the buffer, the cutting
 into blocks and the padding.
 */
module Md5 {

  import opened ModArith
  import opened Words

  const BLOCK: nat := 64

  datatype Regs = Regs(a: Word, b: Word, c: Word, d: Word)

  type Compress = (Regs, seq<Byte>) -> Regs

  const START: Regs := Regs(0x67452301, 0xefcdab89, 0x98badcfe, 0x10325476)

  // ----- The definition of RFC 1321 -----

  /** Section 3.4: all whole blocks of a message, in order. */
  function Fold(f: Compress, s: Regs, m: seq<Byte>): Regs
    decreases |m|
  {
    if |m| < BLOCK then s else Fold(f, f(s, m[..BLOCK]), m[BLOCK..])
  }

  function Zeros(n: nat): (r: seq<Byte>)
    ensures |r| == n
  {
    seq(n, i => 0)
  }

  /** Section 3.1: one set bit, then the fewest clear bits to reach 448 modulo 512. */
  predicate IsPadding(n: nat, p: seq<Byte>) {
    && |p| >= 1 && p[0] == 0x80 && (forall i | 1 <= i < |p| :: p[i] == 0)
    && (n + |p|) % BLOCK == 56 && |p| <= BLOCK
  }

  /** Section 3.2: the low 64 bits of the length in bits, low word first. */
  function Length(n: nat): (r: seq<Byte>)
    ensures |r| == 8
  {
    Bytes(8 * n % WORD) + Bytes(8 * n / WORD % WORD)
  }

  /** Section 3.5: the registers, low byte first. */
  function Output(s: Regs): (r: seq<Byte>)
    ensures |r| == 16
  {
    Bytes(s.a) + Bytes(s.b) + Bytes(s.c) + Bytes(s.d)
  }

  /** The last eight bytes are the little-endian 64-bit value of the length in bits modulo 2^64. */
  lemma {:induction false} LengthIs(n: nat)
    ensures Value(Length(n), 0) + WORD * Value(Length(n), 4) == 8 * n % (WORD * WORD)
  {
    var low, high: Word := 8 * n % WORD, 8 * n / WORD % WORD;
    ValueOfBytes(low, Length(n), 0);
    ValueOfBytes(high, Length(n), 4);
    CountsModulo(low, high, n);
  }

  /** Every register reads back from the digest, A first. */
  lemma {:induction false} OutputIs(s: Regs)
    ensures Value(Output(s), 0) == s.a && Value(Output(s), 4) == s.b
            && Value(Output(s), 8) == s.c && Value(Output(s), 12) == s.d
  {
    var o := Output(s);
    assert o[0..4] == Bytes(s.a) && o[4..8] == Bytes(s.b) && o[8..12] == Bytes(s.c) && o[12..16] == Bytes(s.d);
    ValueOfBytes(s.a, o, 0);
    ValueOfBytes(s.b, o, 4);
    ValueOfBytes(s.c, o, 8);
    ValueOfBytes(s.d, o, 12);
  }

  /** The bytes of the initial registers, as section 3.3 lists them. */
  lemma {:induction false} StartIs()
    ensures Bytes(START.a) == [0x01, 0x23, 0x45, 0x67] && Bytes(START.b) == [0x89, 0xab, 0xcd, 0xef]
    ensures Bytes(START.c) == [0xfe, 0xdc, 0xba, 0x98] && Bytes(START.d) == [0x76, 0x54, 0x32, 0x10]
  {
  }

  /** `d` is the digest of the message. */
  ghost predicate IsDigest(f: Compress, m: seq<Byte>, d: seq<Byte>) {
    exists p | IsPadding(|m|, p) :: d == Output(Fold(f, START, m + p + Length(|m|)))
  }

  /** Padding always exists and there is only one: the length that MD5Final picks. */
  lemma {:induction false} PaddingIs(n: nat, p: seq<Byte>)
    ensures var index := n % BLOCK;
            IsPadding(n, p) <==> p == Zeros(BLOCK)[0 := 0x80][..(if index < 56 then 56 else 120) - index]
  {
    var index := n % BLOCK;
    var length := (if index < 56 then 56 else 120) - index;
    var z := Zeros(BLOCK)[0 := 0x80];
    assert (n + length) % BLOCK == 56;
    if IsPadding(n, p) {
      PaddingLength(n, |p|, length);
      assert p == z[..length];
    }
  }

  lemma PaddingLength(n: nat, a: nat, b: nat)
    requires 1 <= a <= BLOCK && 1 <= b <= BLOCK && (n + a) % BLOCK == (n + b) % BLOCK
    ensures a == b
  {
  }

  /** So a message has exactly one digest. */
  lemma {:induction false} DigestUnique(f: Compress, m: seq<Byte>, d: seq<Byte>, d': seq<Byte>)
    requires IsDigest(f, m, d) && IsDigest(f, m, d')
    ensures d == d'
  {
    hide IsPadding, Fold, Output, Length;
    var p :| IsPadding(|m|, p) && d == Output(Fold(f, START, m + p + Length(|m|)));
    var p' :| IsPadding(|m|, p') && d' == Output(Fold(f, START, m + p' + Length(|m|)));
    PaddingIs(|m|, p);
    PaddingIs(|m|, p');
  }

  // ----- Folding in pieces -----

  lemma {:induction false} FoldAppend(f: Compress, s: Regs, a: seq<Byte>, b: seq<Byte>)
    requires |a| % BLOCK == 0
    ensures Fold(f, s, a + b) == Fold(f, Fold(f, s, a), b)
    decreases |a|
  {
    if |a| == 0 {
      assert a + b == b;
    } else {
      assert (a + b)[..BLOCK] == a[..BLOCK] && (a + b)[BLOCK..] == a[BLOCK..] + b;
      FoldAppend(f, f(s, a[..BLOCK]), a[BLOCK..], b);
    }
  }

  lemma OneBlock(f: Compress, s: Regs, b: seq<Byte>)
    requires |b| == BLOCK
    ensures Fold(f, s, b) == f(s, b) && b[..1 * BLOCK] == b
  {
    assert b[..BLOCK] == b;
  }

  /** The bytes after the last whole block. */
  function Rest(m: seq<Byte>): seq<Byte> { m[|m| - |m| % BLOCK..] }

  lemma {:induction false} FoldWhole(f: Compress, s: Regs, m: seq<Byte>)
    ensures Fold(f, s, m) == Fold(f, s, m[..|m| - |m| % BLOCK])
  {
    var k := |m| - |m| % BLOCK;
    assert m == m[..k] + m[k..];
    FoldAppend(f, s, m[..k], m[k..]);
  }

  lemma ModAppend(a: nat, b: nat)
    requires a % BLOCK == 0
    ensures (a + b) % BLOCK == b % BLOCK
  {
  }

  lemma {:induction false} RestAppend(a: seq<Byte>, b: seq<Byte>)
    requires |a| % BLOCK == 0
    ensures Rest(a + b) == Rest(b)
  {
    ModAppend(|a|, |b|);
  }

  /** More input that does not fill the block. */
  lemma {:induction false} Buffered(f: Compress, m: seq<Byte>, x: seq<Byte>)
    requires |m| % BLOCK + |x| < BLOCK
    ensures Fold(f, START, m + x) == Fold(f, START, m) && Rest(m + x) == Rest(m) + x
    ensures |m + x| % BLOCK == |m| % BLOCK + |x|
  {
    FoldWhole(f, START, m);
    FoldWhole(f, START, m + x);
    var k := |m| - |m| % BLOCK;
    ModAppend(k, |m| % BLOCK + |x|);
    assert (m + x)[..k] == m[..k];
  }

  /** More input that fills the block. */
  lemma {:induction false} Filled(f: Compress, m: seq<Byte>, x: seq<Byte>)
    requires |m| % BLOCK + |x| >= BLOCK
    ensures var p := BLOCK - |m| % BLOCK;
            && Fold(f, START, m + x) == Fold(f, f(Fold(f, START, m), Rest(m) + x[..p]), x[p..])
            && Rest(m + x) == Rest(x[p..]) && |m + x| % BLOCK == |x[p..]| % BLOCK
  {
    var r := |m| % BLOCK;
    var p := BLOCK - r;
    var block := Rest(m) + x[..p];
    assert m + x == (m + x[..p]) + x[p..] && m + x[..p] == m[..|m| - r] + block;
    ModAppend(|m| - r, BLOCK);
    RestAppend(m + x[..p], x[p..]);
    ModAppend(|m| + p, |x[p..]|);
    FoldAppend(f, START, m + x[..p], x[p..]);
    FoldWhole(f, START, m);
    FoldAppend(f, START, m[..|m| - r], block);
    OneBlock(f, Fold(f, START, m), block);
  }

  // ----- The counter -----

  /** The counter holds the number of bits modulo 2^64. */
  predicate Counts(low: Word, high: Word, n: nat) {
    low == 8 * n % WORD && high == 8 * n / WORD % WORD
  }

  lemma CountsModulo(low: Word, high: Word, n: nat)
    requires Counts(low, high, n)
    ensures high * WORD + low == 8 * n % (WORD * WORD)
  {
    var q := 8 * n / WORD;
    assert q == q / WORD * WORD + q % WORD;
  }

  lemma ByteIndex(low: Word, high: Word, n: nat)
    requires Counts(low, high, n)
    ensures low / 8 % BLOCK == n % BLOCK
  {
    var q := 8 * n / WORD;
    assert 8 * n == q * WORD + low;
    var x: nat := n - q * 0x2000_0000;
    assert low == 8 * x;
    ModShift(q * 0x80_0000, x);
  }

  lemma ModShift(t: nat, x: nat)
    ensures (BLOCK * t + x) % BLOCK == x % BLOCK
  {
  }

  lemma {:induction false} CarryIs(low: Word, add: Word)
    ensures var carry := if low + add >= WORD then 1 else 0;
            && (low + add) % WORD == low + add - carry * WORD && ((low + add) % WORD < add <==> carry == 1)
  {
  }

  /** The carry test of MD5Update is right for every length of the input. */
  lemma CountAdds(low: Word, high: Word, n: nat, k: Word)
    requires Counts(low, high, n)
    ensures var add := k * 8 % WORD;
            var low' := (low + add) % WORD;
            var high' := if low' < add then (high + 1) % WORD else high;
            Counts(low', (high' + k / 0x2000_0000) % WORD, n + k)
  {
    var q, q', add := 8 * n / WORD, k / 0x2000_0000, k * 8 % WORD;
    assert 8 * n == q * WORD + low;
    assert 8 * k == q' * WORD + add;
    var carry := if low + add >= WORD then 1 else 0;
    CarryIs(low, add);
    ModUnique(8 * (n + k), q + q' + carry, low + add - carry * WORD, WORD);
    WordAdd(q, carry);
    WordAdd(q + carry, q');
  }

  // ----- The context -----

  datatype Ctx = Ctx(state: Regs, low: Word, high: Word, buffer: seq<Byte>)

  /** The context after absorbing message `m`. */
  predicate Streams(f: Compress, c: Ctx, m: seq<Byte>) {
    && c.state == Fold(f, START, m)
    && Counts(c.low, c.high, |m|)
    && |c.buffer| == BLOCK && c.buffer[..|m| % BLOCK] == Rest(m)
  }

  /**
   However a message was cut into updates, the context is the same: registers, counter
   and the live part of the buffer.
   */
  lemma SameMessageSameContext(f: Compress, c: Ctx, c': Ctx, m: seq<Byte>)
    requires Streams(f, c, m) && Streams(f, c', m)
    ensures c.state == c'.state && c.low == c'.low && c.high == c'.high
    ensures var live := c.low / 8 % BLOCK; c.buffer[..live] == c'.buffer[..live]
  {
    ByteIndex(c.low, c.high, |m|);
  }

  class Context {
    const compress: Compress
    var state: Regs
    var low: Word
    var high: Word
    const buffer: array<Byte>
    ghost var message: seq<Byte>      // what was absorbed since MD5Init

    ghost function Now(): Ctx
      reads this, buffer
    {
      Ctx(state, low, high, buffer[..])
    }

    ghost predicate Valid()
      reads this, buffer
    {
      Streams(compress, Now(), message)
    }

    /** MD5Init */
    constructor (compress: Compress)
      ensures Valid() && message == [] && this.compress == compress && fresh(buffer)
    {
      this.compress := compress;
      low, high, state, message := 0, 0, START, [];
      buffer := new Byte[BLOCK];
    }

    /** __MD5Transform: `n` blocks of `input`. */
    method Transform(input: seq<Byte>, n: nat)
      requires n * BLOCK <= |input|
      modifies this`state
      ensures state == Fold(compress, old(state), input[..n * BLOCK])
    {
      var i := 0;
      while i < n
        invariant 0 <= i <= n
        invariant state == Fold(compress, old(state), input[..i * BLOCK])
      {
        var block := input[i * BLOCK..(i + 1) * BLOCK];
        FoldAppend(compress, old(state), input[..i * BLOCK], block);
        assert input[..i * BLOCK] + block == input[..(i + 1) * BLOCK];
        assert block[..BLOCK] == block;
        state := compress(state, block);
        i := i + 1;
      }
    }

    /** memcpy into the buffer. */
    method Copy(at: nat, input: seq<Byte>)
      requires at + |input| <= buffer.Length
      modifies buffer
      ensures buffer[..] == old(buffer[..at]) + input + old(buffer[at + |input|..])
    {
      forall k | 0 <= k < |input| {
        buffer[at + k] := input[k];
      }
    }

    /** The counter of MD5Update. */
    method Count(n: Word)
      requires Counts(low, high, |message|)
      modifies this`low, this`high
      ensures Counts(low, high, |message| + n)
    {
      hide Counts;
      CountAdds(low, high, |message|, n);
      var add := n * 8 % WORD;
      low := (low + add) % WORD;
      if low < add { high := (high + 1) % WORD; }
      high := (high + n / 0x2000_0000) % WORD;
    }

    /** MD5Update, when the current block gets full. */
    method UpdateBlocks(input: seq<Byte>, byteIndex: nat)
      requires buffer.Length == BLOCK && byteIndex == |message| % BLOCK && byteIndex + |input| >= BLOCK
      requires state == Fold(compress, START, message) && buffer[..byteIndex] == Rest(message)
      modifies this`state, buffer
      ensures state == Fold(compress, START, message + input)
      ensures buffer[..|message + input| % BLOCK] == Rest(message + input)
    {
      hide Fold;
      var partLen := BLOCK - byteIndex;
      Filled(compress, message, input);
      Copy(byteIndex, input[..partLen]);
      assert buffer[..] == Rest(message) + input[..partLen];
      Transform(buffer[..], 1);
      OneBlock(compress, old(state), buffer[..]);
      var len := (|input| - partLen) / BLOCK;
      FoldWhole(compress, state, input[partLen..]);
      Transform(input[partLen..], len);
      Copy(0, input[partLen + BLOCK * len..]);
    }

    /** MD5Update, when it does not. */
    method UpdatePart(input: seq<Byte>, byteIndex: nat)
      requires buffer.Length == BLOCK && byteIndex == |message| % BLOCK && byteIndex + |input| < BLOCK
      requires state == Fold(compress, START, message) && buffer[..byteIndex] == Rest(message)
      modifies buffer
      ensures state == Fold(compress, START, message + input)
      ensures buffer[..|message + input| % BLOCK] == Rest(message + input)
    {
      hide Fold, Rest;
      Buffered(compress, message, input);
      Copy(byteIndex, input);
    }

    /** MD5Update: the context becomes that of the longer message. */
    method Update(input: seq<Byte>)
      requires Valid() && |input| < WORD
      modifies this`state, this`low, this`high, this`message, buffer
      ensures Valid() && message == old(message) + input
    {
      hide Fold, Counts, Rest;
      ByteIndex(low, high, |message|);
      var byteIndex := low / 8 % BLOCK;
      Count(|input|);
      if |input| >= BLOCK - byteIndex {
        UpdateBlocks(input, byteIndex);
      } else {
        UpdatePart(input, byteIndex);
      }
      message := message + input;
    }

    /** MD5Final: the digest of RFC 1321 of what was absorbed; the context is wiped. */
    method Final() returns (digest: seq<Byte>)
      requires Valid()
      modifies this`state, this`low, this`high, this`message, buffer
      ensures IsDigest(compress, old(message), digest)
      ensures Now() == Ctx(Regs(0, 0, 0, 0), 0, 0, Zeros(BLOCK))
    {
      hide Fold, Rest, IsPadding, Bytes, Output;
      ByteIndex(low, high, |message|);
      var byteIndex := low / 8 % BLOCK;
      var finalLength := (if byteIndex < 56 then 56 else 120) - byteIndex;
      var finalBlock := Zeros(BLOCK)[0 := 0x80][..finalLength];
      PaddingIs(|message|, finalBlock);
      var bits := Bytes(low) + Bytes(high);
      assert bits == Length(|message|);
      Update(finalBlock);
      Update(bits);
      digest := Output(state);
      state, low, high := Regs(0, 0, 0, 0), 0, 0;
      Copy(0, Zeros(BLOCK));
    }
  }

  function Flatten(pieces: seq<seq<Byte>>): seq<Byte> {
    if |pieces| == 0 then [] else Flatten(pieces[..|pieces| - 1]) + pieces[|pieces| - 1]
  }

  /** Any cutting of a message into updates gives the digest of the whole message. */
  method Digest(compress: Compress, pieces: seq<seq<Byte>>) returns (digest: seq<Byte>)
    requires forall i | 0 <= i < |pieces| :: |pieces[i]| < WORD
    ensures IsDigest(compress, Flatten(pieces), digest)
  {
    var context := new Context(compress);
    var i := 0;
    while i < |pieces|
      invariant 0 <= i <= |pieces|
      invariant context.Valid() && fresh(context) && fresh(context.buffer) && context.compress == compress
      invariant context.message == Flatten(pieces[..i])
    {
      context.Update(pieces[i]);
      assert pieces[..i + 1][..i] == pieces[..i];
      i := i + 1;
    }
    assert pieces[..i] == pieces;
    digest := context.Final();
  }
}
