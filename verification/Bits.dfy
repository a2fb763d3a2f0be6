/**
 The bitmaps of kernel/libk/bits.c and bits.h: arrays of 32-bit words, searched
 and filled word by word.  A word is its 32 bits, lowest first; bit number k of a
 bitmap is bit k mod 32 of word k / 32.
 */
module Bits {
  const WIDTH: nat := 32

  type Word = w: seq<bool> | |w| == WIDTH witness seq(WIDTH, i => false)

  // ----- The word operations the code uses -----

  function Or(a: Word, b: Word): Word { seq(WIDTH, i requires 0 <= i < WIDTH => a[i] || b[i]) }

  function AndNot(a: Word, b: Word): Word { seq(WIDTH, i requires 0 <= i < WIDTH => a[i] && !b[i]) }

  /** w << s */
  function Shl(w: Word, s: nat): Word {
    seq(WIDTH, i requires 0 <= i < WIDTH => s <= i && w[i - s])
  }

  /** (1 << len) - 1; all ones for len = 32 */
  function LowOnes(len: nat): Word { seq(WIDTH, i => i < len) }

  // ----- Bitmaps as sequences of bits -----

  predicate BitAt(a: seq<Word>, k: nat)
    requires k / WIDTH < |a|
  {
    a[k / WIDTH][k % WIDTH]
  }

  /** The first `n` bits of a bitmap. */
  function Bits(a: seq<Word>, n: nat): (s: seq<bool>)
    requires n <= WIDTH * |a|
    ensures |s| == n && forall k: nat | k < n :: s[k] == BitAt(a, k)
  {
    seq(n, (k: nat) requires k < n => BitAt(a, k))
  }

  /** The first set (`want`) or clear bit at or above `from`, or -1. */
  function First(bits: seq<bool>, want: bool, from: nat): int
    decreases |bits| - from
  {
    if from >= |bits| then -1
    else if bits[from] == want then from
    else First(bits, want, from + 1)
  }

  lemma {:induction false} FirstIs(bits: seq<bool>, want: bool, from: nat)
    ensures var r := First(bits, want, from);
            && (r == -1 || from <= r < |bits|)
            && (r == -1 <==> forall k | from <= k < |bits| :: bits[k] != want)
            && (r != -1 ==> bits[r] == want && forall k | from <= k < r :: bits[k] != want)
    decreases |bits| - from
  {
    if from < |bits| && bits[from] != want { FirstIs(bits, want, from + 1); }
  }

  /** Bits [index, index + len) have the value `b`, all others are as they were. */
  function Filled(bits: seq<bool>, index: nat, len: nat, b: bool): (s: seq<bool>)
    requires index + len <= |bits|
    ensures |s| == |bits|
    ensures forall k | 0 <= k < |s| :: s[k] == if index <= k < index + len then b else bits[k]
  {
    seq(|bits|, k requires 0 <= k < |bits| => if index <= k < index + len then b else bits[k])
  }

  // ----- The code -----

  /** The loop over the bits of one word; 32 when it finds nothing. */
  method ScanWord(w: Word, want: bool, from: nat) returns (j: nat)
    requires from <= WIDTH
    ensures from <= j <= WIDTH && (forall k | from <= k < j :: w[k] != want) && (j < WIDTH ==> w[j] == want)
  {
    j := from;
    while j < WIDTH
      invariant from <= j <= WIDTH && forall k | from <= k < j :: w[k] != want
    {
      if w[j] == want { return; }
      j := j + 1;
    }
  }

  /**
   How many bits a search looks at: the whole words within `size` bytes, and the word
   of a start that is not at the beginning of one, wherever it lies.
   */
  function Extent(index: nat, size: nat): (n: nat)
    ensures n % WIDTH == 0
    ensures size % 4 == 0 && (index % WIDTH != 0 ==> index < 8 * size) ==> n == 8 * size
  {
    var words, first := 8 * size / WIDTH, if index % WIDTH != 0 then index / WIDTH + 1 else 0;
    WIDTH * if words > first then words else first
  }

  /** bitmap_ffs2 (`want`) and bitmap_ffc2; `size` is in bytes. */
  method Find(bitmap: array<Word>, want: bool, index: nat, size: nat) returns (r: int)
    requires Extent(index, size) <= WIDTH * bitmap.Length
    ensures r == First(Bits(bitmap[..], Extent(index, size)), want, index)
  {
    hide First;
    ghost var a, n := bitmap[..], Extent(index, size);
    var i, j: nat := index / WIDTH, index % WIDTH;
    if j != 0 {
      j := ScanWord(bitmap[i], want, j);
      Searched(a, n, want, i, index % WIDTH, j);
      if j < WIDTH { return WIDTH * i + j; }
      i := i + 1;
    }
    while i < 8 * size / WIDTH
      invariant First(Bits(a, n), want, index) == First(Bits(a, n), want, WIDTH * i)
      invariant i >= if index % WIDTH != 0 then index / WIDTH + 1 else 0
    {
      if exists k :: 0 <= k < WIDTH && bitmap[i][k] == want {  // the word is not all zeros (ones)
        j := ScanWord(bitmap[i], want, 0);
      } else {
        j := WIDTH;
      }
      Searched(a, n, want, i, 0, j);
      if j < WIDTH { return WIDTH * i + j; }
      i := i + 1;
    }
    FirstPastEnd(Bits(a, n), want, WIDTH * i);
    return -1;
  }

  /** What the scan of part of one word says about the whole search. */
  lemma {:induction false} Searched(a: seq<Word>, n: nat, want: bool, i: nat, from: nat, j: nat)
    requires n % WIDTH == 0 && n <= WIDTH * |a| && WIDTH * i < n && from <= j <= WIDTH
    requires (forall k | from <= k < j :: a[i][k] != want) && (j < WIDTH ==> a[i][j] == want)
    ensures First(Bits(a, n), want, WIDTH * i + from) ==
            if j < WIDTH then WIDTH * i + j else First(Bits(a, n), want, WIDTH * (i + 1))
  {
    var bits := Bits(a, n);
    forall k | 0 <= k < WIDTH ensures bits[WIDTH * i + k] == a[i][k] {
      assert (WIDTH * i + k) / WIDTH == i && (WIDTH * i + k) % WIDTH == k;
    }
    forall k | WIDTH * i + from <= k < WIDTH * i + j ensures bits[k] != want {
      assert bits[k] == a[i][k - WIDTH * i];
    }
    Advance(bits, want, WIDTH * i + from, WIDTH * i + j);
  }

  lemma FirstPastEnd(bits: seq<bool>, want: bool, from: nat)
    requires from >= |bits|
    ensures First(bits, want, from) == -1
  {
  }

  lemma {:induction false} Advance(bits: seq<bool>, want: bool, from: nat, end: nat)
    requires from <= end <= |bits| && forall k | from <= k < end :: bits[k] != want
    ensures First(bits, want, from) == First(bits, want, end)
    decreases end - from
  {
    if from < end { Advance(bits, want, from + 1, end); }
  }

  /** bitmap_set_range (`b`) and bitmap_clear_range; nothing happens for len <= 0. */
  method FillRange(bitmap: array<Word>, start: nat, length: int, b: bool)
    requires length > 0 ==> start + length <= WIDTH * bitmap.Length
    modifies bitmap
    ensures Bits(bitmap[..], WIDTH * bitmap.Length)
         == old(if length > 0 then Filled(Bits(bitmap[..], WIDTH * bitmap.Length), start, length, b)
                else Bits(bitmap[..], WIDTH * bitmap.Length))
  {
    ghost var was, n := bitmap[..], bitmap.Length;
    var i: nat, index: nat, len := start / WIDTH, start % WIDTH, length;
    while len > 0
      invariant length <= 0 ==> len == length && bitmap[..] == was
      invariant length > 0 ==> 0 <= len <= length && WIDTH * i + index + len == start + length
      invariant len > 0 ==> index < WIDTH
      invariant length > 0 ==> FilledUpTo(was, bitmap[..], start, start + length - len, b)
    {
      ghost var before := bitmap[..];
      if len + index >= WIDTH {
        var val := if index == 0 then LowOnes(WIDTH) else LowOnes(WIDTH - index);
        bitmap[i] := if b then Or(bitmap[i], Shl(val, index)) else AndNot(bitmap[i], Shl(val, index));
        FillWord(before, bitmap[..], i, index, WIDTH - index, b);
        FillFurther(was, before, bitmap[..], start, WIDTH * i + index, WIDTH - index, b);
        i := i + 1;
        len := len - (WIDTH - index);
        index := 0;
      } else {
        bitmap[i] := if b then Or(bitmap[i], Shl(LowOnes(len), index))
                     else AndNot(bitmap[i], Shl(LowOnes(len), index));
        FillWord(before, bitmap[..], i, index, len, b);
        FillFurther(was, before, bitmap[..], start, WIDTH * i + index, len, b);
        len := 0;
        break;
      }
    }
  }

  ghost predicate FilledUpTo(a: seq<Word>, a': seq<Word>, start: nat, end: nat, b: bool) {
    |a'| == |a| &&
    forall k: nat | k < WIDTH * |a| :: BitAt(a', k) == if start <= k < end then b else BitAt(a, k)
  }

  lemma {:induction false} FillFurther(a: seq<Word>, a1: seq<Word>, a2: seq<Word>, start: nat, end: nat, len: nat, b: bool)
    requires start <= end && FilledUpTo(a, a1, start, end, b) && FilledUpTo(a1, a2, end, end + len, b)
    ensures FilledUpTo(a, a2, start, end + len, b)
  {
  }

  lemma {:induction false} FillWord(a: seq<Word>, a': seq<Word>, i: nat, index: nat, len: nat, b: bool)
    requires i < |a| && index + len <= WIDTH
    requires var m := Shl(LowOnes(len), index);
             a' == a[i := if b then Or(a[i], m) else AndNot(a[i], m)]
    ensures FilledUpTo(a, a', WIDTH * i + index, WIDTH * i + index + len, b)
  {
    forall k: nat | k < WIDTH * |a|
      ensures BitAt(a', k) == if WIDTH * i + index <= k < WIDTH * i + index + len then b else BitAt(a, k)
    {
      assert k == WIDTH * (k / WIDTH) + k % WIDTH;
    }
  }
}
