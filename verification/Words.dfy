/** Bytes and little-endian 32-bit words. */
module Words {

  type Byte = x: int | 0 <= x < 256

  type Word = x: int | 0 <= x < WORD

  const WORD: nat := 0x1_0000_0000

  function Bytes(w: Word): (r: seq<Byte>)
    ensures |r| == 4
  {
    [w % 256, w / 256 % 256, w / 256 / 256 % 256, w / 256 / 256 / 256]
  }

  /** The word at byte `at`. */
  function Value(s: seq<Byte>, at: nat): Word
    requires at + 4 <= |s|
  {
    (s[at] as int) + 256 * (s[at + 1] as int) + 65536 * (s[at + 2] as int) + 16777216 * (s[at + 3] as int)
  }

  lemma WordAdd(x: nat, y: nat)
    ensures (x % WORD + y) % WORD == (x + y) % WORD
  {
    assert x == x / WORD * WORD + x % WORD;
  }

  lemma FourDigits(w: Word)
    ensures Value(Bytes(w), 0) == w
  {
    var a := w / 256;
    var b := a / 256;
    assert w == 256 * a + w % 256 && a == 256 * b + a % 256 && b == 256 * (b / 256) + b % 256;
  }

  /** A stored word reads back. */
  lemma ValueOfBytes(w: Word, s: seq<Byte>, at: nat)
    requires at + 4 <= |s| && s[at..at + 4] == Bytes(w)
    ensures Value(s, at) == w
  {
    FourDigits(w);
    hide Bytes;
    var r := Bytes(w);
    assert s[at] == s[at..at + 4][0] == r[0] && s[at + 1] == s[at..at + 4][1] == r[1];
    assert s[at + 2] == s[at..at + 4][2] == r[2] && s[at + 3] == s[at..at + 4][3] == r[3];
  }
}
