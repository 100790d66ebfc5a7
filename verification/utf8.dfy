/**
 * Byte length of the UTF-8 encoding of a string. Rust's `str::len` counts
 * bytes, while a Dafny `string` is a sequence of Unicode scalar values, so
 * the width of each code point is spelled out here.
 */
module Utf8 {

  /** Number of bytes UTF-8 uses for one code point (1 to 4). */
  function Width(c: char): (w: nat)
    ensures 1 <= w <= 4
    ensures w == 1 <==> (c as int) < 0x80
  {
    if (c as int) < 0x80 then 1
    else if (c as int) < 0x800 then 2
    else if (c as int) < 0x1_0000 then 3
    else 4
  }

  /** `s.len()` for a Rust `&str`: the UTF-8 byte length of `s`. */
  function Len(s: string): nat
  {
    if |s| == 0 then 0 else Width(s[0]) + Len(s[1..])
  }

  /** Every code point takes between one and four bytes. */
  lemma {:induction false} LenBounds(s: string)
    ensures |s| <= Len(s) <= 4 * |s|
  {
    if |s| > 0 {
      LenBounds(s[1..]);
    }
  }

  /** A string of ASCII code points is as long in bytes as in code points. */
  lemma {:induction false} LenAscii(s: string)
    requires forall i :: 0 <= i < |s| ==> (s[i] as int) < 0x80
    ensures Len(s) == |s|
  {
    if |s| > 0 {
      LenAscii(s[1..]);
    }
  }

  /** `n` copies of the code point `c` take `n` times its width. */
  lemma {:induction false} LenRepeat(c: char, n: nat)
    ensures Len(seq(n, _ => c)) == n * Width(c)
  {
    if n > 0 {
      var s := seq(n, _ => c);
      assert s[1..] == seq(n - 1, _ => c);
      LenRepeat(c, n - 1);
    }
  }
}
