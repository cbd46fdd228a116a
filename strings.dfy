/** Counting characters in strings, used to state how many lines and braces a rendering has. */
module Strings {

  /** The number of occurrences of `c` in `s`. */
  function Occurrences(c: char, s: string): nat
  {
    if s == [] then 0 else (if s[0] == c then 1 else 0) + Occurrences(c, s[1..])
  }

  /** A character a string does not contain occurs in it zero times. */
  lemma {:induction false} OccurrencesAbsent(c: char, s: string)
    requires c !in s
    ensures Occurrences(c, s) == 0
  {
    if s != [] {
      assert s == [s[0]] + s[1..];
      OccurrencesAbsent(c, s[1..]);
    }
  }

  /** Counting distributes over concatenation. */
  lemma {:induction false} OccurrencesAppend(c: char, a: string, b: string)
    ensures Occurrences(c, a + b) == Occurrences(c, a) + Occurrences(c, b)
  {
    if a == [] {
      assert a + b == b;
    } else {
      assert (a + b)[1..] == a[1..] + b;
      OccurrencesAppend(c, a[1..], b);
    }
  }

  /** Counting over a text assembled from five pieces. */
  lemma OccurrencesOfFive(c: char, a: string, b: string, d: string, e: string, f: string)
    ensures Occurrences(c, a + b + d + e + f) ==
      Occurrences(c, a) + Occurrences(c, b) + Occurrences(c, d) + Occurrences(c, e) + Occurrences(c, f)
  {
    OccurrencesAppend(c, a, b);
    OccurrencesAppend(c, a + b, d);
    OccurrencesAppend(c, a + b + d, e);
    OccurrencesAppend(c, a + b + d + e, f);
  }

  /** A one-character string holds `c` once if it is `c`, else not at all. */
  lemma OccurrencesSingle(c: char, x: char)
    ensures Occurrences(c, [x]) == if x == c then 1 else 0
  {
    assert [x][1..] == [];
  }
}
