/**
 Facts about strings (sequences of characters) that the message proofs use:
 prefixes, occurrences of a part at a position, and the first apostrophe.
 */
module Text {

  lemma AppendAssociative(a: string, b: string, c: string)
    ensures a + (b + c) == a + b + c
  {
  }

  /** `s` opens with `prefix` (Dafny's sequence prefix order). */
  predicate StartsWith(s: string, prefix: string) {
    prefix <= s
  }

  /** `part` occurs in `s` at position `at`. */
  predicate OccursAt(s: string, part: string, at: nat) {
    at + |part| <= |s| && s[at..at + |part|] == part
  }

  predicate Contains(s: string, part: string) {
    exists at: nat | at <= |s| :: OccursAt(s, part, at)
  }

  /** A text that differs from `prefix` at some position within both does
      not start with `prefix`. */
  lemma DiffersWithin(s: string, prefix: string, i: nat)
    requires i < |s| && i < |prefix| && s[i] != prefix[i]
    ensures !StartsWith(s, prefix)
  {
    if |prefix| <= |s| {
      assert s[..|prefix|][i] == s[i];
    }
  }

  /** A text starts with its own first part. */
  lemma StartsWithFirst(first: string, rest: string)
    ensures StartsWith(first + rest, first)
  {
    assert (first + rest)[..|first|] == first;
  }

  /** A part appended to a text occurs right after it. */
  lemma OccursAtEnd(s: string, part: string)
    ensures OccursAt(s + part, part, |s|)
  {
    assert (s + part)[|s|..|s| + |part|] == part;
  }

  /** Appending text keeps every occurrence where it was. */
  lemma OccursAppended(s: string, part: string, at: nat, more: string)
    requires OccursAt(s, part, at)
    ensures OccursAt(s + more, part, at)
  {
    assert (s + more)[at..at + |part|] == s[at..at + |part|];
  }

  /** An occurrence at a known position witnesses `Contains`. */
  lemma OccursContains(s: string, part: string, at: nat)
    requires OccursAt(s, part, at)
    ensures Contains(s, part)
  {
  }

  /** Index of the first apostrophe in `s` at or after `from`, or `|s|` when
      there is none. */
  function QuoteIndexFrom(s: string, from: nat): nat
    decreases |s| - from
  {
    if from >= |s| then |s|
    else if s[from] == '\'' then from
    else QuoteIndexFrom(s, from + 1)
  }

  /** An apostrophe-free part that occurs at `at` and is followed by an
      apostrophe ends exactly at the first apostrophe from `at` on; so the
      part can be read back from the text. */
  lemma {:induction false} QuoteIndexAfter(s: string, part: string, at: nat)
    requires OccursAt(s, part, at) && '\'' !in part
    requires at + |part| < |s| && s[at + |part|] == '\''
    ensures QuoteIndexFrom(s, at) == at + |part|
    decreases |part|
  {
    if part != [] {
      assert s[at] == part[0];
      assert s[at + 1..at + 1 + |part[1..]|] == part[1..];
      QuoteIndexAfter(s, part[1..], at + 1);
    }
  }
}
