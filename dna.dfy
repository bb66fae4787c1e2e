/**
 * The DNA statistics program built on the char Vector: reading a strand,
 * checking that it holds only nucleotides, reversing it, deciding whether it
 * is a palindrome and counting each nucleotide.
 */
module Dna {
  import opened SeqOps
  import opened GenericVector

  predicate IsNucleotide(c: char) {
    c == 'A' || c == 'C' || c == 'G' || c == 'T'
  }

  /** Every character equals its mirror image. */
  predicate IsPalindrome(s: seq<char>) {
    forall i :: 0 <= i < |s| ==> s[i] == s[|s| - 1 - i]
  }

  /** A palindrome is exactly a strand that reads the same reversed. */
  lemma PalindromeIffReversed(s: seq<char>)
    ensures IsPalindrome(s) <==> Reversed(s) == s
  {
    if Reversed(s) == s {
      forall i | 0 <= i < |s|
        ensures s[i] == s[|s| - 1 - i]
      {
        assert Reversed(s)[i] == s[|s| - 1 - i];
      }
    }
  }

  /** The number of times `c` occurs in `s`. */
  function Occurrences(s: seq<char>, c: char): (n: nat)
    ensures n <= |s|
  {
    if s == [] then 0 else Occurrences(s[..|s| - 1], c) + (if s[|s| - 1] == c then 1 else 0)
  }

  /** The four nucleotide counts of a strand, in the order A, C, G, T. */
  datatype Counts = Counts(a: nat, c: nat, g: nat, t: nat)

  /**
   * operator>>: the characters of the word just read are pushed onto the
   * end of the vector one at a time.
   */
  method ReadInto(v: Vector<char>, word: string)
    requires v.Valid()
    modifies v
    ensures v.Valid() && v.Elements() == old(v.Elements()) + word
  {
    for i := 0 to |word|
      modifies v
      invariant v.Valid() && v.Elements() == old(v.Elements()) + word[..i]
    {
      v.PushBack(word[i]);
      assert word[..i + 1] == word[..i] + [word[i]];
    }
    assert word[..|word|] == word;
  }

  /** The check in main: the exit state stays successful only when every character is A, C, G or T. */
  method AllNucleotides(v: Vector<char>) returns (ok: bool)
    requires v.Valid()
    ensures ok <==> forall i :: 0 <= i < |v.Elements()| ==> IsNucleotide(v.Elements()[i])
  {
    ok := true;
    for i := 0 to v.Size()
      invariant ok <==> forall j :: 0 <= j < i ==> IsNucleotide(v.Elements()[j])
    {
      if !IsNucleotide(v.At(i)) {
        ok := false;
      }
    }
  }

  /**
   * palindrome(vector): compares each of the first size/2 characters with
   * its mirror image; any mismatch makes the answer false.
   */
  method Palindrome(v: Vector<char>) returns (b: bool)
    requires v.Valid()
    ensures b <==> IsPalindrome(v.Elements())
  {
    ghost var s := v.Elements();
    var n := v.Size();
    b := true;
    for i := 0 to n / 2
      invariant b <==> forall j :: 0 <= j < i ==> s[j] == s[n - 1 - j]
    {
      if v.At(i) != v.At(n - i - 1) {
        b := false;
      }
    }
    if b {
      forall j | 0 <= j < n
        ensures s[j] == s[n - 1 - j]
      {
        if j >= n / 2 {
          var m := n - 1 - j;
          assert m < n / 2 || m == j;
          assert s[m] == s[n - 1 - m];
        }
      }
    }
  }

  /** The "Reversed Sequence" line of printStatistics: the characters from the last down to the first. */
  method ReversedSequence(v: Vector<char>) returns (r: seq<char>)
    requires v.Valid()
    ensures r == Reversed(v.Elements())
  {
    ghost var s := v.Elements();
    r := [];
    var i := v.Size();
    while i > 0
      invariant 0 <= i <= |s|
      invariant r == Reversed(s[i..])
    {
      r := r + [v.At(i - 1)];
      i := i - 1;
      assert forall k :: 0 <= k < |r| ==> r[k] == Reversed(s[i..])[k];
    }
  }

  /** nucleotideCount(vector): one pass over the strand counting each of the four nucleotides; other characters are skipped. */
  method NucleotideCount(v: Vector<char>) returns (counts: Counts)
    requires v.Valid()
    ensures var s := v.Elements();
      counts == Counts(Occurrences(s, 'A'), Occurrences(s, 'C'), Occurrences(s, 'G'), Occurrences(s, 'T'))
  {
    ghost var s := v.Elements();
    var a, c, g, t := 0, 0, 0, 0;
    for i := 0 to v.Size()
      invariant a == Occurrences(s[..i], 'A') && c == Occurrences(s[..i], 'C')
      invariant g == Occurrences(s[..i], 'G') && t == Occurrences(s[..i], 'T')
    {
      assert s[..i + 1][..i] == s[..i];
      match v.At(i)
      case 'A' => a := a + 1;
      case 'C' => c := c + 1;
      case 'G' => g := g + 1;
      case 'T' => t := t + 1;
      case _ =>
    }
    assert s[..|s|] == s;
    counts := Counts(a, c, g, t);
  }

  /** In a strand of nucleotides only, the four counts add up to its length. */
  lemma {:induction false} CountsCoverStrand(s: seq<char>)
    requires forall i :: 0 <= i < |s| ==> IsNucleotide(s[i])
    ensures Occurrences(s, 'A') + Occurrences(s, 'C') + Occurrences(s, 'G') + Occurrences(s, 'T') == |s|
  {
    if s != [] {
      CountsCoverStrand(s[..|s| - 1]);
    }
  }

  /** Reversing a strand leaves each count as it was. */
  lemma {:induction false} OccurrencesOfReversed(s: seq<char>, c: char)
    ensures Occurrences(Reversed(s), c) == Occurrences(s, c)
  {
    if s != [] {
      var r := Reversed(s);
      OccurrencesOfReversed(s[1..], c);
      assert r[..|r| - 1] == Reversed(s[1..]);
      OccurrencesOfTail(s, c);
    }
  }

  /** Counting from the front: the first character plus the rest. */
  lemma {:induction false} OccurrencesOfTail(s: seq<char>, c: char)
    requires s != []
    ensures Occurrences(s, c) == (if s[0] == c then 1 else 0) + Occurrences(s[1..], c)
  {
    if |s| > 1 {
      OccurrencesOfTail(s[..|s| - 1], c);
      assert s[..|s| - 1][1..] == s[1..][..|s| - 2];
    }
  }
}
