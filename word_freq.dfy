/**
 * The word-frequency counter: each word read is normalised, counted in a
 * table of (word, frequency) entries kept in a Vector, and the table is
 * finally sorted by frequency, most frequent first, ties in word order.
 */
module WordFrequency {
  import opened CLib
  import opened GenericVector

  /** One entry of the table. */
  datatype WordFreq = WordFreq(word: string, frequency: int)

  /** Every character lower-cased. */
  function LowerAll(s: string): (r: string)
    ensures |r| == |s| && forall i :: 0 <= i < |s| ==> r[i] == ToLower(s[i])
  {
    seq(|s|, i requires 0 <= i < |s| => ToLower(s[i]))
  }

  // ---------------------------------------------------------------------
  // processWord
  // ---------------------------------------------------------------------

  /**
   * One pass of the first loop of processWord: `start` moves past a
   * non-alphanumeric character, then `end` moves back over one while it is
   * still after `start`.
   */
  function TrimPass(word: string, start: nat, end: nat): (nat, nat)
    requires start <= |word| && end < |word|
  {
    var s := if start < |word| && !IsAlnum(word[start]) then start + 1 else start;
    var e := if end > s && !IsAlnum(word[end]) then end - 1 else end;
    (s, e)
  }

  /** `start` and `end` after `passes` passes, from the first and the last index. */
  function Trim(word: string, passes: nat): (b: (nat, nat))
    requires |word| > 0
    ensures b.0 <= |word| && b.1 < |word|
  {
    if passes == 0 then (0, |word| - 1)
    else
      var b := Trim(word, passes - 1);
      TrimPass(word, b.0, b.1)
  }

  /**
   * What processWord returns: the characters between the indices left after
   * one pass per character but the last, lower-cased; nothing when the
   * indices have crossed.
   */
  function Normalised(word: string): string
    requires |word| > 0
  {
    var (start, end) := Trim(word, |word| - 1);
    if start <= end then LowerAll(word[start..end + 1]) else []
  }

  /**
   * processWord(word): strips non-alphanumeric characters from both ends,
   * one per pass from each end, and lower-cases what is left. `length() - 1`
   * is unsigned, so the word must not be empty (operator>> never reads one).
   */
  method ProcessWord(word: string) returns (result: string)
    requires |word| > 0
    ensures result == Normalised(word)
  {
    var start, end := TrimEnds(word);
    result := "";
    var i := start;
    while i <= end
      invariant start <= i <= |word| && (i <= end + 1 || i == start)
      invariant result == LowerAll(word[start..i])
    {
      result := result + [ToLower(word[i])];
      i := i + 1;
      assert LowerAll(word[start..i]) == LowerAll(word[start..i - 1]) + [ToLower(word[i - 1])];
    }
  }

  /** The first loop of processWord. */
  method TrimEnds(word: string) returns (start: nat, end: nat)
    requires |word| > 0
    ensures (start, end) == Trim(word, |word| - 1)
  {
    start, end := 0, |word| - 1;
    for i := 0 to |word| - 1
      invariant (start, end) == Trim(word, i)
    {
      if start < |word| && !IsAlnum(word[start]) {
        start := start + 1;
      }
      if end > start && !IsAlnum(word[end]) {
        end := end - 1;
      }
    }
  }

  /**
   * After `passes` passes, at most `passes` characters have gone from each
   * end, and every character that went is not alphanumeric.
   */
  lemma {:induction false} TrimStripsNonAlnum(word: string, passes: nat)
    requires |word| > 0
    ensures var (start, end) := Trim(word, passes);
      start <= passes && |word| - 1 - end <= passes &&
      (forall i :: 0 <= i < start ==> !IsAlnum(word[i])) &&
      (forall i :: end < i < |word| ==> !IsAlnum(word[i]))
  {
    if passes > 0 {
      TrimStripsNonAlnum(word, passes - 1);
    }
  }

  /** A word that starts and ends with an alphanumeric character is only lower-cased. */
  lemma {:induction false} TrimKeepsAlnumEnds(word: string, passes: nat)
    requires |word| > 0 && IsAlnum(word[0]) && IsAlnum(word[|word| - 1])
    ensures Trim(word, passes) == (0, |word| - 1)
  {
    if passes > 0 {
      TrimKeepsAlnumEnds(word, passes - 1);
    }
  }

  /** Such a word comes out of processWord lower-cased and whole. */
  lemma NormalisedAlnumEnds(word: string)
    requires |word| > 0 && IsAlnum(word[0]) && IsAlnum(word[|word| - 1])
    ensures Normalised(word) == LowerAll(word)
  {
    TrimKeepsAlnumEnds(word, |word| - 1);
    assert word[0..|word|] == word;
  }

  lemma TrailingPunctuationDropped()
    ensures Normalised("Hello,") == "hello"
  {
    var w := "Hello,";
    assert Trim(w, 1) == (0, 4);
    assert Trim(w, 2) == (0, 4);
    assert Trim(w, 3) == (0, 4);
    assert Trim(w, 4) == (0, 4);
    assert Trim(w, 5) == (0, 4);
    assert w[0..5] == "Hello";
  }

  lemma QuotesDropped()
    ensures Normalised("\"Yes!\"") == "yes"
  {
    var w := "\"Yes!\"";
    assert Trim(w, 1) == (1, 4);
    assert Trim(w, 2) == (1, 3);
    assert Trim(w, 3) == (1, 3);
    assert Trim(w, 4) == (1, 3);
    assert w[1..4] == "Yes";
  }

  /** A word of punctuation alone loses its ends but keeps a character, or loses everything. */
  lemma PunctuationOnly()
    ensures Normalised("--") == "-"
    ensures Normalised("!!!!!") == ""
  {
    assert Trim("--", 1) == (1, 1);
    assert "--"[1..2] == "-";
    var w := "!!!!!";
    assert Trim(w, 1) == (1, 3);
    assert Trim(w, 2) == (2, 2);
    assert Trim(w, 3) == (3, 2);
    assert Trim(w, 4) == (4, 2);
  }

  // ---------------------------------------------------------------------
  // verify
  // ---------------------------------------------------------------------

  /** The index of the first entry for `word`, if any. */
  function Find(table: seq<WordFreq>, word: string): (r: Option<nat>)
    ensures r.Some? ==> r.value < |table| && table[r.value].word == word &&
                        forall j :: 0 <= j < r.value ==> table[j].word != word
    ensures r.None? ==> forall j :: 0 <= j < |table| ==> table[j].word != word
  {
    if table == [] then None
    else if table[0].word == word then Some(0)
    else match Find(table[1..], word)
      case Some(i) => Some(i + 1)
      case None => None
  }

  /**
   * The table after verify(counter, word): the first entry for the word
   * counts one more; a word not in the table is added with frequency 1 when
   * its first character is alphanumeric (the empty word's first character
   * is the terminating NUL, which is not).
   */
  function Counted(table: seq<WordFreq>, word: string): seq<WordFreq> {
    match Find(table, word)
    case Some(i) => table[i := table[i].(frequency := table[i].frequency + 1)]
    case None => if word != [] && IsAlnum(word[0]) then table + [WordFreq(word, 1)] else table
  }

  /**
   * verify(counter, word): the first entry whose word matches counts one
   * more, and the loop stops; otherwise the word may be appended.
   */
  method Verify(counter: Vector<WordFreq>, word: string)
    requires counter.Valid()
    modifies counter, counter.data
    ensures counter.Valid()
    ensures counter.Elements() == Counted(old(counter.Elements()), word)
  {
    ghost var table := counter.Elements();
    var found := false;
    var i := 0;
    while i < counter.Size()
      invariant counter.Valid() && counter.data == old(counter.data)
      invariant counter.count == |table| && i <= |table| + 1
      invariant !found ==> counter.Elements() == table && i <= |table| &&
                           forall j :: 0 <= j < i ==> table[j].word != word
      invariant found ==> i == |table| + 1 && counter.Elements() == Counted(table, word)
      decreases |table| + 1 - i
    {
      if counter.data[i].word == word {
        assert counter.data[i] == table[i];
        assert Find(table, word) == Some(i);
        counter.data[i] := counter.data[i].(frequency := counter.data[i].frequency + 1);
        assert counter.Elements() == table[i := table[i].(frequency := table[i].frequency + 1)];
        found := true;
        i := counter.Size();
      }
      i := i + 1;
    }
    if !found && word != [] && IsAlnum(word[0]) {
      counter.PushBack(WordFreq(word, 1));
    }
  }

  /** No two entries share a word, and every frequency is at least 1. */
  predicate WellFormed(table: seq<WordFreq>) {
    (forall i, j :: 0 <= i < j < |table| ==> table[i].word != table[j].word) &&
    (forall i :: 0 <= i < |table| ==> table[i].frequency >= 1)
  }

  /** verify keeps the words distinct and every count positive. */
  lemma CountedWellFormed(table: seq<WordFreq>, word: string)
    requires WellFormed(table)
    ensures WellFormed(Counted(table, word))
  {
  }

  /** A word already present: its entry counts one more and nothing else changes. */
  lemma CountedPresent(table: seq<WordFreq>, word: string, k: nat)
    requires WellFormed(table) && k < |table| && table[k].word == word
    ensures var t := Counted(table, word);
      |t| == |table| && t[k] == WordFreq(word, table[k].frequency + 1) &&
      forall j :: 0 <= j < |table| && j != k ==> t[j] == table[j]
  {
  }

  /** A word not present: appended with count 1 exactly when it starts with an alphanumeric character. */
  lemma CountedAbsent(table: seq<WordFreq>, word: string)
    requires forall j :: 0 <= j < |table| ==> table[j].word != word
    ensures Counted(table, word) == if word != [] && IsAlnum(word[0]) then table + [WordFreq(word, 1)] else table
  {
  }

  // ---------------------------------------------------------------------
  // selectionSort
  // ---------------------------------------------------------------------

  /** std::string's `<`: lexicographic by character code. */
  predicate StringLess(a: string, b: string)
    decreases |a|
  {
    if a == [] then b != []
    else b != [] && (a[0] < b[0] || (a[0] == b[0] && StringLess(a[1..], b[1..])))
  }

  lemma {:induction false} StringLessIrreflexive(a: string)
    ensures !StringLess(a, a)
    decreases |a|
  {
    if a != [] {
      StringLessIrreflexive(a[1..]);
    }
  }

  lemma {:induction false} StringLessTransitive(a: string, b: string, c: string)
    requires StringLess(a, b) && StringLess(b, c)
    ensures StringLess(a, c)
    decreases |a|
  {
    if a != [] && a[0] == b[0] && b[0] == c[0] {
      StringLessTransitive(a[1..], b[1..], c[1..]);
    }
  }

  /** `x` goes before `y`: a higher frequency, or the same frequency and a smaller word. */
  predicate Before(x: WordFreq, y: WordFreq) {
    x.frequency > y.frequency || (x.frequency == y.frequency && StringLess(x.word, y.word))
  }

  lemma BeforeTransitive(x: WordFreq, y: WordFreq, z: WordFreq)
    requires Before(x, y) && Before(y, z)
    ensures Before(x, z)
  {
    if x.frequency == y.frequency == z.frequency {
      StringLessTransitive(x.word, y.word, z.word);
    }
  }

  /** No entry goes before an earlier one. */
  predicate Ordered(table: seq<WordFreq>) {
    forall p, q :: 0 <= p < q < |table| ==> !Before(table[q], table[p])
  }

  /**
   * selectionSort(counter): for each position but the last, the entry that
   * goes first among the rest is swapped into it. `size() - 1` is unsigned,
   * so the table must not be empty.
   */
  method SelectionSort(counter: Vector<WordFreq>)
    requires counter.Valid() && counter.count > 0
    modifies counter.data
    ensures counter.Valid()
    ensures multiset(counter.Elements()) == multiset(old(counter.Elements()))
    ensures Ordered(counter.Elements())
  {
    var a, n := counter.data, counter.count;
    for i := 0 to n - 1
      invariant multiset(a[..n]) == multiset(old(a[..n]))
      invariant forall p, q :: 0 <= p < i && p < q < n ==> !Before(a[q], a[p])
    {
      var smallestIndex := FirstOfRest(a, i, n);
      SwapEntries(a, n, i, smallestIndex);
    }
  }

  /** The inner loop of selectionSort: the first entry of a[from..n) that nothing there goes before. */
  method FirstOfRest(a: array<WordFreq>, from: nat, n: nat) returns (smallestIndex: nat)
    requires from < n <= a.Length
    ensures from <= smallestIndex < n
    ensures forall k :: from <= k < n ==> !Before(a[k], a[smallestIndex])
  {
    smallestIndex := from;
    StringLessIrreflexive(a[from].word);
    for j := from + 1 to n
      invariant from <= smallestIndex < j
      invariant forall k :: from <= k < j ==> !Before(a[k], a[smallestIndex])
    {
      if a[j].frequency > a[smallestIndex].frequency ||
         (a[j].frequency == a[smallestIndex].frequency && StringLess(a[j].word, a[smallestIndex].word)) {
        forall k | from <= k < j
          ensures !Before(a[k], a[j])
        {
          if Before(a[k], a[j]) {
            BeforeTransitive(a[k], a[j], a[smallestIndex]);
          }
        }
        StringLessIrreflexive(a[j].word);
        smallestIndex := j;
      }
    }
  }

  /**
   * The exchange through `tmp` at the end of each pass: the order of the
   * sorted prefix carries over, and the new entry at `i` goes before none
   * of the rest.
   */
  method SwapEntries(a: array<WordFreq>, n: nat, i: nat, m: nat)
    requires i <= m < n <= a.Length
    requires forall p, q :: 0 <= p < i && p < q < n ==> !Before(a[q], a[p])
    requires forall k :: i <= k < n ==> !Before(a[k], a[m])
    modifies a
    ensures multiset(a[..n]) == multiset(old(a[..n]))
    ensures forall p, q :: 0 <= p < i + 1 && p < q < n ==> !Before(a[q], a[p])
  {
    ghost var b := a[..n];
    var tmp := a[m];
    a[m] := a[i];
    a[i] := tmp;
    assert a[..n] == b[m := b[i]][i := b[m]];
    forall p, q | 0 <= p < i + 1 && p < q < n
      ensures !Before(a[q], a[p])
    {
      var q' := if q == m then i else if q == i then m else q;
      assert a[q] == b[q'];
    }
  }
}
