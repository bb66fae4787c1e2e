/**
 * The recursion exercises: the length of a C string, the sum of an array,
 * counting occurrences, generating every subset by backtracking, reversing
 * a vector in place and a case-insensitive palindrome test.
 */
module Recursion {
  import opened CLib
  import opened SeqOps

  // ---------------------------------------------------------------------
  // compute_c_string_length
  // ---------------------------------------------------------------------

  /**
   * compute_c_string_length(str): the characters before the first NUL. A C
   * string is the characters from the pointer on, which hold a NUL somewhere.
   */
  function CStringLength(str: seq<char>): (n: nat)
    requires '\0' in str
    ensures n < |str| && str[n] == '\0'
    ensures forall i :: 0 <= i < n ==> str[i] != '\0'
  {
    if str[0] == '\0' then 0
    else
      assert '\0' in str[1..] by {
        var k :| 0 <= k < |str| && str[k] == '\0';
        assert str[1..][k - 1] == '\0';
      }
      1 + CStringLength(str[1..])
  }

  /** The length of a string literal is the number of its characters, whatever follows its terminator. */
  lemma CStringLengthOfLiteral(s: seq<char>, after: seq<char>)
    requires '\0' !in s
    ensures CStringLength(s + ['\0'] + after) == |s|
  {
    var str := s + ['\0'] + after;
    assert str[|s|] == '\0';
    assert forall i :: 0 <= i < |s| ==> str[i] == s[i];
  }

  lemma CStringLengthExamples()
    ensures CStringLength("Hello\0") == 5
    ensures CStringLength("\0") == 0
    ensures CStringLength("12345 67890\0") == 11
  {
    CStringLengthOfLiteral("Hello", []);
    assert "Hello" + ['\0'] + [] == "Hello\0";
    CStringLengthOfLiteral("12345 67890", []);
    assert "12345 67890" + ['\0'] + [] == "12345 67890\0";
  }

  // ---------------------------------------------------------------------
  // sum_of_array_elements
  // ---------------------------------------------------------------------

  /** sum_of_array_elements(arr, size): the last of the first `size` elements plus the sum of the others. */
  function SumOfArrayElements(arr: seq<int>, size: nat): int
    requires size <= |arr|
  {
    if size == 0 then 0 else arr[size - 1] + SumOfArrayElements(arr, size - 1)
  }

  /** Summing from the back, as the recursion does, gives the total of the first `size` elements. */
  lemma {:induction false} SumOfArrayElementsIsTotal(arr: seq<int>, size: nat)
    requires size <= |arr|
    ensures SumOfArrayElements(arr, size) == Total(arr[..size])
  {
    if size > 0 {
      SumOfArrayElementsIsTotal(arr, size - 1);
      assert arr[..size] == arr[..size - 1] + [arr[size - 1]];
      TotalAppend(arr[..size - 1], arr[size - 1]);
    }
  }

  lemma SumExamples()
    ensures SumOfArrayElements([1, 2, 3, 4, 5], 5) == 15
    ensures SumOfArrayElements([0], 1) == 0
    ensures SumOfArrayElements([-1, 2, -3, 4], 4) == 2
  {
  }

  // ---------------------------------------------------------------------
  // count_occurrences_in_vector
  // ---------------------------------------------------------------------

  /** count_occurrences_in_vector(vec, target): 0 for an empty vector, else the helper from the last index down. */
  function CountOccurrences<T(==)>(vec: seq<T>, target: T): (n: nat)
    ensures n == multiset(vec)[target]
  {
    if vec == [] then 0
    else
      CountFromIsMultiplicity(vec, |vec| - 1, target);
      assert vec[..|vec|] == vec;
      CountOccurrencesHelper(vec, |vec| - 1, target)
  }

  /** count_occurrences_in_vector_helper(vec, index, target): the matches among vec[0..index]. */
  function CountOccurrencesHelper<T(==)>(vec: seq<T>, index: nat, target: T): nat
    requires index < |vec|
  {
    if index == 0 then (if vec[0] == target then 1 else 0)
    else (if vec[index] == target then 1 else 0) + CountOccurrencesHelper(vec, index - 1, target)
  }

  /** The helper counts the target among the first index + 1 elements. */
  lemma {:induction false} CountFromIsMultiplicity<T>(vec: seq<T>, index: nat, target: T)
    requires index < |vec|
    ensures CountOccurrencesHelper(vec, index, target) == multiset(vec[..index + 1])[target]
  {
    if index > 0 {
      CountFromIsMultiplicity(vec, index - 1, target);
      assert vec[..index + 1] == vec[..index] + [vec[index]];
    } else {
      assert vec[..1] == [vec[0]];
    }
  }

  lemma CountExamples()
    ensures CountOccurrences([1, 2, 3, 1, 1, 4, 5], 1) == 3
    ensures CountOccurrences([], 1) == 0
    ensures CountOccurrences([1, 2, 3], 4) == 0
  {
    assert multiset([1, 2, 3, 1, 1, 4, 5])[1] == 3;
  }

  // ---------------------------------------------------------------------
  // reverse_values
  // ---------------------------------------------------------------------

  /** reverse_values(input_set): swaps the outermost pair inwards until the indices meet. */
  method ReverseValues(a: array<int>)
    modifies a
    ensures a[..] == Reversed(old(a[..]))
  {
    var i: int := 0;
    var j: int := a.Length - 1;
    while i < j
      invariant 0 <= i <= j + 1 <= a.Length && j == a.Length - 1 - i
      invariant forall k :: 0 <= k < i ==> a[k] == old(a[a.Length - 1 - k]) && a[a.Length - 1 - k] == old(a[k])
      invariant forall k :: i <= k <= j ==> a[k] == old(a[k])
    {
      var temp := a[i];
      a[i] := a[j];
      a[j] := temp;
      i := i + 1;
      j := j - 1;
    }
  }

  /** Reversing in place twice restores the vector. */
  method ReverseTwice(a: array<int>)
    modifies a
    ensures a[..] == old(a[..])
  {
    ReverseValues(a);
    ReverseValues(a);
    ReversedTwice(old(a[..]));
  }

  // ---------------------------------------------------------------------
  // generate_all_subsets
  // ---------------------------------------------------------------------

  /**
   * Every subset of `s`, in binary counting order: those of all but the last
   * element, and then each of them with the last element added.
   */
  function PowerSet(s: seq<int>): (r: seq<seq<int>>)
    decreases |s|
  {
    if s == [] then [[]]
    else
      var smaller := PowerSet(s[..|s| - 1]);
      smaller + Appended(smaller, s[|s| - 1])
  }

  /** Each subset with `x` added at the end. */
  function Appended(ss: seq<seq<int>>, x: int): seq<seq<int>>
  {
    seq(|ss|, i requires 0 <= i < |ss| => ss[i] + [x])
  }

  /** Each subset with `x` put in front. */
  function Prepended(x: seq<int>, ss: seq<seq<int>>): seq<seq<int>>
  {
    seq(|ss|, i requires 0 <= i < |ss| => x + ss[i])
  }

  /** Each subset read back to front. */
  function ReversedEach(ss: seq<seq<int>>): seq<seq<int>>
  {
    seq(|ss|, i requires 0 <= i < |ss| => Reversed(ss[i]))
  }

  /**
   * The subsets the backtracking helper records from `current` on, with
   * `rest` still to consider: first without rest[0], then with it.
   */
  function Subsets(current: seq<int>, rest: seq<int>): seq<seq<int>>
    decreases |rest|
  {
    if rest == [] then [current]
    else Subsets(current, rest[1..]) + Subsets(current + [rest[0]], rest[1..])
  }

  /**
   * generate_all_subsets_helper(input_set, index, current, all_subsets):
   * records every subset of input_set[index..] after `current`, and puts
   * `current` back as it found it.
   */
  method GenerateAllSubsetsHelper(inputSet: seq<int>, index: nat, current: seq<int>, allSubsets: seq<seq<int>>)
    returns (current': seq<int>, allSubsets': seq<seq<int>>)
    requires index <= |inputSet|
    ensures current' == current
    ensures allSubsets' == allSubsets + Subsets(current, inputSet[index..])
    decreases |inputSet| - index
  {
    if index == |inputSet| {
      current', allSubsets' := current, allSubsets + [current];
      return;
    }
    assert inputSet[index..][1..] == inputSet[index + 1..];
    current', allSubsets' := GenerateAllSubsetsHelper(inputSet, index + 1, current, allSubsets);
    current' := current' + [inputSet[index]];
    current', allSubsets' := GenerateAllSubsetsHelper(inputSet, index + 1, current', allSubsets');
    current' := current'[..|current'| - 1];
  }

  /**
   * generate_all_subsets(input_set): the helper runs on the reversed input
   * and each recorded subset is reversed back, which lists the subsets in
   * binary counting order.
   */
  method GenerateAllSubsets(inputSet: seq<int>) returns (allSubsets: seq<seq<int>>)
    ensures allSubsets == PowerSet(inputSet)
  {
    var input := new int[|inputSet|](i requires 0 <= i < |inputSet| => inputSet[i]);
    assert input[..] == inputSet;
    ReverseValues(input);
    var current;
    current, allSubsets := GenerateAllSubsetsHelper(input[..], 0, [], []);
    assert allSubsets == Subsets([], Reversed(inputSet));
    allSubsets := ReverseEach(allSubsets);
    ReversedSubsets(Reversed(inputSet));
    ReversedTwice(inputSet);
  }

  /** The loop over all_subsets that reverses each subset in place. */
  method ReverseEach(subsets: seq<seq<int>>) returns (r: seq<seq<int>>)
    ensures r == ReversedEach(subsets)
  {
    r := subsets;
    for k := 0 to |r|
      invariant |r| == |subsets|
      invariant forall i :: 0 <= i < k ==> r[i] == Reversed(subsets[i])
      invariant forall i :: k <= i < |r| ==> r[i] == subsets[i]
    {
      var subset := r[k];
      var a := new int[|subset|](i requires 0 <= i < |subset| => subset[i]);
      assert a[..] == subset;
      ReverseValues(a);
      r := r[k := a[..]];
    }
  }

  /** The helper's subsets from `current` are its subsets from nothing, each after `current`. */
  lemma {:induction false} SubsetsAfter(current: seq<int>, rest: seq<int>)
    ensures Subsets(current, rest) == Prepended(current, Subsets([], rest))
    decreases |rest|
  {
    if rest == [] {
      assert current + [] == current;
    } else {
      var a, tail := rest[0], Subsets([], rest[1..]);
      assert [] + [a] == [a];
      SubsetsAfter(current, rest[1..]);
      SubsetsAfter(current + [a], rest[1..]);
      SubsetsAfter([a], rest[1..]);
      PrependedConcat(current, tail, Prepended([a], tail));
      PrependedTwice(current, [a], tail);
    }
  }

  lemma PrependedConcat(x: seq<int>, ss: seq<seq<int>>, tt: seq<seq<int>>)
    ensures Prepended(x, ss + tt) == Prepended(x, ss) + Prepended(x, tt)
  {
    var l, r := Prepended(x, ss + tt), Prepended(x, ss) + Prepended(x, tt);
    assert forall i :: 0 <= i < |l| ==> l[i] == r[i];
  }

  lemma PrependedTwice(x: seq<int>, y: seq<int>, ss: seq<seq<int>>)
    ensures Prepended(x, Prepended(y, ss)) == Prepended(x + y, ss)
  {
    var l, r := Prepended(x, Prepended(y, ss)), Prepended(x + y, ss);
    assert forall i :: 0 <= i < |l| ==> l[i] == r[i];
  }

  /** Recording the subsets of a reversed input and reversing each gives the subsets of the input in counting order. */
  lemma {:induction false} ReversedSubsets(rest: seq<int>)
    ensures ReversedEach(Subsets([], rest)) == PowerSet(Reversed(rest))
    decreases |rest|
  {
    if rest != [] {
      var a, tail := rest[0], Subsets([], rest[1..]);
      assert [] + [a] == [a];
      ReversedSubsets(rest[1..]);
      SubsetsAfter([a], rest[1..]);
      ReversedEachConcat(tail, Prepended([a], tail));
      ReversedPrepended(a, tail);
      var s := Reversed(rest);
      assert s[..|s| - 1] == Reversed(rest[1..]) && s[|s| - 1] == a;
    }
  }

  lemma ReversedEachConcat(ss: seq<seq<int>>, tt: seq<seq<int>>)
    ensures ReversedEach(ss + tt) == ReversedEach(ss) + ReversedEach(tt)
  {
    var l, r := ReversedEach(ss + tt), ReversedEach(ss) + ReversedEach(tt);
    assert forall i :: 0 <= i < |l| ==> l[i] == r[i];
  }

  lemma ReversedPrepended(a: int, ss: seq<seq<int>>)
    ensures ReversedEach(Prepended([a], ss)) == Appended(ReversedEach(ss), a)
  {
    var l, r := ReversedEach(Prepended([a], ss)), Appended(ReversedEach(ss), a);
    forall i | 0 <= i < |l|
      ensures l[i] == r[i]
    {
      ReversedConcat([a], ss[i]);
    }
  }

  lemma ReversedConcat(x: seq<int>, y: seq<int>)
    ensures Reversed(x + y) == Reversed(y) + Reversed(x)
  {
    var l, r := Reversed(x + y), Reversed(y) + Reversed(x);
    assert forall i :: 0 <= i < |l| ==> l[i] == r[i];
  }

  function Pow2(n: nat): nat {
    if n == 0 then 1 else 2 * Pow2(n - 1)
  }

  /** A set of n elements has 2^n subsets. */
  lemma {:induction false} PowerSetSize(s: seq<int>)
    ensures |PowerSet(s)| == Pow2(|s|)
    decreases |s|
  {
    if s != [] {
      PowerSetSize(s[..|s| - 1]);
    }
  }

  /** `x` is `s` with some elements left out, the rest in their order. */
  predicate IsSubsequence(x: seq<int>, s: seq<int>)
    decreases |s|
  {
    x == [] ||
    (s != [] &&
     ((x[|x| - 1] == s[|s| - 1] && IsSubsequence(x[..|x| - 1], s[..|s| - 1])) || IsSubsequence(x, s[..|s| - 1])))
  }

  /** Every generated subset keeps the elements it takes in input order. */
  lemma {:induction false} PowerSetSubsequences(s: seq<int>)
    ensures forall i :: 0 <= i < |PowerSet(s)| ==> IsSubsequence(PowerSet(s)[i], s)
    decreases |s|
  {
    if s != [] {
      var smaller := PowerSet(s[..|s| - 1]);
      PowerSetSubsequences(s[..|s| - 1]);
      forall i | 0 <= i < |PowerSet(s)|
        ensures IsSubsequence(PowerSet(s)[i], s)
      {
        if i < |smaller| {
          assert PowerSet(s)[i] == smaller[i];
        } else {
          var p := smaller[i - |smaller|];
          assert PowerSet(s)[i] == p + [s[|s| - 1]];
          assert (p + [s[|s| - 1]])[..|p|] == p;
        }
      }
    }
  }

  /** The indices 0 to n - 1, in order. */
  function Indices(n: nat): (r: seq<int>)
    ensures |r| == n
  {
    seq(n, i => i)
  }

  /** Every index in `ix` is below `n`. */
  predicate Below(ix: seq<int>, n: int) {
    forall k :: 0 <= k < |ix| ==> 0 <= ix[k] < n
  }

  /** A set of indices below `n`, listed in increasing order. */
  predicate IndexSet(ix: seq<int>, n: int) {
    Below(ix, n) && forall j, k :: 0 <= j < k < |ix| ==> ix[j] < ix[k]
  }

  lemma IndicesPrefix(n: nat)
    requires n > 0
    ensures Indices(n)[..n - 1] == Indices(n - 1) && Indices(n)[n - 1] == n - 1
  {
  }

  /** Every generated subset of the indices holds indices only. */
  lemma {:induction false} IndexSubsetsBelow(n: nat)
    ensures forall i :: 0 <= i < |PowerSet(Indices(n))| ==> Below(PowerSet(Indices(n))[i], n)
  {
    if n > 0 {
      IndicesPrefix(n);
      IndexSubsetsBelow(n - 1);
      var smaller := PowerSet(Indices(n - 1));
      forall i | |smaller| <= i < |PowerSet(Indices(n))|
        ensures Below(PowerSet(Indices(n))[i], n)
      {
        assert PowerSet(Indices(n))[i] == smaller[i - |smaller|] + [n - 1];
      }
    }
  }

  /** No subset of the indices is generated twice. */
  lemma {:induction false} IndexSubsetsDistinct(n: nat)
    ensures forall i, j :: 0 <= i < j < |PowerSet(Indices(n))| ==> PowerSet(Indices(n))[i] != PowerSet(Indices(n))[j]
  {
    if n > 0 {
      IndicesPrefix(n);
      IndexSubsetsDistinct(n - 1);
      IndexSubsetsBelow(n - 1);
      var smaller := PowerSet(Indices(n - 1));
      var p := PowerSet(Indices(n));
      forall i, j | 0 <= i < j < |p|
        ensures p[i] != p[j]
      {
        if j < |smaller| {
          assert p[i] == smaller[i] && p[j] == smaller[j];
        } else if i < |smaller| {
          var x := smaller[i];
          assert p[i] == x && p[j] == smaller[j - |smaller|] + [n - 1];
          assert x == [] || x[|x| - 1] < n - 1;
        } else {
          var x, y := smaller[i - |smaller|], smaller[j - |smaller|];
          assert p[i] == x + [n - 1] && p[j] == y + [n - 1];
          assert (x + [n - 1])[..|x|] == x && (y + [n - 1])[..|y|] == y;
        }
      }
    }
  }

  /** Every set of indices below `n` is generated. */
  lemma {:induction false} IndexSubsetsComplete(n: nat, ix: seq<int>)
    requires IndexSet(ix, n)
    ensures ix in PowerSet(Indices(n))
  {
    if n == 0 {
      assert ix == [];
    } else {
      IndicesPrefix(n);
      var smaller := PowerSet(Indices(n - 1));
      var p := PowerSet(Indices(n));
      if ix != [] && ix[|ix| - 1] == n - 1 {
        var front := ix[..|ix| - 1];
        assert IndexSet(front, n - 1);
        IndexSubsetsComplete(n - 1, front);
        var i :| 0 <= i < |smaller| && smaller[i] == front;
        assert p[|smaller| + i] == front + [n - 1] == ix;
      } else {
        assert IndexSet(ix, n - 1);
        IndexSubsetsComplete(n - 1, ix);
        var i :| 0 <= i < |smaller| && smaller[i] == ix;
        assert p[i] == ix;
      }
    }
  }

  /** The elements of `s` at the indices `ix`, in that order. */
  function Pick(s: seq<int>, ix: seq<int>): (r: seq<int>)
    requires Below(ix, |s|)
    ensures |r| == |ix|
  {
    seq(|ix|, k requires 0 <= k < |ix| => s[ix[k]])
  }

  /**
   * The m-th subset of `s` takes the elements at the m-th subset of its
   * indices. Since every set of indices is generated exactly once, every
   * choice of elements of `s` is listed exactly once.
   */
  lemma {:induction false} PowerSetPicks(s: seq<int>)
    ensures |PowerSet(s)| == |PowerSet(Indices(|s|))|
    ensures forall m :: 0 <= m < |PowerSet(s)| ==>
              Below(PowerSet(Indices(|s|))[m], |s|) && PowerSet(s)[m] == Pick(s, PowerSet(Indices(|s|))[m])
  {
    PowerSetSize(s);
    PowerSetSize(Indices(|s|));
    IndexSubsetsBelow(|s|);
    if s != [] {
      var n := |s|;
      var rest := s[..n - 1];
      IndicesPrefix(n);
      PowerSetPicks(rest);
      var smaller, ismaller := PowerSet(rest), PowerSet(Indices(n - 1));
      forall m | 0 <= m < |PowerSet(s)|
        ensures PowerSet(s)[m] == Pick(s, PowerSet(Indices(n))[m])
      {
        if m < |smaller| {
          assert PowerSet(s)[m] == smaller[m] && PowerSet(Indices(n))[m] == ismaller[m];
        } else {
          var ix := ismaller[m - |smaller|];
          assert PowerSet(s)[m] == smaller[m - |smaller|] + [s[n - 1]];
          assert PowerSet(Indices(n))[m] == ix + [n - 1];
        }
      }
    }
  }

  /** The unit test's two cases. */
  lemma PowerSetExamples()
    ensures PowerSet([1, 2, 3]) == [[], [1], [2], [1, 2], [3], [1, 3], [2, 3], [1, 2, 3]]
    ensures PowerSet([]) == [[]]
  {
    var p2 := PowerSetOfTwo();
    assert [1, 2, 3][..2] == [1, 2];
    var added := Appended(p2, 3);
    assert added[0] == [3] && added[1] == [1, 3] && added[2] == [2, 3] && added[3] == [1, 2, 3];
    assert added == [[3], [1, 3], [2, 3], [1, 2, 3]];
  }

  lemma PowerSetOfTwo() returns (p: seq<seq<int>>)
    ensures p == PowerSet([1, 2]) == [[], [1], [2], [1, 2]]
  {
    assert [1, 2][..1] == [1] && [1][..0] == [];
    var added1 := Appended([[]], 1);
    assert added1[0] == [1];
    assert PowerSet([1]) == [[], [1]];
    var added2 := Appended([[], [1]], 2);
    assert added2[0] == [2] && added2[1] == [1, 2];
    p := PowerSet([1, 2]);
  }

  // ---------------------------------------------------------------------
  // is_palindrome
  // ---------------------------------------------------------------------

  /** is_palindrome(str): true for the empty string, otherwise the helper over the whole string. */
  function IsPalindrome(str: string): bool {
    if str == [] then true else IsPalindromeHelper(str, 0, |str| - 1)
  }

  /** is_palindrome_helper(str, left, right): the characters pair up from the outside in, ignoring case. */
  function IsPalindromeHelper(str: string, left: nat, right: nat): bool
    requires right < |str|
    decreases right - left
  {
    if left >= right then true
    else if ToLower(str[left]) != ToLower(str[right]) then false
    else IsPalindromeHelper(str, left + 1, right - 1)
  }

  /** Every character matches its mirror image once both are lower-cased. */
  predicate MirrorsIgnoringCase(str: string) {
    forall i :: 0 <= i < |str| ==> ToLower(str[i]) == ToLower(str[|str| - 1 - i])
  }

  /** The helper holds exactly when the pairs between `left` and `right` match. */
  lemma {:induction false} HelperMatchesPairs(str: string, left: nat, right: nat)
    requires right < |str| && left + right == |str| - 1
    ensures IsPalindromeHelper(str, left, right) <==>
      forall i :: left <= i <= right ==> ToLower(str[i]) == ToLower(str[|str| - 1 - i])
    decreases right - left
  {
    if left < right {
      HelperMatchesPairs(str, left + 1, right - 1);
    }
  }

  /** is_palindrome is the case-insensitive mirror test. */
  lemma PalindromeIffMirrors(str: string)
    ensures IsPalindrome(str) <==> MirrorsIgnoringCase(str)
  {
    if str != [] {
      HelperMatchesPairs(str, 0, |str| - 1);
    }
  }

  lemma PalindromeExamples()
    ensures IsPalindrome("radar") && !IsPalindrome("hello")
    ensures IsPalindrome("") && IsPalindrome("A") && IsPalindrome("RaDaR")
  {
  }
}
