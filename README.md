# cpp-Examples in Dafny

This project models in Dafny the algorithmic cores of a set of C++ course
exercises, and proves properties of those models. The exercises are:

- a doubly linked list `LList<T>` with bidirectional iterators;
- a broken-keyboard line editor that inserts numbers into such a list at a
  cursor;
- two dynamic arrays: the generic `Vector<T>` and an earlier `char` Vector;
- three in-place sorts, a sequential search and a binary search;
- infix-to-postfix conversion (shunting-yard) and postfix evaluation;
- recursive utilities: string length, array sum, occurrence count, subsets
  by backtracking, in-place reverse and a case-insensitive palindrome test;
- a word-frequency counter;
- book-cipher code parsing and sorting;
- DNA strand statistics;
- three grade reports: class statistics, a final report, and a GPA report.

There is one module per exercise:

| module | file | models |
|---|---|---|
| `LinkedList` | llist.dfy | pa17b/LList.hpp |
| `BrokenKeyboard` | keyboard.dfy | pa17b/pa17b.cpp |
| `GenericVector` | vector.dfy | pa13b/Vector.hpp |
| `CharVector` | char_vector.dfy | pa13/Vector.cpp |
| `Sorting` | sorting.dfy | pa16/pa16.cpp |
| `Postfix` | postfix.dfy | pa18/pa18.cpp |
| `Recursion` | recursion.dfy | pa15/pa15.cpp |
| `WordFrequency` | word_freq.dfy | pa14/pa14.cpp |
| `BookCipher` | book_cipher.dfy | pa08/pa08.cpp |
| `Dna` | dna.dfy | pa13/pa13a.cpp |
| `ClassGrades` | class_grades.dfy | pa13b/pa13b.cpp |
| `FinalReport` | final_report.dfy | finalB/finalB.cpp |
| `GpaReport` | gpa_report.dfy | pa09/pa09.cpp |

Two modules are shared by the others:

- `CLib` models the library calls the exercises rely on:
  - `<cctype>` classification in the "C" locale;
  - `std::stoi`, including its exceptions;
  - C++'s truncating integer `/` and `%`.
- `SeqOps` holds the sequence meaning of positional insert and erase, reversal and
  summation.

The code is modelled in the form the source takes:

- **The linked list** is a class of real `Node` objects with `prev`/`next`
  fields. A ghost spine of nodes and a ghost `contents` sequence tie them to
  the elements. An iterator is a node, or `null` for `end()`.
- **The vectors** are classes over an `array` buffer with `capacity` and `count` fields.
  A null buffer is a zero-length array.
- **The sorts and searches** work in place on an `array<int>`. Iterators into the range
  are indices.
- **Loops in the source are methods with loop invariants.** Each is proved against a
  specification function, and the properties the source promises are
  lemmas about that function.
- **The `char` Vector shares most of its code with the generic one:**
  - `insert`, `erase`, `push_back`, `pop_back`, `clear`, `at`, `front`,
    `back` and `equal`/`operator==` in pa13/Vector.cpp have the same code as
    in pa13b/Vector.hpp. `GenericVector.Vector<char>` models them.
  - Module `CharVector` models the operations whose code differs: move
    construction, copy and move assignment, and `+=`.
- **Exceptions** (`std::invalid_argument`, `std::out_of_range`,
  `std::runtime_error`) are the `Err` case of a `Result`.
- **`double` values are `real`s.** The NaN of `0.0 / 0.0` in the class average is
  modelled explicitly. Where a `double` average is only compared against
  integer thresholds, the exact `real` agrees with the rounded `double`.

Where the documentation comments and the code disagree, the model follows the
code. Two examples:

- The comment on `Vector<T>::pop_back` (pa13b/Vector.hpp:834-841) says the capacity is
  unchanged. The code doubles it when the vector is full.
- In the keyboard editor, `'['` moves the cursor to the front and then inserts the
  number still being typed there, not where it was typed.

## Model

| member | source | states |
|---|---|---|
| `LinkedList.Node.constructor` | pa17b/LList.hpp:50-52 | a node holds the value and has no neighbours |
| `LinkedList.ChainSplice` | pa17b/LList.hpp:586-602 | linking a node in before the k-th node of a chain gives a chain whose values have it inserted at k |
| `LinkedList.ChainCut` | pa17b/LList.hpp:641-645 | unlinking an inner node of a chain gives a chain without its value |
| `LinkedList.LList.constructor` | pa17b/LList.hpp:133 | the default list is empty and valid |
| `LinkedList.LList.FromList` | pa17b/LList.hpp:224-230 | the initializer-list constructor holds the values in order |
| `LinkedList.LList.Copy` | pa17b/LList.hpp:193-203 | the copy constructor holds the same values, in nodes of its own |
| `LinkedList.LList.Move` | pa17b/LList.hpp:211-217 | the move constructor takes over the source's values; the source is left empty |
| `LinkedList.LList.Empty` | pa17b/LList.hpp:157 | `empty()` holds exactly when the list has no elements, that is when `head` is null |
| `LinkedList.LList.Size` | pa17b/LList.hpp:158 | `size()` is the number of elements |
| `LinkedList.LList.Front` | pa17b/LList.hpp:424-431 | `front()` is the first element, or `std::out_of_range` on an empty list |
| `LinkedList.LList.Back` | pa17b/LList.hpp:450-457 | `back()` is the last element, or `std::out_of_range` on an empty list |
| `LinkedList.LList.Begin` | pa17b/LList.hpp:147 | `begin()` is the first node, or `end()` on an empty list |
| `LinkedList.LList.Deref` | pa17b/LList.hpp:259-267 | iterator `*` is the element under the iterator, or `std::runtime_error` at `end()` |
| `LinkedList.LList.Next` | pa17b/LList.hpp:292-303 | prefix `++` moves to the next element (to `end()` after the last), or throws at `end()` |
| `LinkedList.LList.Prev` | pa17b/LList.hpp:324-335 | prefix `--` moves to the previous element (to `end()` before the first), or throws at `end()` |
| `LinkedList.LList.PostStep` | pa17b/LList.hpp:310-349 | postfix `++`/`--` return the old iterator and advance it as the prefix forms do |
| `LinkedList.LList.IteratorNeighbours` | pa17b/LList.hpp:82-117 | the neighbours of a list node are iterators into the same list |
| `LinkedList.LList.AdvanceFromBegin` | pa17b/LList.hpp:292-303 | k increments from `begin()` reach the k-th element, and `size()` increments reach `end()` |
| `LinkedList.LList.LinkFront` | pa17b/LList.hpp:478-493 | a new node linked in at the head makes its value the first element; the rest is unchanged |
| `LinkedList.LList.LinkBack` | pa17b/LList.hpp:528-543 | a new node linked in at the tail makes its value the last element; the rest is unchanged |
| `LinkedList.LList.PushFront` | pa17b/LList.hpp:478-493 | `push_front(v)` gives `[v] + old contents` |
| `LinkedList.LList.PushBack` | pa17b/LList.hpp:528-543 | `push_back(v)` gives `old contents + [v]` |
| `LinkedList.LList.PopFront` | pa17b/LList.hpp:500-521 | `pop_front()` drops the first element, and does nothing on an empty list |
| `LinkedList.LList.PopBack` | pa17b/LList.hpp:550-570 | `pop_back()` drops the last element, and does nothing on an empty list |
| `LinkedList.LList.Insert` | pa17b/LList.hpp:577-609 | `insert(pos, v)` puts v just before pos (last at `end()`) and returns the iterator to v |
| `LinkedList.LList.Erase` | pa17b/LList.hpp:616-654 | corrected `erase(pos)`: removes the element at pos and returns the next position; throws `std::invalid_argument` at `end()`; the list stays valid, the sole element included |
| `LinkedList.LList.EraseAsWritten` | pa17b/LList.hpp:616-654 | `erase` as written: correct for lists of two or more elements; erasing the sole element leaves `head` null and `tail` at the deleted node |
| `LinkedList.LList.UnlinkHeadAsWritten` | pa17b/LList.hpp:628-633 | the head branch of erase drops the first element but never updates `tail` |
| `LinkedList.LList.Swap` | pa17b/LList.hpp:660-675 | `swap` exchanges the two lists' elements |
| `LinkedList.LList.Clear` | pa17b/LList.hpp:682-697 | `clear()` leaves no elements |
| `LinkedList.LList.AssignCopy` | pa17b/LList.hpp:357-374 | copy assignment gives other's values in fresh nodes; self-assignment changes nothing |
| `LinkedList.LList.AssignMove` | pa17b/LList.hpp:381-399 | move assignment takes over other's values and leaves other empty |
| `LinkedList.LList.AssignList` | pa17b/LList.hpp:406-416 | initializer-list assignment gives the values in order |
| `LinkedList.InsertScenario` | pa18/LList-test.cxx:398-419 | into [1, 3], inserting 0 at `begin()`, 2 after the first node and 4 at `end()` returns iterators to 0, 2 and 4, and the size is 5 |
| `LinkedList.EraseScenario` | pa18/LList-test.cxx:421-439 | erasing 2 and then 0 returns iterators to 1; erasing the last element leaves two; erasing at `end()` throws |
| `BrokenKeyboard.Flush` | pa17b/pa17b.cpp:63-65 | a pending number is inserted before the cursor, which stays on the same element |
| `BrokenKeyboard.Step` | pa17b/pa17b.cpp:59-90 | one key: a space flushes; `[` and `]` move the cursor to the front or the end, then flush; any other key extends the number by `ch - '0'` |
| `BrokenKeyboard.ProcessInput` | pa17b/pa17b.cpp:54-96 | `processInput` leaves the list that the keys of the line produce, and inserts a number still pending at the end |
| `BrokenKeyboard.Key` | pa17b/pa17b.cpp:59-90 | one pass of the loop on the real list and cursor matches one `Step` |
| `BrokenKeyboard.InsertAtCursor` | pa17b/pa17b.cpp:64 | inserting before the cursor node puts the number at the cursor index and keeps the cursor on the same element |
| `BrokenKeyboard.RunLengthStops` | pa17b/pa17b.cpp:81-89 | a number is read over the longest run of keys other than space, `[` and `]` |
| `BrokenKeyboard.KeysLength` | pa17b/pa17b.cpp:93-95 | the list grows by exactly one number per maximal run of non-separator keys |
| `BrokenKeyboard.TypingBetweenMoves` | pa17b/pa17b.cpp:61-66 | between two cursor moves, the numbers typed go in typing order, side by side, before the element the cursor was on |
| `BrokenKeyboard.SpaceStep` | pa17b/pa17b.cpp:61-66 | a space inserts the pending number before the cursor and leaves the cursor on the same element |
| `BrokenKeyboard.KeyStep` | pa17b/pa17b.cpp:81-89 | any other key only extends the pending number |
| `BrokenKeyboard.KeysWithoutBrackets` | pa17b/pa17b.cpp:54-96 | a line without brackets inserts its numbers in order before what the list held |
| `BrokenKeyboard.PendingNumberFollowsCursor` | pa17b/pa17b.cpp:67-73 | a number pending when `[` is pressed goes in at the front |
| `BrokenKeyboard.RunSplit` | pa17b/pa17b.cpp:59 | running two pieces of a line in turn is running the whole line |
| `GenericVector.MyCopy` | pa13b/Vector.hpp:241-249 | `mycopy` copies `[first, last)` to `d_first` on, returns one past the last slot written, and touches nothing else |
| `GenericVector.Resize` | pa13b/Vector.hpp:264-280 | `resize` gives a buffer of `new_size` slots holding the first `min(current, new)` elements; the same buffer when the size does not change |
| `GenericVector.GrowCapacity` | pa13b/Vector.hpp:801-808 | insert and push_back settle on a capacity above the count: 0 becomes 1, and it doubles when full |
| `GenericVector.EraseCapacity` | pa13b/Vector.hpp:694-703 | erase doubles the capacity when the vector is full or has one free slot, and keeps it otherwise |
| `GenericVector.InsertedCopy` | pa13b/Vector.hpp:620-677 | the copy loops of insert give the old elements with the value placed before index pos |
| `GenericVector.RemovedCopy` | pa13b/Vector.hpp:684-729 | the copy loops of erase give the old elements without the one at pos |
| `GenericVector.Vector.constructor` | pa13b/Vector.hpp:292-302 | `Vector(count, value)` holds `count` copies of value, with capacity `count` |
| `GenericVector.Vector.Copy` | pa13b/Vector.hpp:310-318 | the copy constructor holds the same elements and capacity in a buffer of its own |
| `GenericVector.Vector.Move` | pa13b/Vector.hpp:327-337 | the move constructor takes over the buffer; the source has size 0 and capacity 0 |
| `GenericVector.Vector.AssignCopy` | pa13b/Vector.hpp:359-379 | copy assignment gives other's elements; the buffer is replaced only when the sizes differ |
| `GenericVector.Vector.AssignMove` | pa13b/Vector.hpp:389-406 | move assignment takes over other's buffer; other has size 0 and capacity 0 |
| `GenericVector.Vector.Append` | pa13b/Vector.hpp:417-433 | `+=` appends other's elements, even for `v += v`; when they do not fit, the capacity becomes exactly the combined size |
| `GenericVector.Vector.At` | pa13b/Vector.hpp:445-450 | `at(pos)` is the element at pos, and pos is below the size |
| `GenericVector.Vector.Front` | pa13b/Vector.hpp:464-480 | `front()` of a non-empty vector is its first element |
| `GenericVector.Vector.Back` | pa13b/Vector.hpp:505-520 | `back()` of a non-empty vector is its last element |
| `GenericVector.Vector.Empty` | pa13b/Vector.hpp:736-740 | `empty()` holds exactly when there are no elements |
| `GenericVector.Vector.Size` | pa13b/Vector.hpp:745-748 | `size()` is the number of elements |
| `GenericVector.Vector.Capacity` | pa13b/Vector.hpp:754-757 | `capacity()` is the recorded capacity, never below the size |
| `GenericVector.Vector.Insert` | pa13b/Vector.hpp:620-677 | `insert(pos, v)` gives `old[..pos] + [v] + old[pos..]` and returns pos |
| `GenericVector.Vector.Erase` | pa13b/Vector.hpp:684-729 | `erase(pos)` gives `old[..pos] + old[pos+1..]` and returns pos |
| `GenericVector.Vector.Clear` | pa13b/Vector.hpp:765-774 | `clear()` leaves no elements and the capacity unchanged, and overwrites every slot |
| `GenericVector.Vector.PushBack` | pa13b/Vector.hpp:790-833 | `push_back(v)` gives `old + [v]` with the grown capacity |
| `GenericVector.Vector.PopBackAsWritten` | pa13b/Vector.hpp:844-883 | `pop_back` as written: drops the last element of a non-empty vector; on an empty vector with capacity 0 it records capacity 1 while the buffer keeps 0 slots |
| `GenericVector.Vector.PopBack` | pa13b/Vector.hpp:844-883 | corrected `pop_back`: an empty vector is left exactly as it was; otherwise the last element is dropped and the vector stays valid |
| `GenericVector.Equal` | pa13b/Vector.hpp:900-954 | `equal` and `operator==` hold exactly when the sizes match and the elements are pairwise equal |
| `CharVector.MoveConstruct` | pa13/Vector.cpp:81-107 | the char move constructor copies other's elements and capacity, then clears other and leaves it without a buffer |
| `CharVector.AssignCopy` | pa13/Vector.cpp:556-578 | char copy assignment gives other's elements and capacity, unless other is this vector |
| `CharVector.AssignMove` | pa13/Vector.cpp:585-613 | char move assignment copies as above, then clears other and leaves it without a buffer |
| `CharVector.AppendCapacity` | pa13/Vector.cpp:633-641 | the capacity `+=` settles on holds both vectors' elements |
| `CharVector.AppendAsWritten` | pa13/Vector.cpp:621-669 | `+=` as written: for a distinct other it appends; for `v += v` the elements stay as they were while the capacity doubles past the buffer |
| `CharVector.Append` | pa13/Vector.cpp:621-669 | corrected `+=`: appends other's elements, `v += v` included, and the buffer holds the capacity |
| `Sorting.Swap` | pa16/pa16.cpp:163-165 | exchanges two elements and nothing else |
| `Sorting.BubbleSort` | pa16/pa16.cpp:156-169 | `[first, last)` ends sorted and rearranged; nothing outside it changes |
| `Sorting.BubblePass` | pa16/pa16.cpp:160-167 | one pass leaves the largest element of the prefix at its end |
| `Sorting.SelectionSort` | pa16/pa16.cpp:179-199 | `[first, last)` ends sorted and rearranged; nothing outside it changes |
| `Sorting.Smallest` | pa16/pa16.cpp:184-192 | the inner loop finds the first position of a smallest element |
| `Sorting.InsertionSort` | pa16/pa16.cpp:209-222 | a non-empty `[first, last)` ends sorted and rearranged; nothing outside it changes |
| `Sorting.InsertOne` | pa16/pa16.cpp:212-220 | one step inserts `a[it]` into the sorted prefix |
| `Sorting.SeqSearch` | pa16/pa16.cpp:237-254 | the first position holding the target, or `last` when none does |
| `Sorting.BinSearchAsWritten` | pa16/pa16.cpp:268-290 | `bin_search` as written: a returned position other than the original `last` holds the target |
| `Sorting.BinSearchAsWrittenMisses` | pa16/pa16.cpp:282 | on the sorted range [1, 2], `bin_search` as written returns `last` for 1, which is there |
| `Sorting.BinSearch` | pa16/pa16.cpp:268-290 | corrected `bin_search` on a sorted range: finds the target exactly when it is there, else returns `last` |
| `Postfix.WordLengthStops` | pa18/pa18.cpp:97 | `>>` reads the longest run of non-space characters |
| `Postfix.TokensAreWords` | pa18/pa18.cpp:97 | every token read is non-empty and free of white space |
| `Postfix.TokensOfJoin` | pa18/pa18.cpp:104 | reading back tokens written each followed by a space gives the same tokens |
| `Postfix.PrecedenceRanks` | pa18/pa18.cpp:261-278 | `+`/`-` get 1, `*`/`/`/`%` get 2, anything else -1 |
| `Postfix.AboveParenStops` | pa18/pa18.cpp:113-116 | the `)` loop pops exactly the operators above the topmost `(` |
| `Postfix.AboveWhileStops` | pa18/pa18.cpp:126-129 | an operator pops exactly the stacked operators of at least its precedence |
| `Postfix.PoppedAt` | pa18/pa18.cpp:138-141 | operators are written out in the order they are popped, top first |
| `Postfix.Infix2Postfix` | pa18/pa18.cpp:90-145 | `infix2postfix` writes the postfix tokens of the infix tokens, each followed by a space |
| `Postfix.ConvertToken` | pa18/pa18.cpp:97-135 | one pass of the loop on the real output and stack matches one conversion step |
| `Postfix.PopUntilParen` | pa18/pa18.cpp:113-120 | `)` writes out the operators above `(` and drops the `(` |
| `Postfix.PopWhilePrecedes` | pa18/pa18.cpp:126-131 | an operator writes out the operators that rank at least as high, then is pushed |
| `Postfix.FlushStack` | pa18/pa18.cpp:138-141 | what is left on the stack is written out, top first |
| `Postfix.OperandsInOrder` | pa18/pa18.cpp:101-106 | the operands, negative numbers read where an operand is expected included, reach the output unchanged and in input order, and no operator written looks like one |
| `Postfix.ConvertOperands` | pa18/pa18.cpp:97-134 | after each token an operand is expected exactly when the token was not read as one; the output so far holds exactly the operands read, in order, and the stack holds no digit |
| `Postfix.DigitsAreOperands` | pa18/pa18.cpp:101 | a token that starts with a digit is read as an operand wherever it stands |
| `Postfix.NoParentheses` | pa18/pa18.cpp:107-122 | with balanced parentheses, none reaches the output |
| `Postfix.ConvertExample` | pa18/pa18.cpp:85-87 | "2 + 3 * 4" converts to the tokens 2 3 4 * + |
| `Postfix.JoinExample` | pa18/pa18.cpp:85-87 | those tokens are written out as "2 3 4 * + " |
| `Postfix.Apply` | pa18/pa18.cpp:193-221 | `op1 op op2` with truncating `/` and `%`; a zero divisor or unknown operator throws `std::invalid_argument` |
| `Postfix.EvalStep` | pa18/pa18.cpp:175-224 | a number is pushed with its `stoi` value; an operator needs two operands and replaces them by its result |
| `Postfix.EvalPostfix` | pa18/pa18.cpp:169-233 | `eval_postfix` returns the value of the token sequence, or the exception it throws |
| `Postfix.EvalFromAppend` | pa18/pa18.cpp:175-224 | evaluating two pieces in turn is evaluating the whole |
| `Postfix.EvalFromDeeper` | pa18/pa18.cpp:175-224 | an expression works the same on any deeper stack and leaves what is below untouched |
| `Postfix.EvaluateBinary` | pa18/pa18.cpp:189-201 | postfix `a b op` evaluates to op applied to a's and b's values, with the top of the stack as the right operand |
| `Postfix.EvalDigits` | pa18/pa18.cpp:177-180 | a number token is pushed with its decimal value |
| `Postfix.EvaluateExample` | pa18/pa18.cpp:164-166 | "2 3 4 * +" evaluates to 14 |
| `Postfix.ZeroDivisor` | pa18/pa18.cpp:211-217 | modulus by zero throws `std::invalid_argument` |
| `Postfix.UnknownOperator` | pa18/pa18.cpp:219-221 | an unknown operator throws `std::invalid_argument` |
| `Postfix.BinaryError` | pa18/pa18.cpp:203-221 | an operator that fails on its operands makes the whole evaluation throw |
| `Postfix.TooFewOperands` | pa18/pa18.cpp:184-186 | an operator with fewer than two operands throws `std::invalid_argument` |
| `Postfix.OperandsLeft` | pa18/pa18.cpp:227-229 | more than one value left at the end throws `std::invalid_argument` |
| `Postfix.PipelineTokens` | pa18/pa18.cpp:139-175 | what `infix2postfix` writes, `eval_postfix` reads back token for token |
| `Recursion.CStringLength` | pa15/pa15.cpp:62-71 | the length is the number of characters before the first NUL |
| `Recursion.CStringLengthOfLiteral` | pa15/pa15.cpp:62-71 | a literal's length is its number of characters |
| `Recursion.CStringLengthExamples` | pa15/pa15.cpp:244-268 | "" has length 0 and "Hello" length 5 |
| `Recursion.SumOfArrayElementsIsTotal` | pa15/pa15.cpp:77-85 | summing from the back gives the total of the first `size` elements |
| `Recursion.SumExamples` | pa15/pa15.cpp:270-279 | {-1, 2, -3, 4} sums to 2 |
| `Recursion.CountOccurrences` | pa15/pa15.cpp:92-99 | the count is the number of elements equal to the target, 0 for an empty vector |
| `Recursion.CountFromIsMultiplicity` | pa15/pa15.cpp:164-174 | the helper counts the target among the first index + 1 elements |
| `Recursion.CountExamples` | pa15/pa15.cpp:281-285 | the counts the unit test expects |
| `Recursion.ReverseValues` | pa15/pa15.cpp:204-218 | `reverse_values` reverses the vector in place |
| `Recursion.ReverseTwice` | pa15/pa15.cpp:204-218 | reversing twice restores the vector |
| `Recursion.GenerateAllSubsetsHelper` | pa15/pa15.cpp:181-200 | the helper records every subset of the rest after `current`, and restores `current` |
| `Recursion.GenerateAllSubsets` | pa15/pa15.cpp:105-124 | `generate_all_subsets` lists every subset in binary counting order |
| `Recursion.ReverseEach` | pa15/pa15.cpp:119-121 | the loop reverses each recorded subset |
| `Recursion.ReversedSubsets` | pa15/pa15.cpp:105-124 | recording the subsets of the reversed input and reversing each gives the subsets in counting order |
| `Recursion.PowerSetSize` | pa15/pa15.cpp:105-124 | an input of n elements has 2^n subsets |
| `Recursion.IndexSubsetsDistinct` | pa15/pa15.cpp:181-200 | over the indices of an n-element input, no subset is recorded twice |
| `Recursion.IndexSubsetsComplete` | pa15/pa15.cpp:181-200 | every increasing list of indices below n is recorded |
| `Recursion.PowerSetPicks` | pa15/pa15.cpp:105-124 | the m-th subset of the input takes the elements at the m-th subset of its indices, so each choice of elements is listed exactly once |
| `Recursion.PowerSetSubsequences` | pa15/pa15.cpp:181-200 | every subset keeps its elements in input order |
| `Recursion.PowerSetExamples` | pa15/pa15.cpp:287-298 | {} gives {{}}, and {1, 2, 3} gives the order the unit test expects |
| `Recursion.HelperMatchesPairs` | pa15/pa15.cpp:225-238 | the helper holds exactly when the characters between left and right match their mirrors, ignoring case |
| `Recursion.PalindromeIffMirrors` | pa15/pa15.cpp:148-154 | `is_palindrome` is the case-insensitive mirror test; empty and one-character strings pass |
| `Recursion.PalindromeExamples` | pa15/pa15.cpp:307-313 | the palindromes and non-palindromes of the unit test |
| `WordFrequency.LowerAll` | pa14/pa14.cpp:125-127 | every character is lower-cased |
| `WordFrequency.Trim` | pa14/pa14.cpp:111-122 | the indices after the first loop stay within the word |
| `WordFrequency.ProcessWord` | pa14/pa14.cpp:103-130 | `processWord` of a non-empty word is its trimmed middle, lower-cased |
| `WordFrequency.TrimStripsNonAlnum` | pa14/pa14.cpp:111-122 | each pass strips at most one character from each end, and only non-alphanumeric ones |
| `WordFrequency.NormalisedAlnumEnds` | pa14/pa14.cpp:103-130 | a word with alphanumeric ends is only lower-cased |
| `WordFrequency.TrailingPunctuationDropped` | pa14/pa14.cpp:103-130 | trailing punctuation is stripped |
| `WordFrequency.QuotesDropped` | pa14/pa14.cpp:103-130 | surrounding quotes are stripped |
| `WordFrequency.PunctuationOnly` | pa14/pa14.cpp:111-122 | a word of punctuation alone keeps a middle character or becomes empty |
| `WordFrequency.Find` | pa14/pa14.cpp:141-149 | the index of the first entry for the word, or none |
| `WordFrequency.Verify` | pa14/pa14.cpp:136-156 | `verify` updates the table as `Counted` says |
| `WordFrequency.CountedWellFormed` | pa14/pa14.cpp:136-156 | `verify` keeps the words distinct and every count at least 1 |
| `WordFrequency.CountedPresent` | pa14/pa14.cpp:141-149 | a present word's entry counts one more, and nothing else changes |
| `WordFrequency.CountedAbsent` | pa14/pa14.cpp:152-154 | an absent word is appended with count 1 exactly when its first character is alphanumeric |
| `WordFrequency.StringLessTransitive` | pa14/pa14.cpp:173-176 | the word order that breaks ties is transitive |
| `WordFrequency.SelectionSort` | pa14/pa14.cpp:162-187 | `selectionSort` of a non-empty table rearranges it by frequency descending, ties by word ascending |
| `WordFrequency.FirstOfRest` | pa14/pa14.cpp:168-179 | the inner loop finds the first entry that nothing in the rest goes before |
| `BookCipher.FirstDot` | pa08/pa08.cpp:224 | the index of the first `.`, or the length when there is none |
| `BookCipher.ExtractPageOfDigits` | pa08/pa08.cpp:220-231 | a code that starts with digits and a `.` has those digits' value as its page |
| `BookCipher.ExtractPageNumberExamples` | pa08/pa08.cpp:220-231 | pages of sample codes, and the exceptions for a code without a number |
| `BookCipher.CopyArray` | pa08/pa08.cpp:177-184 | `b[i] == a[i]` for every `i < size`, and nothing else changes |
| `BookCipher.SortArray` | pa08/pa08.cpp:189-215 | `a[0..size)` ends rearranged with non-decreasing pages; nothing after it changes |
| `BookCipher.SmallestPage` | pa08/pa08.cpp:200-210 | the inner loop finds the first code with the smallest page |
| `BookCipher.SetCharLocation` | pa08/pa08.cpp:310-364 | `setCharLocation` leaves the location the code's digit groups give, or the exception it throws |
| `BookCipher.ReadLineNum` | pa08/pa08.cpp:333-356 | the middle loop reads the line digits and, after a `.`, the character position |
| `BookCipher.ReadCharPos` | pa08/pa08.cpp:342-354 | the innermost loop reads the character-position digits up to the end of the code |
| `BookCipher.ReadAtEnd` | pa08/pa08.cpp:329-339 | page or line digits that run to the end of the code throw `std::out_of_range` |
| `BookCipher.ReadOverflows` | pa08/pa08.cpp:328-348 | digits whose value exceeds `int` make `stoi` throw `std::out_of_range` |
| `BookCipher.WellFormedCode` | pa08/pa08.cpp:310-364 | a code "P.L.C" gives page P, line L - 1 and character position C - 1 |
| `BookCipher.SamePage` | pa08/pa08.cpp:220-231 | for a well-formed code, the page `setCharLocation` reads is the one `extractPageNumber` reads |
| `BookCipher.CharLocationExample` | pa08/pa08.cpp:310-364 | "3.14.15" gives page 3, line 13, character 14 |
| `BookCipher.TruncatedCode` | pa08/pa08.cpp:338-343 | a code cut short after the line digits, or after the second `.`, throws `std::out_of_range` |
| `BookCipher.NoDigits` | pa08/pa08.cpp:310-364 | a code that does not start with a digit leaves the page alone and only decrements the other two |
| `Dna.PalindromeIffReversed` | pa13/pa13a.cpp:96-111 | the mirror test holds exactly when the strand reads the same reversed |
| `Dna.ReadInto` | pa13/pa13a.cpp:159-171 | `operator>>` appends the characters of the word read, in order |
| `Dna.AllNucleotides` | pa13/pa13a.cpp:67-71 | the check succeeds exactly when every character is A, C, G or T |
| `Dna.Palindrome` | pa13/pa13a.cpp:96-111 | `palindrome` holds exactly when every character equals its mirror, case-sensitive; true when empty |
| `Dna.ReversedSequence` | pa13/pa13a.cpp:205-207 | the reversed line is the strand from last to first |
| `Dna.NucleotideCount` | pa13/pa13a.cpp:116-150 | each count is the number of occurrences of its letter; other characters are skipped |
| `Dna.CountsCoverStrand` | pa13/pa13a.cpp:116-150 | in a strand of nucleotides only, the four counts add up to its length |
| `Dna.OccurrencesOfReversed` | pa13/pa13a.cpp:116-150 | reversing a strand keeps each count |
| `ClassGrades.Sum` | pa13b/pa13b.cpp:125-139 | `sum` is the total of every score of every student |
| `ClassGrades.Average` | pa13b/pa13b.cpp:146-164 | 0 with no students, NaN with no scores, else the total over the number of scores |
| `ClassGrades.FlattenTotals` | pa13b/pa13b.cpp:125-139 | the row-by-row total is the total of all the scores |
| `ClassGrades.AverageBetween` | pa13b/pa13b.cpp:146-164 | with every score between lo and hi, so is the average |
| `ClassGrades.SetGrade` | pa13b/pa13b.cpp:170-187 | `setGrade` is one of A, B, C, D, F; NaN gets F |
| `ClassGrades.SetGradeBands` | pa13b/pa13b.cpp:170-187 | A from 90, B from 80, C from 70, D from 60, F below |
| `ClassGrades.SetGradeMonotone` | pa13b/pa13b.cpp:174-185 | a higher average never gets a lower letter |
| `FinalReport.LetterGradeBands` | finalB/finalB.cpp:203-221 | A from 90, B from 80, C from 70, D from 60, F below |
| `FinalReport.LetterGradeMonotone` | finalB/finalB.cpp:203-221 | a higher average never gets a lower letter |
| `FinalReport.SameLadderAsSetGrade` | finalB/finalB.cpp:203-221 | the same ladder as the class statistics' `setGrade` |
| `FinalReport.FindMaxAve` | finalB/finalB.cpp:250-270 | an index of a largest average, the last one on ties |
| `FinalReport.FindMinAve` | finalB/finalB.cpp:276-296 | an index of a smallest average, the last one on ties |
| `FinalReport.CalculateRecordAverages` | finalB/finalB.cpp:407-431 | every average becomes the total of its five scores over 5; nothing else changes |
| `FinalReport.RecordAverages2LetterGrades` | finalB/finalB.cpp:436-450 | every grade becomes `score2LetterGrade` of its average; nothing else changes |
| `FinalReport.RecordAverageBetween` | finalB/finalB.cpp:407-431 | scores from 0 to 100 give an average from 0 to 100 |
| `FinalReport.ClassSum` | finalB/finalB.cpp:478-486 | the class sum is the total of all the scores |
| `FinalReport.ClassTotalOfAverages` | finalB/finalB.cpp:478-489 | once averages are set, the class sum is 5 times the total of the averages |
| `GpaReport.SetGradeNGpa` | pa09/pa09.cpp:177-212 | the record at idx gets the grade and GPA of the eleven-step ladder; nothing else changes |
| `GpaReport.LadderSteps` | pa09/pa09.cpp:178-211 | the chain of comparisons reads the ladder step by step |
| `GpaReport.LadderDescends` | pa09/pa09.cpp:178-211 | the steps go down in both threshold and GPA |
| `GpaReport.GpaMonotone` | pa09/pa09.cpp:178-211 | a higher average never gets a lower GPA |
| `GpaReport.LetterFixesGpa` | pa09/pa09.cpp:178-211 | two averages with the same letter have the same GPA |
| `GpaReport.RunCalcs` | pa09/pa09.cpp:157-172 | every average becomes the total of its 15 scores over 15, then grade and GPA follow from it |
| `GpaReport.LadderExamples` | pa09/pa09.cpp:177-212 | sample averages on and between the thresholds |
| `CLib.DigitRunStops` | pa18/pa18.cpp:179 | `stoi` reads the longest run of digits |
| `CLib.SkipSpaceSkips` | pa18/pa18.cpp:179 | `stoi` skips exactly the leading white space |
| `CLib.StoiAllDigits` | pa08/pa08.cpp:328 | `stoi` of a digit string is its value, or `std::out_of_range` beyond `int` |
| `CLib.TruncDiv` | pa18/pa18.cpp:209 | C++ `/` truncates toward zero |
| `CLib.TruncRem` | pa18/pa18.cpp:217 | C++ `%` satisfies `a == b * (a / b) + a % b` and has the sign of a |
| `SeqOps.RemoveInserted` | pa13b/Vector.hpp:620-729 | erasing what was just inserted gives back the original elements |
| `SeqOps.ReversedTwice` | pa15/pa15.cpp:204-218 | reading back to front twice gives the sequence back |
| `SeqOps.SumScores` | finalB/finalB.cpp:416-419 | the total of one record's scores, front to back; the same loop sums a record in pa09/pa09.cpp:163-166 |
| `SeqOps.TotalConcat` | finalB/finalB.cpp:478-486 | the total of two pieces is the sum of their totals |

## Left out

- Console and file I/O is not modelled. This covers:
  - every `main`;
  - `getFileName`, `getMessage`, `getPageLines`, `readData`, `readStudentData`, `getFilename`;
  - every `print*` function, the `operator<<` overloads and `printList`.

  What these functions compute is covered where it feeds a modelled
  operation. The reversed sequence in the DNA statistics and the class sum
  in the final report are examples.
- The tic-tac-toe game engine (Personal Projects/TicTacToe/Tic-Tac-Toe.cpp) is not part of this model.
- The `recursive_power` exercise is left out. It is floating-point numerics.
- The sorting benchmark is left out: timing with `std::chrono` and random data generation.
- `Stack.hpp` is not part of this model. The stacks of the postfix exercise are sequences, with the top at the end.
- Memory management is not modelled. This covers:
  - destructors and `delete[]`;
  - the buffers leaked by assignment;
  - iterator `->`, which only forwards to `*`.

  Buffers are Dafny arrays that are never freed.
- `front()` and `back()` on an empty Vector are left out. `GenericVector.Vector.Front` and `GenericVector.Vector.Back` require a non-empty vector.
  - `front()` then writes `'A'` into `m_data[0]`, storage the vector may not own (pa13b/Vector.hpp:464-480, pa13/Vector.cpp:146-160).
  - `back()` then reads `m_data[0]` and writes nothing (pa13b/Vector.hpp:505-520).
  - `begin()` needs no special case. On an empty Vector it returns `m_data + m_count`, which is `m_data`, so positions stay indices from 0.
- Characters are Unicode code points. The `<cctype>` predicates and `tolower` are those of the "C" locale, which only classify ASCII. Non-ASCII and multi-byte input, where the source sees several `char`s, possibly negative ones, is outside the model.
- Integer overflow of `int` arithmetic is not modelled; arithmetic is unbounded, because overflow is undefined behaviour in the source. Examples are the keyboard's `number * 10 + (ch - '0')`, the sums, and the postfix operators. The range check of `std::stoi` IS modelled, because it is a defined exception.
- `double` rounding is not modelled: averages are exact `real`s.
- `GenericVector.Vector.Clear` and `GenericVector.Vector.PopBack` take the filler value as a parameter. The source writes the character `'A'`, which only compiles for `char`-like element types.
- `WordFrequency.ProcessWord` and `WordFrequency.SelectionSort` require a non-empty word or table. The source computes `length() - 1` and `size() - 1` in unsigned arithmetic, which wraps on an empty input.
- `Sorting.InsertionSort` requires a non-empty range, because the source reads `first + 1` first.
- `BookCipher.SortArray` requires every page to be readable. An unreadable page makes `extractPageNumber` throw from inside the sort, and the model does not follow that exception.
- `BookCipher.SetCharLocation` does not keep the per-group digit strings once a group ends.

## Findings

| source | as written | input that shows it | evidently intended | confidence | as-written member | corrected member |
|---|---|---|---|---|---|---|
| pa17b/LList.hpp:628-633 | `erase` of the first element moves `head` on but never updates `tail` | a list holding one element, erased at `begin()`: `head` becomes null while `tail` still points at the deleted node, and a later `push_back` writes through it | when the erased node is also the tail, `tail` becomes null too | high, not executed | `LinkedList.LList.EraseAsWritten` | `LinkedList.LList.Erase` |
| pa16/pa16.cpp:282 | a probe above the target sets `last = mid - 1` on a half-open range | the sorted range [1, 2] searched for 1: mid is index 1 and `last` becomes 0, so the loop stops and returns `last` | `last = mid`, which keeps the range half-open | high, not executed | `Sorting.BinSearchAsWrittenMisses` | `Sorting.BinSearch` |
| pa13/Vector.cpp:633-636 | the capacity grows by other's capacity before the self-check, and `v += v` then skips the reallocation | `v += v` on a full vector of capacity 2: the recorded capacity becomes 4 while the buffer keeps 2 slots, and `clear()` then writes 4 slots | `v += v` appends the vector to itself in a buffer of the new capacity | high, not executed | `CharVector.AppendAsWritten` | `CharVector.Append` |
| pa13b/Vector.hpp:851-859 | `pop_back` raises a capacity of 0 to 1 before checking for emptiness | `pop_back()` on a default-constructed vector, whose buffer is a zero-length `new T[0]`: the recorded capacity becomes 1 while the buffer keeps 0 slots, and `clear()` then writes one slot past the end of that buffer | an empty vector is left as it was | medium, not executed | `GenericVector.Vector.PopBackAsWritten` | `GenericVector.Vector.PopBack` |
