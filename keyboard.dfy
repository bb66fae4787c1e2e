/**
 * The broken-keyboard line editor: a line of keys is turned into a list of
 * numbers. Runs of keys other than ' ', '[' and ']' are read as decimal
 * numbers; each finished number is inserted before a cursor, which '[' moves
 * to the front of the list and ']' to its end.
 */
module BrokenKeyboard {
  import opened SeqOps
  import opened LinkedList

  /** The keys that end a number. */
  predicate Separator(ch: char) {
    ch == ' ' || ch == '[' || ch == ']'
  }

  /** `ch - '0'`, taken for every key, digit or not. */
  function KeyValue(ch: char): int {
    ch as int - '0' as int
  }

  /**
   * The editor between two keys: the list so far, the cursor as the index
   * before which numbers go (`|out|` stands for end()), and the number being
   * typed, if any.
   */
  datatype Editor = Editor(out: seq<int>, cursor: nat, number: int, isNumber: bool)

  predicate Ready(e: Editor) {
    e.cursor <= |e.out|
  }

  /** Inserts the number being typed, if any, before the cursor; the cursor stays on the same element. */
  function Flush(e: Editor): (f: Editor)
    requires Ready(e)
    ensures Ready(f) && !f.isNumber
  {
    if e.isNumber then Editor(InsertAt(e.out, e.cursor, e.number), e.cursor + 1, e.number, false) else e
  }

  /**
   * One key: a space finishes the number; '[' and ']' first move the cursor
   * to the front or the end and then finish the number there; any other key
   * extends the number by one decimal place.
   */
  function Step(e: Editor, ch: char): (f: Editor)
    requires Ready(e)
    ensures Ready(f)
    ensures f.isNumber <==> !Separator(ch)
    ensures Separator(ch) ==> |f.out| == |e.out| + (if e.isNumber then 1 else 0)
    ensures !Separator(ch) ==> f.out == e.out && f.cursor == e.cursor
  {
    match ch
    case ' ' => Flush(e)
    case '[' => Flush(e.(cursor := 0))
    case ']' => Flush(e.(cursor := |e.out|))
    case _ => e.(number := (if e.isNumber then e.number else 0) * 10 + KeyValue(ch), isNumber := true)
  }

  /** The editor after the keys of `s`, one at a time. */
  function Run(e: Editor, s: string): (f: Editor)
    requires Ready(e)
    ensures Ready(f)
    decreases |s|
  {
    if s == [] then e else Run(Step(e, s[0]), s[1..])
  }

  /** The list a line leaves, starting from a list holding `c` with the cursor at begin(). */
  function Keys(c: seq<int>, s: string): seq<int> {
    Flush(Run(Editor(c, 0, 0, false), s)).out
  }

  /**
   * processInput(input, output): the keys of the line edit `output` in
   * place, with the cursor an iterator into it, and a number still being
   * typed at the end of the line is inserted last.
   */
  method ProcessInput(input: string, output: LList<int>)
    requires output.Valid()
    modifies output.Repr
    ensures output.Valid() && fresh(output.Repr - old(output.Repr))
    ensures output.contents == Keys(old(output.contents), input)
  {
    ghost var start := Editor(output.contents, 0, 0, false);
    var currentPos := output.Begin();
    var number := 0;
    var isNumber := false;
    ghost var cursor: nat := 0;
    for i := 0 to |input|
      invariant output.Valid() && fresh(output.Repr - old(output.Repr))
      invariant cursor <= |output.nodes|
      invariant currentPos == if cursor < |output.nodes| then output.nodes[cursor] else null
      invariant Run(Editor(output.contents, cursor, number, isNumber), input[i..]) == Run(start, input)
    {
      assert input[i..][1..] == input[i + 1..];
      currentPos, cursor, number, isNumber := Key(output, currentPos, cursor, number, isNumber, input[i]);
    }
    assert input[|input|..] == [];
    if isNumber {
      currentPos, cursor := InsertAtCursor(output, currentPos, cursor, number);
    }
  }

  /** One pass of the loop in processInput: the key `ch` applied to the list and the cursor. */
  method Key(output: LList<int>, currentPos: Node?<int>, ghost cursor: nat, number: int, isNumber: bool, ch: char)
    returns (pos: Node?<int>, ghost cursor': nat, number': int, isNumber': bool)
    requires output.Valid() && cursor <= |output.nodes|
    requires currentPos == if cursor < |output.nodes| then output.nodes[cursor] else null
    modifies output.Repr
    ensures output.Valid() && fresh(output.Repr - old(output.Repr))
    ensures cursor' <= |output.nodes|
    ensures pos == if cursor' < |output.nodes| then output.nodes[cursor'] else null
    ensures Editor(output.contents, cursor', number', isNumber') == Step(Editor(old(output.contents), cursor, number, isNumber), ch)
  {
    pos, cursor', number', isNumber' := currentPos, cursor, number, isNumber;
    if ch == ' ' || ch == '[' || ch == ']' {
      if ch == '[' {
        pos := output.Begin();
        cursor' := 0;
      } else if ch == ']' {
        pos := null;
        cursor' := |output.nodes|;
      }
      if isNumber {
        pos, cursor' := InsertAtCursor(output, pos, cursor', number);
        isNumber' := false;
      }
    } else {
      if !isNumber {
        number' := 0;
        isNumber' := true;
      }
      number' := number' * 10 + KeyValue(ch);
    }
  }

  /** output.insert(currentPos, number), with the cursor kept on the same element. */
  method InsertAtCursor(output: LList<int>, currentPos: Node?<int>, ghost cursor: nat, number: int)
    returns (pos: Node?<int>, ghost next: nat)
    requires output.Valid() && cursor <= |output.nodes|
    requires currentPos == if cursor < |output.nodes| then output.nodes[cursor] else null
    modifies output.Repr
    ensures output.Valid() && fresh(output.Repr - old(output.Repr))
    ensures output.contents == InsertAt(old(output.contents), cursor, number)
    ensures next == cursor + 1 <= |output.nodes| && pos == currentPos
    ensures pos == if next < |output.nodes| then output.nodes[next] else null
  {
    var _ := output.Insert(currentPos, number);
    pos, next := currentPos, cursor + 1;
  }

  // ---------------------------------------------------------------------
  // What a line produces
  // ---------------------------------------------------------------------

  /** The number of keys before the first separator. */
  function RunLength(s: string): (n: nat)
    ensures n <= |s|
  {
    if s != [] && !Separator(s[0]) then 1 + RunLength(s[1..]) else 0
  }

  /** The run is the longest prefix of non-separators: a separator or the end of the line follows it. */
  lemma {:induction false} RunLengthStops(s: string)
    ensures forall i :: 0 <= i < RunLength(s) ==> !Separator(s[i])
    ensures RunLength(s) < |s| ==> Separator(s[RunLength(s)])
  {
    if s != [] && !Separator(s[0]) {
      RunLengthStops(s[1..]);
      assert forall i :: 1 <= i < RunLength(s) ==> s[i] == s[1..][i - 1];
    }
  }

  /** The number of maximal runs of keys other than separators. */
  function Runs(s: string): nat
    decreases |s|
  {
    if s == [] then 0
    else if Separator(s[0]) then Runs(s[1..])
    else 1 + Runs(s[RunLength(s)..])
  }

  /** Every run of non-separator keys inserts exactly one number. */
  lemma KeysLength(c: seq<int>, s: string)
    ensures |Keys(c, s)| == |c| + Runs(s)
  {
    RunCount(Editor(c, 0, 0, false), s);
  }

  lemma {:induction false} RunCount(e: Editor, s: string)
    requires Ready(e)
    ensures |Flush(Run(e, s)).out| == |e.out| + (if e.isNumber then 1 + Runs(s[RunLength(s)..]) else Runs(s))
    decreases |s|
  {
    if s != [] {
      RunCount(Step(e, s[0]), s[1..]);
      if !Separator(s[0]) {
        assert s[RunLength(s)..] == s[1..][RunLength(s[1..])..];
      }
    }
  }

  /** The value the source gives a run of keys, starting from `acc`. */
  function Extend(acc: int, w: string): int
    decreases |w|
  {
    if w == [] then acc else Extend(acc * 10 + KeyValue(w[0]), w[1..])
  }

  /** The numbers of a line without brackets: one per run of keys between spaces, in order. */
  function Numbers(s: string): (r: seq<int>)
    decreases |s|
  {
    if s == [] then []
    else if Separator(s[0]) then Numbers(s[1..])
    else [Extend(0, s[..RunLength(s)])] + Numbers(s[RunLength(s)..])
  }

  predicate NoBrackets(s: string) {
    forall i :: 0 <= i < |s| ==> s[i] != '[' && s[i] != ']'
  }

  /**
   * The numbers still to be inserted when the rest of the line is `s`: the
   * one being typed, completed by the keys up to the next separator, and
   * then one per later run of keys.
   */
  function Pending(e: Editor, s: string): seq<int> {
    if e.isNumber then [Extend(e.number, s[..RunLength(s)])] + Numbers(s[RunLength(s)..]) else Numbers(s)
  }

  /**
   * Between two cursor moves, the numbers typed go in typing order and side
   * by side before the element the cursor was on, and nothing else moves.
   */
  lemma {:induction false} TypingBetweenMoves(e: Editor, s: string)
    requires Ready(e) && NoBrackets(s)
    ensures Flush(Run(e, s)).out == e.out[..e.cursor] + Pending(e, s) + e.out[e.cursor..]
    decreases |s|
  {
    if s == [] {
      if e.isNumber {
        assert InsertAt(e.out, e.cursor, e.number) == e.out[..e.cursor] + [e.number] + e.out[e.cursor..];
      }
    } else {
      var f := Step(e, s[0]);
      assert NoBrackets(s[1..]) by {
        assert forall i :: 0 <= i < |s[1..]| ==> s[1..][i] == s[i + 1];
      }
      TypingBetweenMoves(f, s[1..]);
      if Separator(s[0]) {
        SpaceStep(e, s);
      } else {
        KeyStep(e, s);
      }
    }
  }

  /** A space flushes the number being typed in before the cursor and moves the cursor past it. */
  lemma SpaceStep(e: Editor, s: string)
    requires Ready(e) && s != [] && s[0] == ' '
    ensures var f := Step(e, s[0]);
      f.out[..f.cursor] + Pending(f, s[1..]) + f.out[f.cursor..] == e.out[..e.cursor] + Pending(e, s) + e.out[e.cursor..]
  {
    var f := Step(e, s[0]);
    assert Pending(f, s[1..]) == Numbers(s[1..]);
    if e.isNumber {
      assert s[..RunLength(s)] == [] && s[RunLength(s)..] == s;
      assert Pending(e, s) == [e.number] + Numbers(s[1..]);
      assert f.out[..f.cursor] == e.out[..e.cursor] + [e.number];
      assert f.out[f.cursor..] == e.out[e.cursor..];
    }
  }

  /** Any other key extends the number being typed and leaves the list and cursor as they were. */
  lemma KeyStep(e: Editor, s: string)
    requires Ready(e) && s != [] && !Separator(s[0])
    ensures Pending(Step(e, s[0]), s[1..]) == Pending(e, s)
  {
    var n := RunLength(s);
    assert s[..n] == [s[0]] + s[1..][..n - 1];
    assert s[n..] == s[1..][n - 1..];
  }

  /** With no brackets on the line, its numbers go in order before what the list held. */
  lemma KeysWithoutBrackets(c: seq<int>, s: string)
    requires NoBrackets(s)
    ensures Keys(c, s) == Numbers(s) + c
  {
    TypingBetweenMoves(Editor(c, 0, 0, false), s);
  }

  /**
   * A number still being typed when '[' is pressed is inserted at the new
   * cursor, the front, not where it was being typed.
   */
  lemma PendingNumberFollowsCursor()
    ensures Keys([], "1 2[3") == [2, 3, 1]
  {
    var e1 := Editor([], 0, 1, true);
    var e2 := Editor([1], 1, 1, false);
    var e3 := Editor([1], 1, 2, true);
    var e4 := Editor([2, 1], 1, 2, false);
    var e5 := Editor([2, 1], 1, 3, true);
    RunFirst(Editor([], 0, 0, false), "1 2[3");
    assert "1 2[3"[1..] == " 2[3";
    RunFirst(e1, " 2[3");
    assert " 2[3"[1..] == "2[3";
    RunFirst(e2, "2[3");
    assert "2[3"[1..] == "[3";
    RunFirst(e3, "[3");
    assert InsertAt([1], 0, 2) == [2, 1];
    assert "[3"[1..] == "3";
    RunFirst(e4, "3");
    assert "3"[1..] == [];
    assert Run(Editor([], 0, 0, false), "1 2[3") == e5;
    assert InsertAt([2, 1], 1, 3) == [2, 3, 1];
  }

  lemma RunFirst(e: Editor, s: string)
    requires Ready(e) && s != []
    ensures Run(e, s) == Run(Step(e, s[0]), s[1..])
  {
  }

  /** Running two pieces of a line one after the other is running the whole line. */
  lemma {:induction false} RunSplit(e: Editor, s: string, t: string)
    requires Ready(e)
    ensures Run(e, s + t) == Run(Run(e, s), t)
    decreases |s|
  {
    if s == [] {
      assert s + t == t;
    } else {
      assert (s + t)[1..] == s[1..] + t;
      RunSplit(Step(e, s[0]), s[1..], t);
    }
  }
}
