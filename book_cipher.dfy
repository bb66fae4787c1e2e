/**
 * The book cipher: a message is a list of codes "P.L.C" (page, line and
 * character position in a book). The codes are copied, sorted by page,
 * and each one is split into the three numbers that locate its character.
 */
module BookCipher {
  import opened CLib

  // ---------------------------------------------------------------------
  // extractPageNumber
  // ---------------------------------------------------------------------

  /** The index of the first '.', or the length when there is none (string::find's npos). */
  function FirstDot(code: string): (i: nat)
    ensures i <= |code|
    ensures forall k :: 0 <= k < i ==> code[k] != '.'
    ensures i < |code| ==> code[i] == '.'
  {
    if code == [] then 0
    else if code[0] == '.' then 0
    else 1 + FirstDot(code[1..])
  }

  /**
   * extractPageNumber(codeStr): std::stoi of everything before the first
   * '.'; stoi throws std::invalid_argument when that does not start with a
   * number and std::out_of_range when the number exceeds `int`.
   */
  function ExtractPageNumber(code: string): Result<int> {
    Stoi(code[..FirstDot(code)])
  }

  /**
   * The page sortArray compares a code by. A code whose page cannot be read
   * makes extractPageNumber throw, so its key here is never compared.
   */
  function PageKey(code: string): int {
    match ExtractPageNumber(code)
    case Ok(page) => page
    case Err(_) => 0
  }

  /** A code that starts with a run of digits and a '.' has that run's value as its page. */
  lemma ExtractPageOfDigits(page: string, rest: string)
    requires page != [] && AllDigits(page) && DigitsValue(page) <= INT_MAX
    ensures ExtractPageNumber(page + "." + rest) == Ok(DigitsValue(page) as int)
  {
    var code := page + "." + rest;
    FirstDotAfter(page, "." + rest);
    assert code == page + ("." + rest);
    assert code[..|page|] == page;
    StoiAllDigits(page);
  }

  /** The first '.' of `a + b` when `a` has none. */
  lemma {:induction false} FirstDotAfter(a: string, b: string)
    requires forall k :: 0 <= k < |a| ==> a[k] != '.'
    requires b != [] && b[0] == '.'
    ensures FirstDot(a + b) == |a|
  {
    if a != [] {
      assert (a + b)[1..] == a[1..] + b;
      FirstDotAfter(a[1..], b);
    }
  }

  lemma ExtractPageNumberExamples()
    ensures ExtractPageNumber("12.3.4") == Ok(12)
    ensures ExtractPageNumber("7") == Ok(7)
    ensures ExtractPageNumber(".3.4") == Err(InvalidArgument)
  {
    ExtractPageOfDigits("12", "3.4");
    assert "12" + "." + "3.4" == "12.3.4";
    assert DigitsValue("12") == 12 by {
      assert "12"[..1] == "1";
    }
    assert FirstDot("7") == 1;
    assert "7"[..1] == "7";
    StoiAllDigits("7");
    assert FirstDot(".3.4") == 0;
  }

  // ---------------------------------------------------------------------
  // copyArray
  // ---------------------------------------------------------------------

  /** copyArray(a, b, size): b[i] = a[i] for every i < size, and nothing else. */
  method CopyArray(a: array<string>, b: array<string>, size: nat)
    requires size <= a.Length && size <= b.Length
    modifies b
    ensures b[..size] == old(a[..size])
    ensures b[size..] == old(b[size..])
  {
    for i := 0 to size
      invariant b[..i] == old(a[..i])
      invariant a[i..size] == old(a[i..size])
      invariant b[size..] == old(b[size..])
    {
      b[i] := a[i];
      assert b[..i + 1] == b[..i] + [b[i]];
      assert old(a[..i + 1]) == old(a[..i]) + [old(a[i])];
    }
  }

  // ---------------------------------------------------------------------
  // sortArray
  // ---------------------------------------------------------------------

  /**
   * Every code's page can be read. sortArray reads the page of every code
   * once there are two of them; a single code is never compared.
   */
  predicate PagesKnown(s: seq<string>) {
    |s| >= 2 ==> forall c :: c in s ==> ExtractPageNumber(c).Ok?
  }

  /** Pages never decrease along `s`. */
  predicate SortedByPage(s: seq<string>) {
    forall p, q :: 0 <= p < q < |s| ==> PageKey(s[p]) <= PageKey(s[q])
  }

  /**
   * sortArray(a, size): selection sort of a[0..size) by page number, the
   * first code with the smallest page of the rest swapped into each place.
   */
  method SortArray(a: array<string>, size: nat)
    requires size <= a.Length && PagesKnown(a[..size])
    modifies a
    ensures multiset(a[..size]) == multiset(old(a[..size]))
    ensures a[size..] == old(a[size..])
    ensures SortedByPage(a[..size])
  {
    for i := 0 to size
      invariant multiset(a[..size]) == multiset(old(a[..size]))
      invariant a[size..] == old(a[size..])
      invariant forall p, q :: 0 <= p < i && p < q < size ==> PageKey(a[p]) <= PageKey(a[q])
    {
      var smallestIndex := SmallestPage(a, i, size);
      SwapCodes(a, size, i, smallestIndex);
    }
  }

  /** The inner loop of sortArray: the first code of a[from..n) with the smallest page. */
  method SmallestPage(a: array<string>, from: nat, n: nat) returns (smallestIndex: nat)
    requires from < n <= a.Length
    ensures from <= smallestIndex < n
    ensures forall k :: from <= k < n ==> PageKey(a[smallestIndex]) <= PageKey(a[k])
    ensures forall k :: from <= k < smallestIndex ==> PageKey(a[smallestIndex]) < PageKey(a[k])
  {
    smallestIndex := from;
    for location := from + 1 to n
      invariant from <= smallestIndex < location
      invariant forall k :: from <= k < location ==> PageKey(a[smallestIndex]) <= PageKey(a[k])
      invariant forall k :: from <= k < smallestIndex ==> PageKey(a[smallestIndex]) < PageKey(a[k])
    {
      var p := PageKey(a[location]);
      var pSmallestIndex := PageKey(a[smallestIndex]);
      if p < pSmallestIndex {
        smallestIndex := location;
      }
    }
  }

  /** The exchange through `temp` at the end of each pass of sortArray. */
  method SwapCodes(a: array<string>, n: nat, i: nat, m: nat)
    requires i <= m < n <= a.Length
    requires forall p, q :: 0 <= p < i && p < q < n ==> PageKey(a[p]) <= PageKey(a[q])
    requires forall k :: i <= k < n ==> PageKey(a[m]) <= PageKey(a[k])
    modifies a
    ensures multiset(a[..n]) == multiset(old(a[..n]))
    ensures a[n..] == old(a[n..])
    ensures forall p, q :: 0 <= p < i + 1 && p < q < n ==> PageKey(a[p]) <= PageKey(a[q])
  {
    ghost var b := a[..n];
    var temp := a[m];
    a[m] := a[i];
    a[i] := temp;
    assert a[..n] == b[m := b[i]][i := b[m]];
    forall p, q | 0 <= p < i + 1 && p < q < n
      ensures PageKey(a[p]) <= PageKey(a[q])
    {
      var q' := if q == m then i else if q == i then m else q;
      assert a[q] == b[q'];
    }
  }

  // ---------------------------------------------------------------------
  // setCharLocation
  // ---------------------------------------------------------------------

  /** The three numbers setCharLocation sets through its reference parameters. */
  datatype Location = Location(pageNum: int, lineNum: int, charPos: int)

  /** The group of digits being read: page, then line, then character position. */
  datatype Group = PageGroup | LineGroup | CharGroup

  function Set(loc: Location, g: Group, value: int): Location {
    match g
    case PageGroup => loc.(pageNum := value)
    case LineGroup => loc.(lineNum := value)
    case CharGroup => loc.(charPos := value)
  }

  function Next(g: Group): Group {
    match g
    case PageGroup => LineGroup
    case LineGroup => CharGroup
    case CharGroup => CharGroup
  }

  /**
   * Reading group `g` from index `from` of the code. The digits there set
   * the group's number; std::out_of_range is thrown by stoi when it exceeds
   * `int`, and by string::at when the code ends where a character must be
   * looked at: at `from` itself, or after the page or line digits. After the
   * page or line digits a '.' starts the next group and anything else ends
   * the reading; the character digits end the reading, at the end of the
   * code or at any character that is not a digit.
   */
  function Scan(code: string, from: nat, g: Group, loc: Location): Result<Location>
    requires from <= |code|
    decreases |code| - from
  {
    var n := DigitRun(code[from..]);
    DigitRunStops(code[from..]);
    if n == 0 then
      if from == |code| then Err(OutOfRange) else Ok(loc)
    else
      var value := DigitsValue(code[from..][..n]);
      if value > INT_MAX then Err(OutOfRange)
      else if g == CharGroup then Ok(Set(loc, g, value))
      else if from + n == |code| then Err(OutOfRange)
      else if code[from + n] == '.' then Scan(code, from + n + 1, Next(g), Set(loc, g, value))
      else Ok(Set(loc, g, value))
  }

  /**
   * What setCharLocation leaves in its three parameters, which hold `loc`
   * on entry: the numbers read, with the line and the character position
   * made zero-based.
   */
  function CharLocation(code: string, loc: Location): Result<Location> {
    match Scan(code, 0, PageGroup, loc)
    case Ok(l) => Ok(l.(lineNum := l.lineNum - 1, charPos := l.charPos - 1))
    case Err(e) => Err(e)
  }

  /** The loops stop at this point: `isValid` is false, or the current character is there and is not a digit. */
  predicate Stops(code: string, j: nat, isValid: bool) {
    !isValid || (j < |code| && !IsDigit(code[j]))
  }

  /**
   * setCharLocation(codeStr, pageNum, lineNum, charPos): reads the digits
   * of the page, and after a '.' those of the line, and after another '.'
   * those of the character position, each digit through stoi of the digits
   * so far; then decrements the line and the character position.
   */
  method SetCharLocation(code: string, pageNum: int, lineNum: int, charPos: int) returns (r: Result<Location>)
    ensures r == CharLocation(code, Location(pageNum, lineNum, charPos))
  {
    var loc := Location(pageNum, lineNum, charPos);
    ghost var loc0 := loc;
    var tmpPage := "";
    var j: nat := 0;
    var isValid := true;
    ghost var done := false;
    while true
      invariant j <= |code|
      invariant !done ==> isValid && tmpPage == code[..j] && AllDigits(tmpPage)
      invariant !done && j == 0 ==> loc == loc0
      invariant !done && j > 0 ==> DigitsValue(tmpPage) <= INT_MAX && loc == Set(loc0, PageGroup, DigitsValue(tmpPage))
      invariant !done && j > 0 ==> j < |code| && code[j] != '.'
      invariant done ==> Scan(code, 0, PageGroup, loc0) == Ok(loc) && Stops(code, j, isValid)
      decreases |code| - j
    {
      if !isValid {
        break;
      }
      if j >= |code| {
        assert !done && j == 0;
        return Err(OutOfRange);
      }
      if !IsDigit(code[j]) {
        if !done {
          ReadStops(code, 0, j, PageGroup, loc0);
        }
        break;
      }
      assert !done;
      var step := AddDigit(code, 0, j, tmpPage, PageGroup, loc0, loc);
      if step.Err? {
        return Err(step.error);
      }
      tmpPage, loc := step.value.0, step.value.1;
      j := j + 1;
      if j >= |code| {
        assert code[0..] == tmpPage;
        ReadAtEnd(code, 0, PageGroup, loc0);
        return Err(OutOfRange);
      }
      if code[j] == '.' {
        var res := LineAfterDot(code, j, loc0, loc);
        if res.Err? {
          return Err(res.error);
        }
        loc, j, isValid := res.value.0, res.value.1, res.value.2;
        done := true;
      }
    }
    r := Ok(loc.(lineNum := loc.lineNum - 1, charPos := loc.charPos - 1));
  }

  /** The page digits end at the '.' at `dot`: it is skipped and the line is read. */
  method LineAfterDot(code: string, dot: nat, ghost loc0: Location, loc: Location) returns (r: Result<(Location, nat, bool)>)
    requires 0 < dot < |code| && code[dot] == '.' && AllDigits(code[..dot]) && DigitsValue(code[..dot]) <= INT_MAX
    requires loc == Set(loc0, PageGroup, DigitsValue(code[..dot]))
    ensures r.Err? ==> Scan(code, 0, PageGroup, loc0) == Err(r.error)
    ensures r.Ok? ==> Scan(code, 0, PageGroup, loc0) == Ok(r.value.0) &&
                      dot < r.value.1 <= |code| && Stops(code, r.value.1, r.value.2)
  {
    assert code[0..dot] == code[..dot];
    ReadDot(code, 0, dot, PageGroup, loc0);
    r := ReadLineNum(code, dot + 1, loc);
  }

  /** The middle loop of setCharLocation: the line digits, and the character position after a '.'. */
  method ReadLineNum(code: string, from: nat, loc0: Location) returns (r: Result<(Location, nat, bool)>)
    requires from <= |code|
    ensures r.Err? ==> Scan(code, from, LineGroup, loc0) == Err(r.error)
    ensures r.Ok? ==> Scan(code, from, LineGroup, loc0) == Ok(r.value.0) &&
                      from <= r.value.1 <= |code| && Stops(code, r.value.1, r.value.2)
  {
    var loc := loc0;
    var tmpLine := "";
    var j: nat := from;
    var isValid := true;
    ghost var done := false;
    while true
      invariant from <= j <= |code|
      invariant !done ==> isValid && tmpLine == code[from..j] && AllDigits(tmpLine)
      invariant !done && j == from ==> loc == loc0
      invariant !done && j > from ==> DigitsValue(tmpLine) <= INT_MAX && loc == Set(loc0, LineGroup, DigitsValue(tmpLine))
      invariant !done && j > from ==> j < |code| && code[j] != '.'
      invariant done ==> Scan(code, from, LineGroup, loc0) == Ok(loc) && Stops(code, j, isValid)
      decreases |code| - j
    {
      if !isValid {
        break;
      }
      if j >= |code| {
        assert !done && j == from;
        return Err(OutOfRange);
      }
      if !IsDigit(code[j]) {
        if !done {
          ReadStops(code, from, j, LineGroup, loc0);
        }
        break;
      }
      assert !done;
      var step := AddDigit(code, from, j, tmpLine, LineGroup, loc0, loc);
      if step.Err? {
        return Err(step.error);
      }
      tmpLine, loc := step.value.0, step.value.1;
      j := j + 1;
      if j >= |code| {
        assert code[from..] == tmpLine;
        ReadAtEnd(code, from, LineGroup, loc0);
        return Err(OutOfRange);
      }
      if code[j] == '.' {
        var res := CharPosAfterDot(code, from, j, loc0, loc);
        if res.Err? {
          return Err(res.error);
        }
        loc, j, isValid := res.value.0, res.value.1, res.value.2;
        done := true;
      }
    }
    r := Ok((loc, j, isValid));
  }

  /** The line digits end at the '.' at `dot`: it is skipped and the character position is read. */
  method CharPosAfterDot(code: string, from: nat, dot: nat, ghost loc0: Location, loc: Location) returns (r: Result<(Location, nat, bool)>)
    requires from < dot < |code| && code[dot] == '.' && AllDigits(code[from..dot]) && DigitsValue(code[from..dot]) <= INT_MAX
    requires loc == Set(loc0, LineGroup, DigitsValue(code[from..dot]))
    ensures r.Err? ==> Scan(code, from, LineGroup, loc0) == Err(r.error)
    ensures r.Ok? ==> Scan(code, from, LineGroup, loc0) == Ok(r.value.0) &&
                      dot < r.value.1 <= |code| && Stops(code, r.value.1, r.value.2)
  {
    ReadDot(code, from, dot, LineGroup, loc0);
    r := ReadCharPos(code, dot + 1, loc);
  }

  /** The innermost loop of setCharLocation: the character-position digits, up to the end of the code. */
  method ReadCharPos(code: string, from: nat, loc0: Location) returns (r: Result<(Location, nat, bool)>)
    requires from <= |code|
    ensures r.Err? ==> Scan(code, from, CharGroup, loc0) == Err(r.error)
    ensures r.Ok? ==> Scan(code, from, CharGroup, loc0) == Ok(r.value.0) &&
                      from <= r.value.1 <= |code| && Stops(code, r.value.1, r.value.2)
  {
    var loc := loc0;
    var tmpChar := "";
    var j: nat := from;
    var isValid := true;
    while true
      invariant from <= j <= |code|
      invariant tmpChar == code[from..j] && AllDigits(tmpChar)
      invariant j == from ==> loc == loc0 && isValid
      invariant j > from ==> DigitsValue(tmpChar) <= INT_MAX && loc == Set(loc0, CharGroup, DigitsValue(tmpChar))
      invariant isValid == (j == from || j < |code|)
      decreases |code| - j, isValid
    {
      if !isValid {
        ReadStops(code, from, j, CharGroup, loc0);
        break;
      }
      if j >= |code| {
        return Err(OutOfRange);
      }
      if !IsDigit(code[j]) {
        ReadStops(code, from, j, CharGroup, loc0);
        break;
      }
      var step := AddDigit(code, from, j, tmpChar, CharGroup, loc0, loc);
      if step.Err? {
        return Err(step.error);
      }
      tmpChar, loc := step.value.0, step.value.1;
      j := j + 1;
      if j == |code| {
        isValid := false;
      }
    }
    r := Ok((loc, j, isValid));
  }

  /**
   * One pass of a loop of setCharLocation: the digit at `j` joins the
   * group's digits and stoi of them sets the group's number.
   */
  method AddDigit(code: string, from: nat, j: nat, digits: string, g: Group, ghost loc0: Location, loc: Location)
    returns (r: Result<(string, Location)>)
    requires from <= j < |code| && IsDigit(code[j]) && digits == code[from..j] && AllDigits(digits)
    ensures r.Err? ==> Scan(code, from, g, loc0) == Err(r.error)
    ensures r.Ok? ==> r.value.0 == code[from..j + 1] && AllDigits(r.value.0) &&
                      DigitsValue(r.value.0) <= INT_MAX && r.value.1 == Set(loc, g, DigitsValue(r.value.0))
  {
    var more := digits + [code[j]];
    assert more == code[from..j + 1];
    var v := StoiOfDigits(more);
    if v.Err? {
      ReadOverflows(code, from, j + 1, g, loc0);
      return Err(v.error);
    }
    r := Ok((more, Set(loc, g, v.value)));
  }

  /** std::stoi on the digits collected so far: their value, or std::out_of_range beyond `int`. */
  method StoiOfDigits(digits: string) returns (v: Result<int>)
    requires digits != [] && AllDigits(digits)
    ensures v == if DigitsValue(digits) <= INT_MAX then Ok(DigitsValue(digits) as int) else Err(OutOfRange)
  {
    v := Stoi(digits);
    StoiAllDigits(digits);
  }

  /** The digits read so far are the whole run at `from`. */
  lemma RunIs(code: string, from: nat, j: nat)
    requires from <= j <= |code| && AllDigits(code[from..j])
    requires j == |code| || !IsDigit(code[j])
    ensures DigitRun(code[from..]) == j - from && code[from..][..j - from] == code[from..j]
  {
    assert code[from..] == code[from..j] + code[j..];
    DigitRunOfDigits(code[from..j], code[j..]);
  }

  /** Reading stops at a character that is not a digit (for the character group, also at the end). */
  lemma ReadStops(code: string, from: nat, j: nat, g: Group, loc0: Location)
    requires from <= j <= |code| && AllDigits(code[from..j])
    requires j == |code| || !IsDigit(code[j])
    requires j == from ==> j < |code|
    requires j > from ==> DigitsValue(code[from..j]) <= INT_MAX && (g == CharGroup || (j < |code| && code[j] != '.'))
    ensures Scan(code, from, g, loc0) == if j == from then Ok(loc0) else Ok(Set(loc0, g, DigitsValue(code[from..j])))
  {
    RunIs(code, from, j);
  }

  /** A '.' after the page or line digits hands over to the next group. */
  lemma ReadDot(code: string, from: nat, j: nat, g: Group, loc0: Location)
    requires from < j < |code| && AllDigits(code[from..j]) && code[j] == '.' && g != CharGroup
    requires DigitsValue(code[from..j]) <= INT_MAX
    ensures Scan(code, from, g, loc0) == Scan(code, j + 1, Next(g), Set(loc0, g, DigitsValue(code[from..j])))
  {
    RunIs(code, from, j);
  }

  /** Page or line digits that run to the end of the code: string::at throws. */
  lemma ReadAtEnd(code: string, from: nat, g: Group, loc0: Location)
    requires from < |code| && AllDigits(code[from..]) && g != CharGroup
    requires DigitsValue(code[from..]) <= INT_MAX
    ensures Scan(code, from, g, loc0) == Err(OutOfRange)
  {
    assert code[from..|code|] == code[from..];
    RunIs(code, from, |code|);
  }

  /** Digits whose value exceeds `int` so far: stoi throws, and so does the whole group. */
  lemma ReadOverflows(code: string, from: nat, j: nat, g: Group, loc0: Location)
    requires from < j <= |code| && AllDigits(code[from..j]) && DigitsValue(code[from..j]) > INT_MAX
    ensures Scan(code, from, g, loc0) == Err(OutOfRange)
  {
    var s := code[from..];
    assert s[..j - from] == code[from..j];
    DigitRunAtLeast(s, j - from);
    var n := DigitRun(s);
    DigitRunStops(s);
    DigitsValuePrefix(s[..n], j - from);
    assert s[..n][..j - from] == code[from..j];
  }

  /**
   * The code is "P.L.C": groups of digits, each within `int`, before the
   * '.' at `i`, between it and the '.' at `k`, and after that.
   */
  predicate GroupsAt(code: string, i: nat, k: nat) {
    0 < i && i + 1 < k && k + 1 < |code| && code[i] == '.' && code[k] == '.' &&
    AllDigits(code[..i]) && DigitsValue(code[..i]) <= INT_MAX &&
    AllDigits(code[i + 1..k]) && DigitsValue(code[i + 1..k]) <= INT_MAX &&
    AllDigits(code[k + 1..]) && DigitsValue(code[k + 1..]) <= INT_MAX
  }

  /**
   * A code "P.L.C", three groups of digits separated by the '.' at `i` and
   * the '.' at `k`, yields page P, line L - 1 and character position C - 1,
   * whatever the parameters held before.
   */
  lemma WellFormedCode(code: string, i: nat, k: nat, loc: Location)
    requires GroupsAt(code, i, k)
    ensures CharLocation(code, loc) ==
            Ok(Location(DigitsValue(code[..i]) as int, DigitsValue(code[i + 1..k]) as int - 1, DigitsValue(code[k + 1..]) as int - 1))
  {
    assert code[0..i] == code[..i];
    var loc1 := Set(loc, PageGroup, DigitsValue(code[..i]));
    var loc2 := Set(loc1, LineGroup, DigitsValue(code[i + 1..k]));
    ReadDot(code, 0, i, PageGroup, loc);
    ReadDot(code, i + 1, k, LineGroup, loc1);
    assert code[k + 1..|code|] == code[k + 1..];
    ReadStops(code, k + 1, |code|, CharGroup, loc2);
  }

  /** The page setCharLocation reads from a well-formed code is the one extractPageNumber reads. */
  lemma SamePage(code: string, i: nat, k: nat, loc: Location)
    requires GroupsAt(code, i, k)
    ensures CharLocation(code, loc).Ok?
    ensures ExtractPageNumber(code) == Ok(CharLocation(code, loc).value.pageNum)
  {
    WellFormedCode(code, i, k, loc);
    assert forall j :: 0 <= j < i ==> code[j] == code[..i][j];
    FirstDotIs(code, i);
    StoiAllDigits(code[..i]);
  }

  /** The first '.' is at `i` when there is one there and none before. */
  lemma {:induction false} FirstDotIs(code: string, i: nat)
    requires i < |code| && code[i] == '.'
    requires forall j :: 0 <= j < i ==> code[j] != '.'
    ensures FirstDot(code) == i
  {
    if i > 0 {
      FirstDotIs(code[1..], i - 1);
    }
  }

  lemma CharLocationExample(loc: Location)
    ensures CharLocation("3.14.15", loc) == Ok(Location(3, 13, 14))
  {
    ExampleGroups();
    WellFormedCode("3.14.15", 1, 4, loc);
  }

  lemma ExampleGroups()
    ensures GroupsAt("3.14.15", 1, 4)
    ensures DigitsValue("3.14.15"[..1]) == 3
    ensures DigitsValue("3.14.15"[2..4]) == 14
    ensures DigitsValue("3.14.15"[5..]) == 15
  {
    var code := "3.14.15";
    assert code[..1] == "3" && code[2..4] == "14" && code[5..] == "15";
    SmallValues();
  }

  lemma SmallValues()
    ensures AllDigits("3") && DigitsValue("3") == 3
    ensures AllDigits("14") && DigitsValue("14") == 14
    ensures AllDigits("15") && DigitsValue("15") == 15
  {
    assert "14"[..1] == "1" && "15"[..1] == "1";
    assert "1"[..0] == "" && "3"[..0] == "";
  }

  /** A code cut short after the line digits, or right after the second '.', throws std::out_of_range. */
  lemma TruncatedCode(p: string, l: string, loc: Location)
    requires p != [] && AllDigits(p) && DigitsValue(p) <= INT_MAX
    requires l != [] && AllDigits(l) && DigitsValue(l) <= INT_MAX
    ensures CharLocation(p + "." + l, loc) == Err(OutOfRange)
    ensures CharLocation(p + "." + l + ".", loc) == Err(OutOfRange)
  {
    var code := p + "." + l;
    assert code[..|p|] == p;
    ReadDot(code, 0, |p|, PageGroup, loc);
    assert code[|p| + 1..] == l;
    ReadAtEnd(code, |p| + 1, LineGroup, Set(loc, PageGroup, DigitsValue(p)));
    var code' := p + "." + l + ".";
    var k := |p| + 1 + |l|;
    assert code'[..|p|] == p;
    ReadDot(code', 0, |p|, PageGroup, loc);
    assert code'[|p| + 1..k] == l;
    ReadDot(code', |p| + 1, k, LineGroup, Set(loc, PageGroup, DigitsValue(p)));
  }

  /** A code that does not start with a digit leaves the page alone and only decrements the other two. */
  lemma NoDigits(code: string, loc: Location)
    requires code != [] && !IsDigit(code[0])
    ensures CharLocation(code, loc) == Ok(Location(loc.pageNum, loc.lineNum - 1, loc.charPos - 1))
  {
    ReadStops(code, 0, 0, PageGroup, loc);
  }
}
