/**
 * The class statistics: every score of every student is summed, the class
 * average is that sum over the number of scores, and an average is mapped
 * to a letter grade.
 */
module ClassGrades {
  import opened SeqOps

  /** A `double` result: a number, or NaN from 0.0 / 0.0. */
  datatype Double = Finite(value: real) | NaN

  /** The total of the rows before the last, plus the last row's total. */
  function ClassTotal(rows: seq<seq<int>>): int {
    if rows == [] then 0 else ClassTotal(rows[..|rows| - 1]) + Total(rows[|rows| - 1])
  }

  /** How many scores there are in all the rows. */
  function ScoreCount(rows: seq<seq<int>>): nat {
    if rows == [] then 0 else ScoreCount(rows[..|rows| - 1]) + |rows[|rows| - 1]|
  }

  /** Every score of every row, row after row. */
  function Flatten(rows: seq<seq<int>>): seq<int> {
    if rows == [] then [] else Flatten(rows[..|rows| - 1]) + rows[|rows| - 1]
  }

  /**
   * sum(student_scores): both loops add every score, row by row; the `int`
   * accumulator is taken to hold the total.
   */
  method Sum(studentScores: seq<seq<int>>) returns (sum: int)
    ensures sum == ClassTotal(studentScores)
  {
    sum := 0;
    for i := 0 to |studentScores|
      invariant sum == ClassTotal(studentScores[..i])
    {
      assert studentScores[..i + 1][..i] == studentScores[..i];
      var row := studentScores[i];
      for j := 0 to |row|
        invariant sum == ClassTotal(studentScores[..i]) + Total(row[..j])
      {
        assert row[..j + 1] == row[..j] + [row[j]];
        TotalAppend(row[..j], row[j]);
        sum := sum + row[j];
      }
      assert row[..|row|] == row;
    }
    assert studentScores[..|studentScores|] == studentScores;
  }

  /**
   * average(student_scores): 0 when there are no students; otherwise the
   * sum over the number of scores, which is 0.0 / 0.0, NaN, when no student
   * has a score.
   */
  method Average(studentScores: seq<seq<int>>) returns (avg: Double)
    ensures |studentScores| == 0 ==> avg == Finite(0.0)
    ensures |studentScores| > 0 && ScoreCount(studentScores) == 0 ==> avg == NaN
    ensures |studentScores| > 0 && ScoreCount(studentScores) > 0 ==>
              avg == Finite(ClassTotal(studentScores) as real / ScoreCount(studentScores) as real)
  {
    avg := Finite(0.0);
    var totalScores := 0;
    var totalStudents := |studentScores|;
    for i := 0 to totalStudents
      invariant totalScores == ScoreCount(studentScores[..i])
    {
      assert studentScores[..i + 1][..i] == studentScores[..i];
      totalScores := totalScores + |studentScores[i]|;
    }
    assert studentScores[..|studentScores|] == studentScores;
    if |studentScores| > 0 {
      var s := Sum(studentScores);
      if totalScores == 0 {
        NoScoresNoTotal(studentScores);
        avg := NaN;
      } else {
        avg := Finite(s as real / totalScores as real);
      }
    }
  }

  /** The class total is the total of all the scores, and their number is the score count. */
  lemma {:induction false} FlattenTotals(rows: seq<seq<int>>)
    ensures Total(Flatten(rows)) == ClassTotal(rows)
    ensures |Flatten(rows)| == ScoreCount(rows)
  {
    if rows != [] {
      FlattenTotals(rows[..|rows| - 1]);
      TotalConcat(Flatten(rows[..|rows| - 1]), rows[|rows| - 1]);
    }
  }

  /** Rows without a score total 0. */
  lemma NoScoresNoTotal(rows: seq<seq<int>>)
    requires ScoreCount(rows) == 0
    ensures ClassTotal(rows) == 0
  {
    FlattenTotals(rows);
  }

  /** With every score between `lo` and `hi`, so is the class average. */
  lemma AverageBetween(rows: seq<seq<int>>, lo: int, hi: int)
    requires ScoreCount(rows) > 0
    requires forall r, k :: 0 <= r < |rows| && 0 <= k < |rows[r]| ==> lo <= rows[r][k] <= hi
    ensures lo as real <= ClassTotal(rows) as real / ScoreCount(rows) as real <= hi as real
  {
    FlattenTotals(rows);
    FlattenHolds(rows, lo, hi);
    TotalBounds(Flatten(rows), lo, hi);
    RealBounds(ClassTotal(rows), ScoreCount(rows), lo, hi);
  }

  /** A quotient of integers lies between the bounds its numerator has in multiples of the denominator. */
  lemma RealBounds(t: int, n: int, lo: int, hi: int)
    requires n > 0 && lo * n <= t <= hi * n
    ensures lo as real <= t as real / n as real <= hi as real
  {
    var x, y := n as real, t as real;
    assert (lo * n) as real == lo as real * x;
    assert (hi * n) as real == hi as real * x;
    assert y / x * x == y;
  }

  /** Every score in the flattened rows is one of the rows' scores. */
  lemma {:induction false} FlattenHolds(rows: seq<seq<int>>, lo: int, hi: int)
    requires forall r, k :: 0 <= r < |rows| && 0 <= k < |rows[r]| ==> lo <= rows[r][k] <= hi
    ensures forall i :: 0 <= i < |Flatten(rows)| ==> lo <= Flatten(rows)[i] <= hi
  {
    if rows != [] {
      FlattenHolds(rows[..|rows| - 1], lo, hi);
    }
  }

  /**
   * setGrade(average): A from 90, B from 80, C from 70, D from 60, F below;
   * NaN fails every comparison and gets F.
   */
  function SetGrade(average: Double): (grade: char)
    ensures grade in "ABCDF"
  {
    if average.Finite? && average.value >= 90.0 then 'A'
    else if average.Finite? && average.value >= 80.0 then 'B'
    else if average.Finite? && average.value >= 70.0 then 'C'
    else if average.Finite? && average.value >= 60.0 then 'D'
    else 'F'
  }

  /** The standing of a letter: A highest, F lowest. */
  function Rank(grade: char): nat {
    match grade
    case 'A' => 4
    case 'B' => 3
    case 'C' => 2
    case 'D' => 1
    case _ => 0
  }

  /** Each letter covers exactly its band of averages. */
  lemma SetGradeBands(x: real)
    ensures SetGrade(Finite(x)) == 'A' <==> x >= 90.0
    ensures SetGrade(Finite(x)) == 'B' <==> 80.0 <= x < 90.0
    ensures SetGrade(Finite(x)) == 'C' <==> 70.0 <= x < 80.0
    ensures SetGrade(Finite(x)) == 'D' <==> 60.0 <= x < 70.0
    ensures SetGrade(Finite(x)) == 'F' <==> x < 60.0
    ensures SetGrade(NaN) == 'F'
  {
  }

  /** A higher average never gets a lower letter. */
  lemma SetGradeMonotone(x: real, y: real)
    requires x <= y
    ensures Rank(SetGrade(Finite(x))) <= Rank(SetGrade(Finite(y)))
  {
  }

  lemma ClassExamples()
    ensures ClassTotal([[90, 80], [70]]) == 240 && ScoreCount([[90, 80], [70]]) == 3
    ensures SetGrade(Finite(80.0)) == 'B'
  {
    assert [[90, 80], [70]][..1] == [[90, 80]];
    assert [[90, 80]][..0] == [];
  }
}
