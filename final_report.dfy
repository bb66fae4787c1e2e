/**
 * The grade report: ten student records of five scores each get their
 * average and letter grade, the class total is summed, and the best and
 * the poorest performers are found by their averages.
 */
module FinalReport {
  import opened SeqOps
  import ClassGrades

  const SCORE_CNT: nat := 5
  const STUDENT_CNT: nat := 10

  /** student_t: a name, SCORE_CNT scores, their average and the letter grade. */
  datatype Student = Student(name: string, scores: seq<int>, average: real, grade: char)

  /** The records array: STUDENT_CNT records of SCORE_CNT scores each. */
  predicate Records(students: array<Student>)
    reads students
  {
    students.Length == STUDENT_CNT && forall r :: 0 <= r < students.Length ==> |students[r].scores| == SCORE_CNT
  }

  // ---------------------------------------------------------------------
  // score2LetterGrade
  // ---------------------------------------------------------------------

  /** score2LetterGrade(sAverage): A from 90, B from 80, C from 70, D from 60, F below. */
  function Score2LetterGrade(sAverage: real): (grade: char) {
    if sAverage >= 90.0 then 'A'
    else if sAverage >= 80.0 then 'B'
    else if sAverage >= 70.0 then 'C'
    else if sAverage >= 60.0 then 'D'
    else 'F'
  }

  /** Each letter covers exactly its band of averages. */
  lemma LetterGradeBands(x: real)
    ensures Score2LetterGrade(x) == 'A' <==> x >= 90.0
    ensures Score2LetterGrade(x) == 'B' <==> 80.0 <= x < 90.0
    ensures Score2LetterGrade(x) == 'C' <==> 70.0 <= x < 80.0
    ensures Score2LetterGrade(x) == 'D' <==> 60.0 <= x < 70.0
    ensures Score2LetterGrade(x) == 'F' <==> x < 60.0
  {
  }

  /** A higher average never gets a lower letter. */
  lemma LetterGradeMonotone(x: real, y: real)
    requires x <= y
    ensures ClassGrades.Rank(Score2LetterGrade(x)) <= ClassGrades.Rank(Score2LetterGrade(y))
  {
  }

  /** The same ladder as setGrade of the class statistics. */
  lemma SameLadderAsSetGrade(x: real)
    ensures Score2LetterGrade(x) == ClassGrades.SetGrade(ClassGrades.Finite(x))
  {
  }

  // ---------------------------------------------------------------------
  // findMaxAve, findMinAve
  // ---------------------------------------------------------------------

  /**
   * findMaxAve(students): the index of a largest average; `>=` moves the
   * index on ties, so it is the last such record.
   */
  method FindMaxAve(students: array<Student>) returns (index: nat)
    requires students.Length == STUDENT_CNT
    ensures index < STUDENT_CNT
    ensures forall r :: 0 <= r < STUDENT_CNT ==> students[r].average <= students[index].average
    ensures forall r :: index < r < STUDENT_CNT ==> students[r].average < students[index].average
  {
    var record := 0;
    var maxAve := students[0].average;
    index := 0;
    while record < STUDENT_CNT
      invariant record <= STUDENT_CNT && index < STUDENT_CNT && (index == 0 || index < record)
      invariant maxAve == students[index].average
      invariant forall r :: 0 <= r < record ==> students[r].average <= maxAve
      invariant forall r :: index < r < record ==> students[r].average < maxAve
    {
      if students[record].average >= maxAve {
        maxAve := students[record].average;
        index := record;
      }
      record := record + 1;
    }
  }

  /**
   * findMinAve(students): the index of a smallest average; `<=` moves the
   * index on ties, so it is the last such record.
   */
  method FindMinAve(students: array<Student>) returns (index: nat)
    requires students.Length == STUDENT_CNT
    ensures index < STUDENT_CNT
    ensures forall r :: 0 <= r < STUDENT_CNT ==> students[index].average <= students[r].average
    ensures forall r :: index < r < STUDENT_CNT ==> students[index].average < students[r].average
  {
    var record := 0;
    var minAve := students[0].average;
    index := 0;
    while record < STUDENT_CNT
      invariant record <= STUDENT_CNT && index < STUDENT_CNT && (index == 0 || index < record)
      invariant minAve == students[index].average
      invariant forall r :: 0 <= r < record ==> minAve <= students[r].average
      invariant forall r :: index < r < record ==> minAve < students[r].average
    {
      if students[record].average <= minAve {
        minAve := students[record].average;
        index := record;
      }
      record := record + 1;
    }
  }

  // ---------------------------------------------------------------------
  // calculateRecordAverages, recordAverages2LetterGrades
  // ---------------------------------------------------------------------

  /** A record's average: the total of its scores over SCORE_CNT. */
  function RecordAverage(s: Student): real {
    Total(s.scores) as real / SCORE_CNT as real
  }

  /**
   * calculateRecordAverages(students): every record's average becomes the
   * total of its scores over SCORE_CNT; nothing else changes.
   */
  method CalculateRecordAverages(students: array<Student>)
    requires Records(students)
    modifies students
    ensures Records(students)
    ensures forall r :: 0 <= r < STUDENT_CNT ==>
              students[r] == old(students[r]).(average := RecordAverage(old(students[r])))
  {
    var record := 0;
    while record < STUDENT_CNT
      invariant record <= STUDENT_CNT && Records(students)
      invariant forall r :: 0 <= r < record ==> students[r] == old(students[r]).(average := RecordAverage(old(students[r])))
      invariant forall r :: record <= r < STUDENT_CNT ==> students[r] == old(students[r])
    {
      var sum := SumScores(students[record].scores);
      var sAvg := sum as real / SCORE_CNT as real;
      students[record] := students[record].(average := sAvg);
      record := record + 1;
    }
  }

  /**
   * recordAverages2LetterGrades(students): every record's grade becomes
   * score2LetterGrade of its average; nothing else changes.
   */
  method RecordAverages2LetterGrades(students: array<Student>)
    requires students.Length == STUDENT_CNT
    modifies students
    ensures forall r :: 0 <= r < STUDENT_CNT ==>
              students[r] == old(students[r]).(grade := Score2LetterGrade(old(students[r]).average))
  {
    var record := 0;
    while record < STUDENT_CNT
      invariant record <= STUDENT_CNT
      invariant forall r :: 0 <= r < record ==> students[r] == old(students[r]).(grade := Score2LetterGrade(old(students[r]).average))
      invariant forall r :: record <= r < STUDENT_CNT ==> students[r] == old(students[r])
    {
      var sAvg := students[record].average;
      students[record] := students[record].(grade := Score2LetterGrade(sAvg));
      record := record + 1;
    }
  }

  /** Scores from 0 to 100 give an average from 0 to 100. */
  lemma RecordAverageBetween(s: Student)
    requires |s.scores| == SCORE_CNT
    requires forall k :: 0 <= k < |s.scores| ==> 0 <= s.scores[k] <= 100
    ensures 0.0 <= RecordAverage(s) <= 100.0
  {
    TotalBounds(s.scores, 0, 100);
  }

  // ---------------------------------------------------------------------
  // printReport's class sum
  // ---------------------------------------------------------------------

  /** The score rows of the records, in record order. */
  function ScoreRows(students: seq<Student>): (rows: seq<seq<int>>)
    ensures |rows| == |students|
  {
    seq(|students|, r requires 0 <= r < |students| => students[r].scores)
  }

  /** The scores of all the records, added up, as the class statistics add up score rows. */
  function ClassTotal(students: seq<Student>): int {
    ClassGrades.ClassTotal(ScoreRows(students))
  }

  /** Adding one more record adds its scores' total. */
  lemma ClassTotalLast(students: seq<Student>)
    requires students != []
    ensures ClassTotal(students) == ClassTotal(students[..|students| - 1]) + Total(students[|students| - 1].scores)
  {
    assert ScoreRows(students)[..|students| - 1] == ScoreRows(students[..|students| - 1]);
  }

  /** The averages of all the records, added up. */
  function AverageTotal(students: seq<Student>): real {
    if students == [] then 0.0 else AverageTotal(students[..|students| - 1]) + students[|students| - 1].average
  }

  /** The loop of printReport that adds every score of every record into classSum. */
  method ClassSum(students: array<Student>) returns (classSum: int)
    requires Records(students)
    ensures classSum == ClassTotal(students[..])
  {
    classSum := 0;
    var record := 0;
    while record < STUDENT_CNT
      invariant record <= STUDENT_CNT
      invariant classSum == ClassTotal(students[..record])
    {
      assert students[..record + 1][..record] == students[..record];
      ClassTotalLast(students[..record + 1]);
      var sum := SumScores(students[record].scores);
      classSum := classSum + sum;
      record := record + 1;
    }
    assert students[..STUDENT_CNT] == students[..];
  }

  /**
   * Once the averages are computed, the class total is SCORE_CNT times the
   * total of the averages: the class average printed from it is the mean of
   * the student averages.
   */
  lemma {:induction false} ClassTotalOfAverages(students: seq<Student>)
    requires forall r :: 0 <= r < |students| ==> students[r].average == RecordAverage(students[r])
    ensures ClassTotal(students) as real == SCORE_CNT as real * AverageTotal(students)
  {
    if students != [] {
      ClassTotalOfAverages(students[..|students| - 1]);
      ClassTotalLast(students);
    }
  }
}
