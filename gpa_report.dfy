/**
 * The GPA report: ten student records of fifteen scores each get their
 * average, and from it a letter grade and a grade-point value on an
 * eleven-step ladder.
 */
module GpaReport {
  import opened SeqOps

  const SCORE_CNT: nat := 15
  const STUDENT_CNT: nat := 10

  /** student_t: a name, SCORE_CNT scores, their average, the GPA and the letter grade. */
  datatype Student = Student(fName: string, lName: string, scores: seq<int>, average: real, gpa: real, grade: string)

  /** The records array: STUDENT_CNT records of SCORE_CNT scores each. */
  predicate Records(dataSet: array<Student>)
    reads dataSet
  {
    dataSet.Length == STUDENT_CNT && forall r :: 0 <= r < dataSet.Length ==> |dataSet[r].scores| == SCORE_CNT
  }

  /** One step of the ladder: from this average up, this letter and this GPA. */
  datatype Rung = Rung(from: real, letter: string, points: real)

  /** The ladder, highest step first; below the last step the grade is F with 0.0. */
  const LADDER: seq<Rung> := [
    Rung(95.0, "A", 4.0), Rung(90.0, "A-", 3.7), Rung(87.0, "B+", 3.3), Rung(83.0, "B", 3.0),
    Rung(80.0, "B-", 2.7), Rung(77.0, "C+", 2.3), Rung(73.0, "C", 2.0), Rung(70.0, "C-", 1.7),
    Rung(67.0, "D+", 1.3), Rung(65.0, "D", 1.0)]

  /** The letter and GPA of the first step, from the `i`-th on, that the average reaches. */
  function Standing(average: real, i: nat): Rung
    requires i <= |LADDER|
    decreases |LADDER| - i
  {
    if i == |LADDER| then Rung(0.0, "F", 0.0)
    else if average >= LADDER[i].from then LADDER[i]
    else Standing(average, i + 1)
  }

  /** The record with the grade and GPA of its average. */
  function Graded(s: Student): Student {
    var rung := Standing(s.average, 0);
    s.(grade := rung.letter, gpa := rung.points)
  }

  // ---------------------------------------------------------------------
  // setGradeNGpa
  // ---------------------------------------------------------------------

  /**
   * setGradeNGpa(dataSet, idx): the chain of comparisons from 95 down to 65
   * sets the record's grade and GPA; nothing else changes.
   */
  method SetGradeNGpa(dataSet: array<Student>, idx: nat)
    requires idx < dataSet.Length
    modifies dataSet
    ensures dataSet[idx] == Graded(old(dataSet[idx]))
    ensures forall r :: 0 <= r < dataSet.Length && r != idx ==> dataSet[r] == old(dataSet[r])
  {
    var average := dataSet[idx].average;
    var grade, gpa;
    if average >= 95.0 {
      grade, gpa := "A", 4.0;
    } else if average >= 90.0 {
      grade, gpa := "A-", 3.7;
    } else if average >= 87.0 {
      grade, gpa := "B+", 3.3;
    } else if average >= 83.0 {
      grade, gpa := "B", 3.0;
    } else if average >= 80.0 {
      grade, gpa := "B-", 2.7;
    } else if average >= 77.0 {
      grade, gpa := "C+", 2.3;
    } else if average >= 73.0 {
      grade, gpa := "C", 2.0;
    } else if average >= 70.0 {
      grade, gpa := "C-", 1.7;
    } else if average >= 67.0 {
      grade, gpa := "D+", 1.3;
    } else if average >= 65.0 {
      grade, gpa := "D", 1.0;
    } else {
      grade, gpa := "F", 0.0;
    }
    LadderSteps(average);
    dataSet[idx] := dataSet[idx].(grade := grade, gpa := gpa);
  }

  /** The ladder read step by step, as the chain of comparisons reads it. */
  lemma LadderSteps(average: real)
    ensures Standing(average, 0) ==
      if average >= 95.0 then Rung(95.0, "A", 4.0)
      else if average >= 90.0 then Rung(90.0, "A-", 3.7)
      else if average >= 87.0 then Rung(87.0, "B+", 3.3)
      else if average >= 83.0 then Rung(83.0, "B", 3.0)
      else if average >= 80.0 then Rung(80.0, "B-", 2.7)
      else if average >= 77.0 then Rung(77.0, "C+", 2.3)
      else if average >= 73.0 then Rung(73.0, "C", 2.0)
      else if average >= 70.0 then Rung(70.0, "C-", 1.7)
      else if average >= 67.0 then Rung(67.0, "D+", 1.3)
      else if average >= 65.0 then Rung(65.0, "D", 1.0)
      else Rung(0.0, "F", 0.0)
  {
    assert Standing(average, 8) == if average >= 67.0 then LADDER[8] else if average >= 65.0 then LADDER[9] else Rung(0.0, "F", 0.0);
    assert Standing(average, 6) == if average >= 73.0 then LADDER[6] else if average >= 70.0 then LADDER[7] else Standing(average, 8);
    assert Standing(average, 4) == if average >= 80.0 then LADDER[4] else if average >= 77.0 then LADDER[5] else Standing(average, 6);
    assert Standing(average, 2) == if average >= 87.0 then LADDER[2] else if average >= 83.0 then LADDER[3] else Standing(average, 4);
  }

  /** The steps go down in both the average they start from and the GPA they give. */
  lemma LadderDescends(i: nat, j: nat)
    requires i < j < |LADDER|
    ensures LADDER[j].from < LADDER[i].from && LADDER[j].points < LADDER[i].points
  {
  }

  /** No step from the `i`-th on gives more than the `i`-th. */
  lemma {:induction false} StandingAtMost(average: real, i: nat)
    requires i < |LADDER|
    ensures Standing(average, i).points <= LADDER[i].points
    decreases |LADDER| - i
  {
    if average < LADDER[i].from && i + 1 < |LADDER| {
      StandingAtMost(average, i + 1);
      LadderDescends(i, i + 1);
    }
  }

  /** A higher average never gets a lower GPA. */
  lemma {:induction false} GpaMonotone(x: real, y: real, i: nat)
    requires x <= y && i <= |LADDER|
    ensures Standing(x, i).points <= Standing(y, i).points
    decreases |LADDER| - i
  {
    if i < |LADDER| {
      if y >= LADDER[i].from {
        StandingAtMost(x, i);
      } else {
        GpaMonotone(x, y, i + 1);
      }
    }
  }

  /** The letter names the step: two averages with the same letter have the same GPA. */
  lemma {:induction false} LetterFixesGpa(x: real, y: real, i: nat)
    requires i <= |LADDER| && Standing(x, i).letter == Standing(y, i).letter
    ensures Standing(x, i).points == Standing(y, i).points
    decreases |LADDER| - i
  {
    if i < |LADDER| {
      LettersDistinct();
      LetterFromStep(x, i);
      LetterFromStep(y, i);
      if x >= LADDER[i].from || y >= LADDER[i].from {
        assert Standing(x, i) == Standing(y, i);
      } else {
        LetterFixesGpa(x, y, i + 1);
      }
    }
  }

  lemma LettersDistinct()
    ensures forall i, j :: 0 <= i < j < |LADDER| ==> LADDER[i].letter != LADDER[j].letter
    ensures forall i :: 0 <= i < |LADDER| ==> LADDER[i].letter != "F"
  {
  }

  /** What reading from step `i` gives is that step, a later one, or F. */
  lemma {:induction false} LetterFromStep(average: real, i: nat)
    requires i <= |LADDER|
    ensures Standing(average, i) == Rung(0.0, "F", 0.0) ||
            exists j :: i <= j < |LADDER| && Standing(average, i) == LADDER[j]
    decreases |LADDER| - i
  {
    if i < |LADDER| && average < LADDER[i].from {
      LetterFromStep(average, i + 1);
    }
  }

  // ---------------------------------------------------------------------
  // runCalcs
  // ---------------------------------------------------------------------

  /** A record's average: the total of its scores over SCORE_CNT. */
  function RecordAverage(s: Student): real {
    Total(s.scores) as real / SCORE_CNT as real
  }

  /**
   * runCalcs(dataSet): every record's average becomes the total of its
   * scores over SCORE_CNT, and then its grade and GPA are set from it.
   */
  method RunCalcs(dataSet: array<Student>)
    requires Records(dataSet)
    modifies dataSet
    ensures Records(dataSet)
    ensures forall r :: 0 <= r < STUDENT_CNT ==>
              dataSet[r] == Graded(old(dataSet[r]).(average := RecordAverage(old(dataSet[r]))))
  {
    for recordIdx := 0 to STUDENT_CNT
      invariant Records(dataSet)
      invariant forall r :: 0 <= r < recordIdx ==>
                  dataSet[r] == Graded(old(dataSet[r]).(average := RecordAverage(old(dataSet[r]))))
      invariant forall r :: recordIdx <= r < STUDENT_CNT ==> dataSet[r] == old(dataSet[r])
    {
      var total := SumScores(dataSet[recordIdx].scores);
      dataSet[recordIdx] := dataSet[recordIdx].(average := total as real / SCORE_CNT as real);
      SetGradeNGpa(dataSet, recordIdx);
    }
  }

  lemma LadderExamples()
    ensures Standing(95.0, 0) == Rung(95.0, "A", 4.0)
    ensures Standing(94.9, 0).letter == "A-"
    ensures Standing(65.0, 0).points == 1.0
    ensures Standing(64.9, 0) == Rung(0.0, "F", 0.0)
  {
    LadderSteps(95.0);
    LadderSteps(94.9);
    LadderSteps(65.0);
    LadderSteps(64.9);
  }
}
