/**
 * Rounds of the game put together: generating a board, filling it in and grading it.
 */
module Game {
  import opened Wrappers
  import opened Numerals
  import opened JsParseInt
  import opened Problems
  import opened Board
  import opened Grading

  /** Every problem of the board is at some cell. */
  lemma {:induction false} FlattenCells(rows: seq<seq<Problem>>)
    ensures forall p | p in Flatten(rows) :: exists i, j :: 0 <= i < |rows| && 0 <= j < |rows[i]| && rows[i][j] == p
    decreases |rows|
  {
    if rows != [] {
      var init, last := rows[..|rows| - 1], rows[|rows| - 1];
      FlattenCells(init);
      forall p | p in Flatten(rows)
        ensures exists i, j :: 0 <= i < |rows| && 0 <= j < |rows[i]| && rows[i][j] == p
      {
        if p in Flatten(init) {
          var i, j :| 0 <= i < |init| && 0 <= j < |init[i]| && init[i][j] == p;
          assert rows[i][j] == p;
        } else {
          assert p in last;
          var j :| 0 <= j < |last| && last[j] == p;
          assert rows[|rows| - 1][j] == p;
        }
      }
    }
  }

  /** A grid flattens to BOARD_SIZE problems. */
  lemma FlattenGridLength(rows: seq<seq<Problem>>)
    requires IsGrid(rows)
    ensures |Flatten(rows)| == BOARD_SIZE
  {
    assert rows[..2][..1] == rows[..1];
    assert rows[..3][..2] == rows[..2];
    assert rows[..1][..0] == rows[..0];
    assert rows[..3] == rows;
    assert Flatten(rows[..1]) == Flatten(rows[..0]) + rows[0];
    assert Flatten(rows[..2]) == Flatten(rows[..1]) + rows[1];
  }

  /** A problem holding the answer key's text is graded correct. */
  lemma AnswerKeyIsCorrect(p: Problem)
    requires HoldsAnswerKey(p)
    ensures IsCorrect(p)
  {
    ParseInt16OfToString(p.Answer());
  }

  /** Problems that all hold the answer key are all counted correct. */
  lemma AnswerKeyAllCorrect(ps: seq<Problem>)
    requires forall k | 0 <= k < |ps| :: HoldsAnswerKey(ps[k])
    ensures CountCorrect(ps) == |ps|
  {
    forall k | 0 <= k < |ps| ensures IsCorrect(ps[k]) {
      AnswerKeyIsCorrect(ps[k]);
    }
    AllCorrectCounted(ps);
  }

  /**
   * changeBoard with _answerKey set: a fresh board whose every problem holds its answer key,
   * returned beside the board's problems in row-major order.
   */
  method AnswerKeyBoard(op: Operator, offsets: seq<nat>, divisors: seq<int>)
    returns (rows: seq<seq<Problem>>, ps: seq<Problem>)
    requires ValidOffsets(offsets) && ValidDivisors(divisors)
    ensures IsGrid(rows) && ps == Flatten(rows) && |ps| == BOARD_SIZE
    ensures forall k | 0 <= k < |ps| :: fresh(ps[k]) && HoldsAnswerKey(ps[k])
  {
    var rand;
    rows, rand := ChangeBoard(op, offsets, divisors, true);
    FlattenCells(rows);
    FlattenGridLength(rows);
    ps := Flatten(rows);
    forall k | 0 <= k < |ps| ensures fresh(ps[k]) && HoldsAnswerKey(ps[k]) {
      assert ps[k] in ps;
      var i, j :| 0 <= i < |rows| && 0 <= j < |rows[i]| && rows[i][j] == ps[k];
    }
  }

  /**
   * The answer key: changeBoard with _answerKey set writes answer().toString(16) into every
   * problem, and checkAllAnswers then finds all thirty correct, 100 percent, A+.
   */
  method AnswerKeyRound(op: Operator, offsets: seq<nat>, divisors: seq<int>)
    returns (numCorrect: nat, gradePercent: nat, grade: Letter)
    requires ValidOffsets(offsets) && ValidDivisors(divisors)
    ensures numCorrect == BOARD_SIZE && gradePercent == 100 && grade == APlus
  {
    var rows, ps := AnswerKeyBoard(op, offsets, divisors);
    numCorrect, gradePercent, grade := CheckAllAnswers(rows);
    AnswerKeyAllCorrect(ps);
  }

  /**
   * Grading twice in a row: grading reads only the answers, which it does not change, so the
   * second pass reports what the first did and leaves every class as the first set it.
   */
  method RegradeRound(rows: seq<seq<Problem>>)
    returns (first: (nat, nat, Letter), second: (nat, nat, Letter))
    modifies Flatten(rows)`answerClass
    ensures first == second
    ensures forall i, j :: 0 <= i < |rows| && 0 <= j < |rows[i]| ==> rows[i][j].answerClass == ClassFor(rows[i][j])
  {
    var n1, p1, g1 := CheckAllAnswers(rows);
    ghost var c := CountCorrect(Flatten(rows));
    label L:
    var n2, p2, g2 := CheckAllAnswers(rows);
    assert forall p | p in Flatten(rows) :: p.userAnswer == old@L(p.userAnswer);
    assert CountCorrect(Flatten(rows)) == c;
    first, second := (n1, p1, g1), (n2, p2, g2);
  }

  /** 10 + 5 answered "f": parseInt("f", 16) is 15, so the answer is correct. */
  method SumAnsweredInHex() returns (answerClass: AnswerClass)
    ensures answerClass == Correct
  {
    var p := new Problem(10, 5, Addition);
    p.userAnswer := Some("f");
    ParseOneDigit('f');
    assert IsCorrect(p);
    SingleProblemBoard(p);
    var numCorrect, gradePercent, grade := CheckAllAnswers([[p]]);
    answerClass := p.answerClass;
  }

  /** 10 - 5 answered "5": correct. */
  method DifferenceAnsweredInHex() returns (answerClass: AnswerClass)
    ensures answerClass == Correct
  {
    var p := new Problem(5, 10, Subtraction);
    p.userAnswer := Some("5");
    ParseOneDigit('5');
    assert IsCorrect(p);
    SingleProblemBoard(p);
    var numCorrect, gradePercent, grade := CheckAllAnswers([[p]]);
    answerClass := p.answerClass;
  }

  /**
   * A one-problem board with a wrong answer: nothing is correct, and since the percentage is
   * always taken of the thirty-problem board size, the grade is 0 percent, F.
   */
  method OneWrongAnswer() returns (numCorrect: nat, gradePercent: nat, grade: Letter)
    ensures numCorrect == 0 && gradePercent == 0 && grade == F
  {
    var p := new Problem(10, 5, Addition);
    p.userAnswer := Some("e");
    ParseOneDigit('e');
    assert !IsCorrect(p);
    SingleProblemBoard(p);
    label Graded:
    numCorrect, gradePercent, grade := CheckAllAnswers([[p]]);
    assert p.userAnswer == old@Graded(p.userAnswer);
    assert numCorrect == 0;
    assert gradePercent == 0 && LetterGrade(0) == F;
  }
}
