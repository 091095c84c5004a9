/**
 * checkAllAnswers: mark every problem of the board correct or incorrect by comparing its
 * answer() with parseInt(userAnswer, 16), count the correct ones, and turn the count into a
 * percentage of the thirty problems and a letter grade.
 */
module Grading {
  import opened Wrappers
  import opened Numerals
  import opened JsParseInt
  import opened Problems
  import opened Board

  /** The board's problems in row-major order. */
  function Flatten(rows: seq<seq<Problem>>): seq<Problem> {
    if rows == [] then [] else Flatten(rows[..|rows| - 1]) + rows[|rows| - 1]
  }

  /** answer() == parseInt(userAnswer, 16): NaN, from null or from no hexadecimal digit, is never equal. */
  predicate IsCorrect(p: Problem)
    reads p`userAnswer
  {
    ParseAnswer(p.userAnswer) == Some(p.Answer())
  }

  /** The class grading gives a problem: never null again, and 'correct' exactly when the answer is. */
  function ClassFor(p: Problem): (c: AnswerClass)
    reads p`userAnswer
    ensures c != Unset
    ensures c == Correct <==> IsCorrect(p)
  {
    if IsCorrect(p) then Correct else Incorrect
  }

  /** An answer never entered is never correct: null reads as NaN. */
  lemma UnansweredIsIncorrect(p: Problem)
    requires p.userAnswer == None
    ensures !IsCorrect(p) && ClassFor(p) == Incorrect
  {
  }

  /** The number of problems whose answer is correct. */
  function CountCorrect(ps: seq<Problem>): (n: nat)
    reads ps`userAnswer
    ensures n <= |ps|
  {
    if ps == [] then 0
    else CountCorrect(ps[..|ps| - 1]) + (if IsCorrect(ps[|ps| - 1]) then 1 else 0)
  }

  /** All of the problems are counted exactly when all of them are correct. */
  lemma CountCorrectAll(ps: seq<Problem>)
    ensures CountCorrect(ps) == |ps| <==> forall k :: 0 <= k < |ps| ==> IsCorrect(ps[k])
  {
    if CountCorrect(ps) == |ps| {
      forall k | 0 <= k < |ps|
        ensures IsCorrect(ps[k])
      {
        if !IsCorrect(ps[k]) {
          IncorrectLowersCount(ps, k);
        }
      }
    } else if forall k :: 0 <= k < |ps| ==> IsCorrect(ps[k]) {
      AllCorrectCounted(ps);
    }
  }

  /** One incorrect problem keeps the count below the number of problems. */
  lemma {:induction false} IncorrectLowersCount(ps: seq<Problem>, k: nat)
    requires k < |ps| && !IsCorrect(ps[k])
    ensures CountCorrect(ps) < |ps|
    decreases |ps|
  {
    var init := ps[..|ps| - 1];
    if k < |init| {
      assert ps[k] == init[k];
      IncorrectLowersCount(init, k);
    }
  }

  /** When every problem is correct, every problem is counted. */
  lemma {:induction false} AllCorrectCounted(ps: seq<Problem>)
    requires forall k :: 0 <= k < |ps| ==> IsCorrect(ps[k])
    ensures CountCorrect(ps) == |ps|
    decreases |ps|
  {
    if ps != [] {
      var init := ps[..|ps| - 1];
      assert forall k :: 0 <= k < |init| ==> init[k] == ps[k];
      AllCorrectCounted(init);
      assert IsCorrect(ps[|ps| - 1]);
    }
  }

  /** The number of problems marked 'correct'. */
  function CountMarked(ps: seq<Problem>): (n: nat)
    reads ps`answerClass
    ensures n <= |ps|
  {
    if ps == [] then 0
    else CountMarked(ps[..|ps| - 1]) + (if ps[|ps| - 1].answerClass == Correct then 1 else 0)
  }

  /**
   * gradePercent = Math.floor(numCorrect / (NUM_COLS * NUM_ROWS) * 100), the floor of the exact
   * quotient; for every count from 0 to 30 the double arithmetic gives the same integer.
   */
  function GradePercent(numCorrect: nat): (percent: nat)
    ensures percent * BOARD_SIZE <= 100 * numCorrect < (percent + 1) * BOARD_SIZE
    ensures numCorrect <= BOARD_SIZE ==> percent <= 100
    ensures percent == 100 <==> numCorrect == BOARD_SIZE
  {
    100 * numCorrect / BOARD_SIZE
  }

  /** The letter grades, from the highest down. */
  datatype Letter = APlus | A | AMinus | BPlus | B | BMinus | CPlus | C | CMinus | DPlus | D | DMinus | F {

    /** The text shown on the page. */
    function Text(): string {
      match this
      case APlus => "A+" case A => "A" case AMinus => "A-"
      case BPlus => "B+" case B => "B" case BMinus => "B-"
      case CPlus => "C+" case C => "C" case CMinus => "C-"
      case DPlus => "D+" case D => "D" case DMinus => "D-"
      case F => "F"
    }

    /** How good a grade is: F is 0, A+ is 12. */
    function Rank(): nat {
      match this
      case APlus => 12 case A => 11 case AMinus => 10
      case BPlus => 9 case B => 8 case BMinus => 7
      case CPlus => 6 case C => 5 case CMinus => 4
      case DPlus => 3 case D => 2 case DMinus => 1
      case F => 0
    }
  }

  /** The first-match chain of comparisons that turns gradePercent into a letter. */
  function LetterGrade(percent: int): (letter: Letter)
    ensures letter == APlus <==> percent == 100
    ensures letter == F <==> percent < 60
  {
    if percent == 100 then APlus
    else if percent >= 95 then A
    else if percent > 90 then AMinus
    else if percent >= 87 then BPlus
    else if percent >= 84 then B
    else if percent >= 80 then BMinus
    else if percent >= 77 then CPlus
    else if percent >= 74 then C
    else if percent >= 70 then CMinus
    else if percent >= 67 then DPlus
    else if percent >= 64 then D
    else if percent >= 60 then DMinus
    else F
  }

  /** Up to 100 percent, a higher percentage never earns a lower letter. */
  lemma LetterGradeMonotone(p: int, q: int)
    requires p <= q <= 100
    ensures LetterGrade(p).Rank() <= LetterGrade(q).Rank()
  {
  }

  /**
   * The thresholds of the grade scale below A+, from the top: each letter with the least
   * percentage that earns it and whether that bound is strict.
   */
  datatype Bracket = Bracket(bound: int, strict: bool, letter: Letter)

  const GradeScale: seq<Bracket> := [
    Bracket(95, false, A), Bracket(90, true, AMinus), Bracket(87, false, BPlus),
    Bracket(84, false, B), Bracket(80, false, BMinus), Bracket(77, false, CPlus),
    Bracket(74, false, C), Bracket(70, false, CMinus), Bracket(67, false, DPlus),
    Bracket(64, false, D), Bracket(60, false, DMinus)]

  predicate Meets(b: Bracket, percent: int) {
    if b.strict then percent > b.bound else percent >= b.bound
  }

  /** The letter of the first bracket from index k on that the percentage meets; F for none. */
  function FirstMatch(scale: seq<Bracket>, k: nat, percent: int): Letter
    requires k <= |scale|
    decreases |scale| - k
  {
    if k == |scale| then F
    else if Meets(scale[k], percent) then scale[k].letter
    else FirstMatch(scale, k + 1, percent)
  }

  /**
   * The comparison chain is the grade table read from the top: A+ at exactly 100, otherwise
   * the first bracket met.
   */
  lemma LetterGradeIsScale(percent: int)
    ensures LetterGrade(percent) == if percent == 100 then APlus else FirstMatch(GradeScale, 0, percent)
  {
  }

  /**
   * The boundaries of the scale: 100 is A+, 95 is A, 91 is A-, and exactly 90 falls through
   * the strict comparison to B+; 60 is D- and anything lower F.
   */
  lemma LetterGradeBoundaries()
    ensures LetterGrade(100) == APlus && LetterGrade(99) == A && LetterGrade(95) == A
    ensures LetterGrade(94) == AMinus && LetterGrade(91) == AMinus && LetterGrade(90) == BPlus
    ensures LetterGrade(87) == BPlus && LetterGrade(86) == B && LetterGrade(60) == DMinus
    ensures LetterGrade(59) == F && LetterGrade(0) == F
  {
  }

  /** Every cell of the board is among its flattened problems. */
  lemma {:induction false} InFlatten(rows: seq<seq<Problem>>, i: nat, j: nat)
    requires i < |rows| && j < |rows[i]|
    ensures rows[i][j] in Flatten(rows)
    decreases |rows|
  {
    var init := rows[..|rows| - 1];
    if i < |rows| - 1 {
      assert init[i] == rows[i];
      InFlatten(init, i, j);
    } else {
      assert rows[i][j] in rows[|rows| - 1];
    }
  }

  /** Flattening a prefix of the rows gives a prefix of the board. */
  lemma {:induction false} FlattenPrefix(rows: seq<seq<Problem>>, i: nat)
    requires i <= |rows|
    ensures forall p | p in Flatten(rows[..i]) :: p in Flatten(rows)
    decreases |rows|
  {
    if i < |rows| {
      var init := rows[..|rows| - 1];
      assert rows[..i] == init[..i];
      FlattenPrefix(init, i);
    } else {
      assert rows[..i] == rows;
    }
  }

  /** A board of one problem: it is the only problem, counted when it is correct. */
  lemma SingleProblemBoard(p: Problem)
    ensures Flatten([[p]]) == [p]
    ensures CountCorrect([p]) == if IsCorrect(p) then 1 else 0
  {
    assert [[p]][..0] == [];
    assert [p][..0] == [];
  }

  lemma FlattenAppend(rows: seq<seq<Problem>>, i: nat)
    requires i < |rows|
    ensures Flatten(rows[..i + 1]) == Flatten(rows[..i]) + rows[i]
  {
    assert rows[..i + 1][..i] == rows[..i];
  }

  lemma CountAppend(ps: seq<Problem>, p: Problem)
    ensures CountCorrect(ps + [p]) == CountCorrect(ps) + (if IsCorrect(p) then 1 else 0)
    ensures CountMarked(ps + [p]) == CountMarked(ps) + (if p.answerClass == Correct then 1 else 0)
  {
  }

  lemma {:induction false} CountConcat(ps: seq<Problem>, qs: seq<Problem>)
    ensures CountCorrect(ps + qs) == CountCorrect(ps) + CountCorrect(qs)
    ensures CountMarked(ps + qs) == CountMarked(ps) + CountMarked(qs)
    decreases |qs|
  {
    if qs == [] {
      assert ps + qs == ps;
    } else {
      var init, last := qs[..|qs| - 1], qs[|qs| - 1];
      assert qs == init + [last];
      assert ps + qs == (ps + init) + [last];
      CountConcat(ps, init);
      CountAppend(ps + init, last);
      CountAppend(init, last);
    }
  }

  /** Among graded problems, the correct count is the number marked 'correct'. */
  lemma {:induction false} MarkedCountsCorrect(ps: seq<Problem>)
    requires forall p | p in ps :: p.answerClass == ClassFor(p)
    ensures CountMarked(ps) == CountCorrect(ps)
    decreases |ps|
  {
    if ps != [] {
      var init := ps[..|ps| - 1];
      assert ps == init + [ps[|ps| - 1]];
      MarkedCountsCorrect(init);
      CountAppend(init, ps[|ps| - 1]);
    }
  }

  /** The inner loop of checkAllAnswers: grade one row and return how many of it are correct. */
  method GradeRow(row: seq<Problem>) returns (count: nat)
    modifies (set p | p in row)`answerClass
    ensures forall p | p in row :: p.answerClass == ClassFor(p)
    ensures count == CountCorrect(row)
  {
    count := 0;
    var j := 0;
    while j < |row|
      invariant 0 <= j <= |row|
      invariant forall p | p in row[..j] :: p.answerClass == ClassFor(p)
      invariant count == CountCorrect(row[..j])
    {
      var problem := row[j];
      assert row[..j + 1] == row[..j] + [problem];
      CountAppend(row[..j], problem);
      problem.answerClass := ClassFor(problem);
      if problem.answerClass == Correct {
        count := count + 1;
      }
      j := j + 1;
    }
    assert row[..|row|] == row;
  }

  /**
   * checkAllAnswers(): every problem's answerClass becomes ClassFor, nothing else changes,
   * numCorrect counts the correct problems (which are those now marked 'correct'), and
   * gradePercent and grade follow from it.
   */
  method CheckAllAnswers(rows: seq<seq<Problem>>) returns (numCorrect: nat, gradePercent: nat, grade: Letter)
    modifies Flatten(rows)`answerClass
    ensures forall i, j :: 0 <= i < |rows| && 0 <= j < |rows[i]| ==> rows[i][j].answerClass == ClassFor(rows[i][j])
    ensures numCorrect == CountCorrect(Flatten(rows)) == CountMarked(Flatten(rows))
    ensures gradePercent == GradePercent(numCorrect) && grade == LetterGrade(gradePercent)
  {
    numCorrect := 0;
    ghost var graded: seq<Problem> := [];
    var i := 0;
    while i < |rows|
      invariant 0 <= i <= |rows|
      invariant graded == Flatten(rows[..i])
      invariant numCorrect == CountCorrect(graded)
      invariant forall p | p in graded :: p.answerClass == ClassFor(p)
    {
      var row := rows[i];
      FlattenAppend(rows, i);
      FlattenPrefix(rows, i + 1);
      assert forall p | p in row :: p in Flatten(rows[..i + 1]);
      assert forall p | p in row :: p in Flatten(rows);
      ghost var before := graded;
      graded := graded + row;
      assert graded == Flatten(rows[..i + 1]);
      var count := GradeRow(row);
      CountConcat(before, row);
      numCorrect := numCorrect + count;
      i := i + 1;
    }
    assert rows[..|rows|] == rows;
    forall i, j | 0 <= i < |rows| && 0 <= j < |rows[i]|
      ensures rows[i][j].answerClass == ClassFor(rows[i][j])
    {
      InFlatten(rows, i, j);
    }
    MarkedCountsCorrect(graded);
    gradePercent := GradePercent(numCorrect);
    grade := LetterGrade(gradePercent);
  }
}
