/**
 * changeBoard: thirty values, one per slot, each below a ceiling that grows with the slot,
 * sorted ascending and laid out row by row; each value is split into two factors.
 * The random numbers are inputs: for slot i (counting from 1) the integer part of
 * i * stepSize * Math.random(), and for each problem the divisor floor(2 + Math.random() * 6).
 */
module Board {
  import opened Wrappers
  import opened Numerals
  import opened Problems

  const NUM_ROWS: nat := 3
  const NUM_COLS: nat := 10
  /** boardSize() */
  const BOARD_SIZE: nat := NUM_ROWS * NUM_COLS

  /** The smallest value a slot can draw, and the cap Math.min puts on every value. */
  const MIN_VALUE: nat := 8
  const MAX_VALUE: nat := 255

  /**
   * An integer part of i * stepSize * r with stepSize = 255 / boardSize and 0 <= r < 1 is a
   * natural number below i * 255 / boardSize.
   */
  predicate ValidOffset(slot: nat, offset: nat) {
    offset * BOARD_SIZE < MAX_VALUE * slot
  }

  predicate ValidOffsets(offsets: seq<nat>) {
    |offsets| == BOARD_SIZE && forall k :: 0 <= k < |offsets| ==> ValidOffset(k + 1, offsets[k])
  }

  /** floor(2 + r * 6) for 0 <= r < 1 lies in 2..7. */
  predicate ValidDivisors(divisors: seq<int>) {
    |divisors| == BOARD_SIZE && forall k :: 0 <= k < |divisors| ==> 2 <= divisors[k] <= 7
  }

  /** Math.min(255, Math.floor(8 + x)) where offset is the integer part of x >= 0. */
  function SlotValue(offset: nat): (v: int)
    ensures MIN_VALUE <= v <= MAX_VALUE
    ensures v - MIN_VALUE <= offset
    ensures 8 + offset <= MAX_VALUE ==> v == 8 + offset
    ensures v == MAX_VALUE || v == 8 + offset
  {
    if 8 + offset < MAX_VALUE then 8 + offset else MAX_VALUE
  }

  /** The cell (i, j) takes slot j + i * NUM_COLS of the sorted values: row-major order. */
  function Slot(i: nat, j: nat): nat {
    j + i * NUM_COLS
  }

  predicate Sorted(s: seq<int>) {
    forall p, q :: 0 <= p < q < |s| ==> s[p] <= s[q]
  }

  predicate InRange(s: seq<int>) {
    forall k :: 0 <= k < |s| ==> MIN_VALUE <= s[k] <= MAX_VALUE
  }

  /**
   * The values before sorting, in slot order. From valid offsets every value lies in 8..255
   * and below its slot's ceiling 8 + slot * stepSize.
   */
  function Draws(offsets: seq<nat>): (r: seq<int>)
    ensures |r| == |offsets|
    ensures ValidOffsets(offsets) ==> InRange(r)
    ensures ValidOffsets(offsets) ==> forall k :: 0 <= k < |r| ==> (r[k] - MIN_VALUE) * BOARD_SIZE < MAX_VALUE * (k + 1)
  {
    seq(|offsets|, k requires 0 <= k < |offsets| => SlotValue(offsets[k]))
  }

  /**
   * fac1 = floor(bigNum / d) and fac2 = bigNum - fac1. For a value in 8..255 and d in 2..7
   * the first part is at least 1 and at most the second, and both add up to the value.
   */
  function SplitFactors(bigNum: int, d: int): (f: (int, int))
    requires MIN_VALUE <= bigNum <= MAX_VALUE && 2 <= d <= 7
    ensures f.0 + f.1 == bigNum
    ensures 1 <= f.0 <= f.1 <= MAX_VALUE
  {
    SplitBounds(bigNum, d);
    (bigNum / d, bigNum - bigNum / d)
  }

  /** floor(bigNum / d) is at least 1 and at most bigNum minus itself, for bigNum in 8..255 and d in 2..7. */
  lemma SplitBounds(bigNum: int, d: int)
    requires MIN_VALUE <= bigNum <= MAX_VALUE && 2 <= d <= 7
    ensures 1 <= bigNum / d <= bigNum - bigNum / d <= MAX_VALUE
  {
    DivSplit(bigNum, d);
    MulMonotone(bigNum / d, 2, d);
  }

  /** With _answerKey set, changeBoard enters answer().toString(16) as the user's answer. */
  predicate HoldsAnswerKey(p: Problem)
    reads p`userAnswer
  {
    p.Answer() >= 0 && p.userAnswer == Some(ToStringRadix(p.Answer(), 16))
  }

  /**
   * The state in which changeBoard leaves the problem built from bigNum and divisor d. For a
   * value in 8..255 and d in 2..7 such a problem has 1 <= facB <= facA <= 255 and factors that
   * add up to the value.
   */
  predicate Generated(p: Problem, bigNum: int, d: int, op: Operator, answerKey: bool)
    requires d != 0
    reads p
    ensures Generated(p, bigNum, d, op, answerKey) && MIN_VALUE <= bigNum <= MAX_VALUE && 2 <= d <= 7 ==>
      1 <= p.facB <= p.facA <= MAX_VALUE && p.facA + p.facB == bigNum
  {
    assert MIN_VALUE <= bigNum <= MAX_VALUE && 2 <= d <= 7 ==> 1 <= bigNum / d <= bigNum - bigNum / d <= MAX_VALUE by {
      if MIN_VALUE <= bigNum <= MAX_VALUE && 2 <= d <= 7 {
        SplitBounds(bigNum, d);
      }
    }
    && p.facB == bigNum / d
    && p.facA == bigNum - bigNum / d
    && p.op == op
    && p.answerClass == Unset
    && (answerKey ==> HoldsAnswerKey(p))
    && (!answerKey ==> p.userAnswer == None)
  }

  predicate IsGrid(rows: seq<seq<Problem>>) {
    |rows| == NUM_ROWS && forall i :: 0 <= i < |rows| ==> |rows[i]| == NUM_COLS
  }

  /** The first loop of changeBoard: slot i, counting from 1, gets min(255, floor(8 + offset)). */
  method GenerateRandoms(offsets: seq<nat>) returns (rand: array<int>)
    requires ValidOffsets(offsets)
    ensures fresh(rand)
    ensures rand[..] == Draws(offsets)
  {
    rand := new int[BOARD_SIZE];
    var i := 1;
    while i <= BOARD_SIZE
      invariant 1 <= i <= BOARD_SIZE + 1
      invariant forall k :: 0 <= k < i - 1 ==> rand[k] == SlotValue(offsets[k])
    {
      rand[i - 1] := SlotValue(offsets[i - 1]);
      i := i + 1;
    }
  }

  /** Exchanges two elements of a. */
  method Swap(a: array<int>, i: nat, j: nat)
    requires i < a.Length && j < a.Length
    modifies a
    ensures a[i] == old(a[j]) && a[j] == old(a[i])
    ensures forall k :: 0 <= k < a.Length && k != i && k != j ==> a[k] == old(a[k])
    ensures multiset(a[..]) == old(multiset(a[..]))
  {
    a[i], a[j] := a[j], a[i];
  }

  /**
   * rand.sort with the ascending comparator; the algorithm JavaScript uses is unspecified,
   * only the result is: the same values in ascending order.
   */
  method SortAscending(a: array<int>)
    modifies a
    ensures Sorted(a[..])
    ensures multiset(a[..]) == old(multiset(a[..]))
  {
    var i := 0;
    while i < a.Length
      invariant 0 <= i <= a.Length
      invariant Sorted(a[..i])
      invariant multiset(a[..]) == old(multiset(a[..]))
    {
      var j := i;
      while j > 0 && a[j - 1] > a[j]
        invariant 0 <= j <= i
        invariant forall p, q :: 0 <= p < q <= i && q != j ==> a[p] <= a[q]
        invariant multiset(a[..]) == old(multiset(a[..]))
      {
        Swap(a, j - 1, j);
        j := j - 1;
      }
      i := i + 1;
    }
  }

  /** The inner loop of changeBoard: row i, cell j splitting the value of slot j + i * NUM_COLS. */
  method BuildRow(rand: seq<int>, divisors: seq<int>, op: Operator, answerKey: bool, i: nat)
    returns (row: seq<Problem>)
    requires |rand| == BOARD_SIZE && InRange(rand)
    requires ValidDivisors(divisors)
    requires i < NUM_ROWS
    ensures |row| == NUM_COLS
    ensures forall c :: 0 <= c < NUM_COLS ==>
      fresh(row[c]) && Generated(row[c], rand[Slot(i, c)], divisors[Slot(i, c)], op, answerKey)
  {
    row := [];
    var j := 0;
    while j < NUM_COLS
      invariant 0 <= j <= NUM_COLS && |row| == j
      invariant forall c :: 0 <= c < j ==>
        fresh(row[c]) && Generated(row[c], rand[Slot(i, c)], divisors[Slot(i, c)], op, answerKey)
    {
      var bigNum := rand[j + i * NUM_COLS];
      var d := divisors[j + i * NUM_COLS];
      var (fac1, fac2) := SplitFactors(bigNum, d);
      var problem := new Problem(fac1, fac2, op);
      if answerKey {
        problem.userAnswer := Some(ToStringRadix(problem.Answer(), 16));
      }
      row := row + [problem];
      j := j + 1;
    }
  }

  /** The outer loop of changeBoard: NUM_ROWS rows, row i built from the slots of that row. */
  method BuildRows(rand: seq<int>, divisors: seq<int>, op: Operator, answerKey: bool)
    returns (rows: seq<seq<Problem>>)
    requires |rand| == BOARD_SIZE && InRange(rand)
    requires ValidDivisors(divisors)
    ensures IsGrid(rows)
    ensures forall i, j :: 0 <= i < NUM_ROWS && 0 <= j < NUM_COLS ==>
      fresh(rows[i][j]) && Generated(rows[i][j], rand[Slot(i, j)], divisors[Slot(i, j)], op, answerKey)
  {
    rows := [];
    var i := 0;
    while i < NUM_ROWS
      invariant 0 <= i <= NUM_ROWS && |rows| == i
      invariant forall r :: 0 <= r < i ==> |rows[r]| == NUM_COLS
      invariant forall r, c :: 0 <= r < i && 0 <= c < NUM_COLS ==>
        fresh(rows[r][c]) && Generated(rows[r][c], rand[Slot(r, c)], divisors[Slot(r, c)], op, answerKey)
    {
      var row := BuildRow(rand, divisors, op, answerKey, i);
      rows := rows + [row];
      i := i + 1;
    }
  }

  /**
   * changeBoard(op): draw the thirty values, sort them, and build the grid. The sorted values
   * are returned beside the board (changeBoard keeps them in the local rand).
   */
  method ChangeBoard(op: Operator, offsets: seq<nat>, divisors: seq<int>, answerKey: bool)
    returns (rows: seq<seq<Problem>>, rand: seq<int>)
    requires ValidOffsets(offsets) && ValidDivisors(divisors)
    ensures |rand| == BOARD_SIZE && Sorted(rand) && multiset(rand) == multiset(Draws(offsets))
    ensures InRange(rand)
    ensures IsGrid(rows)
    ensures forall i, j :: 0 <= i < NUM_ROWS && 0 <= j < NUM_COLS ==>
      fresh(rows[i][j]) && Generated(rows[i][j], rand[Slot(i, j)], divisors[Slot(i, j)], op, answerKey)
  {
    var a := GenerateRandoms(offsets);
    SortAscending(a);
    rand := a[..];
    PermutationInRange(rand, Draws(offsets));
    rows := BuildRows(rand, divisors, op, answerKey);
  }

  /** Rearranging values keeps them in range. */
  lemma PermutationInRange(s: seq<int>, t: seq<int>)
    requires multiset(s) == multiset(t) && InRange(t)
    ensures InRange(s)
  {
    forall k | 0 <= k < |s| ensures MIN_VALUE <= s[k] <= MAX_VALUE {
      assert s[k] in multiset(s);
      assert s[k] in t;
    }
  }

  /**
   * The facts about a generated board: NUM_ROWS rows of NUM_COLS problems, each with
   * 1 <= facB <= facA <= 255 and facA + facB equal to its slot's value, and the sums never
   * decreasing in row-major order, so that a later row is never easier than an earlier one.
   */
  lemma GeneratedBoard(rows: seq<seq<Problem>>, rand: seq<int>, divisors: seq<int>, op: Operator, answerKey: bool)
    requires IsGrid(rows) && |rand| == BOARD_SIZE && Sorted(rand) && InRange(rand)
    requires ValidDivisors(divisors)
    requires forall i, j :: 0 <= i < NUM_ROWS && 0 <= j < NUM_COLS ==>
      Generated(rows[i][j], rand[Slot(i, j)], divisors[Slot(i, j)], op, answerKey)
    ensures forall i, j :: 0 <= i < NUM_ROWS && 0 <= j < NUM_COLS ==>
      && 1 <= rows[i][j].facB <= rows[i][j].facA <= MAX_VALUE
      && rows[i][j].facA + rows[i][j].facB == rand[Slot(i, j)]
      && rows[i][j].op == op
    ensures forall i, j, i', j' ::
      0 <= i <= i' < NUM_ROWS && 0 <= j < NUM_COLS && 0 <= j' < NUM_COLS && (i < i' || j <= j') ==>
      rows[i][j].facA + rows[i][j].facB <= rows[i'][j'].facA + rows[i'][j'].facB
  {
    forall i, j | 0 <= i < NUM_ROWS && 0 <= j < NUM_COLS
      ensures 1 <= rows[i][j].facB <= rows[i][j].facA <= MAX_VALUE
      ensures rows[i][j].facA + rows[i][j].facB == rand[Slot(i, j)]
    {
      var f := SplitFactors(rand[Slot(i, j)], divisors[Slot(i, j)]);
    }
  }
}
