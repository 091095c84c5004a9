# Learn HEX Math, modelled in Dafny

Learn HEX Math is a one-page game for practising arithmetic in hexadecimal. It deals a board of
three rows of ten problems. Each problem is two factors and an operator, Addition or
Subtraction. The player types every answer in hexadecimal, and the game then marks each problem
correct or incorrect. It counts the correct answers, turns the count into a percentage of the
thirty problems and a school letter grade, and shows the time played as HH:MM:SS.

This project models that core and proves properties of it:

- `Problems`: the operator table and the `Problem` object. A `Problem` is a class because the
  page writes its `userAnswer` and `answerClass` after construction.
- `Board`: `changeBoard`. It has three steps.
  - It draws one value per slot, filled into an array.
  - It sorts the values in place.
  - It walks a 3×10 grid in nested loops, splitting each slot's value into two factors.
- `Numerals` and `JsParseInt`:
  - `Number.prototype.toString(16)`, which the answer key writes;
  - `parseInt(s, 16)` as ECMAScript defines it, which grading applies to each answer.
  
  NaN is modelled as `None`.
- `Grading`: `checkAllAnswers`. Its nested loop writes every problem's class and counts the
  correct ones. It then derives the percentage and maps it to a letter through the first-match
  chain.
- `Clock`: `formattedTime` and `formatInt2d`.
- `Game`: whole rounds. These are the answer-key round, grading twice, and three single-problem
  boards.

The random draws are inputs:

- For slot i (counting from 1), an offset standing for `floor(i · stepSize · r)` with `0 ≤ r < 1`.
  It is constrained by `offset · 30 < 255 · i`.
- For each slot, a divisor standing for `floor(2 + 6r)`, in 2..7.

The tick count is a plain natural number.

## Model

| member | source | states |
|---|---|---|
| `Problems.OperatorNamed` | learnhex.js:113 | `Operators[name]`, looked up in the table of learnhex.js:26-37, is the entry with exactly that name, and there is no entry for any other name |
| `Problems.Operator.Apply` | learnhex.js:26-36 | the table's `func`: Addition's result less `b` gives back `a`, Subtraction's result plus `b` gives back `a`, and for `0 ≤ b ≤ a` either result lies in `0..2·a` |
| `Problems.Problem.constructor` | learnhex.js:43-57 | the larger factor becomes `facA` and the smaller `facB`, so the problem is `Ordered()` (`facA ≥ facB`); the pair is the input pair; the operator is stored; `userAnswer` and `answerClass` start unset |
| `Problems.Problem.Answer` | learnhex.js:63-65 | `answer()` is `facA + facB` for Addition and `facA − facB` for Subtraction; on an `Ordered()` problem a difference is never negative, and with `facB ≥ 0` too the answer lies in `0..2·facA` |
| `Numerals.ToStringRadix` | learnhex.js:149 | `toString(radix)` of a non-negative integer uses lower-case digits of that radix and has no leading zero; it reads back as the integer; it is one digit exactly when the integer is below the radix |
| `Numerals.ToStringRadixOfValue` | learnhex.js:149 | every canonical lower-case digit string is the `toString` of its value, so `toString` and reading back are inverse |
| `Numerals.ValueLeadingZero` | learnhex.js:254 | a leading `'0'` does not change the value of a digit string |
| `JsParseInt.TrimStartShape` | learnhex.js:204 | parseInt's first step removes exactly the leading run of white space |
| `JsParseInt.HexPrefixShape` | learnhex.js:204 | the digit run parseInt reads is all hexadecimal digits, and no hexadecimal digit follows it |
| `JsParseInt.NoDigitIsNaN` | learnhex.js:204 | white space, an optional sign, an optional `0x`/`0X`, and then either nothing or a character that is no hexadecimal digit: such text parses to NaN. Without sign and prefix that character must also be neither white space nor a sign. With `ParseInt16Spelled` this covers every input |
| `JsParseInt.NullIsNaN` | learnhex.js:204 | `parseInt("null", 16)` is NaN: the instance of `NoDigitIsNaN` with no white space, sign or prefix and the text `"null"`, whose `'n'` is no hexadecimal digit |
| `JsParseInt.BarePrefixIsNaN` | learnhex.js:204 | a `0x`/`0X` prefix with no digit after it is NaN: `"0x"`, `"-0X"` and `"0xg"` |
| `JsParseInt.StrandedSignIsNaN` | learnhex.js:204 | a sign followed by white space or by a second sign is NaN: `"- 5"` and `"+-5"` |
| `JsParseInt.ParseInt16` | learnhex.js:204 | a result other than NaN needs a hexadecimal digit somewhere in the text, and text without a `'-'` never reads as a negative number |
| `JsParseInt.ParseAnswer` | learnhex.js:204 | an answer never entered (null) reads as NaN |
| `JsParseInt.NullAnswerIsNaN` | learnhex.js:204 | the null answer reads exactly as the string `"null"` does, as `parseInt` turns null into that string |
| `JsParseInt.ParseOneDigit` | learnhex.js:204 | a single hexadecimal digit, in either case, parses to its value |
| `JsParseInt.ParseInt16Spelled` | learnhex.js:204 | white space, then an optional sign, then an optional `0x`/`0X`, then digits in either case, then any text that does not continue the digits: this parses to the digits' value, negated after `-`. One shape is excluded: with no prefix, a lone digit `0` may not be followed by `x` or `X`, because `0x`/`0X` is then itself the prefix |
| `JsParseInt.ParseInt16OfToString` | learnhex.js:148-149 | the answer key's text `answer().toString(16)` parses back to `answer()` |
| `Board.SlotValue` | learnhex.js:121 | `min(255, floor(8 + offset))` lies in 8..255, never exceeds `8 + offset`, equals it below the cap, and is always either 255 or exactly `8 + offset` |
| `Board.Draws` | learnhex.js:117-122 | one value per slot; from valid offsets every value lies in 8..255 and the value of slot k stays below its ceiling `8 + (k+1)·255/30` |
| `Board.SplitBounds` | learnhex.js:143-145 | for `bigNum` in 8..255 and `d` in 2..7, `floor(bigNum / d)` is at least 1, at most `bigNum` less itself, and that rest is at most 255 |
| `Board.Generated` | learnhex.js:140-149 | a problem built from a value in 8..255 and a divisor in 2..7 has `1 ≤ facB ≤ facA ≤ 255`, and its factors add up to the value |
| `Board.SplitFactors` | learnhex.js:143-145 | `fac1 = floor(bigNum / d)` and `fac2 = bigNum − fac1` add up to `bigNum`, with `1 ≤ fac1 ≤ fac2 ≤ 255` for `bigNum` in 8..255 and `d` in 2..7 |
| `Board.GenerateRandoms` | learnhex.js:117-122 | the first loop fills slot i with the value of the i-th draw, in slot order |
| `Board.SortAscending` | learnhex.js:123-130 | `rand.sort` with the ascending comparator leaves the same values (a permutation) in ascending order |
| `Board.BuildRow` | learnhex.js:137-151 | the inner loop builds a row of 10 new problems; cell c of row i splits `rand[c + i·10]` with that slot's divisor, carries the operator, and holds `answer().toString(16)` exactly when the answer key is on |
| `Board.BuildRows` | learnhex.js:136-154 | the outer loop builds 3 such rows; cell (i, j) splits `rand[j + i·10]` with that slot's divisor, carries the operator, and holds `answer().toString(16)` exactly when the answer key is on |
| `Board.ChangeBoard` | learnhex.js:112-155 | `changeBoard`: the values are the draws sorted ascending, each in 8..255, and the board is that grid of new problems |
| `Board.PermutationInRange` | learnhex.js:123-130 | sorting the values keeps every one of them in 8..255 |
| `Board.GeneratedBoard` | learnhex.js:134-154 | every problem has `1 ≤ facB ≤ facA ≤ 255` and `facA + facB` equal to its slot's value; the sums never decrease in row-major order, so no later cell is easier |
| `Grading.ClassFor` | learnhex.js:204-205 | grading never leaves a class null: it is `'correct'` exactly when `parseInt(userAnswer, 16) == answer()`, and `'incorrect'` otherwise |
| `Grading.UnansweredIsIncorrect` | learnhex.js:204-205 | a problem never answered (null) is graded `'incorrect'` |
| `Grading.CountCorrect` | learnhex.js:200-209 | the count of correct problems never exceeds the number of problems |
| `Grading.CountCorrectAll` | learnhex.js:200-209 | the count reaches the number of problems exactly when every problem is correct |
| `Grading.IncorrectLowersCount` | learnhex.js:200-209 | one incorrect problem keeps the count below the number of problems |
| `Grading.AllCorrectCounted` | learnhex.js:200-209 | when every problem is correct, every problem is counted |
| `Grading.MarkedCountsCorrect` | learnhex.js:205-207 | once the problems carry their classes, the number marked `'correct'` is the number that are correct |
| `Grading.GradeRow` | learnhex.js:202-208 | the inner loop marks every problem of a row `'correct'` exactly when `parseInt(userAnswer, 16) == answer()`, otherwise `'incorrect'`, and returns how many of the row are correct |
| `Grading.CheckAllAnswers` | learnhex.js:199-243 | every problem of the board gets its class; `numCorrect` is both the number of correct problems and the number marked `'correct'`; the percentage and the letter follow from `numCorrect` |
| `Grading.GradePercent` | learnhex.js:212-213 | the percentage is `floor(100·numCorrect/30)`; it is at most 100 for counts up to 30, and it is 100 exactly when all 30 are correct |
| `Grading.LetterGrade` | learnhex.js:216-242 | the chain gives A+ exactly at 100 and F exactly below 60 |
| `Grading.LetterGradeMonotone` | learnhex.js:216-242 | up to 100 percent, a higher percentage never earns a lower letter |
| `Grading.LetterGradeIsScale` | learnhex.js:216-242 | the chain is the grade table read from the top: A+ at 100, otherwise the first threshold met (`> 90` for A-, `>=` for the others), else F |
| `Grading.LetterGradeBoundaries` | learnhex.js:216-242 | 100 is A+, 95 is A, 91 is A-, exactly 90 is B+, 60 is D-, and 59 is F |
| `Game.AnswerKeyIsCorrect` | learnhex.js:148-149 | a problem holding the answer key's text `answer().toString(16)` is graded correct |
| `Game.AnswerKeyAllCorrect` | learnhex.js:200-209 | problems that all hold their answer key are all counted correct |
| `Game.AnswerKeyBoard` | learnhex.js:131-149 | `changeBoard` with the answer key on gives a grid of new problems, each holding `answer().toString(16)`; the board's problems are returned in row-major order |
| `Game.AnswerKeyRound` | learnhex.js:148-149 | with the answer key on, grading the generated board finds all 30 correct, 100 percent, A+ |
| `Game.RegradeRound` | learnhex.js:199-209 | grading the same answers twice gives the same count, percentage, letter and classes |
| `Game.SumAnsweredInHex` | learnhex.js:204 | 10 + 5 answered `"f"` is correct |
| `Game.DifferenceAnsweredInHex` | learnhex.js:204 | 10 − 5 answered `"5"` is correct |
| `Game.OneWrongAnswer` | learnhex.js:212-242 | a board whose one problem is answered wrong grades as 0 correct, 0 percent, F, because the percentage is always taken of 30 |
| `Clock.FormatInt2d` | learnhex.js:252-257 | `formatInt2d(n)` is decimal text worth n; it starts with `'0'` exactly when n < 10; it is at least two digits long, and exactly two below 100 |
| `Clock.SplitTicks` | learnhex.js:183-190 | the tick count splits into whole hours, minutes below 60 and seconds below 60, with `3600·h + 60·m + s = t` |
| `Clock.SplitTicksUnique` | learnhex.js:183-190 | that split is the only one with minutes and seconds below 60, so the hours are `t div 3600` |
| `Clock.FormattedTime` | learnhex.js:185-192 | the display `HH:MM:SS` reads back as the tick count, so distinct times are displayed differently |
| `Clock.FormattedTimeShape` | learnhex.js:185-192 | below 100 hours the display has exactly eight characters, with `':'` in positions 2 and 5 |

## Left out

- The AngularJS `$scope` binding (learnhex.js:70-98), the `playing` and `graded` flags, and `start()`/`end()` with their interval timer (learnhex.js:162-177). They are display state and timer plumbing. The tick count is a parameter of the formatter, and `checkAllAnswers` returns its three results instead of storing them on the scope.
- `timeTicks` is null before the first game; that case is not modelled. The formatter takes a natural number.
- `Math.random()` (learnhex.js:121, learnhex.js:143) and the floating-point `stepSize = 255 / 30`. Randomness is not modelled.
  - The draws are inputs: an offset per slot bounded by `offset · 30 < 255 · i`, and a divisor per slot in 2..7.
  - The floor of the floating-point product is folded into the offset.
- The percentage is computed as a floating-point `numCorrect / 30 * 100`; the model uses integers. `GradePercent` uses the exact `floor(100 · numCorrect / 30)`. For every count from 0 to 30 this equals the double computation's floor.
- `console.log(rand)` (learnhex.js:131-132), the unused `rowMin` (learnhex.js:135, learnhex.js:153) and the unused loop variable `j` (learnhex.js:120): no effect on any result.
- `rand` is a fixed array of 30 filled in slot order, not a list grown by `push`. The final contents are the same.
- `rand.sort`: the sort algorithm JavaScript uses is unspecified, so the model uses an insertion sort. Only the result is stated: the same values, ascending.
- `Operators[op]` with a name that is not one of the table's own entries (learnhex.js:113). For an unknown name JavaScript gives `undefined`. For a name the object inherits from `Object.prototype` (`"toString"`, `"constructor"`, `"valueOf"`, `"__proto__"`) it gives a function or an object instead. Either way that value has no usable `func`, so grading would throw a TypeError at learnhex.js:64. `ChangeBoard` takes an `Operator` value. `OperatorNamed` models the lookup of the table's own entries, with `None` for every other name.
- Row or column validation: the dimensions are the constants 3 and 10, and the code checks nothing, so there is no configuration error path.
- The operator's `name` and `sign` are carried as data only (`Operator.Name`, `Operator.Sign`).
- The letter grade is a datatype `Letter` whose `Text()` is the string the page shows. `answerClass` is the datatype `AnswerClass`: `Unset` for null, `Correct` and `Incorrect` for `'correct'` and `'incorrect'`.
- JavaScript's general `ToString` coercion of `parseInt`'s argument. An answer is either absent (null) or a string; null reads like the text `"null"`.
- `JsParseInt.ParseInt16`: values above 2^53 are kept exact, where JavaScript rounds them to a double. No answer on the board comes near that size.
- `Numerals.ToStringRadix`: radices up to 16 only; the game uses 16 (and 10 for the clock).
- `Clock.ParseClock` is not in the program. It is the inverse that the contract of `FormattedTime` uses to state that the display loses nothing.
