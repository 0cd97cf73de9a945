# roller, modelled in Dafny

`roller` is a small command-line dice roller. It reads a roll specification such as
`3d4+2d8+6` and parses it into a `Roll`. The parse has two parts:

- Groups of `<count>d<sides>` become `count` copies of a die.
- Each run of `+<digits>` becomes a constant modifier.

It then "casts" the roll. Each die gives an outcome between 1 and its number of sides. The
total is the sum of the dice, multiplied by a critical factor (1, or 2 on a critical hit),
plus the sum of the constants.

This project models the whole of `src/main.rs` except its command-line front end.

| file | module | models |
|---|---|---|
| `results.dfy` | `Results` | Result values with the two ways a parse fails: an unrecognised die token (`UnrecognizedDie`) and a number that `parse::<i32>` rejects (`InvalidNumber`). Also an `Option`. |
| `digits.dfy` | `Digits` | ASCII digit runs, their decimal value, and `str::parse::<i32>` on the text the patterns capture. |
| `die_model.dfy` | `DieModel` | The `Dice` enum. `Dice::from(&str)` as `FromToken`. The inclusive outcome range each die's `gen_range(1, n + 1)` draws from. |
| `patterns.dfy` | `Patterns` | The two regexes, `DICE` and `CONSTANTS`, as hand-written matchers (`MatchAt`). `captures_iter` as `FindIter`, which gives leftmost, non-overlapping matches. Both are proved sound, complete and unique. |
| `rolls.dfy` | `Rolls` | `Roll`, `Roll::new` and `Roll::cast`. The dice outcomes are an explicit argument. |
| `parser.dfy` | `Parser` | `parse` as an imperative method with the program's nested loops. It is proved equal to a functional specification, `ParseSpec`. `run` is parse, then cast. |
| `examples.dfy` | `Examples` | The repository's unit tests and further inputs, worked through the model. |

Notes on the regex semantics:

- The `count` digits of `DICE` and the `const` digits of `CONSTANTS` must be followed by a
  non-digit (`d`, `+` or the end), so they are always the maximal run. The `dtype` digits and
  the trailing `\+?` of `DICE` may match shorter, as in `1d4` inside `1d45`. There, greedy
  priority picks the longest run and takes the `+` when present. `MatchAt` computes that
  preferred match, and `DiceMatchGreedy` states that it reaches at least as far as any other.
- `captures_iter` tries each position from left to right. It takes the match found there and
  resumes at that match's end. `FindIterSound`, `FindIterComplete` and `FindIterUnique` pin this
  down.
- `CONSTANTS` is `\+(?P<const>\d+)(\+|$)`. The group `(\+|$)` is part of the match, so it
  consumes the `+` that ends a constant, and `$` is the end of the input. See "## Findings".

Other decisions follow the code:

- The catch-all arm of `Dice::from` is `unreachable!()`, but a count such as `2d7` does reach
  it. The model turns that panic into the `UnrecognizedDie` error.
- The token is looked up only inside the `0..count` loop. So a group whose count is 0, such as
  `0d7`, is accepted and adds no dice (`Parser.ZeroCountAddsNothing`, `Examples.ParseZeroUnsupportedDice`).
- Errors come in program order. Dice groups are expanded first, in order: the count is parsed,
  then each die token. Constants are parsed after all the dice.

## Model

| member | source | states |
|---|---|---|
| Digits.DigitRunEnd | src/main.rs:24 | The end of a greedy `\d+` run: it lies between `i` and the text's length and is followed by the end of the text or a non-digit. |
| Digits.DigitRun | src/main.rs:24 | Every character between a run's start and its `DigitRunEnd` is a digit. |
| Digits.ParseI32 | src/main.rs:127 | `parse::<i32>` on the captured text. Which texts it accepts, and with which value, is stated by `ParseI32Canonical` and `ParseI32Padded`. |
| Digits.ParseI32Canonical | src/main.rs:127 | Every text `parse::<i32>` accepts is the decimal rendering of its value, preceded by zero or more `0`s. |
| Digits.ParseI32Padded | src/main.rs:127 | Conversely, any number of `0`s followed by the decimal rendering of `n` parses to `n` when `n <= i32::MAX`, and is rejected as `InvalidNumber` otherwise. |
| Digits.DigitRunCanonical | src/main.rs:24 | Every ASCII digit run is its value's shortest decimal rendering after some leading `0`s. |
| Digits.DecimalRoundTrip | src/main.rs:133 | Reading back the decimal rendering of any `n` gives `n`. |
| Digits.ParseI32Decimal | src/main.rs:133 | The decimal rendering of `n` parses to `Ok(n)` when `n <= i32::MAX` and is rejected otherwise. |
| Digits.LeadingZero | src/main.rs:127 | A leading `0` does not change a digit run's value, so counts such as `03` parse like `3`. |
| DieModel.FromToken | src/main.rs:41-53 | An accepted token is exactly the name of the die returned. A rejected token names no die, and the error carries the token. |
| DieModel.TokenRoundTrip | src/main.rs:43-50 | Every die's token is mapped back to that die. |
| DieModel.GenRange | src/main.rs:59-66 | The arguments of each die's `gen_range` call. What they allow is stated by `OutcomeRange`. |
| DieModel.IsOutcome | src/main.rs:59-66 | `o` is a value `gen_range(low, high)` can return for the die, `low <= o < high`. `OutcomeRange` gives it as `1..=sides`. |
| DieModel.OutcomeRange | src/main.rs:56-68 | The half-open `gen_range(1, n + 1)` of each die yields exactly the outcomes `1..=sides`, including both ends. The side counts are 4, 6, 8, 10, 12, 20 and 100. |
| DieModel.TokenNamesSides | src/main.rs:44-50 | Each die's token is `d` followed by a digit run whose value is that die's number of sides. |
| Patterns.MatchAt | src/main.rs:23-28 | A match found at position `i` starts at `i`, is non-empty and ends within the text. |
| Patterns.DiceMatchSound | src/main.rs:24 | A `DICE` match spans `count` `dtype`, with an optional `+`. `count` is a digit run, and `dtype` is `d` followed by a digit run. |
| Patterns.DiceMatchGreedy | src/main.rs:24 | Wherever the text at `i` fits the `DICE` syntax, `MatchAt` finds a match at `i` that extends at least as far as that fit. |
| Patterns.ConstantMatchSound | src/main.rs:28 | A `CONSTANTS` match is `+digits+`, or `+digits` at the end of the text. The lookahead variant stops before the trailing `+`. |
| Patterns.ConstantMatchComplete | src/main.rs:28 | Wherever the text at `i` fits the constant syntax, a match is found at `i` and it captures the same digits. |
| Patterns.FindIter | src/main.rs:122-123 | `captures_iter`: try each position from the left, take the match found there and resume at its end. Its meaning is stated by `FindIterSound`, `FindIterComplete` and `FindIterUnique`. |
| Patterns.FindIterSound | src/main.rs:122-123 | Every match `captures_iter` reports is the pattern's match at its own start. The matches lie inside the text and are in order without overlapping. |
| Patterns.FindIterComplete | src/main.rs:122-123 | Every position where the pattern matches is covered by some reported match. |
| Patterns.FindIterUnique | src/main.rs:122-123 | Any sequence that is sound and covers every matching position is exactly the `captures_iter` result. |
| Patterns.FindIterNone | src/main.rs:122-123 | A text with no `d` has no dice matches, and a text with no `+` has no constant matches. |
| Patterns.FindsEveryConstant | src/main.rs:28 | Corrected pattern: with a lookahead terminator, every position that starts a constant is reported. |
| Rolls.NewRoll | src/main.rs:78-83 | `Roll::new()`: no dice and no constants. `DiceFreeRoll` shows it casts to 0. |
| Rolls.Sum | src/main.rs:90-91 | `iter().sum()`. `SumAppend` shows it adds over concatenation. |
| Rolls.Cast | src/main.rs:85-94 | `roll.cast(crit)` for given draws: the dice total times `crit`, plus the constants. Its properties are stated by `CastBounds`, `CriticalDoublesOnlyDice`, `DiceFreeRoll` and `CastAppend`. |
| Rolls.SumAppend | src/main.rs:90-91 | The sum of a concatenation is the sum of the parts. |
| Rolls.DiceTotalBounds | src/main.rs:86-90 | The dice sum lies between the number of dice and the sum of their sides. |
| Rolls.DiceTotalExtremes | src/main.rs:56-68 | All ones and all maximum faces are valid outcomes, and they reach those two bounds. |
| Rolls.CastBounds | src/main.rs:85-94 | For a non-negative critical factor, `cast` lies between `dice*crit + constants` with every die at 1 and the same with every die at its maximum. |
| Rolls.CriticalDoublesOnlyDice | src/main.rs:93 | A critical cast (factor 2) adds the dice sum once more. It doubles the dice part and leaves the constants unchanged. |
| Rolls.DiceFreeRoll | src/main.rs:78-94 | A roll without dice casts to the sum of its constants, and `Roll::new()` casts to 0. |
| Rolls.CastAppend | src/main.rs:85-94 | Casting two rolls joined together gives the sum of casting each. |
| Parser.Repeat | src/main.rs:127-128 | The inner loop's result: `n` copies of one die. |
| Parser.Group | src/main.rs:127-128 | The inner loop for one dice match: `count` pushes of `Dice::from(dtype)`. The token is looked up only if the count is positive. Its meaning is stated by `ZeroCountAddsNothing` and `ExpansionShape`. |
| Parser.ExpandGroups | src/main.rs:126-130 | The loop over the dice matches, stopping at the first error. Stated by `ExpandGroupsOk`, `ExpandGroupsAppend` and `ExpansionShape`. |
| Parser.ParseConstants | src/main.rs:132-134 | The loop over the constant matches, stopping at the first error. Stated by `ParseConstantsValues`. |
| Parser.ParseSpec | src/main.rs:121-137 | `parse` as a function: the dice loop over the dice matches, then the constant loop. Stated by `ParseAccepts` and `ParseShape`. `Parse` is proved equal to it. |
| Parser.Parse | src/main.rs:121-137 | The imperative `parse`, with its nested dice loops and its constant loop, returns exactly `ParseSpec(input)`: the same roll, or the same first error. |
| Parser.Run | src/main.rs:115-119 | `run` fails iff parsing fails, with the same error. Otherwise it returns the cast of the parsed roll. |
| Parser.ExpandGroupsAppend | src/main.rs:126-130 | Expanding two runs of dice matches one after the other gives the first expansion's dice followed by the second's, or the second's error. |
| Parser.ExpandGroupsOk | src/main.rs:126-130 | Dice expansion succeeds iff every match's count is an i32 and, when the count is positive, its token names a die. |
| Parser.ExpansionShape | src/main.rs:126-130 | A successful expansion has as many dice as the counts add up to. The dice from the k-th match all carry that match's `dtype`, in match order. |
| Parser.ZeroCountAddsNothing | src/main.rs:127-128 | A group with count 0 adds no dice and is not looked up, whatever its token. |
| Parser.ParseConstantsValues | src/main.rs:132-134 | Constant parsing succeeds iff every capture is an i32. The result holds their values in order. |
| Parser.ParseAccepts | src/main.rs:121-137 | `parse` succeeds iff every dice match is accepted and every constant capture is an i32. |
| Parser.ParseShape | src/main.rs:121-137 | A successful `parse` holds the dice expanded match by match and one constant per capture, each equal to that capture's value, in order. |
| Parser.CapturesAreDigitRuns | src/main.rs:122-133 | Every captured count or constant is an ASCII digit run, so `parse::<i32>` rejects it only when it exceeds `i32::MAX`. |
| Parser.NoMatchIsEmptyRoll | src/main.rs:115-137 | An input in which neither pattern matches anywhere (such as `d6`, `2d` or `+x`) parses to the empty roll, which casts to 0. |
| Parser.PlainTextIsEmptyRoll | src/main.rs:115-137 | In particular, an input with no `d` and no `+` parses to the empty roll, which casts to 0. |
| Examples.ParseThreeD4TwoD8Six | src/main.rs:143-154 | `3d4+2d8+6` parses to three D4, two D8 and the constant 6. |
| Examples.ParseConstantAlone | src/main.rs:156-161 | `+3` has one constant capture `3` and parses to no dice and the constant 3. |
| Examples.ScanThreeD4 | src/main.rs:163-169 | `3d4` has the single dice capture `3`/`d4`. |
| Examples.ScanDiceAndConstant | src/main.rs:179-188 | `3d4+6` has the dice capture `3`/`d4` and the constant capture `6`. |
| Examples.ScanMultipleDice | src/main.rs:190-202 | `3d4+2d8` has the dice captures `3`/`d4` then `2`/`d8`. |
| Examples.ScanMultipleConstants | src/main.rs:204-223 | `3d4+6+2d8+9` has the dice captures `3`/`d4` and `2`/`d8`, and the constant captures `6` and `9`. |
| Examples.ParseMultipleConstants | src/main.rs:204-223 | `3d4+6+2d8+9` parses to three D4, two D8 and the constants 6 and 9. |
| Examples.ParseManyDice | src/main.rs:171-177 | `33d100` captures `33`/`d100` and parses to 33 D100. |
| Examples.ParseUnsupportedDie | src/main.rs:51 | `2d7` is rejected as an unrecognised die `d7`. |
| Examples.ParseZeroUnsupportedDice | src/main.rs:127-128 | `0d7` is accepted as the empty roll, because the token is never looked up. |
| Examples.CountlessDieRollsNothing | src/main.rs:121-137 | `d6`, a die without a count, matches neither pattern and parses to the empty roll. |
| Examples.NonAsciiCountDigitSkipped | src/main.rs:24 | The model's `\d` is ASCII only: in `٣3d4` the match starts after the Arabic-Indic three, and the parse gives three D4. |
| Examples.NonAsciiSidesDigitNoMatch | src/main.rs:24 | `2d٤` (an Arabic-Indic four) has no dice match in the model and parses to the empty roll. |
| Examples.PlusBeforeDiceIsNoConstant | src/main.rs:28 | In `+2d6` the `+2` is followed by `d`, so it is not a constant. |
| Examples.ConstantsShareNoPlus | src/main.rs:28 | `+1+2+3` gives the constants 1 and 3. The `+` that ends `+1` is consumed, so `+2` is skipped. |
| Examples.CastCriticalExample | src/main.rs:85-94 | Three D4 and two D8 showing 1..5, cast with factor 2 plus the constant 6, total 36. |
| Examples.ConsumedTerminatorDropsConstant | src/main.rs:28 | As written: in `1d4+1+2` a constant starts at `+2` but is never reported, so the parse gives only the constant 1. |
| Examples.LookaheadKeepsEveryConstant | src/main.rs:28 | Corrected: with a lookahead terminator, `1d4+1+2` gives the constants 1 and 2. |

## Left out

- The command line is not part of this model (`Opt`, `main`, lines 15-21 and 97-113), and neither is the printing in `cast` (lines 87-89). They only read arguments and write text. The critical flag appears as `Cast`'s `crit` argument.
- Random numbers: `rand::thread_rng` is replaced by a caller-supplied sequence of outcomes, one per die. `ValidOutcomes` requires each outcome to be one that die's `gen_range` can return. The distribution is not modelled.
- The `regex` and `once_cell` crates are replaced by hand-written matchers for the two fixed patterns. The `(?x)` flag has no effect on `DICE`, because its pattern has no whitespace.
- Unicode `\d`: the regex crate's `\d` matches every Unicode decimal digit, and the model matches only ASCII `0`-`9`. A non-ASCII digit changes what the program captures, and the program then fails: `parse::<i32>` rejects a count or constant that holds one, and a `dtype` that holds one reaches `unreachable!()` when its count is positive. On the same input the model matches only the ASCII digits, or nothing, and can succeed: `٣3d4` gives three D4 and `2d٤` gives the empty roll (`Examples.NonAsciiCountDigitSkipped`, `Examples.NonAsciiSidesDigitNoMatch`).
- Digits.ParseI32: models `str::parse::<i32>` only on the unsigned digit texts the patterns can capture. An optional leading sign is not modelled, because no capture contains one.
- Rolls.Cast: computes with unbounded integers. The program's `i32` sums and product can overflow: this panics in debug builds and wraps in release builds. Neither is modelled. Its properties are stated as lemmas (`CastBounds`, `CriticalDoublesOnlyDice`, `DiceFreeRoll`, `CastAppend`), not as an `ensures` on the function.
- Parser.Parse: a `Roll` is a value, so the `Vec` pushes are assignments to a local `roll` variable, not updates in place. The sequence of pushes and the order of errors are the same.
- `anyhow`/`thiserror`: error contexts and messages are replaced by the two `Error` cases in `Results`. The panic in `Dice::from` is modelled as an `Err` result, not a process abort.
- Patterns.ConstantsLookahead: the corrected pattern is not used by `Parser.Parse`/`ParseSpec`. Those follow `src/main.rs` as written, consuming the `+`. The correction is proved about separately, below.

## Findings

| source | as written | input that shows it | evidently intended | confidence | as-written member | corrected member |
|---|---|---|---|---|---|---|
| src/main.rs:28 | `CONSTANTS` ends with a group matching `+` or the end of text, and it consumes the `+` that ends a constant. The next constant then has no leading `+` left to match. | `1d4+1+2` parses to the dice `[D4]` and the constants `[1]`; the `+2` is lost. `+1+2+3` likewise gives `[1, 3]`. | Every `+<digits>` that is followed by `+` or the end of the input is a modifier (a lookahead terminator), giving `[1, 2]`. | high; not executed | Examples.ConsumedTerminatorDropsConstant | Patterns.FindsEveryConstant |

`Patterns.FindsEveryConstant` is proved for the `ConstantsLookahead` pattern. It shows that every position where a constant starts is reported. `Examples.LookaheadKeepsEveryConstant` shows that the corrected pattern gives the constants `[1, 2]` for `1d4+1+2`. The main parse keeps the pattern as written, because the model describes what the program does. The `regex` crate has no lookaround, so a fix in the program itself would match `\+(?P<const>\d+)` and check the character after the match by hand.
