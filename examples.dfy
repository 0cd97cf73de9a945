/** The repository's unit tests, and a few more inputs, worked through the model. */
module Examples {
  import opened Results
  import opened Digits
  import opened DieModel
  import opened Patterns
  import opened Rolls
  import opened Parser

  // ---------------------------------------------------------------------------------------
  // Building blocks

  /** Assembles a parse from the results of its two loops. */
  lemma ParseFromScans(s: string, dice: seq<Die>, constants: seq<int>)
    requires ExpandGroups(FindIter(Dice, s, 0)) == Ok(dice)
    requires ParseConstants(FindIter(Constants, s, 0)) == Ok(constants)
    ensures ParseSpec(s) == Ok(Roll(dice, constants))
  {
  }

  /** One dice match with an i32 count and a known token expands to that many dice. */
  lemma ExpandOne(m: Match, n: nat, d: Die)
    requires ParseI32(m.first) == Ok(n) && m.second == Token(d)
    ensures ExpandGroups([m]) == Ok(Repeat(d, n))
  {
    TokenRoundTrip(d);
    assert [m][1..] == [];
    if n > 0 {
      assert Group(m.second, n) == Ok(Repeat(d, n));
    } else {
      assert Repeat(d, n) == [];
    }
    assert Repeat(d, n) + [] == Repeat(d, n);
  }

  /** Two dice matches expand to the first's dice followed by the second's. */
  lemma ExpandTwo(m1: Match, n1: nat, d1: Die, m2: Match, n2: nat, d2: Die)
    requires ParseI32(m1.first) == Ok(n1) && m1.second == Token(d1)
    requires ParseI32(m2.first) == Ok(n2) && m2.second == Token(d2)
    ensures ExpandGroups([m1, m2]) == Ok(Repeat(d1, n1) + Repeat(d2, n2))
  {
    ExpandOne(m1, n1, d1);
    ExpandOne(m2, n2, d2);
    assert [m1, m2] == [m1] + [m2];
    ExpandGroupsAppend([m1], [m2]);
  }

  /** Constant matches whose digits are i32 values give those values. */
  lemma ConstantsOne(c: Match, v: int)
    requires ParseI32(c.first) == Ok(v)
    ensures ParseConstants([c]) == Ok([v])
  {
    assert [c][1..] == [];
    assert [v] + [] == [v];
  }

  lemma ConstantsTwo(c1: Match, v1: int, c2: Match, v2: int)
    requires ParseI32(c1.first) == Ok(v1) && ParseI32(c2.first) == Ok(v2)
    ensures ParseConstants([c1, c2]) == Ok([v1, v2])
  {
    ConstantsOne(c1, v1);
    ConstantsOne(c2, v2);
    assert [c1, c2] == [c1] + [c2];
    ParseConstantsAppend([c1], [c2]);
    assert [v1] + [v2] == [v1, v2];
  }

  /** A single digit parses to its value. */
  lemma OneDigit(c: char)
    requires IsDigit(c)
    ensures ParseI32([c]) == Ok(DigitValue(c))
  {
    assert [c][0] == c && [c][..0] == [];
    assert AllDigits([c]) && IsDigitRun([c]);
    assert DigitsValue([c]) == DigitsValue([]) * 10 + DigitValue(c);
  }

  lemma SmallNumbers()
    ensures ParseI32("0") == Ok(0) && ParseI32("1") == Ok(1) && ParseI32("2") == Ok(2)
    ensures ParseI32("3") == Ok(3) && ParseI32("6") == Ok(6) && ParseI32("9") == Ok(9)
  {
    OneDigit('0');
    OneDigit('1');
    OneDigit('2');
    OneDigit('3');
    OneDigit('6');
    OneDigit('9');
  }

  lemma ThreeD4TwoD8(m1: Match, m2: Match)
    requires m1.first == "3" && m1.second == "d4" && m2.first == "2" && m2.second == "d8"
    ensures ExpandGroups([m1, m2]) == Ok([D4, D4, D4, D8, D8])
  {
    SmallNumbers();
    ExpandTwo(m1, 3, D4, m2, 2, D8);
    assert Repeat(D4, 3) + Repeat(D8, 2) == [D4, D4, D4, D8, D8];
  }

  // ---------------------------------------------------------------------------------------
  // test_parse: "3d4+2d8+6"

  lemma DiceScanThreeD4TwoD8Six()
    ensures FindIter(Dice, "3d4+2d8+6", 0) == [Match(0, 4, "3", "d4"), Match(4, 8, "2", "d8")]
  {
    var s := "3d4+2d8+6";
    assert DigitRunEnd(s, 0) == 1 && DigitRunEnd(s, 2) == 3;
    assert s[0..1] == "3" && s[1..3] == "d4";
    assert MatchAt(Dice, s, 0) == Some(Match(0, 4, "3", "d4"));
    assert DigitRunEnd(s, 4) == 5 && DigitRunEnd(s, 6) == 7;
    assert s[4..5] == "2" && s[5..7] == "d8";
    assert MatchAt(Dice, s, 4) == Some(Match(4, 8, "2", "d8"));
    assert forall j :: 8 <= j < |s| ==> s[j] != 'd';
    FindIterNone(Dice, s, 8);
    FindIterTake(Dice, s, 4);
    FindIterTake(Dice, s, 0);
  }

  lemma ConstantScanThreeD4TwoD8Six()
    ensures FindIter(Constants, "3d4+2d8+6", 0) == [Match(7, 9, "6", "")]
  {
    var s := "3d4+2d8+6";
    assert DigitRunEnd(s, 8) == 9 && s[8..9] == "6";
    assert MatchAt(Constants, s, 7) == Some(Match(7, 9, "6", ""));
    assert DigitRunEnd(s, 4) == 5 && MatchAt(Constants, s, 3) == None;
    FindIterTake(Constants, s, 7);
    assert forall j :: 0 <= j < 3 ==> s[j] != '+';
    assert forall j :: 4 <= j < 7 ==> s[j] != '+';
    FindIterSkipAll(Constants, s, 4, 7);
    FindIterSkip(Constants, s, 3);
    FindIterSkipAll(Constants, s, 0, 3);
  }

  lemma ParseThreeD4TwoD8Six()
    ensures ParseSpec("3d4+2d8+6") == Ok(Roll([D4, D4, D4, D8, D8], [6]))
  {
    DiceScanThreeD4TwoD8Six();
    ConstantScanThreeD4TwoD8Six();
    ThreeD4TwoD8(Match(0, 4, "3", "d4"), Match(4, 8, "2", "d8"));
    SmallNumbers();
    ConstantsOne(Match(7, 9, "6", ""), 6);
    ParseFromScans("3d4+2d8+6", [D4, D4, D4, D8, D8], [6]);
  }

  // ---------------------------------------------------------------------------------------
  // test_const_alone: "+3"

  lemma ParseConstantAlone()
    ensures FindIter(Constants, "+3", 0) == [Match(0, 2, "3", "")]
    ensures ParseSpec("+3") == Ok(Roll([], [3]))
  {
    var s := "+3";
    assert forall j :: 0 <= j < |s| ==> s[j] != 'd';
    FindIterNone(Dice, s, 0);
    assert DigitRunEnd(s, 1) == 2 && s[1..2] == "3";
    var c1 := Match(0, 2, "3", "");
    assert MatchAt(Constants, s, 0) == Some(c1);
    FindIterTake(Constants, s, 0);
    SmallNumbers();
    ConstantsOne(c1, 3);
    ParseFromScans(s, [], [3]);
  }

  // ---------------------------------------------------------------------------------------
  // test_dice_regex: "3d4"

  lemma ScanThreeD4()
    ensures MatchAt(Dice, "3d4", 0) == Some(Match(0, 3, "3", "d4"))
    ensures FindIter(Dice, "3d4", 0) == [Match(0, 3, "3", "d4")]
  {
    var s := "3d4";
    assert DigitRunEnd(s, 0) == 1 && DigitRunEnd(s, 2) == 3;
    assert s[0..1] == "3" && s[1..3] == "d4";
    assert MatchAt(Dice, s, 0) == Some(Match(0, 3, "3", "d4"));
    FindIterTake(Dice, s, 0);
  }

  // ---------------------------------------------------------------------------------------
  // test_const_regex: "3d4+6"; test_multiple_dice_regex: "3d4+2d8"

  lemma ScanDiceAndConstant()
    ensures FindIter(Dice, "3d4+6", 0) == [Match(0, 4, "3", "d4")]
    ensures FindIter(Constants, "3d4+6", 0) == [Match(3, 5, "6", "")]
  {
    var s := "3d4+6";
    assert DigitRunEnd(s, 0) == 1 && DigitRunEnd(s, 2) == 3 && DigitRunEnd(s, 4) == 5;
    assert s[0..1] == "3" && s[1..3] == "d4" && s[4..5] == "6";
    assert MatchAt(Dice, s, 0) == Some(Match(0, 4, "3", "d4"));
    assert forall j :: 4 <= j < |s| ==> s[j] != 'd';
    FindIterNone(Dice, s, 4);
    FindIterTake(Dice, s, 0);
    assert MatchAt(Constants, s, 3) == Some(Match(3, 5, "6", ""));
    FindIterTake(Constants, s, 3);
    assert forall j :: 0 <= j < 3 ==> s[j] != '+';
    FindIterSkipAll(Constants, s, 0, 3);
  }

  lemma ScanMultipleDice()
    ensures FindIter(Dice, "3d4+2d8", 0) == [Match(0, 4, "3", "d4"), Match(4, 7, "2", "d8")]
  {
    var s := "3d4+2d8";
    assert DigitRunEnd(s, 0) == 1 && DigitRunEnd(s, 2) == 3;
    assert DigitRunEnd(s, 4) == 5 && DigitRunEnd(s, 6) == 7;
    assert s[0..1] == "3" && s[1..3] == "d4" && s[4..5] == "2" && s[5..7] == "d8";
    assert MatchAt(Dice, s, 0) == Some(Match(0, 4, "3", "d4"));
    assert MatchAt(Dice, s, 4) == Some(Match(4, 7, "2", "d8"));
    FindIterTake(Dice, s, 4);
    FindIterTake(Dice, s, 0);
  }

  // ---------------------------------------------------------------------------------------
  // test_multiple_const_regex: "3d4+6+2d8+9"

  lemma DiceMatchesMultipleConstants()
    ensures MatchAt(Dice, "3d4+6+2d8+9", 0) == Some(Match(0, 4, "3", "d4"))
    ensures MatchAt(Dice, "3d4+6+2d8+9", 6) == Some(Match(6, 10, "2", "d8"))
  {
    var s := "3d4+6+2d8+9";
    assert DigitRunEnd(s, 0) == 1 && DigitRunEnd(s, 2) == 3;
    assert s[0..1] == "3" && s[1..3] == "d4";
    assert DigitRunEnd(s, 6) == 7 && DigitRunEnd(s, 8) == 9;
    assert s[6..7] == "2" && s[7..9] == "d8";
  }

  lemma DiceScanMultipleConstants()
    ensures FindIter(Dice, "3d4+6+2d8+9", 0) == [Match(0, 4, "3", "d4"), Match(6, 10, "2", "d8")]
  {
    var s := "3d4+6+2d8+9";
    DiceMatchesMultipleConstants();
    assert forall j :: 10 <= j < |s| ==> s[j] != 'd';
    FindIterNone(Dice, s, 10);
    FindIterTake(Dice, s, 6);
    assert DigitRunEnd(s, 4) == 5 && DigitRunEnd(s, 5) == 5;
    assert MatchAt(Dice, s, 4) == None && MatchAt(Dice, s, 5) == None;
    FindIterSkip(Dice, s, 5);
    FindIterSkip(Dice, s, 4);
    FindIterTake(Dice, s, 0);
  }

  lemma ConstantScanMultipleConstants()
    ensures FindIter(Constants, "3d4+6+2d8+9", 0) == [Match(3, 6, "6", "+"), Match(9, 11, "9", "")]
  {
    var s := "3d4+6+2d8+9";
    assert DigitRunEnd(s, 4) == 5 && DigitRunEnd(s, 10) == 11;
    assert s[4..5] == "6" && s[10..11] == "9";
    assert MatchAt(Constants, s, 3) == Some(Match(3, 6, "6", "+"));
    assert MatchAt(Constants, s, 9) == Some(Match(9, 11, "9", ""));
    FindIterTake(Constants, s, 9);
    assert forall j :: 6 <= j < 9 ==> s[j] != '+';
    FindIterSkipAll(Constants, s, 6, 9);
    FindIterTake(Constants, s, 3);
    assert forall j :: 0 <= j < 3 ==> s[j] != '+';
    FindIterSkipAll(Constants, s, 0, 3);
  }

  lemma ScanMultipleConstants()
    ensures FindIter(Dice, "3d4+6+2d8+9", 0) == [Match(0, 4, "3", "d4"), Match(6, 10, "2", "d8")]
    ensures FindIter(Constants, "3d4+6+2d8+9", 0) == [Match(3, 6, "6", "+"), Match(9, 11, "9", "")]
  {
    DiceScanMultipleConstants();
    ConstantScanMultipleConstants();
  }

  lemma ParseMultipleConstants()
    ensures ParseSpec("3d4+6+2d8+9") == Ok(Roll([D4, D4, D4, D8, D8], [6, 9]))
  {
    ScanMultipleConstants();
    ThreeD4TwoD8(Match(0, 4, "3", "d4"), Match(6, 10, "2", "d8"));
    SmallNumbers();
    ConstantsTwo(Match(3, 6, "6", "+"), 6, Match(9, 11, "9", ""), 9);
    ParseFromScans("3d4+6+2d8+9", [D4, D4, D4, D8, D8], [6, 9]);
  }

  // ---------------------------------------------------------------------------------------
  // test_many_dice_regex: "33d100"

  lemma ThirtyThree()
    ensures ParseI32("33") == Ok(33)
  {
    OneDigit('3');
    assert "33"[..1] == "3" && "33"[1] == '3';
    assert AllDigits("33") && IsDigitRun("33");
  }

  lemma ParseManyDice()
    ensures FindIter(Dice, "33d100", 0) == [Match(0, 6, "33", "d100")]
    ensures ParseSpec("33d100") == Ok(Roll(Repeat(D100, 33), []))
  {
    var s := "33d100";
    assert DigitRunEnd(s, 0) == 2 && DigitRunEnd(s, 3) == 6;
    assert s[0..2] == "33" && s[2..6] == "d100";
    var m1 := Match(0, 6, "33", "d100");
    assert MatchAt(Dice, s, 0) == Some(m1);
    FindIterTake(Dice, s, 0);
    assert forall j :: 0 <= j < |s| ==> s[j] != '+';
    FindIterNone(Constants, s, 0);
    ThirtyThree();
    ExpandOne(m1, 33, D100);
    ParseFromScans(s, Repeat(D100, 33), []);
  }

  // ---------------------------------------------------------------------------------------
  // Inputs beyond the unit tests

  /** An unsupported die with a positive count is an error ... */
  lemma ParseUnsupportedDie()
    ensures ParseSpec("2d7") == Err(UnrecognizedDie("d7"))
  {
    var s := "2d7";
    assert DigitRunEnd(s, 0) == 1 && DigitRunEnd(s, 2) == 3;
    assert s[0..1] == "2" && s[1..3] == "d7";
    var m1 := Match(0, 3, "2", "d7");
    assert MatchAt(Dice, s, 0) == Some(m1);
    FindIterTake(Dice, s, 0);
    SmallNumbers();
    assert FromToken("d7") == Err(UnrecognizedDie("d7"));
  }

  /** ... but with a count of 0 its token is never looked at. */
  lemma ParseZeroUnsupportedDice()
    ensures ParseSpec("0d7") == Ok(Roll([], []))
  {
    var s := "0d7";
    assert DigitRunEnd(s, 0) == 1 && DigitRunEnd(s, 2) == 3;
    assert s[0..1] == "0" && s[1..3] == "d7";
    var m1 := Match(0, 3, "0", "d7");
    assert MatchAt(Dice, s, 0) == Some(m1);
    FindIterTake(Dice, s, 0);
    assert forall j :: 0 <= j < |s| ==> s[j] != '+';
    FindIterNone(Constants, s, 0);
    SmallNumbers();
    ZeroCountAddsNothing(m1, []);
    assert [m1] + [] == [m1];
    ParseFromScans(s, [], []);
  }

  /** A die without a count, `d6`, matches neither pattern: it silently rolls nothing. */
  lemma CountlessDieRollsNothing()
    ensures FindIter(Dice, "d6", 0) == [] && FindIter(Constants, "d6", 0) == []
    ensures ParseSpec("d6") == Ok(Roll([], []))
  {
    var s := "d6";
    assert DigitRunEnd(s, 0) == 0 && MatchAt(Dice, s, 0) == None;
    FindIterSkip(Dice, s, 0);
    assert DigitRunEnd(s, 1) == 2 && MatchAt(Dice, s, 1) == None;
    FindIterSkip(Dice, s, 1);
    assert forall j :: 0 <= j < |s| ==> s[j] != '+';
    FindIterNone(Constants, s, 0);
    NoMatchIsEmptyRoll(s, 1);
  }

  /** Only ASCII digits are digits here: before `3d4`, an Arabic-Indic three (U+0663) is not
      part of the count, and the match starts after it. */
  lemma NonAsciiCountDigitSkipped()
    ensures ParseSpec("\U{0663}3d4") == Ok(Roll([D4, D4, D4], []))
  {
    var s := "\U{0663}3d4";
    assert DigitRunEnd(s, 0) == 0 && MatchAt(Dice, s, 0) == None;
    FindIterSkip(Dice, s, 0);
    assert DigitRunEnd(s, 1) == 2 && DigitRunEnd(s, 3) == 4;
    assert s[1..2] == "3" && s[2..4] == "d4";
    var m1 := Match(1, 4, "3", "d4");
    assert MatchAt(Dice, s, 1) == Some(m1);
    FindIterTake(Dice, s, 1);
    assert forall j :: 0 <= j < |s| ==> s[j] != '+';
    FindIterNone(Constants, s, 0);
    SmallNumbers();
    ExpandOne(m1, 3, D4);
    assert Repeat(D4, 3) == [D4, D4, D4];
    ParseFromScans(s, [D4, D4, D4], []);
  }

  /** A `dtype` whose digit is Arabic-Indic four (U+0664) is no dice match at all. */
  lemma NonAsciiSidesDigitNoMatch()
    ensures FindIter(Dice, "2d\U{0664}", 0) == []
    ensures ParseSpec("2d\U{0664}") == Ok(Roll([], []))
  {
    var s := "2d\U{0664}";
    assert DigitRunEnd(s, 0) == 1 && DigitRunEnd(s, 2) == 2 && MatchAt(Dice, s, 0) == None;
    FindIterSkip(Dice, s, 0);
    assert MatchAt(Dice, s, 1) == None;
    FindIterSkip(Dice, s, 1);
    assert DigitRunEnd(s, 2) == 2 && MatchAt(Dice, s, 2) == None;
    FindIterSkip(Dice, s, 2);
    assert forall j :: 0 <= j < |s| ==> s[j] != '+';
    FindIterNone(Constants, s, 0);
    NoMatchIsEmptyRoll(s, 1);
  }

  /** A `+` and digits followed by `d` is the start of a dice group, not a constant. */
  lemma PlusBeforeDiceIsNoConstant()
    ensures FindIter(Constants, "+2d6", 0) == []
  {
    var s := "+2d6";
    assert DigitRunEnd(s, 1) == 2;
    assert MatchAt(Constants, s, 0) == None;
    FindIterSkip(Constants, s, 0);
    assert forall j :: 1 <= j < |s| ==> s[j] != '+';
    FindIterNone(Constants, s, 1);
  }

  /** The terminating `+` of a constant is consumed, so it cannot open the next constant. */
  lemma ConstantsShareNoPlus()
    ensures ParseSpec("+1+2+3") == Ok(Roll([], [1, 3]))
  {
    var s := "+1+2+3";
    assert forall j :: 0 <= j < |s| ==> s[j] != 'd';
    FindIterNone(Dice, s, 0);
    assert DigitRunEnd(s, 1) == 2 && DigitRunEnd(s, 5) == 6;
    assert s[1..2] == "1" && s[5..6] == "3";
    var c1 := Match(0, 3, "1", "+");
    var c2 := Match(4, 6, "3", "");
    assert MatchAt(Constants, s, 0) == Some(c1);
    assert MatchAt(Constants, s, 4) == Some(c2);
    FindIterTake(Constants, s, 4);
    assert s[3] != '+';
    FindIterSkipAll(Constants, s, 3, 4);
    FindIterTake(Constants, s, 0);
    assert FindIter(Constants, s, 0) == [c1, c2];
    SmallNumbers();
    ConstantsTwo(c1, 1, c2, 3);
    ParseFromScans(s, [], [1, 3]);
  }

  /** A critical hit on "3d4+2d8+6" with the draws 1, 2, 3, 4, 5 doubles the 15 rolled and
      adds the 6 once: 36. */
  lemma CastCriticalExample()
    ensures ValidOutcomes([D4, D4, D4, D8, D8], [1, 2, 3, 4, 5])
    ensures Cast(Roll([D4, D4, D4, D8, D8], [6]), 2, [1, 2, 3, 4, 5]) == 36
  {
    var o := [1, 2, 3, 4, 5];
    assert o[1..] == [2, 3, 4, 5] && o[1..][1..] == [3, 4, 5];
    assert [3, 4, 5][1..] == [4, 5] && [4, 5][1..] == [5] && [5][1..] == [];
    assert [6][1..] == [];
  }

  /** As written, "1d4+1+2" loses its last modifier: the constant pattern matches "+2" at
      position 5, but the scan does not report it because the previous match consumed that
      `+`. The roll is 1d4+1, not 1d4+3. */
  lemma ConsumedTerminatorDropsConstant()
    ensures MatchAt(Constants, "1d4+1+2", 5).Some?
    ensures !Reported(FindIter(Constants, "1d4+1+2", 0), 5)
    ensures ParseSpec("1d4+1+2") == Ok(Roll([D4], [1]))
  {
    var s := "1d4+1+2";
    DiceScanConsumed();
    ConstantScanConsumed();
    SmallNumbers();
    ExpandOne(Match(0, 4, "1", "d4"), 1, D4);
    assert Repeat(D4, 1) == [D4];
    ConstantsOne(Match(3, 6, "1", "+"), 1);
    ParseFromScans(s, [D4], [1]);
  }

  lemma DiceScanConsumed()
    ensures FindIter(Dice, "1d4+1+2", 0) == [Match(0, 4, "1", "d4")]
  {
    var s := "1d4+1+2";
    assert DigitRunEnd(s, 0) == 1 && DigitRunEnd(s, 2) == 3;
    assert s[0..1] == "1" && s[1..3] == "d4";
    assert MatchAt(Dice, s, 0) == Some(Match(0, 4, "1", "d4"));
    assert forall j :: 4 <= j < |s| ==> s[j] != 'd';
    FindIterNone(Dice, s, 4);
    FindIterTake(Dice, s, 0);
  }

  lemma ConstantScanConsumed()
    ensures MatchAt(Constants, "1d4+1+2", 5) == Some(Match(5, 7, "2", ""))
    ensures FindIter(Constants, "1d4+1+2", 0) == [Match(3, 6, "1", "+")]
  {
    var s := "1d4+1+2";
    assert DigitRunEnd(s, 4) == 5 && DigitRunEnd(s, 6) == 7;
    assert s[4..5] == "1" && s[6..7] == "2";
    assert MatchAt(Constants, s, 3) == Some(Match(3, 6, "1", "+"));
    assert MatchAt(Constants, s, 5) == Some(Match(5, 7, "2", ""));
    assert forall j :: 6 <= j < |s| ==> s[j] != '+';
    FindIterNone(Constants, s, 6);
    FindIterTake(Constants, s, 3);
    assert forall j :: 0 <= j < 3 ==> s[j] != '+';
    FindIterSkipAll(Constants, s, 0, 3);
  }

  /** With the terminator only looked ahead at, both modifiers of "1d4+1+2" are found. */
  lemma LookaheadKeepsEveryConstant()
    ensures FindIter(ConstantsLookahead, "1d4+1+2", 0) == [Match(3, 5, "1", "+"), Match(5, 7, "2", "")]
    ensures ParseConstants(FindIter(ConstantsLookahead, "1d4+1+2", 0)) == Ok([1, 2])
  {
    var s := "1d4+1+2";
    assert DigitRunEnd(s, 4) == 5 && DigitRunEnd(s, 6) == 7;
    assert s[4..5] == "1" && s[6..7] == "2";
    var c1, c2 := Match(3, 5, "1", "+"), Match(5, 7, "2", "");
    assert MatchAt(ConstantsLookahead, s, 3) == Some(c1);
    assert MatchAt(ConstantsLookahead, s, 5) == Some(c2);
    FindIterTake(ConstantsLookahead, s, 5);
    FindIterTake(ConstantsLookahead, s, 3);
    assert forall j :: 0 <= j < 3 ==> s[j] != '+';
    FindIterSkipAll(ConstantsLookahead, s, 0, 3);
    SmallNumbers();
    ConstantsTwo(c1, 1, c2, 2);
  }
}
