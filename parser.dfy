/** `parse` and `run`: the dice matches expand into die entries, the constant matches into
    modifiers, and the resulting roll is cast. */
module Parser {
  import opened Results
  import opened Digits
  import opened DieModel
  import opened Patterns
  import opened Rolls

  /** `n` entries of die `d`. */
  function Repeat(d: Die, n: nat): (ds: seq<Die>)
    ensures |ds| == n && forall i :: 0 <= i < n ==> ds[i] == d
  {
    seq(n, _ => d)
  }

  /** The entries one dice match adds: `count` calls of `Dice::from(dtype)`, so the token is
      looked at only when the count is positive. */
  function Group(dtype: string, count: nat): Result<seq<Die>> {
    if count == 0 then Ok([])
    else
      var d :- FromToken(dtype);
      Ok(Repeat(d, count))
  }

  /** The loop of `parse` over the dice matches, in match order; the first failure ends it. */
  function ExpandGroups(caps: seq<Match>): Result<seq<Die>> {
    if caps == [] then Ok([])
    else
      var count :- ParseI32(caps[0].first);
      var head :- Group(caps[0].second, count);
      var tail :- ExpandGroups(caps[1..]);
      Ok(head + tail)
  }

  /** The loop of `parse` over the constant matches, in match order. */
  function ParseConstants(caps: seq<Match>): Result<seq<int>> {
    if caps == [] then Ok([])
    else
      var c :- ParseI32(caps[0].first);
      var rest :- ParseConstants(caps[1..]);
      Ok([c] + rest)
  }

  /** What `parse(input)` returns. */
  function ParseSpec(input: string): Result<Roll> {
    var dice :- ExpandGroups(FindIter(Dice, input, 0));
    var constants :- ParseConstants(FindIter(Constants, input, 0));
    Ok(Roll(dice, constants))
  }

  /** `parse`: scan both patterns, then push `count` dice for every dice match and one
      constant for every constant match. */
  method Parse(input: string) returns (r: Result<Roll>)
    ensures r == ParseSpec(input)
  {
    var caps := FindIter(Dice, input, 0);
    var ccaps := FindIter(Constants, input, 0);
    var roll := NewRoll();
    for j := 0 to |caps|
      invariant ExpandGroups(caps[..j]) == Ok(roll.dice)
      invariant roll.constants == []
    {
      var c := caps[j];
      var count := ParseI32(c.first);
      if count.Err? {
        ExpandPrefixFails(caps, j);
        return Err(count.error);
      }
      ghost var before := roll.dice;
      for i := 0 to count.value
        invariant Group(c.second, i).Ok? && roll.dice == before + Group(c.second, i).value
        invariant roll.constants == []
      {
        var d := FromToken(c.second);
        if d.Err? {
          ExpandPrefixFails(caps, j);
          return Err(d.error);
        }
        GroupStep(c.second, i, before);
        roll := roll.(dice := roll.dice + [d.value]);
      }
      ExpandPrefixStep(caps, j);
    }
    assert caps[..|caps|] == caps;
    for j := 0 to |ccaps|
      invariant ParseConstants(ccaps[..j]) == Ok(roll.constants)
      invariant ExpandGroups(caps) == Ok(roll.dice)
    {
      var v := ParseI32(ccaps[j].first);
      if v.Err? {
        ConstantsPrefixFails(ccaps, j);
        return Err(v.error);
      }
      ConstantsPrefixStep(ccaps, j);
      roll := roll.(constants := roll.constants + [v.value]);
    }
    assert ccaps[..|ccaps|] == ccaps;
    return Ok(roll);
  }

  /** One more pass of the inner loop of `parse` adds one die to the group's entries. */
  lemma GroupStep(dtype: string, i: nat, before: seq<Die>)
    requires FromToken(dtype).Ok?
    ensures Group(dtype, i + 1) == Ok(Group(dtype, i).value + [FromToken(dtype).value])
    ensures before + Group(dtype, i + 1).value == (before + Group(dtype, i).value) + [FromToken(dtype).value]
  {
    var d := FromToken(dtype).value;
    assert Repeat(d, i + 1) == Repeat(d, i) + [d];
  }

  /** A dice match whose group fails makes the whole expansion fail with its error, once
      the matches before it have gone through. */
  lemma ExpandPrefixFails(caps: seq<Match>, j: nat)
    requires j < |caps| && ExpandGroups(caps[..j]).Ok?
    requires ParseI32(caps[j].first).Err?
      || (ParseI32(caps[j].first).value > 0 && FromToken(caps[j].second).Err?)
    ensures ParseI32(caps[j].first).Err? ==> ExpandGroups(caps) == Err(ParseI32(caps[j].first).error)
    ensures ParseI32(caps[j].first).Ok? ==> ExpandGroups(caps) == Err(FromToken(caps[j].second).error)
  {
    var tail := caps[j..];
    assert caps == caps[..j] + tail;
    assert tail[0] == caps[j];
    assert ExpandGroups(tail).Err? && ExpandGroups(tail).error
      == if ParseI32(caps[j].first).Err? then ParseI32(caps[j].first).error else FromToken(caps[j].second).error;
    ExpandGroupsAppend(caps[..j], tail);
  }

  /** A dice match whose group goes through extends the expansion of the matches before it. */
  lemma ExpandPrefixStep(caps: seq<Match>, j: nat)
    requires j < |caps| && ExpandGroups(caps[..j]).Ok? && ParseI32(caps[j].first).Ok?
    requires Group(caps[j].second, ParseI32(caps[j].first).value).Ok?
    ensures ExpandGroups(caps[..j + 1])
      == Ok(ExpandGroups(caps[..j]).value + Group(caps[j].second, ParseI32(caps[j].first).value).value)
  {
    var c := caps[j];
    assert caps[..j + 1] == caps[..j] + [c];
    ExpandGroupsAppend(caps[..j], [c]);
    assert [c][1..] == [];
    var added := Group(c.second, ParseI32(c.first).value).value;
    assert ExpandGroups([c]) == Ok(added + []);
    assert added + [] == added;
  }

  /** A constant that is not an i32 makes the constant loop fail with its error. */
  lemma ConstantsPrefixFails(ccaps: seq<Match>, j: nat)
    requires j < |ccaps| && ParseConstants(ccaps[..j]).Ok? && ParseI32(ccaps[j].first).Err?
    ensures ParseConstants(ccaps) == Err(ParseI32(ccaps[j].first).error)
  {
    var tail := ccaps[j..];
    assert ccaps == ccaps[..j] + tail;
    assert tail[0] == ccaps[j];
    assert ParseConstants(tail) == Err(ParseI32(ccaps[j].first).error);
    ParseConstantsAppend(ccaps[..j], tail);
  }

  /** An i32 constant is appended to the constants before it. */
  lemma ConstantsPrefixStep(ccaps: seq<Match>, j: nat)
    requires j < |ccaps| && ParseConstants(ccaps[..j]).Ok? && ParseI32(ccaps[j].first).Ok?
    ensures ParseConstants(ccaps[..j + 1]) == Ok(ParseConstants(ccaps[..j]).value + [ParseI32(ccaps[j].first).value])
  {
    var c := ccaps[j];
    assert ccaps[..j + 1] == ccaps[..j] + [c];
    ParseConstantsAppend(ccaps[..j], [c]);
    assert [c][1..] == [];
    var v := ParseI32(c.first).value;
    assert ParseConstants([c]) == Ok([v] + []);
    assert [v] + [] == [v];
  }

  /** `run`: parse, then cast with the supplied draws; a parse error is passed on. */
  method Run(input: string, crit: int, outcomes: seq<int>) returns (r: Result<int>)
    requires ParseSpec(input).Ok? ==> ValidOutcomes(ParseSpec(input).value.dice, outcomes)
    ensures r.Err? <==> ParseSpec(input).Err?
    ensures r.Err? ==> r.error == ParseSpec(input).error
    ensures r.Ok? ==> r.value == Cast(ParseSpec(input).value, crit, outcomes)
  {
    var roll :- Parse(input);
    return Ok(Cast(roll, crit, outcomes));
  }

  // ---------------------------------------------------------------------------------------
  // Lemmas

  /** Expanding a prefix that succeeds and then the rest is expanding the whole. */
  lemma {:induction false} ExpandGroupsAppend(a: seq<Match>, b: seq<Match>)
    requires ExpandGroups(a).Ok?
    ensures ExpandGroups(a + b) == match ExpandGroups(b)
                                   case Ok(y) => Ok(ExpandGroups(a).value + y)
                                   case Err(e) => Err(e)
  {
    if a == [] {
      assert a + b == b;
      if ExpandGroups(b).Ok? {
        assert [] + ExpandGroups(b).value == ExpandGroups(b).value;
      }
    } else {
      assert (a + b)[1..] == a[1..] + b;
      ExpandGroupsAppend(a[1..], b);
      var count := ParseI32(a[0].first).value;
      var head := Group(a[0].second, count).value;
      if ExpandGroups(b).Ok? {
        assert head + (ExpandGroups(a[1..]).value + ExpandGroups(b).value)
            == (head + ExpandGroups(a[1..]).value) + ExpandGroups(b).value;
      }
    }
  }

  lemma {:induction false} ParseConstantsAppend(a: seq<Match>, b: seq<Match>)
    requires ParseConstants(a).Ok?
    ensures ParseConstants(a + b) == match ParseConstants(b)
                                     case Ok(y) => Ok(ParseConstants(a).value + y)
                                     case Err(e) => Err(e)
  {
    if a == [] {
      assert a + b == b;
      if ParseConstants(b).Ok? {
        assert [] + ParseConstants(b).value == ParseConstants(b).value;
      }
    } else {
      assert (a + b)[1..] == a[1..] + b;
      ParseConstantsAppend(a[1..], b);
      if ParseConstants(b).Ok? {
        var c := ParseI32(a[0].first).value;
        assert [c] + (ParseConstants(a[1..]).value + ParseConstants(b).value)
            == ([c] + ParseConstants(a[1..]).value) + ParseConstants(b).value;
      }
    }
  }

  /** A dice match `parse` gets through: its count is an i32 and, when the count is
      positive, its token names a die. */
  predicate GroupAccepted(c: Match) {
    ParseI32(c.first).Ok? && (ParseI32(c.first).value > 0 ==> FromToken(c.second).Ok?)
  }

  /** Expansion succeeds exactly when every dice match is accepted; a count of 0 lets any
      token through. */
  lemma {:induction false} ExpandGroupsOk(caps: seq<Match>)
    ensures ExpandGroups(caps).Ok? <==> forall k :: 0 <= k < |caps| ==> GroupAccepted(caps[k])
  {
    if caps != [] {
      ExpandGroupsOk(caps[1..]);
      assert forall k :: 1 <= k < |caps| ==> caps[k] == caps[1..][k - 1];
    }
  }

  /** The counts of the dice matches, in match order. */
  function Counts(caps: seq<Match>): (n: seq<int>)
    requires forall k :: 0 <= k < |caps| ==> ParseI32(caps[k].first).Ok?
    ensures |n| == |caps|
  {
    seq(|caps|, k requires 0 <= k < |caps| => ParseI32(caps[k].first).value)
  }

  /** `dice` holds, for every match in order, exactly `count` entries of the die its token
      names: match k owns the entries from the sum of the earlier counts up to that sum plus
      its own count. */
  ghost predicate Expands(caps: seq<Match>, dice: seq<Die>)
    requires forall k :: 0 <= k < |caps| ==> ParseI32(caps[k].first).Ok?
  {
    var n := Counts(caps);
    |dice| == Sum(n)
    && forall k, i :: 0 <= k < |caps| && 0 <= i < |dice| && Sum(n[..k]) <= i < Sum(n[..k + 1]) ==>
         Token(dice[i]) == caps[k].second
  }

  lemma {:induction false} SumNonNegative(xs: seq<int>)
    requires forall j :: 0 <= j < |xs| ==> xs[j] >= 0
    ensures Sum(xs) >= 0
  {
    if xs != [] {
      SumNonNegative(xs[1..]);
    }
  }

  lemma {:induction false} ExpansionShape(caps: seq<Match>)
    requires ExpandGroups(caps).Ok?
    ensures forall k :: 0 <= k < |caps| ==> ParseI32(caps[k].first).Ok?
    ensures Expands(caps, ExpandGroups(caps).value)
  {
    ExpandGroupsOk(caps);
    if caps != [] {
      var c, rest := caps[0], caps[1..];
      ExpansionShape(rest);
      var n0 := ParseI32(c.first).value;
      var head := Group(c.second, n0).value;
      assert |head| == n0 && forall i :: 0 <= i < n0 ==> Token(head[i]) == c.second;
      assert ExpandGroups(caps).value == head + ExpandGroups(rest).value;
      assert caps == [c] + rest;
      ExpandsCons(c, rest, head, ExpandGroups(rest).value);
    }
  }

  /** Putting one more match's entries in front of an expansion gives the expansion of the
      longer list of matches. */
  lemma ExpandsCons(c: Match, rest: seq<Match>, head: seq<Die>, tail: seq<Die>)
    requires ParseI32(c.first).Ok? && forall k :: 0 <= k < |rest| ==> ParseI32(rest[k].first).Ok?
    requires |head| == ParseI32(c.first).value
    requires forall i :: 0 <= i < |head| ==> Token(head[i]) == c.second
    requires Expands(rest, tail)
    ensures forall k :: 0 <= k < |[c] + rest| ==> ParseI32(([c] + rest)[k].first).Ok?
    ensures Expands([c] + rest, head + tail)
  {
    var caps, dice := [c] + rest, head + tail;
    var n0 := |head|;
    CountsCons(c, rest);
    var n, m := Counts(caps), Counts(rest);
    forall k, i | 0 <= k < |caps| && 0 <= i < |dice| && Sum(n[..k]) <= i < Sum(n[..k + 1])
      ensures Token(dice[i]) == caps[k].second
    {
      if k == 0 {
        assert dice[i] == head[i];
      } else {
        assert Sum(n[..k]) == n0 + Sum(m[..k - 1]);
        SumNonNegative(m[..k - 1]);
        assert m[..k - 1 + 1] == m[..k];
        assert dice[i] == tail[i - n0];
        assert caps[k] == rest[k - 1];
      }
    }
  }

  /** The counts of one more match in front: its count, then the others'. */
  lemma CountsCons(c: Match, rest: seq<Match>)
    requires ParseI32(c.first).Ok? && forall k :: 0 <= k < |rest| ==> ParseI32(rest[k].first).Ok?
    ensures forall k :: 0 <= k < |[c] + rest| ==> ParseI32(([c] + rest)[k].first).Ok?
    ensures Counts([c] + rest) == [ParseI32(c.first).value] + Counts(rest)
    ensures forall k :: 0 <= k <= |rest| ==>
      Sum(Counts([c] + rest)[..k + 1]) == ParseI32(c.first).value + Sum(Counts(rest)[..k])
    ensures Sum(Counts([c] + rest)) == ParseI32(c.first).value + Sum(Counts(rest))
  {
    var caps := [c] + rest;
    assert forall k :: 0 < k < |caps| ==> caps[k] == rest[k - 1];
    var n, m, n0 := Counts(caps), Counts(rest), ParseI32(c.first).value;
    assert n == [n0] + m;
    forall k | 0 <= k <= |rest| ensures Sum(n[..k + 1]) == n0 + Sum(m[..k]) {
      assert n[..k + 1] == [n0] + m[..k];
    }
  }

  /** A dice match whose count is 0 contributes nothing, whatever its token. */
  lemma ZeroCountAddsNothing(c: Match, rest: seq<Match>)
    requires ParseI32(c.first) == Ok(0)
    ensures ExpandGroups([c] + rest) == ExpandGroups(rest)
  {
    assert ([c] + rest)[1..] == rest;
    if ExpandGroups(rest).Ok? {
      assert [] + ExpandGroups(rest).value == ExpandGroups(rest).value;
    }
  }

  /** The constants are the values of the constant matches, one each, in match order; they
      parse exactly when every match's digits are an i32. */
  lemma {:induction false} ParseConstantsValues(caps: seq<Match>)
    ensures ParseConstants(caps).Ok? <==> forall k :: 0 <= k < |caps| ==> ParseI32(caps[k].first).Ok?
    ensures ParseConstants(caps).Ok? ==>
      |ParseConstants(caps).value| == |caps|
      && forall k :: 0 <= k < |caps| ==> ParseConstants(caps).value[k] == ParseI32(caps[k].first).value
  {
    if caps != [] {
      ParseConstantsValues(caps[1..]);
      assert forall k :: 1 <= k < |caps| ==> caps[k] == caps[1..][k - 1];
    }
  }

  /** `parse` succeeds exactly when every dice match is accepted and every constant is an
      i32. */
  lemma ParseAccepts(input: string)
    ensures ParseSpec(input).Ok? <==>
      (forall k :: 0 <= k < |FindIter(Dice, input, 0)| ==> GroupAccepted(FindIter(Dice, input, 0)[k]))
      && (forall k :: 0 <= k < |FindIter(Constants, input, 0)| ==> ParseI32(FindIter(Constants, input, 0)[k].first).Ok?)
  {
    var caps, ccaps := FindIter(Dice, input, 0), FindIter(Constants, input, 0);
    ExpandGroupsOk(caps);
    ParseConstantsValues(ccaps);
    if ExpandGroups(caps).Err? {
      var k :| 0 <= k < |caps| && !GroupAccepted(caps[k]);
      assert ParseSpec(input).Err?;
      assert caps == FindIter(Dice, input, 0);
      assert !GroupAccepted(FindIter(Dice, input, 0)[k]);
    } else if ParseConstants(ccaps).Err? {
      var k :| 0 <= k < |ccaps| && ParseI32(ccaps[k].first).Err?;
      assert ParseSpec(input).Err?;
      assert ccaps == FindIter(Constants, input, 0);
      assert ParseI32(FindIter(Constants, input, 0)[k].first).Err?;
    } else {
      assert ParseSpec(input).Ok?;
    }
  }

  /** A successful `parse` holds exactly the expanded dice and one value per constant match,
      in match order. */
  lemma ParseShape(input: string)
    requires ParseSpec(input).Ok?
    ensures forall k :: 0 <= k < |FindIter(Dice, input, 0)| ==> ParseI32(FindIter(Dice, input, 0)[k].first).Ok?
    ensures Expands(FindIter(Dice, input, 0), ParseSpec(input).value.dice)
    ensures |ParseSpec(input).value.constants| == |FindIter(Constants, input, 0)|
    ensures forall k :: 0 <= k < |FindIter(Constants, input, 0)| ==>
      ParseI32(FindIter(Constants, input, 0)[k].first) == Ok(ParseSpec(input).value.constants[k])
  {
    var caps, ccaps := FindIter(Dice, input, 0), FindIter(Constants, input, 0);
    assert ParseSpec(input).value == Roll(ExpandGroups(caps).value, ParseConstants(ccaps).value);
    ExpansionShape(caps);
    ParseConstantsValues(ccaps);
  }

  /** The numbers both patterns capture are runs of ASCII digits, so `parse::<i32>` can only
      reject them for being larger than `i32::MAX`. */
  lemma CapturesAreDigitRuns(p: Pattern, input: string, k: nat)
    requires k < |FindIter(p, input, 0)|
    ensures IsDigitRun(FindIter(p, input, 0)[k].first)
    ensures ParseI32(FindIter(p, input, 0)[k].first).Err? <==> DigitsValue(FindIter(p, input, 0)[k].first) > I32_MAX
  {
    FindIterSound(p, input, 0);
    var m := FindIter(p, input, 0)[k];
    if p == Dice {
      DiceMatchSound(input, m.start);
    } else {
      ConstantMatchSound(p, input, m.start);
    }
  }

  /** An input in which neither pattern matches anywhere parses to the empty roll, which
      casts to 0 whatever the multiplier. This covers texts such as `d6` (no count), `2d`
      (no sides) and `+x`, not only texts without `d` and `+`. */
  lemma NoMatchIsEmptyRoll(input: string, crit: int)
    requires FindIter(Dice, input, 0) == [] && FindIter(Constants, input, 0) == []
    ensures ParseSpec(input) == Ok(NewRoll())
    ensures Cast(ParseSpec(input).value, crit, []) == 0
  {
  }

  /** In particular, a text without any `d` and any `+` holds neither pattern. */
  lemma PlainTextIsEmptyRoll(input: string, crit: int)
    requires forall j :: 0 <= j < |input| ==> input[j] != 'd' && input[j] != '+'
    ensures ParseSpec(input) == Ok(NewRoll())
    ensures Cast(NewRoll(), crit, []) == 0
  {
    FindIterNone(Dice, input, 0);
    FindIterNone(Constants, input, 0);
    NoMatchIsEmptyRoll(input, crit);
  }
}
