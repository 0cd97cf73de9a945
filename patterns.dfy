/** The two regular expressions of the parser, as hand-written matchers over ASCII text, and
    `captures_iter`: the leftmost-first, non-overlapping, left-to-right scan. */
module Patterns {
  import opened Results
  import opened Digits

  /** The compiled patterns.
      Dice:      `(?P<count>\d+)(?P<dtype>d\d+)\+?`
      Constants: `\+(?P<const>\d+)(\+|$)`
      ConstantsLookahead is the constant pattern with a terminator that is checked but not
      consumed; the program does not use it (see FindsEveryConstant). */
  datatype Pattern = Dice | Constants | ConstantsLookahead

  /** One item of `captures_iter`: the match covers s[start..end]. For Dice, `first` is the
      `count` group and `second` the `dtype` group; for the constant patterns, `first` is the
      `const` group and `second` the terminator, "+" or "" at the end of the text. */
  datatype Match = Match(start: nat, end: nat, first: string, second: string)

  /** The match of `p` that starts exactly at `i`, if any. The `count` and `const` digits must
      be followed by a non-digit, so they are the maximal run; the `dtype` digits and the
      optional `+` of Dice could match shorter, and greedy priority takes the longest
      (DiceMatchGreedy). */
  function MatchAt(p: Pattern, s: string, i: nat): (r: Option<Match>)
    requires i <= |s|
    ensures r.Some? ==> r.value.start == i < r.value.end <= |s|
  {
    match p
    case Dice =>
      var k := DigitRunEnd(s, i);
      if i < k < |s| && s[k] == 'd' then
        var t := DigitRunEnd(s, k + 1);
        if k + 1 < t then
          var e := if t < |s| && s[t] == '+' then t + 1 else t;
          Some(Match(i, e, s[i..k], s[k..t]))
        else None
      else None
    case _ =>
      if i < |s| && s[i] == '+' then
        var k := DigitRunEnd(s, i + 1);
        if i + 1 < k && k == |s| then Some(Match(i, k, s[i + 1..k], ""))
        else if i + 1 < k && s[k] == '+' then
          Some(Match(i, if p == Constants then k + 1 else k, s[i + 1..k], "+"))
        else None
      else None
  }

  /** `captures_iter` from position `pos`: try each position in turn; after a match resume at
      its end (no match is empty). */
  function FindIter(p: Pattern, s: string, pos: nat): seq<Match>
    requires pos <= |s|
    decreases |s| - pos
  {
    if pos == |s| then []
    else match MatchAt(p, s, pos)
      case Some(m) => [m] + FindIter(p, s, m.end)
      case None => FindIter(p, s, pos + 1)
  }

  /** Every match in `ms` is a match of the pattern at its start, inside the text and past
      `pos`, and the matches come in text order without overlapping. */
  ghost predicate ScanSound(p: Pattern, s: string, pos: nat, ms: seq<Match>) {
    (forall k :: 0 <= k < |ms| ==> pos <= ms[k].start < ms[k].end <= |s|)
    && (forall k :: 0 <= k < |ms| ==> MatchAt(p, s, ms[k].start) == Some(ms[k]))
    && (forall a, b :: 0 <= a < b < |ms| ==> ms[a].end <= ms[b].start)
  }

  lemma {:induction false} FindIterSound(p: Pattern, s: string, pos: nat)
    requires pos <= |s|
    ensures ScanSound(p, s, pos, FindIter(p, s, pos))
    decreases |s| - pos
  {
    if pos < |s| {
      var here := MatchAt(p, s, pos);
      if here.Some? {
        FindIterSound(p, s, here.value.end);
        ScanSoundCons(p, s, pos, here.value, FindIter(p, s, here.value.end));
      } else {
        FindIterSound(p, s, pos + 1);
      }
    }
  }

  lemma ScanSoundCons(p: Pattern, s: string, pos: nat, m: Match, rest: seq<Match>)
    requires pos <= |s| && MatchAt(p, s, pos) == Some(m) && ScanSound(p, s, m.end, rest)
    ensures ScanSound(p, s, pos, [m] + rest)
  {
    var ms := [m] + rest;
    assert forall k :: 0 < k < |ms| ==> ms[k] == rest[k - 1];
    ConsMatches(p, s, pos, m, rest);
    ConsOrdered(m, rest);
  }

  lemma ConsMatches(p: Pattern, s: string, pos: nat, m: Match, rest: seq<Match>)
    requires pos <= |s| && MatchAt(p, s, pos) == Some(m)
    requires forall k :: 0 <= k < |rest| ==> m.end <= rest[k].start < rest[k].end <= |s|
    requires forall k :: 0 <= k < |rest| ==> MatchAt(p, s, rest[k].start) == Some(rest[k])
    ensures forall k :: 0 <= k < |[m] + rest| ==> MatchAt(p, s, ([m] + rest)[k].start) == Some(([m] + rest)[k])
    ensures forall k :: 0 <= k < |[m] + rest| ==> pos <= ([m] + rest)[k].start < ([m] + rest)[k].end <= |s|
  {
    var ms := [m] + rest;
    forall k | 0 <= k < |ms|
      ensures pos <= ms[k].start < ms[k].end <= |s| && MatchAt(p, s, ms[k].start) == Some(ms[k])
    {
      if k > 0 {
        assert ms[k] == rest[k - 1];
      }
    }
  }

  lemma ConsOrdered(m: Match, rest: seq<Match>)
    requires forall k :: 0 <= k < |rest| ==> m.end <= rest[k].start
    requires forall a, b :: 0 <= a < b < |rest| ==> rest[a].end <= rest[b].start
    ensures forall a, b :: 0 <= a < b < |[m] + rest| ==> ([m] + rest)[a].end <= ([m] + rest)[b].start
  {
    var ms := [m] + rest;
    forall a, b | 0 <= a < b < |ms| ensures ms[a].end <= ms[b].start {
      assert ms[b] == rest[b - 1];
      if a > 0 {
        assert ms[a] == rest[a - 1];
      }
    }
  }

  // ---------------------------------------------------------------------------------------
  // The patterns as languages, independently of the matcher

  /** s[i..j] spells `\d+d\d+\+?` with groups count and dtype. */
  ghost predicate DiceSyntax(s: string, i: nat, j: nat, count: string, dtype: string) {
    i <= j <= |s| && IsDigitRun(count) && |dtype| >= 2 && dtype[0] == 'd' && IsDigitRun(dtype[1..])
    && (s[i..j] == count + dtype || s[i..j] == count + dtype + "+")
  }

  /** s[i..j] spells `\+\d+(\+|$)` with group const: a `+` after the digits, or the digits
      reach the end of the text. */
  ghost predicate ConstantSyntax(s: string, i: nat, j: nat, digits: string) {
    i <= j <= |s| && IsDigitRun(digits)
    && (s[i..j] == "+" + digits + "+" || (s[i..j] == "+" + digits && j == |s|))
  }

  /** The groups of a dice match are a digit run and a `d` followed by a digit run, and
      together with the optional `+` they spell the matched text. */
  lemma DiceMatchSound(s: string, i: nat)
    requires i <= |s| && MatchAt(Dice, s, i).Some?
    ensures var m := MatchAt(Dice, s, i).value; DiceSyntax(s, i, m.end, m.first, m.second)
  {
    var m := MatchAt(Dice, s, i).value;
    var k := DigitRunEnd(s, i);
    var t := DigitRunEnd(s, k + 1);
    DigitRun(s, i);
    DigitRun(s, k + 1);
    assert m.first == s[i..k] && m.second == s[k..t];
    assert m.second[1..] == s[k + 1..t];
    assert s[i..t] == m.first + m.second by {
      assert s[i..t] == s[i..k] + s[k..t];
    }
    if m.end != t {
      assert s[i..m.end] == s[i..t] + [s[t]];
    }
  }

  /** Leftmost-first choice: whenever the dice language matches at `i`, the matcher finds a
      match at `i`, and no syntactic match there is longer than the one it takes. */
  lemma DiceMatchGreedy(s: string, i: nat, j: nat, count: string, dtype: string)
    requires DiceSyntax(s, i, j, count, dtype)
    ensures MatchAt(Dice, s, i).Some? && j <= MatchAt(Dice, s, i).value.end
  {
    var c, n := |count|, |dtype|;
    DiceSyntaxChars(s, i, j, count, dtype);
    var k := DigitRunEnd(s, i);
    DigitRun(s, i);
    assert k == i + c;
    var t := DigitRunEnd(s, k + 1);
    DigitRun(s, k + 1);
    assert t >= k + n;
    if j == i + c + n + 1 {
      assert t == k + n;
    }
  }

  /** The characters a dice syntax match spells, one position at a time. */
  lemma DiceSyntaxChars(s: string, i: nat, j: nat, count: string, dtype: string)
    requires DiceSyntax(s, i, j, count, dtype)
    ensures j == i + |count| + |dtype| || (j == i + |count| + |dtype| + 1 && s[j - 1] == '+')
    ensures forall x :: i <= x < i + |count| ==> IsDigit(s[x])
    ensures s[i + |count|] == 'd'
    ensures forall x :: i + |count| < x < i + |count| + |dtype| ==> IsDigit(s[x])
  {
    var c, n := |count|, |dtype|;
    var w := s[i..j];
    assert forall x :: 0 <= x < c ==> s[i + x] == w[x] == count[x];
    assert forall x :: 0 <= x < n ==> s[i + c + x] == w[c + x] == dtype[x];
    forall x | i <= x < i + c ensures IsDigit(s[x]) {
      assert s[x] == s[i + (x - i)];
    }
    forall x | i + c < x < i + c + n ensures IsDigit(s[x]) {
      assert s[x] == s[i + c + (x - i - c)] == dtype[x - i - c] == dtype[1..][x - i - c - 1];
    }
    if j != i + c + n {
      assert s[j - 1] == w[c + n] == '+';
    }
  }

  /** The groups of a constant match are a digit run and its terminator, and they spell the
      matched text; the matcher's end consumes the terminating `+` only for Constants. */
  lemma ConstantMatchSound(p: Pattern, s: string, i: nat)
    requires p != Dice && i <= |s| && MatchAt(p, s, i).Some?
    ensures var m := MatchAt(p, s, i).value;
      var j := if m.second == "+" then m.end + (if p == Constants then 0 else 1) else m.end;
      ConstantSyntax(s, i, j, m.first)
      && (p == ConstantsLookahead ==> m.end == i + 1 + |m.first|)
  {
    var m := MatchAt(p, s, i).value;
    var k := DigitRunEnd(s, i + 1);
    DigitRun(s, i + 1);
    assert m.first == s[i + 1..k];
    if m.second == "+" {
      assert s[i..k + 1] == "+" + m.first + "+";
    } else {
      assert s[i..k] == "+" + m.first;
    }
  }

  /** Whenever the constant language matches at `i`, the matcher finds a match at `i` with
      the same digits; the constant language has at most one match at a position. */
  lemma ConstantMatchComplete(p: Pattern, s: string, i: nat, j: nat, digits: string)
    requires p != Dice && ConstantSyntax(s, i, j, digits)
    ensures MatchAt(p, s, i).Some? && MatchAt(p, s, i).value.first == digits
  {
    var n := |digits|;
    ConstantSyntaxChars(s, i, j, digits);
    var k := DigitRunEnd(s, i + 1);
    DigitRun(s, i + 1);
    assert k == i + 1 + n;
  }

  /** The characters a constant syntax match spells, one position at a time. */
  lemma ConstantSyntaxChars(s: string, i: nat, j: nat, digits: string)
    requires ConstantSyntax(s, i, j, digits)
    ensures i < |s| && s[i] == '+'
    ensures forall x :: i + 1 <= x < i + 1 + |digits| ==> IsDigit(s[x])
    ensures (j == |s| && j == i + 1 + |digits|) || (j == i + 2 + |digits| && s[j - 1] == '+')
    ensures i + 1 + |digits| <= |s| && s[i + 1..i + 1 + |digits|] == digits
  {
    var n := |digits|;
    var w := s[i..j];
    assert s[i] == w[0] == '+';
    assert forall x :: 0 <= x < n ==> s[i + 1 + x] == w[1 + x] == digits[x];
    forall x | i + 1 <= x < i + 1 + n ensures IsDigit(s[x]) {
      assert s[x] == s[i + 1 + (x - i - 1)];
    }
    if j != i + 1 + n {
      assert s[j - 1] == w[n + 1] == '+';
    }
    assert s[i + 1..i + 1 + n] == digits;
  }

  // ---------------------------------------------------------------------------------------
  // The scan

  /** Position `q` is inside one of the matches. */
  ghost predicate Covered(ms: seq<Match>, q: nat) {
    exists k :: 0 <= k < |ms| && ms[k].start <= q < ms[k].end
  }

  /** One of the matches starts at `q`. */
  ghost predicate Reported(ms: seq<Match>, q: nat) {
    exists k :: 0 <= k < |ms| && ms[k].start == q
  }

  /** `captures_iter` misses nothing: every position at which the pattern matches is the start
      of a reported match or lies inside one. With the ordering and soundness of FindIterSound
      this pins the scan down to the leftmost-first non-overlapping matches (FindIterUnique). */
  lemma {:induction false} FindIterComplete(p: Pattern, s: string, pos: nat, q: nat)
    requires pos <= q < |s| && MatchAt(p, s, q).Some?
    ensures Covered(FindIter(p, s, pos), q)
    decreases |s| - pos, 1
  {
    if MatchAt(p, s, pos).None? {
      CompleteSkip(p, s, pos, q);
    } else {
      CompleteTake(p, s, pos, q);
    }
  }

  /** The step of `FindIterComplete` at a position where nothing matches. */
  lemma {:induction false} CompleteSkip(p: Pattern, s: string, pos: nat, q: nat)
    requires pos <= q < |s| && MatchAt(p, s, q).Some? && MatchAt(p, s, pos).None?
    ensures Covered(FindIter(p, s, pos), q)
    decreases |s| - pos, 0
  {
    assert q != pos;
    FindIterSkip(p, s, pos);
    FindIterComplete(p, s, pos + 1, q);
  }

  /** The step of `FindIterComplete` at a position where the pattern matches. */
  lemma {:induction false} CompleteTake(p: Pattern, s: string, pos: nat, q: nat)
    requires pos <= q < |s| && MatchAt(p, s, q).Some? && MatchAt(p, s, pos).Some?
    ensures Covered(FindIter(p, s, pos), q)
    decreases |s| - pos, 0
  {
    var m := MatchAt(p, s, pos).value;
    var ms := FindIter(p, s, pos);
    var rest := FindIter(p, s, m.end);
    FindIterTake(p, s, pos);
    assert ms == [m] + rest;
    if q < m.end {
      assert ms[0].start <= q < ms[0].end;
    } else {
      FindIterComplete(p, s, m.end, q);
      var k :| 0 <= k < |rest| && rest[k].start <= q < rest[k].end;
      assert ms[k + 1] == rest[k];
      assert ms[k + 1].start <= q < ms[k + 1].end;
    }
  }

  /** One step of the scan at a position where the pattern does not match. */
  lemma FindIterSkip(p: Pattern, s: string, pos: nat)
    requires pos < |s| && MatchAt(p, s, pos).None?
    ensures FindIter(p, s, pos) == FindIter(p, s, pos + 1)
  {
  }

  /** The scan is the only sequence of real, ordered, non-overlapping matches past `pos`
      that leaves no match position uncovered: this characterises `captures_iter` without
      reference to how it proceeds. */
  lemma {:induction false} FindIterUnique(p: Pattern, s: string, pos: nat, ms: seq<Match>)
    requires pos <= |s| && ScanSound(p, s, pos, ms) && ScanComplete(p, s, pos, ms)
    ensures ms == FindIter(p, s, pos)
    decreases |s| - pos, 1
  {
    if pos == |s| {
      ScanNonEmpty(p, s, pos, ms);
    } else if MatchAt(p, s, pos).None? {
      UniqueSkip(p, s, pos, ms);
    } else {
      UniqueTake(p, s, pos, ms);
    }
  }

  /** The step of `FindIterUnique` at a position where nothing matches. */
  lemma {:induction false} UniqueSkip(p: Pattern, s: string, pos: nat, ms: seq<Match>)
    requires pos < |s| && MatchAt(p, s, pos).None?
    requires ScanSound(p, s, pos, ms) && ScanComplete(p, s, pos, ms)
    ensures ms == FindIter(p, s, pos)
    decreases |s| - pos, 0
  {
    UniqueNoMatch(p, s, pos, ms);
    FindIterUnique(p, s, pos + 1, ms);
  }

  /** The step of `FindIterUnique` at a position where the pattern matches. */
  lemma {:induction false} UniqueTake(p: Pattern, s: string, pos: nat, ms: seq<Match>)
    requires pos < |s| && MatchAt(p, s, pos).Some?
    requires ScanSound(p, s, pos, ms) && ScanComplete(p, s, pos, ms)
    ensures ms == FindIter(p, s, pos)
    decreases |s| - pos, 0
  {
    UniqueMatch(p, s, pos, ms);
    FindIterUnique(p, s, ms[0].end, ms[1..]);
    FindIterTake(p, s, pos);
    assert ms == [ms[0]] + ms[1..];
  }

  /** One step of the scan at a position where the pattern matches. */
  lemma FindIterTake(p: Pattern, s: string, pos: nat)
    requires pos < |s| && MatchAt(p, s, pos).Some?
    ensures FindIter(p, s, pos) == [MatchAt(p, s, pos).value] + FindIter(p, s, MatchAt(p, s, pos).value.end)
  {
  }

  /** A sound scan from `pos` reports something only if there is text left after `pos`. */
  lemma ScanNonEmpty(p: Pattern, s: string, pos: nat, ms: seq<Match>)
    requires ScanSound(p, s, pos, ms)
    ensures ms != [] ==> pos < |s|
  {
    if ms != [] {
      assert pos <= ms[0].start < ms[0].end <= |s|;
    }
  }

  /** No position in [pos, |s|) where the pattern matches is left uncovered by `ms`. */
  ghost predicate ScanComplete(p: Pattern, s: string, pos: nat, ms: seq<Match>) {
    forall q :: pos <= q < |s| && MatchAt(p, s, q).Some? ==> Covered(ms, q)
  }

  lemma UniqueNoMatch(p: Pattern, s: string, pos: nat, ms: seq<Match>)
    requires pos < |s| && MatchAt(p, s, pos).None?
    requires ScanSound(p, s, pos, ms) && ScanComplete(p, s, pos, ms)
    ensures ScanSound(p, s, pos + 1, ms) && ScanComplete(p, s, pos + 1, ms)
  {
    forall k | 0 <= k < |ms| ensures ms[k].start != pos {
      assert MatchAt(p, s, ms[k].start).Some?;
    }
  }

  lemma UniqueMatch(p: Pattern, s: string, pos: nat, ms: seq<Match>)
    requires pos < |s| && MatchAt(p, s, pos).Some?
    requires ScanSound(p, s, pos, ms) && ScanComplete(p, s, pos, ms)
    ensures ms != [] && ms[0] == MatchAt(p, s, pos).value && pos < ms[0].end <= |s|
    ensures ScanSound(p, s, ms[0].end, ms[1..]) && ScanComplete(p, s, ms[0].end, ms[1..])
  {
    assert Covered(ms, pos);
    var k :| 0 <= k < |ms| && ms[k].start <= pos < ms[k].end;
    assert ms[0].start <= ms[k].start;
    ScanTail(p, s, pos, ms);
    CompleteTail(p, s, pos, ms);
  }

  /** Dropping the first match of a sound scan leaves a sound scan from that match's end. */
  lemma ScanTail(p: Pattern, s: string, pos: nat, ms: seq<Match>)
    requires ms != [] && ScanSound(p, s, pos, ms)
    ensures ScanSound(p, s, ms[0].end, ms[1..])
  {
    assert forall j :: 0 <= j < |ms| - 1 ==> ms[1..][j] == ms[j + 1];
  }

  /** Positions past the first match are covered by the rest of a complete scan. */
  lemma CompleteTail(p: Pattern, s: string, pos: nat, ms: seq<Match>)
    requires ms != [] && ScanSound(p, s, pos, ms) && ScanComplete(p, s, pos, ms)
    ensures ScanComplete(p, s, ms[0].end, ms[1..])
  {
    var rest := ms[1..];
    forall q | ms[0].end <= q < |s| && MatchAt(p, s, q).Some? ensures Covered(rest, q) {
      assert Covered(ms, q);
      var j :| 0 <= j < |ms| && ms[j].start <= q < ms[j].end;
      assert j != 0;
      assert rest[j - 1] == ms[j];
    }
  }

  /** Where the pattern's first character never occurs, the scan finds nothing: no dice
      without a `d`, no constants without a `+`. */
  lemma {:induction false} FindIterNone(p: Pattern, s: string, pos: nat)
    requires pos <= |s|
    requires forall j :: pos <= j < |s| ==> s[j] != (if p == Dice then 'd' else '+')
    ensures FindIter(p, s, pos) == []
    decreases |s| - pos
  {
    if pos < |s| {
      assert MatchAt(p, s, pos).None? by {
        if p == Dice {
          var k := DigitRunEnd(s, pos);
          assert k < |s| ==> s[k] != 'd';
        }
      }
      FindIterNone(p, s, pos + 1);
    }
  }

  /** A constant pattern skips every position that holds no `+`. */
  lemma {:induction false} FindIterSkipAll(p: Pattern, s: string, i: nat, j: nat)
    requires p != Dice && i <= j <= |s|
    requires forall x :: i <= x < j ==> s[x] != '+'
    ensures FindIter(p, s, i) == FindIter(p, s, j)
    decreases j - i
  {
    if i < j {
      FindIterSkip(p, s, i);
      FindIterSkipAll(p, s, i + 1, j);
    }
  }

  /** The lookahead variant reports a match at every position where a constant starts: a `+`
      cannot lie inside another constant match, since those cover `+` and digits only. */
  lemma FindsEveryConstant(s: string, q: nat)
    requires q < |s| && MatchAt(ConstantsLookahead, s, q).Some?
    ensures Reported(FindIter(ConstantsLookahead, s, 0), q)
  {
    var ms := FindIter(ConstantsLookahead, s, 0);
    FindIterComplete(ConstantsLookahead, s, 0, q);
    var k :| 0 <= k < |ms| && ms[k].start <= q < ms[k].end;
    var i := ms[k].start;
    assert i <= |s| && MatchAt(ConstantsLookahead, s, i) == Some(ms[k]) by {
      FindIterSound(ConstantsLookahead, s, 0);
    }
    LookaheadMatchShape(s, i);
    LookaheadMatchShape(s, q);
    assert ms[k].start == q;
  }

  /** A lookahead constant match is a `+` followed only by digits. */
  lemma LookaheadMatchShape(s: string, i: nat)
    requires i <= |s| && MatchAt(ConstantsLookahead, s, i).Some?
    ensures s[i] == '+'
    ensures forall x :: i < x < MatchAt(ConstantsLookahead, s, i).value.end ==> IsDigit(s[x])
  {
    var k := DigitRunEnd(s, i + 1);
    DigitRun(s, i + 1);
    assert MatchAt(ConstantsLookahead, s, i).value.end == k;
  }
}
