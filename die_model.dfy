/** The supported polyhedral dice: the `Dice` enum, its `From<&str>` token mapping and the
    outcome range of its `From<Dice> for i32` draw. */
module DieModel {
  import opened Results
  import opened Digits

  datatype Die = D4 | D6 | D8 | D10 | D12 | D20 | D100

  /** The token a die is written with in the notation. */
  function Token(d: Die): string {
    match d
    case D4 => "d4"
    case D6 => "d6"
    case D8 => "d8"
    case D10 => "d10"
    case D12 => "d12"
    case D20 => "d20"
    case D100 => "d100"
  }

  /** `Dice::from(&str)`; the `unreachable!()` arm becomes an `UnrecognizedDie` error. */
  function FromToken(s: string): (r: Result<Die>)
    ensures r.Ok? ==> Token(r.value) == s
    ensures r.Err? ==> r.error == UnrecognizedDie(s) && forall d: Die :: Token(d) != s
  {
    if s == "d4" then Ok(D4)
    else if s == "d6" then Ok(D6)
    else if s == "d8" then Ok(D8)
    else if s == "d10" then Ok(D10)
    else if s == "d12" then Ok(D12)
    else if s == "d20" then Ok(D20)
    else if s == "d100" then Ok(D100)
    else Err(UnrecognizedDie(s))
  }

  /** Every die's token maps back to that die, so the mapping is one-to-one. */
  lemma TokenRoundTrip(d: Die)
    ensures FromToken(Token(d)) == Ok(d)
  {
  }

  /** The number of faces of a die. */
  function Sides(d: Die): nat {
    match d
    case D4 => 4
    case D6 => 6
    case D8 => 8
    case D10 => 10
    case D12 => 12
    case D20 => 20
    case D100 => 100
  }

  /** The arguments of the die's `rng.gen_range(low, high)` call: a half-open range. */
  function GenRange(d: Die): (int, int) {
    match d
    case D4 => (1, 5)
    case D6 => (1, 7)
    case D8 => (1, 9)
    case D10 => (1, 11)
    case D12 => (1, 13)
    case D20 => (1, 21)
    case D100 => (1, 101)
  }

  /** `o` is a value the die's draw can produce: `gen_range(low, high)` yields
      `low <= o < high`. */
  predicate IsOutcome(d: Die, o: int) {
    GenRange(d).0 <= o < GenRange(d).1
  }

  /** The half-open draw range is the inclusive range 1..=sides, both ends attainable, and
      the sides are one of the seven supported counts. */
  lemma OutcomeRange(d: Die, o: int)
    ensures IsOutcome(d, o) <==> 1 <= o <= Sides(d)
    ensures IsOutcome(d, 1) && IsOutcome(d, Sides(d))
    ensures Sides(d) in {4, 6, 8, 10, 12, 20, 100}
  {
  }

  /** The digits of a die's token after the `d` spell its number of sides. */
  lemma TokenNamesSides(d: Die)
    ensures |Token(d)| >= 2 && Token(d)[0] == 'd' && IsDigitRun(Token(d)[1..])
    ensures DigitsValue(Token(d)[1..]) == Sides(d)
  {
    match d
    case D4 => assert Token(d)[1..] == "4";
    case D6 => assert Token(d)[1..] == "6";
    case D8 => assert Token(d)[1..] == "8";
    case D10 => assert Token(d)[1..] == "10" && "10"[..1] == "1";
    case D12 => assert Token(d)[1..] == "12" && "12"[..1] == "1";
    case D20 => assert Token(d)[1..] == "20" && "20"[..1] == "2";
    case D100 => assert Token(d)[1..] == "100" && "100"[..2] == "10" && "10"[..1] == "1";
  }
}
