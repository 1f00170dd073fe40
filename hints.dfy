/** The proximity hint both front ends give after a guess (evaluar_pista),
    and the direction ("too low" / "too high") that accompanies it. */
module Hints {
  import opened Common

  /** The five labels, from closest to farthest. */
  datatype Proximity = Exact | VeryClose | Close | SomewhatFar | VeryFar

  /** Position of a label on the closeness scale: 0 is closest. */
  function Rank(p: Proximity): nat {
    match p
    case Exact => 0
    case VeryClose => 1
    case Close => 2
    case SomewhatFar => 3
    case VeryFar => 4
  }

  /** evaluar_pista: a function of |guess - secret| alone, with the thresholds
      0, 2, 7 and 20. Exact is given for the secret itself and nothing else. */
  function Classify(guess: int, secret: int): (p: Proximity)
    ensures p == Exact <==> guess == secret
  {
    var diff := Abs(guess - secret);
    if diff == 0 then Exact
    else if diff <= 2 then VeryClose
    else if diff <= 7 then Close
    else if diff <= 20 then SomewhatFar
    else VeryFar
  }

  /** The text each label is shown as. */
  function Message(p: Proximity): string {
    match p
    case Exact => "\U{A1}Exacto!"
    case VeryClose => "\U{A1}Muy cerca! \U{1F525}"
    case Close => "Cerca \U{2014} sigue as\U{ED}."
    case SomewhatFar => "Algo lejos."
    case VeryFar => "Muy lejos."
  }

  /** The five labels are shown as five different texts. */
  lemma MessageInjective(p: Proximity, q: Proximity)
    requires Message(p) == Message(q)
    ensures p == q
  {
  }

  /** The band each distance falls in: 0 is Exact, 1..2 VeryClose, 3..7 Close,
      8..20 SomewhatFar, above 20 VeryFar. */
  lemma ClassifyBands(guess: int, secret: int)
    ensures var d := Abs(guess - secret);
      && (Classify(guess, secret) == Exact <==> d == 0)
      && (Classify(guess, secret) == VeryClose <==> 1 <= d <= 2)
      && (Classify(guess, secret) == Close <==> 3 <= d <= 7)
      && (Classify(guess, secret) == SomewhatFar <==> 8 <= d <= 20)
      && (Classify(guess, secret) == VeryFar <==> d > 20)
  {
  }

  /** Swapping the guess and the secret does not change the label. */
  lemma ClassifySymmetric(a: int, b: int)
    ensures Classify(a, b) == Classify(b, a)
  {
    assert Abs(a - b) == Abs(b - a);
  }

  /** A guess at least as far from the secret never gets a closer label. */
  lemma ClassifyMonotone(near: int, far: int, secret: int)
    requires Abs(near - secret) <= Abs(far - secret)
    ensures Rank(Classify(near, secret)) <= Rank(Classify(far, secret))
  {
  }

  /** Which side of the secret a guess falls on. */
  datatype Direction = TooLow | TooHigh | Hit

  /** The comparison both front ends make before showing the hint. */
  function Compare(guess: int, secret: int): (d: Direction)
    ensures d == Hit <==> Classify(guess, secret) == Exact
    ensures d == TooLow <==> guess < secret
  {
    if guess < secret then TooLow else if guess > secret then TooHigh else Hit
  }
}
