/** How the two front ends relate. They share the hint and the record rule,
    and they count attempts alike as long as every integer typed is in
    [1, 100]; they differ on an out-of-range integer, which the console
    counts as an attempt (adivina_numero.py:167-172) and the window rejects
    before counting (adivina_numero_tk.py:212-216). */
module FrontEnds {
  import opened Common
  import opened Hints
  import opened Highscore
  import Gui
  import Console

  /** The window entry a console turn amounts to: an integer is typed into
      the field, and a turn that produced no integer is an empty field. */
  function AsEntry(t: Console.Turn): Gui.Entry {
    match t
    case Guess(n) => Gui.Integer(n)
    case Pass(_) => Gui.Blank
  }

  /** The window state after submitting turns[i..hi] one by one (the clock
      readings do not matter for the round itself and are set to zero). */
  function Feed(s: Gui.State, turns: seq<Console.Turn>, i: nat, hi: nat): Gui.State
    requires i <= hi <= |turns|
    decreases hi - i as int
  {
    if i == hi then s
    else Feed(Gui.Submit(s, AsEntry(turns[i]), 0.0, 0.0).0, turns, i + 1, hi)
  }

  /** Every integer typed is in [1, 100]. */
  predicate InRangeGuesses(turns: seq<Console.Turn>) {
    forall j :: 0 <= j < |turns| && turns[j].Guess? ==> InRange(turns[j].n)
  }

  /** When every integer typed is in range, a console round and a window
      round fed the same input from the same point agree: the window ends
      its round exactly when the console does, a console win after k attempts
      is a window round over after k attempts, an exhausted console round is
      a window round over at its limit, and a console quit leaves the window
      round running. Both count the same attempts throughout. */
  lemma {:induction false} AgreeOnInRangeInput(s: Gui.State, secret: int, turns: seq<Console.Turn>, i: nat)
    requires i <= |turns| && InRangeGuesses(turns)
    requires s.secret == Some(secret) && InRange(secret)
    requires s.limit.Some? ==> s.attempts < s.limit.value
    ensures var r := Console.PlayFrom(s.limit, secret, turns, i, s.attempts);
            var g := Feed(s, turns, i, r.1);
      && g.attempts == s.attempts + Console.Guesses(turns, i, r.1)
      && (r.0.Won? ==> g.secret.None? && g.attempts == r.0.attempts)
      && (r.0.Exhausted? ==> g.secret.None? && s.limit.Some? && g.attempts == s.limit.value)
      && (r.0.Quit? ==> g.secret == Some(secret))
    decreases |turns| - i
  {
    var r := Console.PlayFrom(s.limit, secret, turns, i, s.attempts);
    if i < |turns| {
      var next := Gui.Submit(s, AsEntry(turns[i]), 0.0, 0.0).0;
      assert Feed(s, turns, i, r.1) == Feed(next, turns, i + 1, r.1);
      Console.GuessesSplit(turns, i, r.1);
      match turns[i]
      case Pass(quit) =>
        if !quit {
          AgreeOnInRangeInput(s, secret, turns, i + 1);
        }
      case Guess(n) =>
        if n != secret && !(s.limit.Some? && s.attempts + 1 >= s.limit.value) {
          AgreeOnInRangeInput(next, secret, turns, i + 1);
        }
    }
  }

  /** The one place the front ends part: an out-of-range integer in a
      running round leaves the window's state as it was, while the console
      moves on to the next turn with one more attempt counted. */
  lemma OutOfRangeDiffers(s: Gui.State, secret: int, turns: seq<Console.Turn>, i: nat, seconds: real, now: real)
    requires i < |turns| && turns[i].Guess? && !InRange(turns[i].n)
    requires s.secret == Some(secret)
    requires s.limit.Some? ==> s.attempts < s.limit.value
    ensures Gui.Submit(s, AsEntry(turns[i]), seconds, now) == (s, Gui.OutOfRange)
    ensures Console.PlayFrom(s.limit, secret, turns, i, s.attempts)
         == Console.PlayFrom(s.limit, secret, turns, i + 1, s.attempts + 1)
  {
  }

  /** On the hard level (five attempts), five guesses of 0 followed by the
      secret lose the console round but win the window round at its first
      counted attempt. */
  lemma HardLevelOutOfRangeExample(secret: int)
    requires InRange(secret)
    ensures var turns := [Console.Guess(0), Console.Guess(0), Console.Guess(0), Console.Guess(0), Console.Guess(0), Console.Guess(secret)];
      && Console.PlayFrom(Gui.LimitFor("3"), secret, turns, 0, 0) == (Console.Exhausted, 5)
      && Feed(Gui.Start(Gui.Initial(None), "3", secret), turns, 0, 6).secret.None?
      && Feed(Gui.Start(Gui.Initial(None), "3", secret), turns, 0, 6).attempts == 1
  {
    var turns := [Console.Guess(0), Console.Guess(0), Console.Guess(0), Console.Guess(0), Console.Guess(0), Console.Guess(secret)];
    var limit := Gui.LimitFor("3");
    assert limit == Some(5);
    assert Console.PlayFrom(limit, secret, turns, 4, 4) == Console.PlayFrom(limit, secret, turns, 5, 5);
    assert Console.PlayFrom(limit, secret, turns, 3, 3) == Console.PlayFrom(limit, secret, turns, 4, 4);
    assert Console.PlayFrom(limit, secret, turns, 2, 2) == Console.PlayFrom(limit, secret, turns, 3, 3);
    assert Console.PlayFrom(limit, secret, turns, 1, 1) == Console.PlayFrom(limit, secret, turns, 2, 2);
    assert Console.PlayFrom(limit, secret, turns, 0, 0) == Console.PlayFrom(limit, secret, turns, 1, 1);
    var s := Gui.Start(Gui.Initial(None), "3", secret);
    assert Feed(s, turns, 5, 6).attempts == 1;
    assert Feed(s, turns, 4, 6) == Feed(s, turns, 5, 6);
    assert Feed(s, turns, 3, 6) == Feed(s, turns, 4, 6);
    assert Feed(s, turns, 2, 6) == Feed(s, turns, 3, 6);
    assert Feed(s, turns, 1, 6) == Feed(s, turns, 2, 6);
    assert Feed(s, turns, 0, 6) == Feed(s, turns, 1, 6);
  }
}
