/** The console front end (adivina_numero.py): the difficulty menu, the round
    loop and the replay question, each reading its answers from a sequence
    that stands for what the player types. Printing is not modelled. */
module Console {
  import opened Common
  import opened Hints
  import opened Highscore

  /** The difficulty menu (opciones): "1" unlimited, "2" ten attempts,
      "3" five attempts; any other key is not on the menu. */
  function MenuLimit(key: string): (r: Option<Option<nat>>)
    ensures r.Some? <==> key == "1" || key == "2" || key == "3"
    ensures r == Some(None) <==> key == "1"
    ensures r == Some(Some(10)) <==> key == "2"
    ensures r == Some(Some(5)) <==> key == "3"
  {
    if key == "1" then Some(None)
    else if key == "2" then Some(Some(10))
    else if key == "3" then Some(Some(5))
    else None
  }

  /** How the menu reads one answer: strip() it and look the key up. */
  function MenuAnswer(answer: string): (r: Option<Option<nat>>)
    ensures r.Some? <==> Strip(answer) in {"1", "2", "3"}
  {
    MenuLimit(Strip(answer))
  }

  /** elegir_dificultad: reads answers until one, once stripped, is a menu
      key, and returns that key's limit and how many answers it read. When
      the answers run out first, no difficulty is chosen (None). */
  method ChooseDifficulty(answers: seq<string>) returns (choice: Option<Option<nat>>, used: nat)
    ensures used <= |answers|
    ensures choice.Some? ==> 0 < used && MenuAnswer(answers[used - 1]) == choice
    ensures choice.None? ==> used == |answers|
    ensures forall j :: 0 <= j < used && !(choice.Some? && j == used - 1) ==> MenuAnswer(answers[j]).None?
  {
    used := 0;
    while used < |answers|
      invariant used <= |answers|
      invariant forall j :: 0 <= j < used ==> MenuAnswer(answers[j]).None?
    {
      choice := MenuAnswer(answers[used]);
      used := used + 1;
      if choice.Some? {
        return;
      }
    }
    choice := None;
  }

  /** How the replay question reads one answer: a yes, a no, or neither. */
  function ReplayAnswer(answer: string): (v: Option<bool>)
    ensures v == Some(true) <==> IsYes(answer)
    ensures v == Some(false) <==> IsNo(answer)
  {
    YesExcludesNo(answer);
    if IsYes(answer) then Some(true) else if IsNo(answer) then Some(false) else None
  }

  /** confirmar_repetir: reads answers until one is a yes (s, si, y, yes) or
      a no (n, no), after strip() and lower(); True for yes, False for no.
      When the answers run out first, there is no decision (None). */
  method ConfirmReplay(answers: seq<string>) returns (again: Option<bool>, used: nat)
    ensures used <= |answers|
    ensures again.Some? ==> 0 < used && ReplayAnswer(answers[used - 1]) == again
    ensures again.None? ==> used == |answers|
    ensures forall j :: 0 <= j < used && !(again.Some? && j == used - 1) ==> ReplayAnswer(answers[j]).None?
  {
    used := 0;
    while used < |answers|
      invariant used <= |answers|
      invariant forall j :: 0 <= j < used ==> ReplayAnswer(answers[j]).None?
    {
      again := ReplayAnswer(answers[used]);
      used := used + 1;
      if again.Some? {
        return;
      }
    }
    again := None;
  }

  /** One pass of the round loop's input: pedir_entero gave an integer, or it
      gave None (blank line, text int() refuses, Ctrl+C or end of input) and
      `quit` says whether the answer to "¿Quieres salir del juego?" was a yes. */
  datatype Turn = Guess(n: int) | Pass(quit: bool)

  /** The turn made of pedir_entero's result and, when that is None, the
      answer typed to the quit question. */
  function ReadTurn(entry: Option<int>, reply: string): (t: Turn)
    ensures entry.Some? ==> t == Guess(entry.value)
    ensures entry.None? ==> t == Pass(IsYes(reply))
  {
    match entry
    case Some(n) => Guess(n)
    case None => Pass(IsYes(reply))
  }

  /** How jugar_una_partida ends: the secret found after `attempts` attempts,
      the limit used up, or the player asked to leave (or ran out of input). */
  datatype RoundEnd = Won(attempts: nat) | Exhausted | Quit

  /** A turn that ends the round: the secret typed in range, or a yes to the
      quit question. */
  predicate Ends(t: Turn, secret: int) {
    (t.Guess? && InRange(t.n) && t.n == secret) || (t.Pass? && t.quit)
  }

  /** A turn read from the player ends the round exactly when pedir_entero
      gave the secret (in range) or gave None and the quit answer was a yes. */
  lemma ReadTurnEnds(entry: Option<int>, reply: string, secret: int)
    ensures Ends(ReadTurn(entry, reply), secret)
        <==> (entry == Some(secret) && InRange(secret)) || (entry.None? && IsYes(reply))
  {
  }

  /** The number of integer guesses among turns[from..hi]. */
  function Guesses(turns: seq<Turn>, from: nat, hi: nat): (k: nat)
    requires from <= hi <= |turns|
    ensures k <= hi - from
    decreases hi
  {
    if from == hi then 0
    else (if turns[hi - 1].Guess? then 1 else 0) + Guesses(turns, from, hi - 1)
  }

  /** The round loop from turn i with `attempts` already counted, as the
      source runs it: the limit is checked first, a None that is not a yes
      costs nothing, and every integer costs an attempt before the range is
      checked. Gives how the round ends and the index after the last turn read. */
  function PlayFrom(limit: Option<nat>, secret: int, turns: seq<Turn>, i: nat, attempts: nat): (r: (RoundEnd, nat))
    requires i <= |turns|
    ensures i <= r.1 <= |turns|
    decreases |turns| - i
  {
    if limit.Some? && attempts >= limit.value then (Exhausted, i)
    else if i == |turns| then (Quit, i)
    else match turns[i]
      case Pass(quit) =>
        if quit then (Quit, i + 1)
        else PlayFrom(limit, secret, turns, i + 1, attempts)
      case Guess(n) =>
        if InRange(n) && n == secret then (Won(attempts + 1), i + 1)
        else PlayFrom(limit, secret, turns, i + 1, attempts + 1)
  }

  /** jugar_una_partida with the drawn `secret`, the player's `turns`, the
      record `store` as loaded from disk, and the clock readings `seconds`
      and `now` for the record. On a win the record goes through
      actualizar_highscore_si_corresponde; otherwise it is untouched. */
  method PlayRound(limit: Option<nat>, secret: int, turns: seq<Turn>, store: Store, seconds: real, now: real)
    returns (end: RoundEnd, used: nat, stored: Store)
    requires InRange(secret)
    ensures (end, used) == PlayFrom(limit, secret, turns, 0, 0)
    ensures stored == if end.Won? then Update(store, end.attempts, seconds, now).0 else store
  {
    var attempts: nat := 0;
    var i: nat := 0;
    stored := store;
    while true
      invariant i <= |turns|
      invariant stored == store
      invariant PlayFrom(limit, secret, turns, i, attempts) == PlayFrom(limit, secret, turns, 0, 0)
      decreases |turns| - i
    {
      if limit.Some? && attempts >= limit.value {
        end, used := Exhausted, i;
        break;
      }
      if i == |turns| {
        end, used := Quit, i;
        break;
      }
      var entrada := turns[i];
      i := i + 1;
      if entrada.Pass? {
        if entrada.quit {
          end, used := Quit, i;
          break;
        }
        continue;
      }
      var intento := entrada.n;
      attempts := attempts + 1;
      if intento < MinValue || intento > MaxValue {
        continue;
      }
      if intento < secret || intento > secret {
        continue;
      }
      end, used := Won(attempts), i;
      stored := Update(store, attempts, seconds, now).0;
      break;
    }
  }

  /** What the round loop promises about the turns it reads, from turn i on
      with `attempts` counted:
      - every turn read before the last one let the round go on;
      - an Exhausted round read no turn that ends it;
      - a Quit is a yes to the quit question or the end of the input. */
  lemma {:induction false} PlayFromFacts(limit: Option<nat>, secret: int, turns: seq<Turn>, i: nat, attempts: nat)
    requires i <= |turns|
    ensures var end, used := PlayFrom(limit, secret, turns, i, attempts).0, PlayFrom(limit, secret, turns, i, attempts).1;
      && (forall j :: i <= j < used - 1 ==> !Ends(turns[j], secret))
      && (end.Exhausted? ==> forall j :: i <= j < used ==> !Ends(turns[j], secret))
      && (end.Quit? ==> (i < used && turns[used - 1] == Pass(true))
                        || (used == |turns| && forall j :: i <= j < used ==> !Ends(turns[j], secret)))
    decreases |turns| - i
  {
    if limit.Some? && attempts >= limit.value {
    } else if i == |turns| {
    } else {
      match turns[i]
      case Pass(quit) =>
        if !quit {
          PlayFromFacts(limit, secret, turns, i + 1, attempts);
        }
      case Guess(n) =>
        if !(InRange(n) && n == secret) {
          PlayFromFacts(limit, secret, turns, i + 1, attempts + 1);
        }
    }
  }

  /** A win is the last turn read being the secret, typed in range, with the
      attempts equal to the number of integers read, out-of-range ones
      included. */
  lemma {:induction false} PlayFromWin(limit: Option<nat>, secret: int, turns: seq<Turn>, i: nat, attempts: nat)
    requires i <= |turns|
    ensures var end, used := PlayFrom(limit, secret, turns, i, attempts).0, PlayFrom(limit, secret, turns, i, attempts).1;
      end.Won? ==> i < used && turns[used - 1] == Guess(secret) && InRange(secret)
                   && end.attempts == attempts + Guesses(turns, i, used)
    decreases |turns| - i
  {
    if limit.Some? && attempts >= limit.value {
    } else if i == |turns| {
    } else {
      var used := PlayFrom(limit, secret, turns, i, attempts).1;
      match turns[i]
      case Pass(quit) =>
        if !quit {
          PlayFromWin(limit, secret, turns, i + 1, attempts);
          GuessesSplit(turns, i, used);
        }
      case Guess(n) =>
        if InRange(n) && n == secret {
          assert Guesses(turns, i, i + 1) == 1;
        } else {
          PlayFromWin(limit, secret, turns, i + 1, attempts + 1);
          GuessesSplit(turns, i, used);
        }
    }
  }

  /** How the limit bounds the round: the attempts counted never go past
      it, the round ends as Exhausted only once they reach it, and it stops
      as soon as they do. It ends as Exhausted either at once (the limit was
      already reached at turn i) or right after the guess that used the last
      attempt, and a Quit always comes with attempts left. */
  lemma {:induction false} PlayFromStopsAtLimit(limit: Option<nat>, secret: int, turns: seq<Turn>, i: nat, attempts: nat)
    requires i <= |turns|
    ensures var end, used := PlayFrom(limit, secret, turns, i, attempts).0, PlayFrom(limit, secret, turns, i, attempts).1;
      && (limit.Some? && attempts <= limit.value ==> attempts + Guesses(turns, i, used) <= limit.value)
      && (end.Exhausted? ==> limit.Some? && attempts + Guesses(turns, i, used) >= limit.value)
      && (end.Quit? && limit.Some? ==> attempts + Guesses(turns, i, used) < limit.value)
      && (end.Exhausted? ==> limit.Some? && (used == i || (turns[used - 1].Guess?
                             && attempts + Guesses(turns, i, used - 1) < limit.value)))
    decreases |turns| - i
  {
    if limit.Some? && attempts >= limit.value {
    } else if i == |turns| {
    } else {
      var used := PlayFrom(limit, secret, turns, i, attempts).1;
      match turns[i]
      case Pass(quit) =>
        if !quit {
          PlayFromStopsAtLimit(limit, secret, turns, i + 1, attempts);
          GuessesSplit(turns, i, used);
          if i + 1 < used {
            GuessesSplit(turns, i, used - 1);
          }
        }
      case Guess(n) =>
        if !(InRange(n) && n == secret) {
          PlayFromStopsAtLimit(limit, secret, turns, i + 1, attempts + 1);
          GuessesSplit(turns, i, used);
          if i + 1 < used {
            GuessesSplit(turns, i, used - 1);
          }
        }
    }
  }

  /** Counting the guesses from i is counting turn i and then the rest. */
  lemma {:induction false} GuessesSplit(turns: seq<Turn>, i: nat, hi: nat)
    requires i < hi <= |turns|
    ensures Guesses(turns, i, hi) == (if turns[i].Guess? then 1 else 0) + Guesses(turns, i + 1, hi)
    decreases hi
  {
    if hi > i + 1 {
      GuessesSplit(turns, i, hi - 1);
    }
  }

  /** A blank or invalid entry followed by "don't quit" costs no attempt. */
  lemma PassIsFree(limit: Option<nat>, secret: int, turns: seq<Turn>, i: nat, attempts: nat)
    requires i < |turns| && turns[i] == Pass(false)
    requires limit.Some? ==> attempts < limit.value
    ensures PlayFrom(limit, secret, turns, i, attempts) == PlayFrom(limit, secret, turns, i + 1, attempts)
  {
  }

  /** An integer outside [1, 100] is rejected but still costs an attempt. */
  lemma OutOfRangeCosts(limit: Option<nat>, secret: int, turns: seq<Turn>, i: nat, attempts: nat)
    requires i < |turns| && turns[i].Guess? && !InRange(turns[i].n)
    requires limit.Some? ==> attempts < limit.value
    ensures PlayFrom(limit, secret, turns, i, attempts) == PlayFrom(limit, secret, turns, i + 1, attempts + 1)
  {
  }

  /** Without a limit a round never ends as Exhausted. */
  lemma {:induction false} UnlimitedNeverExhausted(secret: int, turns: seq<Turn>, i: nat, attempts: nat)
    requires i <= |turns|
    ensures !PlayFrom(None, secret, turns, i, attempts).0.Exhausted?
    decreases |turns| - i
  {
    if i < |turns| {
      UnlimitedNeverExhausted(secret, turns, i + 1, attempts);
      UnlimitedNeverExhausted(secret, turns, i + 1, attempts + 1);
    }
  }
}
