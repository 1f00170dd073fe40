/** The game state of the Tkinter front end (class AdivinaGUI): the secret of
    the current round, the attempts used, the attempt limit and the loaded
    best-score record. Widgets, colours, dialogs and the elapsed-time label
    are not modelled; what the window shows after a guess is a Reply value. */
module Gui {
  import opened Common
  import opened Hints
  import opened Highscore

  /** The text of the entry field after strip(), as int() reads it. */
  datatype Entry = Blank | NotInteger | Integer(n: int)

  /** An entry that enviar_intento counts: an integer in [1, 100]. */
  predicate Counts(e: Entry) {
    e.Integer? && InRange(e.n)
  }

  /** What the window shows after "Probar". */
  datatype Reply =
    | StartFirst                         // no round: "Pulsa 'Nueva partida'"
    | AskForNumber                       // empty entry
    | NotANumber                         // int() refused the text
    | OutOfRange                         // integer outside [1, 100]
    | Low(p: Proximity)                  // "Demasiado bajo." and the hint
    | High(p: Proximity)                 // "Demasiado alto." and the hint
    | OutOfAttempts                      // the limit was reached on a miss
    | Won(attempts: nat, newRecord: bool)

  /** The attempt limit for the selected difficulty radio value: "1" is
      unlimited, "2" is 10, and every other value is 5. */
  function LimitFor(difficulty: string): (r: Option<nat>)
    ensures r == None <==> difficulty == "1"
    ensures r == Some(10) <==> difficulty == "2"
    ensures r == None || r == Some(10) || r == Some(5)
  {
    if difficulty == "1" then None
    else if difficulty == "2" then Some(10)
    else Some(5)
  }

  /** The game fields of AdivinaGUI; secret == None means no round is running. */
  datatype State = State(secret: Option<int>, attempts: nat, limit: Option<nat>, best: Store)

  /** What the window keeps true: a running secret is in range, a limit is
      positive and never exceeded, and a running round has attempts left. */
  predicate Consistent(s: State) {
    && (s.secret.Some? ==> InRange(s.secret.value))
    && (s.limit.Some? ==> 0 < s.limit.value && s.attempts <= s.limit.value)
    && (s.secret.Some? && s.limit.Some? ==> s.attempts < s.limit.value)
  }

  /** The state when the window opens, with the record loaded from disk. */
  function Initial(loaded: Store): (s: State)
    ensures s.secret.None? && s.attempts == 0 && s.best == loaded
    ensures Consistent(s)
  {
    State(None, 0, None, loaded)
  }

  /** nueva_partida with the random draw `drawn`: a new round with no
      attempts used and the difficulty's limit; the record is untouched. */
  function Start(s: State, difficulty: string, drawn: int): (r: State)
    requires InRange(drawn)
    ensures r.secret == Some(drawn) && r.attempts == 0
    ensures r.limit == LimitFor(difficulty) && r.best == s.best
    ensures Consistent(r)
  {
    State(Some(drawn), 0, LimitFor(difficulty), s.best)
  }

  /** _on_victory: the round ends, and the record is replaced by one holding
      this win exactly when the shared rule of the Highscore module says so. */
  function Victory(s: State, seconds: real, now: real): (r: (State, bool))
    ensures r.0.secret.None? && r.0.attempts == s.attempts && r.0.limit == s.limit
    ensures (r.0.best, r.1) == Update(s.best, s.attempts, seconds, now)
  {
    SaveRulesAgree(s.best, s.attempts);
    var save := GuiSaves(s.best, s.attempts);
    (s.(secret := None, best := if save then Some(NewRecord(s.attempts, seconds, now)) else s.best), save)
  }

  /** enviar_intento on the state s and the entry e, `seconds` on the round's
      clock and `now` the wall-clock time (both used only for the record). */
  function Submit(s: State, e: Entry, seconds: real, now: real): (r: (State, Reply))
    // no round running: nothing changes
    ensures s.secret.None? ==> r == (s, StartFirst)
    // empty, non-integer or out-of-range entries change nothing
    ensures !Counts(e) ==> r.0 == s
    // a counted guess in a running round uses exactly one attempt
    ensures s.secret.Some? && Counts(e) ==> r.0.attempts == s.attempts + 1 && r.0.limit == s.limit
    // the right number wins, even on the last attempt, and ends the round
    ensures s.secret.Some? && Counts(e) && e.n == s.secret.value ==>
      && r.0.secret.None?
      && r.1 == Won(s.attempts + 1, Update(s.best, s.attempts + 1, seconds, now).1)
      && r.0.best == Update(s.best, s.attempts + 1, seconds, now).0
    // a miss ends the round exactly when it reaches the limit
    ensures s.secret.Some? && Counts(e) && e.n != s.secret.value ==>
      && r.0.best == s.best
      && (r.0.secret.None? <==> s.limit.Some? && s.attempts + 1 >= s.limit.value)
      && (r.0.secret.Some? ==> r.0.secret == s.secret && r.1 == if e.n < s.secret.value then Low(Classify(e.n, s.secret.value)) else High(Classify(e.n, s.secret.value)))
      && (r.0.secret.None? ==> r.1 == OutOfAttempts)
    // without a limit a round ends only by winning
    ensures s.secret.Some? && s.limit.None? && r.0.secret.None? ==> r.1.Won?
    ensures Consistent(s) ==> Consistent(r.0)
  {
    match s.secret
    case None => (s, StartFirst)
    case Some(secret) =>
      match e
      case Blank => (s, AskForNumber)
      case NotInteger => (s, NotANumber)
      case Integer(n) =>
        if !InRange(n) then (s, OutOfRange)
        else
          var counted := s.(attempts := s.attempts + 1);
          var hint := Classify(n, secret);
          var direction := Compare(n, secret);
          if direction == Hit then
            var v := Victory(counted, seconds, now);
            (v.0, Won(counted.attempts, v.1))
          else if counted.limit.Some? && counted.attempts >= counted.limit.value then
            (counted.(secret := None), OutOfAttempts)
          else
            (counted, if direction == TooLow then Low(hint) else High(hint))
  }

  /** The hint is shown only with a miss, so the window never shows the
      Exact label ("¡Exacto!"); a hit is answered with Won instead. */
  lemma NeverShowsExact(s: State, e: Entry, seconds: real, now: real)
    ensures var r := Submit(s, e, seconds, now).1;
      (r.Low? ==> r.p != Exact) && (r.High? ==> r.p != Exact)
  {
  }

  /** What the player does in the window: press "Nueva partida" (with the
      number the draw gave) or submit the entry. */
  datatype Event =
    | NewGame(difficulty: string, drawn: int)
    | Try(entry: Entry, seconds: real, now: real)

  /** Every draw lies in [1, 100], as random.randint(1, 100) guarantees. */
  predicate WellDrawn(events: seq<Event>) {
    forall i :: 0 <= i < |events| && events[i].NewGame? ==> InRange(events[i].drawn)
  }

  /** The state after one event. */
  function Step(s: State, ev: Event): State
    requires ev.NewGame? ==> InRange(ev.drawn)
  {
    match ev
    case NewGame(d, drawn) => Start(s, d, drawn)
    case Try(e, secs, t) => Submit(s, e, secs, t).0
  }

  /** The state after a series of events. */
  function Run(s: State, events: seq<Event>): State
    requires WellDrawn(events)
    decreases |events|
  {
    if events == [] then s else Run(Step(s, events[0]), events[1..])
  }

  /** Whatever the player does, the window keeps its invariant; in particular
      a limited round never uses more attempts than its limit. */
  lemma {:induction false} RunConsistent(s: State, events: seq<Event>)
    requires Consistent(s) && WellDrawn(events)
    ensures Consistent(Run(s, events))
    ensures Run(s, events).limit.Some? ==> Run(s, events).attempts <= Run(s, events).limit.value
    decreases |events|
  {
    if events != [] {
      RunConsistent(Step(s, events[0]), events[1..]);
    }
  }

  /** A series of submissions only, with no "Nueva partida" in between. */
  predicate OnlyTries(events: seq<Event>) {
    forall i :: 0 <= i < |events| ==> events[i].Try?
  }

  /** Once a round is over (won or out of attempts), submissions change
      nothing until a new round is started. */
  lemma {:induction false} FinishedRoundIsStable(s: State, events: seq<Event>)
    requires s.secret.None? && OnlyTries(events) && WellDrawn(events)
    ensures Run(s, events) == s
    decreases |events|
  {
    if events != [] {
      assert Run(s, events) == Run(s, events[1..]);
      FinishedRoundIsStable(s, events[1..]);
    }
  }

  /** A round on the easy level with the secret 42 and the guesses 50, 25
      and 42: 50 is 8 too high and 25 is 17 too low, both "Algo lejos.",
      and 42 wins at the third attempt and sets the first record. */
  lemma SecretFortyTwoExample(seconds: real, now: real)
    ensures var s0 := Start(Initial(None), "1", 42);
            var r1 := Submit(s0, Integer(50), seconds, now);
            var r2 := Submit(r1.0, Integer(25), seconds, now);
            var r3 := Submit(r2.0, Integer(42), seconds, now);
      && r1.1 == High(SomewhatFar) && r2.1 == Low(SomewhatFar) && r3.1 == Won(3, true)
      && r3.0.secret.None? && r3.0.best == Some(NewRecord(3, seconds, now))
  {
  }

  /** On the hard level (five attempts) with the secret 7, five misses end
      the round: the fifth one shows that the attempts are used up. */
  lemma HardLevelFiveMissesExample(seconds: real, now: real)
    ensures var s0 := Start(Initial(None), "3", 7);
            var r1 := Submit(s0, Integer(1), seconds, now);
            var r2 := Submit(r1.0, Integer(2), seconds, now);
            var r3 := Submit(r2.0, Integer(3), seconds, now);
            var r4 := Submit(r3.0, Integer(4), seconds, now);
            var r5 := Submit(r4.0, Integer(5), seconds, now);
      && r4.0.secret == Some(7) && r4.0.attempts == 4
      && r5.1 == OutOfAttempts && r5.0.secret.None? && r5.0.attempts == 5 && r5.0.best == None
  {
  }

  /** The window's game state, updated in place as AdivinaGUI does. */
  class Game {
    var secret: Option<int>
    var attempts: nat
    var limit: Option<nat>
    var best: Store

    function Snapshot(): State
      reads this
    {
      State(secret, attempts, limit, best)
    }

    ghost predicate Valid()
      reads this
    {
      Consistent(Snapshot())
    }

    /** __init__: no round, no attempts, the record as loaded. */
    constructor (loaded: Store)
      ensures Snapshot() == Initial(loaded) && Valid()
    {
      secret := None;
      attempts := 0;
      limit := None;
      best := loaded;
    }

    /** nueva_partida, with `drawn` the result of random.randint(1, 100). */
    method NewRound(difficulty: string, drawn: int)
      requires InRange(drawn)
      modifies this
      ensures Snapshot() == Start(old(Snapshot()), difficulty, drawn)
      ensures Valid()
    {
      if difficulty == "1" {
        limit := None;
      } else if difficulty == "2" {
        limit := Some(10);
      } else {
        limit := Some(5);
      }
      secret := Some(drawn);
      attempts := 0;
    }

    /** enviar_intento. */
    method SubmitGuess(entry: Entry, seconds: real, now: real) returns (reply: Reply)
      modifies this
      ensures (Snapshot(), reply) == Submit(old(Snapshot()), entry, seconds, now)
      ensures old(Valid()) ==> Valid()
    {
      if secret.None? {
        return StartFirst;
      }
      var n: int;
      match entry {
        case Blank => return AskForNumber;
        case NotInteger => return NotANumber;
        case Integer(k) => n := k;
      }
      if n < MinValue || n > MaxValue {
        return OutOfRange;
      }
      attempts := attempts + 1;
      var hint := Classify(n, secret.value);
      if n < secret.value {
        reply := Low(hint);
      } else if n > secret.value {
        reply := High(hint);
      } else {
        var saved := OnVictory(seconds, now);
        return Won(attempts, saved);
      }
      if limit.Some? && attempts >= limit.value {
        reply := OutOfAttempts;
        secret := None;
      }
    }

    /** _on_victory: decide on the record, keep it in memory, end the round.
        Writing the file is left to the caller; a failed write changes nothing here. */
    method OnVictory(seconds: real, now: real) returns (saved: bool)
      modifies this
      ensures (Snapshot(), saved) == Victory(old(Snapshot()), seconds, now)
    {
      saved := false;
      if !HasRecord(best) {
        saved := true;
      } else if best.value.bestAttempts.None? || attempts < best.value.bestAttempts.value {
        saved := true;
      }
      if saved {
        best := Some(NewRecord(attempts, seconds, now));
      }
      secret := None;
    }
  }
}
