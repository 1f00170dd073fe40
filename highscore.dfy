/** The best-score record and the rule both front ends use to replace it.
    The record is the JSON object kept in the player's home directory; here
    it is a value, and loading or saving it is left to the caller. */
module Highscore {
  import opened Common

  /** The stored object: mejor_intentos, mejor_tiempo_segundos and timestamp.
      A file written by hand may lack any of the keys, so each is optional. */
  datatype Record = Record(bestAttempts: Option<int>, bestSeconds: Option<real>, savedAt: Option<real>)

  /** What loading gives: None when there is no file or it cannot be read. */
  type Store = Option<Record>

  /** An attempt count extended with +infinity, which stands for "no record"
      and for a record without mejor_intentos. */
  datatype Bound = Finite(n: int) | Infinite

  /** registro.get("mejor_intentos", float("inf")), with no record read as +infinity. */
  function Best(store: Store): Bound {
    if store.Some? && store.value.bestAttempts.Some? then Finite(store.value.bestAttempts.value) else Infinite
  }

  /** a <= b on the extended counts. */
  predicate AtMost(a: Bound, b: Bound) {
    b.Infinite? || (a.Finite? && a.n <= b.n)
  }

  /** The smaller of a bound and a count. */
  function Min(b: Bound, n: int): Bound {
    match b
    case Infinite => Finite(n)
    case Finite(m) => Finite(if n <= m then n else m)
  }

  /** The window's truthiness test, which is false for no record or for a
      record with none of the three keys. A loaded dictionary that holds only
      other keys is truthy in Python but is the same Record(None, None, None)
      here. Both readings save, because a missing mejor_intentos counts as
      +infinity. */
  predicate HasRecord(store: Store) {
    store.Some? && (store.value.bestAttempts.Some? || store.value.bestSeconds.Some? || store.value.savedAt.Some?)
  }

  /** The test in actualizar_highscore_si_corresponde: save when there is no
      record or when the count is below mejor_intentos (missing key: +infinity). */
  function ConsoleSaves(store: Store, attempts: int): (save: bool)
    ensures save <==> !AtMost(Best(store), Finite(attempts))
  {
    store.None? || match store.value.bestAttempts
                   case None => true
                   case Some(best) => attempts < best
  }

  /** The test in AdivinaGUI._on_victory: save when the record is falsy or when
      the count is below mejor_intentos (missing key: +infinity). */
  function GuiSaves(store: Store, attempts: int): (save: bool)
    ensures save <==> !AtMost(Best(store), Finite(attempts))
  {
    !HasRecord(store) || match store.value.bestAttempts
                         case None => true
                         case Some(best) => attempts < best
  }

  /** The two front ends write the same test in two ways (one looks at
      "is None", the other at truthiness); they decide alike on every record,
      because an empty record has no mejor_intentos and so counts as +infinity. */
  lemma SaveRulesAgree(store: Store, attempts: int)
    ensures GuiSaves(store, attempts) == ConsoleSaves(store, attempts)
    ensures ConsoleSaves(store, attempts) <==> !AtMost(Best(store), Finite(attempts))
  {
  }

  /** The record written after a win. */
  function NewRecord(attempts: int, seconds: real, now: real): (r: Record)
    ensures Best(Some(r)) == Finite(attempts)
  {
    Record(Some(attempts), Some(seconds), Some(now))
  }

  /** A win with `attempts` attempts, `seconds` (already rounded) on the clock
      and the timestamp `now`: the record is replaced exactly when the count is
      strictly below the stored best, the replacement holds this win, and the
      stored best afterwards is the minimum of the old best and this count. */
  function Update(store: Store, attempts: int, seconds: real, now: real): (r: (Store, bool))
    ensures r.1 <==> !AtMost(Best(store), Finite(attempts))
    ensures r.1 ==> r.0 == Some(NewRecord(attempts, seconds, now))
    ensures !r.1 ==> r.0 == store
    ensures Best(r.0) == Min(Best(store), attempts)
  {
    var save := ConsoleSaves(store, attempts);
    (if save then Some(NewRecord(attempts, seconds, now)) else store, save)
  }

  /** A win that only ties the record keeps the old record, whatever its time. */
  lemma TieKeepsRecord(store: Store, attempts: int, seconds: real, now: real)
    requires Best(store) == Finite(attempts)
    ensures Update(store, attempts, seconds, now) == (store, false)
  {
  }

  /** One won round as the record sees it. */
  datatype Win = Win(attempts: int, seconds: real, at: real)

  /** The record after a series of wins, each one offered to Update in turn. */
  function UpdateAll(store: Store, wins: seq<Win>): Store
    decreases |wins|
  {
    if wins == [] then store
    else UpdateAll(Update(store, wins[0].attempts, wins[0].seconds, wins[0].at).0, wins[1..])
  }

  /** After any series of wins the stored best is the fewest attempts seen:
      no more than the old best, no more than any win, and equal to one of them. */
  lemma {:induction false} UpdateAllKeepsMinimum(store: Store, wins: seq<Win>)
    ensures AtMost(Best(UpdateAll(store, wins)), Best(store))
    ensures forall j :: 0 <= j < |wins| ==> AtMost(Best(UpdateAll(store, wins)), Finite(wins[j].attempts))
    ensures Best(UpdateAll(store, wins)) == Best(store)
         || exists j :: 0 <= j < |wins| && Best(UpdateAll(store, wins)) == Finite(wins[j].attempts)
    decreases |wins|
  {
    if wins != [] {
      var next := Update(store, wins[0].attempts, wins[0].seconds, wins[0].at).0;
      UpdateAllKeepsMinimum(next, wins[1..]);
      var final := UpdateAll(store, wins);
      assert final == UpdateAll(next, wins[1..]);
      forall j | 0 <= j < |wins|
        ensures AtMost(Best(final), Finite(wins[j].attempts))
      {
        if j > 0 {
          assert wins[j] == wins[1..][j - 1];
        }
      }
      if Best(final) != Best(next) {
        var j :| 0 <= j < |wins[1..]| && Best(final) == Finite(wins[1..][j].attempts);
        assert wins[1..][j] == wins[j + 1];
      }
    }
  }
}
