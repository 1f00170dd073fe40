# Guess the number: a verified model of its game logic

The game picks a secret in [1, 100] and the player guesses. A miss is
answered with "too low" or "too high" and how close the guess was, as one of
four labels: ¡Muy cerca!, Cerca, Algo lejos or Muy lejos. A hit is answered
with a win ("¡Felicidades!" in the console), and an integer outside the range
with the range message. The fifth label of the hint function, ¡Exacto!, is
never shown (`Gui.NeverShowsExact`). A round ends
when the secret is found, when the attempts of the chosen difficulty are used
up (unlimited, 10 or 5), or when the player quits. A best-score record
(fewest attempts, with the time and a timestamp) is kept in a JSON file and
replaced only by a strictly better win.

The game ships two front ends that repeat the same logic: a Tkinter window
(`adivina_numero_tk.py`, class `AdivinaGUI`) and a console program
(`adivina_numero.py`). This project models the logic under both:

- `common.dfy` (module `Common`): an optional value, the range [1, 100], and
  the answer normalisation of the console (`strip()`, `lower()`, and the yes
  and no words).
- `hints.dfy` (module `Hints`): `evaluar_pista`, identical in both files, as
  a five-valued `Proximity`, with its bands, symmetry and monotonicity, and
  the low/high comparison.
- `highscore.dfy` (module `Highscore`): the record as a value (`Store` is
  `Option<Record>`, with a missing `mejor_intentos` read as +infinity), both
  front ends' save tests, proved equal, and the update, proved to keep the
  minimum over any series of wins.
- `gui.dfy` (module `Gui`): `AdivinaGUI`'s game fields as the class `Game`,
  whose methods `NewRound`, `SubmitGuess` and `OnVictory` update them in
  place. Each method is proved equal to a pure transition (`Start`, `Submit`,
  `Victory`). The properties of those transitions are proved about them, and
  so is the invariant the window keeps over any series of events.
- `console.dfy` (module `Console`): `elegir_dificultad`, `jugar_una_partida`
  and `confirmar_repetir` as methods with loops over the sequence of what the
  player types. The round loop is proved equal to the recursive `PlayFrom`,
  and its properties are proved about `PlayFrom`.
- `frontends.dfy` (module `FrontEnds`): the two front ends agree on every
  input whose integers are all in range, and they part on an out-of-range
  integer. The console counts it as an attempt, because it increments
  `intentos` before the range check. The window rejects it before counting.

The secret, the clock readings and the loaded record are parameters. A round
method takes the player's input as a sequence.

A few consequences of the code are worth stating plainly:

- A guess 8 away from the secret is "Algo lejos." (distance 8 to 20). The
  example of secret 42 and guess 50 is `Gui.SecretFortyTwoExample`.
- A guess submitted in the window after the round is over shows a dialog and
  changes nothing (`Reply.StartFirst`).
- The best count is stored under `mejor_intentos`, and only the attempt count
  decides: a win that ties the record keeps the old one, whatever its time.

## Model

| member | source | states |
|---|---|---|
| Common.Strip | adivina_numero.py:78 | the result is the part of the answer after its leading whitespace, and neither of its ends is whitespace |
| Common.StripRemovesOnlySpaces | adivina_numero.py:78 | every character that strip() drops is whitespace |
| Common.Lower | adivina_numero.py:191 | lower() turns each capital into the small letter at the same place in the alphabet, leaves no capital and changes no other character, keeping the length |
| Common.IsYes | adivina_numero.py:192 | a yes is one of s, si, y, yes after strip() and lower(), so its first kept character folds to s or y |
| Common.IsNo | adivina_numero.py:194 | a no is n or no after strip() and lower(), so its first kept character folds to n |
| Common.YesSpellings | adivina_numero.py:191-193 | once stripped, an answer is a yes exactly when it is s, si, y or yes in some mix of capitals, all 16 spellings listed |
| Common.NoSpellings | adivina_numero.py:191-195 | once stripped, an answer is a no exactly when it is n or no in some mix of capitals, all 6 spellings listed |
| Common.YesExcludesNo | adivina_numero.py:190-196 | no answer to the replay question is both a yes and a no |
| Common.YesExample | adivina_numero.py:191-193 | " YES " is read as a yes: blanks and capitals do not matter |
| Hints.Classify | adivina_numero_tk.py:49-59 | the label is Exact exactly when the guess equals the secret |
| Hints.ClassifyBands | adivina_numero.py:100-111 | distance 0 is Exact, 1-2 VeryClose, 3-7 Close, 8-20 SomewhatFar, above 20 VeryFar, each both ways |
| Hints.ClassifySymmetric | adivina_numero_tk.py:50 | swapping guess and secret gives the same label |
| Hints.ClassifyMonotone | adivina_numero_tk.py:50-59 | a guess at least as far from the secret never gets a closer label |
| Hints.MessageInjective | adivina_numero_tk.py:51-59 | `Hints.Message` gives the five texts of evaluar_pista, and they are five different texts |
| Hints.Compare | adivina_numero_tk.py:220-224 | the direction is Hit exactly when the label is Exact, and TooLow exactly when the guess is below the secret |
| Highscore.SaveRulesAgree | adivina_numero_tk.py:248-254 | the window's truthiness test and the console's None test decide alike, and both save exactly when the count is below the best, with no record or no key read as +infinity |
| Highscore.ConsoleSaves | adivina_numero.py:120-124 | the console saves exactly when the count is below the best, with no record or no mejor_intentos read as +infinity |
| Highscore.GuiSaves | adivina_numero_tk.py:248-254 | the window saves exactly when the count is below the best, with a falsy record or no mejor_intentos read as +infinity |
| Highscore.NewRecord | adivina_numero.py:127-131 | the record written after a win holds that win's attempt count as its best |
| Highscore.Update | adivina_numero.py:114-132 | the record is replaced iff the count is strictly below the best; the replacement holds this win; otherwise the record is unchanged; the new best is the minimum of the old best and the count |
| Highscore.TieKeepsRecord | adivina_numero.py:123 | a win that ties the best keeps the old record |
| Highscore.UpdateAllKeepsMinimum | adivina_numero_tk.py:256-263 | after any series of wins the best is at most the old best and at most every win, and it equals one of them |
| Gui.LimitFor | adivina_numero_tk.py:161-167 | difficulty "1" is unlimited, "2" is 10 attempts, and every other value is 5 |
| Gui.Initial | adivina_numero_tk.py:69-77 | the window opens with no running round, no attempts and the loaded record, and keeps its invariant |
| Gui.Start | adivina_numero_tk.py:159-170 | a new round has the drawn secret, no attempts used and the difficulty's limit; the record is untouched; the invariant holds |
| Gui.Victory | adivina_numero_tk.py:244-268 | a win ends the round, keeps the count and the limit, and updates the record by the shared rule |
| Gui.Submit | adivina_numero_tk.py:197-242 | with no running round nothing changes; an empty, non-integer or out-of-range entry changes nothing; an in-range guess costs exactly one attempt; the secret wins even on the last attempt; a miss ends the round exactly when it reaches the limit; an unlimited round ends only by a win; the invariant is kept |
| Gui.NeverShowsExact | adivina_numero_tk.py:220-224 | the hint shown with too low or too high is never Exact, so ¡Exacto! never appears |
| Gui.RunConsistent | adivina_numero_tk.py:216-238 | over any series of events the invariant holds, so a limited round never uses more attempts than its limit |
| Gui.FinishedRoundIsStable | adivina_numero_tk.py:198-200 | once a round is over, any number of submissions leaves the state as it is |
| Gui.SecretFortyTwoExample | adivina_numero_tk.py:216-230 | secret 42 and guesses 50, 25 and 42: too high and too low, both "Algo lejos.", then a win after 3 attempts that sets the first record |
| Gui.HardLevelFiveMissesExample | adivina_numero_tk.py:232-238 | on the hard level five misses end the round with the attempts used up |
| Gui.Game.constructor | adivina_numero_tk.py:63-77 | the fields start as in the initial state |
| Gui.Game.NewRound | adivina_numero_tk.py:159-170 | the fields become those of Start |
| Gui.Game.SubmitGuess | adivina_numero_tk.py:197-242 | the fields and the reply are those of Submit, and the invariant is kept |
| Gui.Game.OnVictory | adivina_numero_tk.py:244-268 | the fields and the new-record flag are those of Victory |
| Console.MenuLimit | adivina_numero.py:67-71 | the menu keys are exactly "1", "2" and "3", giving unlimited, 10 and 5 attempts |
| Console.MenuAnswer | adivina_numero.py:78-79 | an answer is on the menu exactly when, once stripped, it is "1", "2" or "3" |
| Console.ChooseDifficulty | adivina_numero.py:62-81 | the choice is the limit of the first stripped answer that is a menu key, and every earlier answer was refused |
| Console.ReplayAnswer | adivina_numero.py:191-195 | an answer gives True exactly when it is a yes and False exactly when it is a no |
| Console.ConfirmReplay | adivina_numero.py:189-196 | the result is True for a yes and False for a no, from the first answer that is either, and every earlier answer was neither |
| Console.ReadTurn | adivina_numero.py:158-165 | a turn is pedir_entero's integer when it gave one, and otherwise a pass that quits exactly on a yes to the quit question |
| Console.ReadTurnEnds | adivina_numero.py:158-178 | a turn ends the round exactly when it is the secret typed in range or a None followed by a yes |
| Console.PlayFrom | adivina_numero.py:152-186 | the round loop from a given turn and count: it never reads past the input, and its ending is characterised by the lemmas below |
| Console.PlayRound | adivina_numero.py:139-186 | the loop ends as PlayFrom says; on a win the record is updated by the shared rule, otherwise it is untouched |
| Console.PlayFromFacts | adivina_numero.py:152-186 | no turn before the last one read ends the round; an Exhausted round read no ending turn; Quit means a yes to the quit question or the end of the input |
| Console.PlayFromWin | adivina_numero.py:167-186 | a win is the secret typed in range as the last turn read, with attempts equal to the integers read, out-of-range ones included |
| Console.PlayFromStopsAtLimit | adivina_numero.py:152-172 | the attempts never pass the limit; Exhausted means the limit was reached, either before the first turn or by the last guess read, so the round stops as soon as it is reached; a Quit comes with attempts left |
| Console.PassIsFree | adivina_numero.py:158-165 | a turn with no integer and no quit costs no attempt |
| Console.OutOfRangeCosts | adivina_numero.py:167-172 | an out-of-range integer is refused but still costs an attempt |
| Console.UnlimitedNeverExhausted | adivina_numero.py:153 | without a limit a round never ends as Exhausted |
| FrontEnds.AgreeOnInRangeInput | adivina_numero_tk.py:212-238 | on input whose integers are all in range, the window and the console count the same attempts and end their rounds together: a console win is a window win with the same count, Exhausted is a window round over at its limit, and a quit leaves the window round running |
| FrontEnds.OutOfRangeDiffers | adivina_numero.py:167-172 | an out-of-range integer leaves the window's state unchanged, while the console goes on with one more attempt |
| FrontEnds.HardLevelOutOfRangeExample | adivina_numero_tk.py:212-216 | on the hard level, five guesses of 0 and then the secret exhaust the console round but win the window round at its first attempt |

## Left out

- Tkinter: the widgets, their layout, colours and fonts, the message boxes,
  the label texts, and the focus and clearing of the entry field. What the
  window shows after a guess is the `Gui.Reply` value.
- The elapsed-time display (`_update_timer`, `_cancel_timer`, `after`,
  `on_close`). It is event-loop scheduling and changes no game state.
- Time: `time.time()`, durations and `round(duracion, 2)` are wall clock and
  floating point. The duration, already rounded, and the timestamp are `real`
  parameters that are only stored in the record.
- Randomness: `random.randint(1, 100)` is the parameter `drawn` (window) or
  `secret` (console). Both must lie in [1, 100].
- File I/O in `cargar_highscore` and `guardar_highscore`, including the
  exceptions they swallow. The record is an `Option<Record>` value. The
  window keeps the new record in memory whether or not the write succeeds.
  The record that `Console.PlayRound` returns is the one the console writes.
  The model treats a failed write as a no-op. It leaves out that
  `guardar_highscore` opens the file with `"w"`, which empties it first, so a
  failure during the write leaves an empty or partial file that
  `cargar_highscore` then reads as no record.
- Record contents other than an integer `mejor_intentos` in a JSON object,
  because `Record.bestAttempts` is an `Option<int>`:
  - A float or bool `mejor_intentos` is compared as a number by both front
    ends (adivina_numero.py:123, adivina_numero_tk.py:252-253). For example,
    4.5 lets a 4-attempt win replace the record.
  - A string, null, list or object `mejor_intentos` makes `<` raise
    `TypeError`. Nothing catches it: `main` catches only `KeyboardInterrupt`
    (adivina_numero.py:204-218), so the console ends with a traceback right
    after printing the win, and writes nothing. In the window, `_on_victory`
    stops before `self.secreto = None`, so the round stays running.
  - A file holding JSON `null` loads as `None`. It is no record (`Store`
    None) to both front ends, which save over it.
  - A file holding JSON that is neither an object nor `null`: a falsy one
    (`[]`, `0`, `""`, `false`) is read by the window as no record and
    overwritten. In the console, `.get` on it raises `AttributeError`, which
    nothing catches (adivina_numero.py:123). A truthy one fails at start-up,
    before any round. The window never opens, because `__init__` calls
    `_actualizar_highscore_label`, which calls `self.highscore.get`
    (adivina_numero_tk.py:82, 152-153). The console's `main` stops at its own
    `registro.get` (adivina_numero.py:202-203).
- Integer parsing: `int()`'s grammar (signs, blanks, underscores, Unicode
  digits) is abstracted as an already-parsed entry. The window takes
  `Gui.Entry`. A console turn is `Console.Turn`, built from pedir_entero's
  `Option<int>` and the quit answer by `Console.ReadTurn`.
- `strip()` and `lower()` are modelled on ASCII only. `strip()` removes the
  ten ASCII whitespace characters (including the separators 0x1C to 0x1F),
  but not non-ASCII ones such as U+0085 or U+00A0. `lower()` folds A to Z
  only.
- Console output: `print`, colorama and ANSI codes, `imprimir_titulo`, and the
  hint printed after each guess. That hint is `Hints.Classify` and
  `Hints.Compare`, but `Console.PlayRound` does not return the messages.
- `main`: the session loop and how it handles `KeyboardInterrupt`. A yes to
  the quit question, or Ctrl+C there, is the `Quit` outcome. At the guess
  prompt `pedir_entero` catches `EOFError` and gives None. The end of input
  at the quit question, the menu or the replay question raises an `EOFError`
  that `main` does not catch.
- ChooseDifficulty: when the answers run out before a valid key, it returns
  None. The source would prompt forever or stop on end of input.
- ConfirmReplay: when the answers run out before a yes or a no, it returns
  None, for the same reason.
- Console.PlayRound: running out of turns is read as `Quit`, for the same
  reason.
