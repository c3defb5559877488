# Codebreaker game engine in Dafny

A model of the engine of a Mastermind-style "codebreaker" game: a hidden
secret of four digits in 1..6 is guessed within a configured number of
attempts, with a configured number of hints, and a score is computed at the
end.

- `common.dfy` (module `Common`): `Option` (Ruby's nil), `Result` and the
  errors the engine raises (`ConfigurationIncomplete`, `NoHintsLeft`,
  `NoMethodError`, `TypeError`).
- `evaluator.dfy` (module `Evaluator`, from `lib/codebreaker/processor.rb`):
  the marking of a guess, as pure functions and lemmas. Each guess
  character becomes an integer as Ruby's `to_i` does (a non-digit gives 0).
  Position `i` earns `+` when that integer equals `secret[i]`, and `-` when
  it occurs anywhere in the suffix `secret[i..]`. Otherwise it earns the
  empty string. The markers are joined in guess order. Secret digits are not
  consumed, and digits before position `i` are never searched. A guess of
  `|secret| + 2` or more characters makes the source call `include?` on nil.
  The model returns that crash as `NoMethodError("include?")`.
- `engine.dfy` (module `Engine`, from `lib/codebreaker/game.rb`): the
  configuration check, the secret, `guess_valid?`, the score formula and
  the class `Game`. The class has the frozen configuration and the secret
  as `const` fields. It has the mutable counters `attempts` and `hints` and
  the last marking `result` (`None` before any guess). `Process` and `Hint`
  change these fields; `Won` and `Score` only read them.

Randomness is a nondeterministic choice. `GenerateSecretCode` picks each of
the four digits with `:|` in 1..6, and `Hint` picks some index of the
secret. The constructor takes the secret as a parameter, so a caller can
fix it.

lib/codebreaker/game_const.rb defines constants that neither game.rb nor
processor.rb uses, and three of them disagree with the code. The model
follows the code:
- an absent position contributes the empty string, not the space of
  `WRONG_ANSWER` (game_const.rb:11);
- the hard level's hint rate is 30, not `ONE_HUNDRED_POINTS`
  (game_const.rb:7);
- a win adds 200, not `BONUS_POINTS` (game_const.rb:8).

Other behaviour of the code worth knowing:
- present markers search only the secret's suffix and never consume a
  digit, so `"4444"` against `[1,2,3,4]` gives `"---+"` and `"2641"`
  against `[1,2,6,4]` gives `"---"`;
- the score is used attempts times the attempt rate, minus used hints times
  the hint rate, plus the win bonus, with no other factor;
- the configuration is only checked for nil fields, with no range checks;
- `process` does not check that attempts are left;
- validation is an unanchored pattern, and `process` does not call it.

## Model

| member | source | states |
|---|---|---|
| Evaluator.ToI | lib/codebreaker/processor.rb:14 | `to_i` of one character is 0..9, nonzero exactly for '1'..'9', and a digit character is the digit of its value |
| Evaluator.FancyAlgo | lib/codebreaker/processor.rb:13-21 | one marker per guess position; position i is "+" iff its digit equals secret[i], "-" iff not exact and the digit occurs in secret[i..], "" otherwise |
| Evaluator.NewProcessor | lib/codebreaker/processor.rb:3-9 | construction fails with NoMethodError exactly for guesses longer than the secret plus one; otherwise the stored markers are fancy_algo's and get_result is their join |
| Evaluator.Processor.GetResult | lib/codebreaker/processor.rb:7-8 | get_result joins the stored markers; when each is "+", "-" or "", the string has at most one character per marker and holds only '+' and '-' |
| Evaluator.JoinMarkers | lib/codebreaker/processor.rb:8 | joining markers drawn from "+", "-" and "" gives at most one character per marker, each '+' or '-' |
| Evaluator.MarkingSnoc | lib/codebreaker/processor.rb:7-8 | the joined marking is the marking of the guess minus its last character followed by the last position's marker, so markers appear in guess order |
| Evaluator.MarkerCounts | lib/codebreaker/processor.rb:14-20 | the number of '+' equals the number of exact positions, the number of '-' equals the number of present positions, the length is their sum, and no other character appears |
| Evaluator.MatchesBound | lib/codebreaker/processor.rb:14-20 | exact plus present positions are at most the guess length and at most the secret length |
| Evaluator.MarkingShape | lib/codebreaker/processor.rb:14-20 | the marking uses only '+' and '-' and is no longer than the guess or the secret (at most 4 for the game's secret) |
| Evaluator.ExactMatchesAtMost | lib/codebreaker/processor.rb:16 | exact positions never exceed the guess length, and equal it only when every position is exact |
| Evaluator.AllExactMarking | lib/codebreaker/processor.rb:16 | a guess exact at every position is marked with one '+' per position |
| Evaluator.WinningMarking | lib/codebreaker/processor.rb:14-20 | the marking is all '+' with one per secret digit iff the guess starts with the secret's digits (both directions) |
| Evaluator.NonSecretDigitIsAbsent | lib/codebreaker/processor.rb:14-18 | a non-digit character, or a digit outside 1..6, contributes "" against a secret of digits 1..6 |
| Evaluator.RepeatedDigitIsMarkedEverywhere | lib/codebreaker/processor.rb:14-18 | secret [1,2,3,4] and guess "4444" give "---+": one secret 4 earns four markers |
| Evaluator.OnlySuffixIsSearched | lib/codebreaker/processor.rb:17 | secret [1,2,6,4] and guess "2641" give "---": the final 1 occurs only before its position and is not marked |
| Engine.ApplyConfiguration | lib/codebreaker/game.rb:50-52 | fails with ConfigurationIncomplete iff some field is nil; otherwise the frozen configuration holds exactly the given values |
| Engine.GenerateSecretCode | lib/codebreaker/game.rb:57-59 | the secret has exactly four elements, each in 1..6 |
| Engine.GuessValid | lib/codebreaker/game.rb:14-16 | true iff some four consecutive characters of the input are all in '1'..'6' |
| Engine.FourCharacterGuess | lib/codebreaker/game.rb:15 | a four-character input is valid iff all four characters are in '1'..'6' |
| Engine.UnanchoredValidation | lib/codebreaker/game.rb:15 | "12345" and "ab3456" are accepted and "1237" is rejected |
| Engine.ValidGuessMayCrash | lib/codebreaker/game.rb:15-20 | "123456" passes validation, yet processing it fails with NoMethodError |
| Engine.WinningGuess | lib/codebreaker/game.rb:23-25 | for a valid secret and a processable guess, the marking is "++++" iff the guess's first four characters spell the secret |
| Engine.LevelRates | lib/codebreaker/game.rb:34-38 | the rate table (10,0) for simple, (20,20) for middle, (50,30) for hard: nil exactly for any other level, otherwise rates that are never negative, with the hint rate at most the attempt rate |
| Engine.ScoreOf | lib/codebreaker/game.rb:33-46 | the score fails with TypeError exactly for a level other than simple, middle or hard |
| Engine.ScoreAtStart | lib/codebreaker/game.rb:40-45 | with nothing used and no win the score is 0 |
| Engine.ScorePerAttempt | lib/codebreaker/game.rb:34-45 | each used attempt adds 10 (simple), 20 (middle) or 50 (hard) |
| Engine.ScorePerHint | lib/codebreaker/game.rb:34-45 | each used hint subtracts 0 (simple), 20 (middle) or 30 (hard) |
| Engine.ScoreWinBonus | lib/codebreaker/game.rb:43-45 | a win adds exactly 200 |
| Engine.Game.constructor | lib/codebreaker/game.rb:7-12 | the counters start at the configured attempts and hints, the configuration and secret are kept, there is no result yet, the game is not won and (for a known level) the score is 0 |
| Engine.Game.New | lib/codebreaker/game.rb:7-12 | fails with ConfigurationIncomplete iff a field is nil, and then no game exists; otherwise a fresh game with the configured counters, a valid secret and no result |
| Engine.Game.Process | lib/codebreaker/game.rb:18-21 | uses exactly one attempt with no floor and leaves hints and the secret alone; stores and returns the marking, or fails with NoMethodError for guesses of six or more characters and keeps the old result; afterwards won iff the guess spells the secret; for a known level the score rises by the attempt rate, plus 200 if the game became won |
| Engine.Game.ProcessAsWritten | lib/codebreaker/game.rb:18-21 | as written: uses one attempt, then always fails with NoMethodError and stores nothing |
| Engine.Game.Hint | lib/codebreaker/game.rb:27-31 | with no hints left fails with NoHintsLeft and changes nothing; otherwise uses exactly one hint, leaves attempts and the result alone and returns a digit of the secret; for a known level the score falls by the hint rate |
| Engine.Game.Score | lib/codebreaker/game.rb:33-46 | a read-only query that fails exactly for an unknown level |
| Engine.Game.Won | lib/codebreaker/game.rb:23-25 | won? is false while the result is nil; once a guess has been processed, won iff that guess's first four characters spell the secret (its marking is "++++") |
| Engine.PlaySecretAsWritten | lib/codebreaker/game.rb:20 | typing the secret into a new game through process as written leaves it not won, with one attempt used |
| Engine.PlaySecret | lib/codebreaker/game.rb:18-25 | typing the secret into a new game through process wins it, with one attempt used |

## Findings

| source | as written | input that shows it | evidently intended | confidence | as-written member | corrected member |
|---|---|---|---|---|---|---|
| lib/codebreaker/game.rb:20 | `process` sends `result` to the Processor, which defines only `get_result` (lib/codebreaker/processor.rb:7), so every call raises NoMethodError after using an attempt and no game can be won | secret [1,2,3,4], guess "1234": the game is still not won | store the joined marking that `get_result` returns | high; not executed | Engine.PlaySecretAsWritten | Engine.PlaySecret |

`Engine.Game.ProcessAsWritten` models the code as written. `Engine.Game.Process`
uses `get_result`, and the rest of the model uses it.

## Left out

- lib/codebreaker/console.rb: the interactive loop (input, coloured output, exit, appending to a file) is I/O. It also calls Game methods that do not exist.
- lib/codebreaker/localization.rb, lib/codebreaker/storage.rb: directory scanning, YAML files and file deletion are I/O.
- lib/codebreaker/score.rb, lib/codebreaker/user_score.rb: they only build a record stamped with the clock. There is no logic.
- lib/codebreaker/motivation.rb: the decision depends on a random draw.
- lib/codebreaker/game_const.rb: neither game.rb nor processor.rb uses these constants, and they disagree with the code. The model follows the code.
- Random generation: `rand` and `sample` are nondeterministic choices. Their uniform distribution is not modelled.
- Ruby's dynamic typing: configuration values are modelled as a string, integers and a level. A value of another type (which the source does not reject) is not modelled.
- Engine.ScoreOf: its contract states only when it fails. The formula itself is stated by Engine.ScoreAtStart, Engine.ScorePerAttempt, Engine.ScorePerHint and Engine.ScoreWinBonus, which together fix it.
- Engine.Game.Score: its contract states only when it fails. Its value is Engine.ScoreOf of the current counters and outcome. How it changes is stated by the contracts of the constructor, Process and Hint.
