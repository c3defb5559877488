/** The game engine of lib/codebreaker/game.rb: the configuration check,
    the secret, guess validation, processing a guess, win detection, hints
    and the score.

    The random choices of the source (`rand(1..6)` for each secret digit,
    `sample` for a hint) are nondeterministic choices here; the constructor
    takes the secret as a parameter so that a caller may fix it. */
module Engine {
  import opened Common
  import Evaluator

  /** The `level` symbol; any symbol other than the three known ones is Other. */
  datatype Level = Simple | Middle | Hard | Other(name: string)

  /** The GameConfiguration struct as the caller's block leaves it: any
      field may still be nil. */
  datatype GameConfiguration = GameConfiguration(
    playerName: Option<string>,
    attempts: Option<int>,
    hints: Option<int>,
    level: Option<Level>)

  /** A configuration that passed the nil check and was frozen. Its values
      are not range-checked. */
  datatype Configuration = Configuration(playerName: string, attempts: int, hints: int, level: Level)

  /** apply_configuration's check and freeze: the configuration is accepted
      exactly when no field is nil, and is then kept as given. */
  function ApplyConfiguration(c: GameConfiguration): (r: Result<Configuration>)
    ensures r.Failure? <==> c.playerName.None? || c.attempts.None? || c.hints.None? || c.level.None?
    ensures r.Failure? ==> r.error == ConfigurationIncomplete
    ensures r.Success? ==>
      c == GameConfiguration(Some(r.value.playerName), Some(r.value.attempts), Some(r.value.hints), Some(r.value.level))
  {
    match c
    case GameConfiguration(Some(name), Some(attempts), Some(hints), Some(level)) =>
      Success(Configuration(name, attempts, hints, level))
    case _ => Failure(ConfigurationIncomplete)
  }

  /** A secret code: four digits, each in 1..6, repeats allowed. */
  predicate ValidSecret(code: seq<int>)
  {
    |code| == 4 && forall i :: 0 <= i < |code| ==> 1 <= code[i] <= 6
  }

  /** The four characters a player types to name the secret. */
  function SecretString(code: seq<int>): string
    requires ValidSecret(code)
  {
    seq(4, i requires 0 <= i < 4 => ('0' as int + code[i]) as char)
  }

  /** generate_secret_code: four digits, each an independent choice in 1..6. */
  method GenerateSecretCode() returns (code: seq<int>)
    ensures ValidSecret(code)
  {
    code := [];
    for i := 0 to 4
      invariant |code| == i
      invariant forall k :: 0 <= k < i ==> 1 <= code[k] <= 6
    {
      var digit :| 1 <= digit <= 6;
      code := code + [digit];
    }
  }

  /** A character the pattern [1-6] accepts. */
  predicate IsCodeDigit(c: char)
  {
    '1' <= c <= '6'
  }

  /** Four characters of [1-6] start at position `i`. */
  predicate RunAt(s: string, i: nat)
    requires i + 4 <= |s|
  {
    IsCodeDigit(s[i]) && IsCodeDigit(s[i + 1]) && IsCodeDigit(s[i + 2]) && IsCodeDigit(s[i + 3])
  }

  /** guess_valid?: the unanchored pattern /[1-6]{4}/ is tried at each start
      position from the left; the input is valid exactly when some four
      consecutive characters are all in 1..6. */
  function GuessValid(input: string): (b: bool)
    ensures b <==> exists i :: 0 <= i && i + 4 <= |input| && RunAt(input, i)
  {
    if |input| < 4 then false
    else if RunAt(input, 0) then true
    else
      var tail := input[1..];
      assert forall j :: 0 <= j && j + 4 <= |tail| ==> (RunAt(tail, j) <==> RunAt(input, j + 1));
      assert forall i :: 1 <= i && i + 4 <= |input| ==> RunAt(input, i) == RunAt(tail, i - 1);
      GuessValid(tail)
  }

  /** A four-character input is valid exactly when it consists of digits 1..6. */
  lemma FourCharacterGuess(input: string)
    requires |input| == 4
    ensures GuessValid(input) <==> forall i :: 0 <= i < 4 ==> IsCodeDigit(input[i])
  {
  }

  /** The pattern is not anchored: extra characters around a run of four
      code digits are accepted, and a 7 breaks the run. */
  lemma UnanchoredValidation()
    ensures GuessValid("12345")
    ensures GuessValid("ab3456")
    ensures !GuessValid("1237")
  {
    assert RunAt("12345", 0);
    assert RunAt("ab3456", 2);
  }

  /** Validation lets through guesses that make the processor crash: six
      code digits pass guess_valid?, and processing them raises. */
  lemma ValidGuessMayCrash(secret: seq<int>)
    requires ValidSecret(secret)
    ensures GuessValid("123456")
    ensures Evaluator.NewProcessor("123456", secret) == Failure(NoMethodError("include?"))
  {
    assert RunAt("123456", 0);
  }

  /** For a valid secret, a guess starts with the secret's digits exactly when
      its first four characters are the secret's string. */
  lemma SpellsSecret(guess: string, secret: seq<int>)
    requires ValidSecret(secret)
    ensures Evaluator.Spells(guess, secret) <==> |guess| >= 4 && guess[..4] == SecretString(secret)
  {
    if |guess| >= 4 {
      if Evaluator.Spells(guess, secret) {
        forall i | 0 <= i < 4
          ensures guess[i] == SecretString(secret)[i]
        {
          assert Evaluator.ToI(guess[i]) == secret[i];
        }
      }
      if guess[..4] == SecretString(secret) {
        forall i | 0 <= i < 4
          ensures Evaluator.ToI(guess[i]) == secret[i]
        {
          assert guess[i] == SecretString(secret)[i];
        }
      }
    }
  }

  /** A marking of four exact markers wins; for a valid secret that happens
      exactly when the guess starts with the secret. */
  lemma WinningGuess(guess: string, secret: seq<int>)
    ensures ValidSecret(secret) && |guess| <= 5 ==>
      (Evaluator.Marking(guess, secret) == "++++" <==> |guess| >= 4 && guess[..4] == SecretString(secret))
  {
    if ValidSecret(secret) && |guess| <= 5 {
      Evaluator.WinningMarking(guess, secret);
      SpellsSecret(guess, secret);
      assert Evaluator.AllExact(4) == "++++";
    }
  }

  /** The per-level rates [attempt_rate, hint_rate]; nil for an unknown level.
      The rates are never negative and a hint never costs more than an
      attempt earns. */
  function LevelRates(level: Level): (r: Option<(int, int)>)
    ensures r.None? <==> level.Other?
    ensures r.Some? ==> 0 <= r.value.1 <= r.value.0
  {
    match level
    case Simple => Some((10, 0))
    case Middle => Some((20, 20))
    case Hard => Some((50, 30))
    case Other(_) => None
  }

  /** The score formula: used attempts times the attempt rate, minus used
      hints times the hint rate, plus 200 for a win. With an unknown level
      both rates are nil and the multiplication raises TypeError. */
  function ScoreOf(config: Configuration, attempts: int, hints: int, won: bool): (s: Result<int>)
    ensures s.Failure? <==> config.level.Other?
    ensures s.Failure? ==> s.error == TypeError
  {
    match LevelRates(config.level)
    case None => Failure(TypeError)
    case Some((attemptRate, hintRate)) =>
      var usedAttempts := config.attempts - attempts;
      var usedHints := config.hints - hints;
      var bonus := if won then 200 else 0;
      Success(usedAttempts * attemptRate - usedHints * hintRate + bonus)
  }

  /** Nothing used and nothing won scores 0. */
  lemma ScoreAtStart(config: Configuration)
    requires !config.level.Other?
    ensures ScoreOf(config, config.attempts, config.hints, false) == Success(0)
  {
  }

  /** Each attempt used adds the level's attempt rate: 10, 20 or 50. */
  lemma ScorePerAttempt(config: Configuration, attempts: int, hints: int, won: bool)
    requires !config.level.Other?
    ensures ScoreOf(config, attempts - 1, hints, won).value
         == ScoreOf(config, attempts, hints, won).value
            + (match config.level case Simple => 10 case Middle => 20 case _ => 50)
  {
  }

  /** Each hint used subtracts the level's hint rate: 0, 20 or 30. */
  lemma ScorePerHint(config: Configuration, attempts: int, hints: int, won: bool)
    requires !config.level.Other?
    ensures ScoreOf(config, attempts, hints - 1, won).value
         == ScoreOf(config, attempts, hints, won).value
            - (match config.level case Simple => 0 case Middle => 20 case _ => 30)
  {
  }

  /** A win adds 200 whatever the level and whenever it happened. */
  lemma ScoreWinBonus(config: Configuration, attempts: int, hints: int)
    requires !config.level.Other?
    ensures ScoreOf(config, attempts, hints, true).value == ScoreOf(config, attempts, hints, false).value + 200
  {
  }

  /** A game: the frozen configuration, the secret, the two counters and
      the last marking (nil before any guess). */
  class Game {
    const configuration: Configuration
    const secretCode: seq<int>
    var attempts: int
    var hints: int
    var result: Option<string>
    /** The guess whose marking `result` holds. */
    ghost var lastGuess: string

    ghost predicate Valid()
      reads this
    {
      && ValidSecret(secretCode)
      && (result.Some? ==> |lastGuess| <= 5 && result.value == Evaluator.Marking(lastGuess, secretCode))
    }

    /** initialize, once the configuration is known to be complete and the
        secret has been drawn. */
    constructor (config: Configuration, secret: seq<int>)
      requires ValidSecret(secret)
      ensures Valid()
      ensures configuration == config && secretCode == secret
      ensures attempts == config.attempts && hints == config.hints
      ensures result == None && !Won()
      ensures !config.level.Other? ==> Score() == Success(0)
    {
      configuration := config;
      secretCode := secret;
      attempts := config.attempts;
      hints := config.hints;
      result := None;
      lastGuess := "";
    }

    /** Game.new: fails when a configuration field is nil, and then no game
        exists; otherwise the counters start at the configured values and
        the secret is freshly drawn. */
    static method New(config: GameConfiguration) returns (r: Result<Game>)
      ensures r.Failure? <==> config.playerName.None? || config.attempts.None? || config.hints.None? || config.level.None?
      ensures r.Failure? ==> r.error == ConfigurationIncomplete
      ensures r.Success? ==>
        && fresh(r.value) && r.value.Valid()
        && ApplyConfiguration(config) == Success(r.value.configuration)
        && Some(r.value.attempts) == config.attempts && Some(r.value.hints) == config.hints
        && r.value.result == None
    {
      var applied := ApplyConfiguration(config);
      if applied.Failure? {
        return Failure(applied.error);
      }
      var secret := GenerateSecretCode();
      var game := new Game(applied.value, secret);
      r := Success(game);
    }

    /** won?: the last marking is four exact markers. Before any guess the
        result is nil and the game is not won; afterwards it is won exactly
        when the last processed guess starts with the secret. */
    function Won(): (w: bool)
      reads this
      ensures result.None? ==> !w
      ensures Valid() && result.Some? ==>
        (w <==> |lastGuess| >= 4 && lastGuess[..4] == SecretString(secretCode))
    {
      WinningGuess(lastGuess, secretCode);
      result == Some("++++")
    }

    /** process, with the processor's joined marking as the stored result:
        one attempt is used whether or not the guess can be processed (there
        is no check that attempts are left); a guess of six or more
        characters makes the processor raise and leaves the last result. */
    method Process(input: string) returns (r: Result<string>)
      requires Valid()
      modifies this`attempts, this`result, this`lastGuess
      ensures Valid()
      ensures attempts == old(attempts) - 1
      ensures |input| <= 5 ==> r == Success(Evaluator.Marking(input, secretCode)) && result == Some(r.value)
      ensures |input| > 5 ==> r == Failure(NoMethodError("include?")) && result == old(result)
      ensures |input| <= 5 ==> (Won() <==> |input| >= 4 && input[..4] == SecretString(secretCode))
      ensures |input| > 5 ==> Won() == old(Won())
      ensures !configuration.level.Other? ==>
        Score().value == old(Score().value) + LevelRates(configuration.level).value.0
                         + (if Won() then 200 else 0) - (if old(Won()) then 200 else 0)
    {
      ghost var wasWon := Won();
      attempts := attempts - 1;
      var processor := Evaluator.NewProcessor(input, secretCode);
      if processor.Failure? {
        assert Won() == wasWon;
        return Failure(processor.error);
      }
      var marking := processor.value.GetResult();
      result := Some(marking);
      lastGuess := input;
      r := Success(marking);
      WinningGuess(input, secretCode);
    }

    /** process as written: it sends `result` to the processor, which only
        defines get_result, so after using an attempt it always raises
        NoMethodError (or the processor's own error for a long guess) and
        never stores a marking. */
    method ProcessAsWritten(input: string) returns (r: Result<string>)
      requires Valid()
      modifies this`attempts
      ensures Valid()
      ensures attempts == old(attempts) - 1
      ensures r == Failure(NoMethodError(if |input| <= 5 then "result" else "include?"))
    {
      attempts := attempts - 1;
      var processor := Evaluator.NewProcessor(input, secretCode);
      if processor.Failure? {
        return Failure(processor.error);
      }
      r := Failure(NoMethodError("result"));
    }

    /** hint: with no hints left it raises and changes nothing; otherwise it
        uses one hint and reveals some digit of the secret. */
    method Hint() returns (r: Result<int>)
      requires Valid()
      modifies this`hints
      ensures Valid()
      ensures old(hints) == 0 ==> hints == 0 && r == Failure(NoHintsLeft)
      ensures old(hints) != 0 ==> hints == old(hints) - 1 && r.Success? && r.value in secretCode
      ensures r.Success? ==> 1 <= r.value <= 6
      ensures !configuration.level.Other? && old(hints) != 0 ==>
        Score().value == old(Score().value) - LevelRates(configuration.level).value.1
    {
      if hints == 0 {
        return Failure(NoHintsLeft);
      }
      hints := hints - 1;
      var i :| 0 <= i < |secretCode|;
      r := Success(secretCode[i]);
    }

    /** score: a query over the configuration, the counters and the outcome;
        it raises for an unknown level. */
    function Score(): (s: Result<int>)
      reads this
      ensures s.Failure? <==> configuration.level.Other?
    {
      ScoreOf(configuration, attempts, hints, Won())
    }
  }

  /** Playing the secret itself through process as written: the game is not
      won and one attempt is gone. */
  method PlaySecretAsWritten(config: Configuration, secret: seq<int>) returns (won: bool, attemptsLeft: int)
    requires ValidSecret(secret)
    ensures !won && attemptsLeft == config.attempts - 1
  {
    var game := new Game(config, secret);
    var _ := game.ProcessAsWritten(SecretString(secret));
    won := game.Won();
    attemptsLeft := game.attempts;
  }

  /** Playing the secret itself through process with get_result: the game
      is won on that attempt. */
  method PlaySecret(config: Configuration, secret: seq<int>) returns (won: bool, attemptsLeft: int)
    requires ValidSecret(secret)
    ensures won && attemptsLeft == config.attempts - 1
  {
    var game := new Game(config, secret);
    var _ := game.Process(SecretString(secret));
    won := game.Won();
    attemptsLeft := game.attempts;
  }
}
