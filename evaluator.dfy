/** The guess evaluator of lib/codebreaker/processor.rb.

    A processor turns each character of the guess into an integer (Ruby's
    `to_i`: a decimal digit gives its value, anything else 0) and gives
    position `i` the marker
      "+" when that integer equals secret[i],
      "-" when it occurs in the secret's suffix secret[i..],
      ""  otherwise.
    Secret digits are never consumed, and digits before position `i` are
    never searched. `get_result` joins the markers in guess order. */
module Evaluator {
  import opened Common

  const ExactMark: string := "+"
  const PresentMark: string := "-"
  const AbsentMark: string := ""

  /** Ruby's String#to_i applied to a one-character string. */
  function ToI(c: char): (d: int)
    ensures 0 <= d <= 9
    ensures d != 0 <==> '1' <= c <= '9'
    ensures '0' <= c <= '9' ==> c == ('0' as int + d) as char
  {
    if '0' <= c <= '9' then c as int - '0' as int else 0
  }

  /** The guess digit `item` equals the secret digit at `index`
      (past the end of the secret, Ruby reads nil, which equals no integer). */
  predicate IsExact(item: int, secret: seq<int>, index: nat)
  {
    index < |secret| && item == secret[index]
  }

  /** The marker for the guess digit `item` at position `index`. */
  function MarkAt(item: int, secret: seq<int>, index: nat): string
    requires index <= |secret|
  {
    if IsExact(item, secret, index) then ExactMark
    else if item in secret[index..] then PresentMark
    else AbsentMark
  }

  /** fancy_algo: one marker per guess position. Defined only while
      secret[index..] exists, that is for guesses of at most |secret| + 1
      characters; NewProcessor models the crash beyond that. */
  function FancyAlgo(guess: string, secret: seq<int>): (marks: seq<string>)
    requires |guess| <= |secret| + 1
    ensures |marks| == |guess|
    ensures forall i :: 0 <= i < |guess| ==>
      (marks[i] == ExactMark <==> IsExact(ToI(guess[i]), secret, i))
    ensures forall i :: 0 <= i < |guess| ==>
      (marks[i] == PresentMark <==> !IsExact(ToI(guess[i]), secret, i) && ToI(guess[i]) in secret[i..])
    ensures forall i :: 0 <= i < |guess| ==>
      (marks[i] == AbsentMark <==> !IsExact(ToI(guess[i]), secret, i) && ToI(guess[i]) !in secret[i..])
  {
    seq(|guess|, i requires 0 <= i < |guess| => MarkAt(ToI(guess[i]), secret, i))
  }

  /** Array#join of strings, in order. */
  function Join(parts: seq<string>): string
  {
    if parts == [] then "" else Join(parts[..|parts| - 1]) + parts[|parts| - 1]
  }

  /** Joining markers gives at most one character per marker, each '+' or '-'. */
  lemma {:induction false} JoinMarkers(parts: seq<string>)
    ensures (forall i :: 0 <= i < |parts| ==> parts[i] in {ExactMark, PresentMark, AbsentMark}) ==>
      |Join(parts)| <= |parts| && forall c :: c in Join(parts) ==> c == '+' || c == '-'
  {
    if parts != [] && forall i :: 0 <= i < |parts| ==> parts[i] in {ExactMark, PresentMark, AbsentMark} {
      var n := |parts| - 1;
      assert forall i :: 0 <= i < n ==> parts[..n][i] == parts[i];
      JoinMarkers(parts[..n]);
    }
  }

  /** A Processor object: its only field is the marker array, computed once
      by the constructor. */
  datatype Processor = Processor(result: seq<string>)
  {
    /** get_result: the markers joined into one string. When every marker
        is one of "+", "-" and "", the string has at most one character per
        marker and holds only '+' and '-'. */
    function GetResult(): (s: string)
      ensures (forall i :: 0 <= i < |result| ==> result[i] in {ExactMark, PresentMark, AbsentMark}) ==>
        |s| <= |result| && forall c :: c in s ==> c == '+' || c == '-'
    {
      JoinMarkers(result);
      Join(result)
    }
  }

  /** Processor.new(guess, secret). For a guess of |secret| + 2 or more
      characters, secret[index..-1] is nil at index |secret| + 1 and the
      call to include? on it raises NoMethodError. */
  function NewProcessor(guess: string, secret: seq<int>): (r: Result<Processor>)
    ensures r.Failure? <==> |guess| > |secret| + 1
    ensures r.Failure? ==> r.error == NoMethodError("include?")
    ensures r.Success? ==> r.value.result == FancyAlgo(guess, secret)
    ensures r.Success? ==> r.value.GetResult() == Marking(guess, secret)
  {
    if |guess| > |secret| + 1 then Failure(NoMethodError("include?"))
    else Success(Processor(FancyAlgo(guess, secret)))
  }

  /** The string a processor for `guess` returns from get_result. */
  function Marking(guess: string, secret: seq<int>): string
    requires |guess| <= |secret| + 1
  {
    Join(FancyAlgo(guess, secret))
  }

  /** Number of positions whose guess digit equals the secret digit there. */
  function ExactMatches(guess: string, secret: seq<int>): nat
  {
    if guess == [] then 0
    else
      var n := |guess| - 1;
      ExactMatches(guess[..n], secret) + (if IsExact(ToI(guess[n]), secret, n) then 1 else 0)
  }

  /** Number of positions that are not exact but whose guess digit occurs
      in the secret at that position or later. */
  function PresentMatches(guess: string, secret: seq<int>): nat
    requires |guess| <= |secret| + 1
  {
    if guess == [] then 0
    else
      var n := |guess| - 1;
      var item := ToI(guess[n]);
      PresentMatches(guess[..n], secret) + (if !IsExact(item, secret, n) && item in secret[n..] then 1 else 0)
  }

  /** The guess starts with the secret, digit for digit. */
  predicate Spells(guess: string, secret: seq<int>)
  {
    |guess| >= |secret| && forall i :: 0 <= i < |secret| ==> ToI(guess[i]) == secret[i]
  }

  /** A marking of `n` exact markers. */
  function AllExact(n: nat): string
  {
    seq(n, _ => '+')
  }

  /** The marking of a guess is the marking of the guess without its last
      character, followed by the last position's marker: markers come out
      in guess order. */
  lemma MarkingSnoc(guess: string, secret: seq<int>)
    requires 0 < |guess| <= |secret| + 1
    ensures Marking(guess, secret)
         == Marking(guess[..|guess| - 1], secret) + MarkAt(ToI(guess[|guess| - 1]), secret, |guess| - 1)
  {
    var n := |guess| - 1;
    var marks := FancyAlgo(guess, secret);
    assert marks[..n] == FancyAlgo(guess[..n], secret);
  }

  /** The marking holds one '+' per exact position, one '-' per present
      position and nothing else. */
  lemma {:induction false} MarkerCounts(guess: string, secret: seq<int>)
    requires |guess| <= |secret| + 1
    ensures multiset(Marking(guess, secret))['+'] == ExactMatches(guess, secret)
    ensures multiset(Marking(guess, secret))['-'] == PresentMatches(guess, secret)
    ensures |Marking(guess, secret)| == ExactMatches(guess, secret) + PresentMatches(guess, secret)
    ensures forall c :: c in Marking(guess, secret) ==> c == '+' || c == '-'
  {
    if guess != [] {
      var n := |guess| - 1;
      MarkerCounts(guess[..n], secret);
      MarkingSnoc(guess, secret);
      var prefix := Marking(guess[..n], secret);
      var last := MarkAt(ToI(guess[n]), secret, n);
      assert multiset(prefix + last) == multiset(prefix) + multiset(last);
    }
  }

  /** Each position contributes at most one marker, and the position just
      past the secret never contributes one. */
  lemma {:induction false} MatchesBound(guess: string, secret: seq<int>)
    requires |guess| <= |secret| + 1
    ensures ExactMatches(guess, secret) + PresentMatches(guess, secret) <= |guess|
    ensures ExactMatches(guess, secret) + PresentMatches(guess, secret) <= |secret|
  {
    if guess != [] {
      MatchesBound(guess[..|guess| - 1], secret);
    }
  }

  /** The marking consists of '+' and '-' only and is no longer than the
      guess and no longer than the secret. */
  lemma MarkingShape(guess: string, secret: seq<int>)
    requires |guess| <= |secret| + 1
    ensures |Marking(guess, secret)| <= |guess|
    ensures |Marking(guess, secret)| <= |secret|
    ensures forall c :: c in Marking(guess, secret) ==> c == '+' || c == '-'
  {
    MarkerCounts(guess, secret);
    MatchesBound(guess, secret);
  }

  /** Exact matches never exceed the positions, and reach it only when
      every position is exact. */
  lemma {:induction false} ExactMatchesAtMost(guess: string, secret: seq<int>)
    ensures ExactMatches(guess, secret) <= |guess|
    ensures ExactMatches(guess, secret) == |guess| ==>
      forall i :: 0 <= i < |guess| ==> IsExact(ToI(guess[i]), secret, i)
  {
    if guess != [] {
      var n := |guess| - 1;
      ExactMatchesAtMost(guess[..n], secret);
      if ExactMatches(guess, secret) == |guess| {
        forall i | 0 <= i < |guess|
          ensures IsExact(ToI(guess[i]), secret, i)
        {
          if i < n {
            assert guess[..n][i] == guess[i];
          }
        }
      }
    }
  }

  /** A guess that is exact at every position is marked all '+'. */
  lemma {:induction false} AllExactMarking(guess: string, secret: seq<int>)
    requires |guess| <= |secret|
    requires forall i :: 0 <= i < |guess| ==> IsExact(ToI(guess[i]), secret, i)
    ensures Marking(guess, secret) == AllExact(|guess|)
  {
    if guess != [] {
      var n := |guess| - 1;
      AllExactMarking(guess[..n], secret);
      MarkingSnoc(guess, secret);
      assert AllExact(n + 1) == AllExact(n) + ExactMark;
    }
  }

  /** Counting the '+' of an all-exact marking. */
  lemma {:induction false} AllExactCount(n: nat)
    ensures multiset(AllExact(n))['+'] == n
  {
    if n > 0 {
      AllExactCount(n - 1);
      assert AllExact(n) == AllExact(n - 1) + ['+'];
    }
  }

  /** The marking is all '+' (one per secret digit) exactly when the guess
      starts with the secret. */
  lemma WinningMarking(guess: string, secret: seq<int>)
    requires |guess| <= |secret| + 1
    ensures Marking(guess, secret) == AllExact(|secret|) <==> Spells(guess, secret)
  {
    var n := |secret|;
    if Spells(guess, secret) {
      AllExactMarking(guess[..n], secret);
      if |guess| == n {
        assert guess[..n] == guess;
      } else {
        MarkingSnoc(guess, secret);
      }
    }
    if Marking(guess, secret) == AllExact(n) {
      MarkingShape(guess, secret);
      MarkerCounts(guess, secret);
      AllExactCount(n);
      var prefix := guess[..n];
      ExactMatchesAtMost(prefix, secret);
      if |guess| == n + 1 {
        assert guess[..n] == prefix;
        assert ExactMatches(guess, secret) == ExactMatches(prefix, secret);
      } else {
        ExactMatchesAtMost(guess, secret);
        assert guess == prefix;
      }
      forall i | 0 <= i < n
        ensures ToI(guess[i]) == secret[i]
      {
        assert prefix[i] == guess[i];
      }
    }
  }

  /** A character that is not a digit, or a digit outside the secret's
      range, is never marked. */
  lemma NonSecretDigitIsAbsent(guess: string, secret: seq<int>, i: nat)
    requires |guess| <= |secret| + 1 && i < |guess|
    requires forall k :: 0 <= k < |secret| ==> 1 <= secret[k] <= 6
    requires !('1' <= guess[i] <= '6')
    ensures FancyAlgo(guess, secret)[i] == AbsentMark
  {
  }

  /** Secret digits are not consumed: one 4 in the secret earns a marker
      at every position of "4444". */
  lemma RepeatedDigitIsMarkedEverywhere()
    ensures Marking("4444", [1, 2, 3, 4]) == "---+"
  {
    var secret := [1, 2, 3, 4];
    var marks := FancyAlgo("4444", secret);
    assert ToI('4') == 4;
    assert secret[1..] == [2, 3, 4] && secret[2..] == [3, 4];
    assert marks == ["-", "-", "-", "+"];
    assert ["-", "-", "-", "+"][..3] == ["-", "-", "-"];
    assert ["-", "-", "-"][..2] == ["-", "-"];
    assert ["-", "-"][..1] == ["-"];
    assert ["-"][..0] == [];
  }

  /** Only the suffix is searched: the 1 at the end of "2641" occurs in the
      secret only before its position and is not marked. */
  lemma OnlySuffixIsSearched()
    ensures Marking("2641", [1, 2, 6, 4]) == "---"
  {
    var secret := [1, 2, 6, 4];
    var marks := FancyAlgo("2641", secret);
    assert ToI('2') == 2 && ToI('6') == 6 && ToI('4') == 4 && ToI('1') == 1;
    assert secret[1..] == [2, 6, 4] && secret[2..] == [6, 4] && secret[3..] == [4];
    assert marks == ["-", "-", "-", ""];
    assert ["-", "-", "-", ""][..3] == ["-", "-", "-"];
    assert ["-", "-", "-"][..2] == ["-", "-"];
    assert ["-", "-"][..1] == ["-"];
    assert ["-"][..0] == [];
  }
}
