/**
 * Worked evaluations and the behaviours of the validator that are easy to
 * miss: a password that passes with its exact score, the empty password, the
 * untrimmed exact wordlist match, wordlist lines that are never lowercased,
 * and the euro sign that counts as three special characters.
 */
module Examples {
  import opened Wrappers
  import opened PhpText
  import opened Settings
  import opened ErrorCodes
  import opened Rules
  import opened Evaluation
  import opened Reporting

  /** "Passw0rd!" */
  const Password: Bytes := [80, 97, 115, 115, 119, 48, 114, 100, 33]

  /** A minimum length of 8, and at least one digit and one special character. */
  const Strict: Configuration := map[MinimumLength := Int(8), ContainsNumber := Bool(true), ContainsSpecialCharacter := Bool(true)]

  lemma CountOfThree(a: Bytes, b: Bytes, c: Bytes, k: CharClass)
    ensures Count(a + b + c, k) == Count(a, k) + Count(b, k) + Count(c, k)
  {
    CountAppend(a, b, k);
    CountAppend(a + b, c, k);
  }

  /** The three pieces "Pas", "sw0" and "rd!" of the password. */
  lemma PasswordPieces(k: CharClass)
    ensures Count(Password, k) == Count([80, 97, 115], k) + Count([115, 119, 48], k) + Count([114, 100, 33], k)
  {
    assert [80, 97, 115] + [115, 119, 48] + [114, 100, 33] == Password;
    CountOfThree([80, 97, 115], [115, 119, 48], [114, 100, 33], k);
  }

  lemma PasswordDigits()
    ensures Count(Password, Digit) == 1
  {
    PasswordPieces(Digit);
  }

  lemma PasswordSpecials()
    ensures Count(Password, Special) == 1
  {
    PasswordPieces(Special);
  }

  lemma PasswordLetters()
    ensures Count(Password, Lowercase) == 6 && Count(Password, Uppercase) == 1
  {
    PasswordPieces(Lowercase);
    PasswordPieces(Uppercase);
  }

  lemma PasswordCounts()
    ensures Trim(Password) == Password
    ensures Count(Password, Digit) == 1 && Count(Password, Special) == 1
    ensures Count(Password, Lowercase) == 6 && Count(Password, Uppercase) == 1
  {
    PasswordDigits();
    PasswordSpecials();
    PasswordLetters();
  }

  /** 36 points for nine bytes, 10 for mixing cases, 45 for the three pairs of kinds. */
  lemma PasswordScore()
    ensures StrengthScore(Password) == 91
    ensures Count(Password, Digit) == 1 && Count(Password, Special) == 1
    ensures Count(Password, Lowercase) + Count(Password, Uppercase) == 7
  {
    PasswordCounts();
  }

  /** What the nine rules decide on "Passw0rd!" under the strict options: every rule completes and emits nothing. */
  lemma StrictDecisions(input: Inputs)
    requires input.config == Strict && input.password == Password
    ensures Decide(input) == Decisions(Emits([]), Emits([]), Emits([]), Emits([]), Emits([]), Emits([]), Emits([]), Emits([]), Emits([]))
  {
    PasswordCounts();
  }

  /**
   * "Passw0rd!" meets the strict options, whatever the username, delegate and
   * files: nothing is reported and it scores 91.
   */
  lemma StrictPasswordPasses(input: Inputs, before: Tally)
    requires input.config == Strict && input.password == Password
    ensures Validate(input, before) == Done(Tally([], 91, 1, 1, 7))
  {
    StrictDecisions(input);
    PasswordScore();
    QuietEvaluation(input, before);
  }

  /** With no options at all, the rules decide on the empty password that it is too short for the minimum of 1. */
  lemma EmptyDecisions(input: Inputs)
    requires input.config == map[] && input.password == []
    ensures Decide(input) == Decisions(Emits([PasswordLength(1)]), Emits([]), Emits([]), Emits([]), Emits([]), Emits([]), Emits([]), Emits([]), Emits([]))
  {
    assert Trim([]) == [];
  }

  /** With no options at all, the empty password is reported as too short and scores 0. */
  lemma EmptyPasswordFails(input: Inputs, before: Tally)
    requires input.config == map[] && input.password == []
    ensures Validate(input, before) == Done(Tally([PasswordLength(1)], 0, 0, 0, 0))
  {
    EmptyDecisions(input);
    assert StrengthScore([]) == 0 by { assert Trim([]) == []; }
    ValidateCompletes(input, before);
    ErrorsOfOrder(Decide(input));
  }

  /** "ab", the forbidden word, occurs in "xAB" once case is ignored. */
  lemma SubstringIgnoresCase()
    ensures SubstringsOutcome(List([[97, 98]]), [120, 65, 66]) == Emits([ContainsSubstring([97, 98])])
  {
    var lowered := Lower([120, 65, 66]);
    assert lowered == [120, 97, 98];
    assert OccursAt(lowered, [97, 98], 1);
    StrStrFindsOccurrence(lowered, [97, 98]);
    assert Lower([97, 98]) == [97, 98];
  }

  /**
   * The exact wordlist match lowercases the password but does not trim it:
   * "ab " is not reported although the file holds the line "ab".
   */
  lemma ExactWordlistIsNotTrimmed(path: Bytes)
    requires path != []
    ensures Trim([97, 98, 32]) == [97, 98]
    ensures WordlistOutcome(Str(path), [97, 98, 32], map[path := [97, 98]]) == Emits([])
  {
    ExplodeWithoutSeparator(Newline, [97, 98]);
    assert Lower([97, 98, 32]) == [97, 98, 32];
  }

  /** strtolower leaves no capital letter behind. */
  lemma LowerHasNoUppercase(s: Bytes)
    ensures forall i :: 0 <= i < |Lower(s)| ==> !InClass(Lower(s)[i], Uppercase)
  {
  }

  /**
   * Wordlist lines are compared as they are, without lowercasing: a line
   * holding a capital letter never matches any password, neither exactly nor
   * as a part.
   */
  lemma WordlistLinesAreNotLowercased(line: Bytes, password: Bytes, j: int)
    requires 0 <= j < |line| && InClass(line[j], Uppercase)
    ensures Lower(password) != line
    ensures !Contains(Lower(password), line)
  {
    var lowered := Lower(password);
    LowerHasNoUppercase(password);
    assert |lowered| == |line| ==> lowered[j] != line[j];
    forall i ensures !OccursAt(lowered, line, i) {
      if 0 <= i && i + |line| <= |lowered| {
        assert lowered[i..i + |line|][j] == lowered[i + j];
      }
    }
    StrStrFindsOccurrence(lowered, line);
  }

  /** The euro sign, three bytes in UTF-8, counts as three special characters. */
  lemma EuroSignCountsThrice()
    ensures Count([0xE2, 0x82, 0xAC], Special) == 3
  {
  }
}
