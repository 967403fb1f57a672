/**
 * The strength score of a completed evaluation: what it depends on, its
 * bounds, and the two ends of the clamp.
 */
module Scoring {
  import opened PhpText
  import opened Settings
  import opened Rules
  import opened Evaluation

  /**
   * A completed evaluation scores the password by its strength score alone,
   * between 0 and 100, and leaves the three counters at the password's digit,
   * special character and letter counts.
   */
  lemma ScoreReported(input: Inputs, before: Tally)
    requires Validate(input, before).Done?
    ensures var t, pw := Validate(input, before).tally, input.password;
      && t.score == StrengthScore(pw)
      && 0 <= t.score <= 100
      && t.numberCount == Count(pw, Digit)
      && t.specialCount == Count(pw, Special)
      && t.letterCount == Count(pw, Lowercase) + Count(pw, Uppercase)
  {
    ValidateCompletes(input, before);
  }

  /** Two completed evaluations of the same password score it alike, whatever their options and earlier state. */
  lemma ScoreIgnoresConfiguration(a: Inputs, beforeA: Tally, b: Inputs, beforeB: Tally)
    requires Validate(a, beforeA).Done? && Validate(b, beforeB).Done?
    requires a.password == b.password
    ensures Validate(a, beforeA).tally.score == Validate(b, beforeB).tally.score
  {
    ValidateCompletes(a, beforeA);
    ValidateCompletes(b, beforeB);
  }

  /** The empty password scores 0: its penalties push the sum below the lower clamp. */
  lemma EmptyPasswordScoresZero()
    ensures Unclamped([]) < 0
    ensures StrengthScore([]) == 0
  {
    assert Trim([]) == [];
  }

  /** Thirty bytes after trimming are worth full marks on their own. */
  lemma LongPasswordScoresFullMarks(password: Bytes)
    requires |Trim(password)| >= 30
    ensures StrengthScore(password) == 100
  {
  }

  /**
   * The upper clamp is reached: a password of at least 22 bytes after
   * trimming, with a digit and a letter, already sums to more than 100.
   */
  lemma UpperClampReached(password: Bytes)
    requires |Trim(password)| >= 22
    requires Count(password, Digit) > 0
    requires Count(password, Lowercase) + Count(password, Uppercase) > 0
    ensures Unclamped(password) > 100
    ensures StrengthScore(password) == 100
  {
  }
}
