/**
 * The validator object itself. It holds the configuration, the password, the
 * username and the delegate it is given, and the fields one evaluation fills
 * in: the error list, the score and three character counters. A `dirty` flag
 * says whether those are stale; the public getters run the evaluation only
 * then. Every private rule is a method that changes the object as the
 * source's does, proved to leave exactly the state `Rules` specifies.
 */
module Validator {
  import opened Wrappers
  import opened PhpText
  import opened Settings
  import opened ErrorCodes
  import opened Rules
  import opened Evaluation

  /** What a public method gives back: its value, or the exception it lets through. */
  datatype Result<T> = Returned(value: T) | Raised(failure: Failure)

  /** What a getter sees: a fresh evaluation when the fields are stale, else the fields as they are. */
  function Answer(dirty: bool, input: Inputs, fields: Tally): Step
  {
    if dirty then Validate(input, fields) else Done(fields)
  }

  /** The position of every rule in `Order`. */
  lemma RulePositions()
    ensures |Order| == 9
    ensures Order[0] == MinimumLength && Order[1] == ContainsNumber && Order[2] == ContainsSpecialCharacter
    ensures Order[3] == ValidateCases && Order[4] == RejectPreviousPasswords && Order[5] == RejectUsernameInPassword
    ensures Order[6] == RejectSubstrings && Order[7] == RejectWordlist && Order[8] == RejectWordlistSubstring
  {
  }

  /**
   * One step of validatePassword: when `run` is what the rules from position
   * `i` on do to `t`, and `s` is what the rule at `i` does to `t`, then either
   * that rule threw and `s` is the whole outcome, or the rules from `i + 1` on
   * do the same to what it left.
   */
  lemma Advance(o: Decisions, password: Bytes, i: nat, t: Tally, s: Step, run: Step)
    requires i < |Order| && run == Run(Order[i..], o, password, t)
    requires s == Settle(t, o.At(Order[i]), RuleEffect(Order[i], password, t))
    ensures s.Thrown? ==> s == run
    ensures s.Done? ==> run == Run(Order[i + 1..], o, password, s.tally)
  {
    assert Order[i..][1..] == Order[i + 1..];
  }

  /** A rule that decides nothing and is not one of the four that count characters leaves the fields as they are. */
  lemma Skipped(o: Decisions, password: Bytes, k: Key, t: Tally)
    requires Position(k) >= 4 && o.At(k) == Emits([])
    ensures Settle(t, o.At(k), RuleEffect(k, password, t)) == Done(t)
  {
    assert t.errors + [] == t.errors;
  }

  /** The forbidden words up to and including the `i`th: the codes for those before it, then its own. */
  lemma SubstringErrorsStep(lowered: Bytes, words: seq<Bytes>, i: nat)
    requires i < |words|
    ensures SubstringErrors(lowered, words[..i + 1])
            == SubstringErrors(lowered, words[..i]) + (if Contains(lowered, Lower(words[i])) then [ContainsSubstring(words[i])] else [])
  {
    assert words[..i + 1][..i] == words[..i];
  }

  /** The wordlist lines up to and including the `i`th: the codes for those before it, then its own. */
  lemma PartErrorsStep(lowered: Bytes, lines: seq<Bytes>, i: nat)
    requires i < |lines|
    ensures PartErrors(lowered, lines[..i + 1])
            == PartErrors(lowered, lines[..i])
               + (if |lines[i]| > 0 && Contains(lowered, lines[i]) && |lines[i]| > 4 then [PartInBlacklist(lines[i])] else [])
  {
    assert lines[..i + 1][..i] == lines[..i];
  }

  class KLGPasswordValidator {
    const configuration: Configuration
    var errors: seq<ErrorCode>
    var password: Bytes
    var username: Bytes
    var score: int
    var passwordDelegate: Delegate
    var scoreNumberCount: int
    var scoreSpecialCharactersCount: int
    var scoreCharactersCount: int
    var dirty: bool
    /** The files the last completed evaluation read. */
    ghost var validatedFiles: FileSystem

    /** The fields an evaluation writes. */
    function Snapshot(): Tally
      reads this
    {
      Tally(errors, score, scoreNumberCount, scoreSpecialCharactersCount, scoreCharactersCount)
    }

    /** What an evaluation reads, with the files it would find. */
    function Current(files: FileSystem): Inputs
      reads this
    {
      Inputs(configuration, password, username, passwordDelegate, files)
    }

    /** The options, password, username and delegate an evaluation with these files reads are the object's. */
    ghost predicate Sees(input: Inputs, files: FileSystem)
      reads this
    {
      && input.config == configuration && input.password == password && input.username == username
      && input.delegate == passwordDelegate && input.files == files
    }

    /** Unless something changed since, the fields hold what the last completed evaluation left. */
    ghost predicate Cached()
      reads this
    {
      !dirty ==> Snapshot() == Completed(Current(validatedFiles))
    }

    /** Where a rule left the object: the fields, and the exception when it threw one. */
    function Reached(failure: Option<Failure>): Step
      reads this
    {
      match failure
      case None => Done(Snapshot())
      case Some(f) => Thrown(Snapshot(), f)
    }

    constructor (configuration: Configuration)
      ensures this.configuration == configuration
      ensures errors == [] && password == [] && username == [] && passwordDelegate == NoDelegate
      ensures score == 0 && scoreNumberCount == 0 && scoreSpecialCharactersCount == 0 && scoreCharactersCount == 0
      ensures dirty && Cached()
    {
      this.configuration := configuration;
      errors := [];
      password := [];
      username := [];
      score := 0;
      passwordDelegate := NoDelegate;
      scoreNumberCount := 0;
      scoreSpecialCharactersCount := 0;
      scoreCharactersCount := 0;
      dirty := true;
    }

    method SetUsername(username: Bytes) returns (self: KLGPasswordValidator)
      modifies this`username, this`dirty
      ensures self == this && this.username == username && dirty && Cached()
    {
      this.username := username;
      dirty := true;
      self := this;
    }

    method SetPassword(password: Bytes) returns (self: KLGPasswordValidator)
      modifies this`password, this`dirty
      ensures self == this && this.password == password && dirty && Cached()
    {
      this.password := password;
      dirty := true;
      self := this;
    }

    method SetPasswordDelegate(delegate: Delegate)
      modifies this`passwordDelegate, this`dirty
      ensures passwordDelegate == delegate && dirty && Cached()
    {
      dirty := true;
      passwordDelegate := delegate;
    }

    /** isPasswordValid: whether the evaluation, fresh or cached, reports no error. */
    method IsPasswordValid(files: FileSystem) returns (r: Result<bool>)
      requires Cached()
      modifies this`errors, this`score, this`scoreNumberCount, this`scoreSpecialCharactersCount,
               this`scoreCharactersCount, this`dirty, this`validatedFiles
      ensures var s := Answer(old(dirty), old(Current(files)), old(Snapshot()));
        && Snapshot() == s.tally
        && r == (if s.Done? then Returned(s.tally.errors == []) else Raised(s.failure))
        && dirty == (old(dirty) && s.Thrown?)
      ensures Current(files) == old(Current(files)) && Cached()
    {
      var found := GetErrors(files);
      match found
      case Raised(f) => r := Raised(f);
      case Returned(es) => r := Returned(|es| == 0);
    }

    /** getErrors: the error list, evaluating first when the fields are stale. */
    method GetErrors(files: FileSystem) returns (r: Result<seq<ErrorCode>>)
      requires Cached()
      modifies this`errors, this`score, this`scoreNumberCount, this`scoreSpecialCharactersCount,
               this`scoreCharactersCount, this`dirty, this`validatedFiles
      ensures var s := Answer(old(dirty), old(Current(files)), old(Snapshot()));
        && Snapshot() == s.tally
        && r == (if s.Done? then Returned(s.tally.errors) else Raised(s.failure))
        && dirty == (old(dirty) && s.Thrown?)
      ensures !old(dirty) ==> r == Returned(Completed(Current(validatedFiles)).errors)
      ensures Current(files) == old(Current(files)) && Cached()
    {
      if dirty {
        var failure := ValidatePassword(files);
        if failure.Some? {
          return Raised(failure.value);
        }
      }
      r := Returned(errors);
    }

    /** getScore: the score, evaluating first when the fields are stale. */
    method GetScore(files: FileSystem) returns (r: Result<int>)
      requires Cached()
      modifies this`errors, this`score, this`scoreNumberCount, this`scoreSpecialCharactersCount,
               this`scoreCharactersCount, this`dirty, this`validatedFiles
      ensures var s := Answer(old(dirty), old(Current(files)), old(Snapshot()));
        && Snapshot() == s.tally
        && r == (if s.Done? then Returned(s.tally.score) else Raised(s.failure))
        && dirty == (old(dirty) && s.Thrown?)
      ensures !old(dirty) ==> r == Returned(Completed(Current(validatedFiles)).score)
      ensures Current(files) == old(Current(files)) && Cached()
    {
      if dirty {
        var failure := ValidatePassword(files);
        if failure.Some? {
          return Raised(failure.value);
        }
      }
      r := Returned(score);
    }

    /**
     * validatePassword: clear the errors, run the nine rules in order (the last
     * five only when their option is set), then score. An exception leaves the
     * object dirty with the fields as the rules before it left them.
     */
    method ValidatePassword(files: FileSystem) returns (failure: Option<Failure>)
      requires dirty
      modifies this`errors, this`score, this`scoreNumberCount, this`scoreSpecialCharactersCount,
               this`scoreCharactersCount, this`dirty, this`validatedFiles
      ensures Reached(failure) == Validate(old(Current(files)), old(Snapshot()))
      ensures dirty == failure.Some?
      ensures Current(files) == old(Current(files)) && Cached()
    {
      ghost var input := Current(files);
      errors := [];
      DecideAgrees(input);
      failure := RunRules(files, input, Decide(input));
      if failure.Some? {
        return;
      }
      Finish(files, input, old(Snapshot()));
    }

    /** The end of validatePassword once every rule completed: score, and mark the fields as up to date. */
    method Finish(files: FileSystem, ghost input: Inputs, ghost before: Tally)
      requires Sees(input, files)
      requires Done(Snapshot()) == Run(Order, Decide(input), password, before.(errors := []))
      modifies this`score, this`dirty, this`validatedFiles
      ensures Done(Snapshot()) == Validate(input, before)
      ensures !dirty && Cached()
    {
      var _ := CalculateScore();
      dirty := false;
      validatedFiles := files;
      ValidateCompletes(input, before);
    }

    /** The nine rules in validatePassword's order, up to the first that throws. */
    method RunRules(files: FileSystem, ghost input: Inputs, ghost o: Decisions) returns (failure: Option<Failure>)
      requires Sees(input, files) && forall k :: o.At(k) == Decision(k, input)
      modifies this`errors, this`score, this`scoreNumberCount, this`scoreSpecialCharactersCount, this`scoreCharactersCount
      ensures failure.Some? ==> Reached(failure) == Run(Order, o, password, old(Snapshot()))
      ensures failure.None? ==> Done(Snapshot()) == Run(Order, o, password, old(Snapshot()))
    {
      ghost var run := Run(Order, o, password, Snapshot());
      RulePositions();
      failure := RunRequiredRules(input, o, run);
      if failure.Some? {
        return;
      }
      failure := RunOptionalRules(files, input, o, Run(Order[4..], o, password, Snapshot()));
    }

    /** The five rules validatePassword runs only when their option is set, up to the first that throws. */
    method RunOptionalRules(files: FileSystem, ghost input: Inputs, ghost o: Decisions, ghost run: Step)
      returns (failure: Option<Failure>)
      requires Sees(input, files) && forall k :: Position(k) >= 4 ==> o.At(k) == Decision(k, input)
      requires run == Run(Order[4..], o, password, Snapshot())
      modifies this`errors
      ensures failure.Some? ==> Reached(failure) == run
      ensures failure.None? ==> Done(Snapshot()) == run
    {
      failure := RunIfSet(Key.RejectPreviousPasswords, files, input, o, run);
      if failure.Some? {
        return;
      }
      failure := RunIfSet(RejectUsernameInPassword, files, input, o, Run(Order[5..], o, password, Snapshot()));
      if failure.Some? {
        return;
      }
      failure := RunWordRules(files, input, o, Run(Order[6..], o, password, Snapshot()));
    }

    /** The last three of them, which look for forbidden words: the substrings, the wordlist and its parts. */
    method RunWordRules(files: FileSystem, ghost input: Inputs, ghost o: Decisions, ghost run: Step)
      returns (failure: Option<Failure>)
      requires Sees(input, files) && forall k :: Position(k) >= 6 ==> o.At(k) == Decision(k, input)
      requires run == Run(Order[6..], o, password, Snapshot())
      modifies this`errors
      ensures failure.Some? ==> Reached(failure) == run
      ensures failure.None? ==> Done(Snapshot()) == run
    {
      failure := RunIfSet(RejectSubstrings, files, input, o, run);
      if failure.Some? {
        return;
      }
      failure := RunIfSet(RejectWordlist, files, input, o, Run(Order[7..], o, password, Snapshot()));
      if failure.Some? {
        return;
      }
      failure := RunIfSet(RejectWordlistSubstring, files, input, o, Run(Order[8..], o, password, Snapshot()));
      assert Order[9..] == [];
    }

    /** The four rules validatePassword always runs, up to the first that throws. */
    method RunRequiredRules(ghost input: Inputs, ghost o: Decisions, ghost run: Step) returns (failure: Option<Failure>)
      requires input.config == configuration && input.password == password
      requires forall k :: Position(k) < 4 ==> o.At(k) == Decision(k, input)
      requires run == Run(Order, o, password, Snapshot())
      modifies this`errors, this`score, this`scoreNumberCount, this`scoreSpecialCharactersCount, this`scoreCharactersCount
      ensures failure.Some? ==> Reached(failure) == run
      ensures failure.None? ==> run == Run(Order[4..], o, password, Snapshot())
    {
      RulePositions();
      assert Order[0..] == Order;
      failure := None;

      ghost var t := Snapshot();
      ValidateLength(ConfigData(configuration, MinimumLength));
      Advance(o, password, 0, t, Done(Snapshot()), run);

      t := Snapshot();
      failure := ValidateContainsNumber(ConfigData(configuration, ContainsNumber));
      Advance(o, password, 1, t, Reached(failure), run);
      if failure.Some? {
        return;
      }

      t := Snapshot();
      failure := ValidateContainsSpecialCharacter(ConfigData(configuration, ContainsSpecialCharacter));
      Advance(o, password, 2, t, Reached(failure), run);
      if failure.Some? {
        return;
      }

      t := Snapshot();
      ValidateCases(ConfigData(configuration, Key.ValidateCases));
      Advance(o, password, 3, t, Done(Snapshot()), run);
    }

    /** One of the five rules validatePassword runs only when its option is set. */
    method RunIfSet(k: Key, files: FileSystem, ghost input: Inputs, ghost o: Decisions, ghost run: Step)
      returns (failure: Option<Failure>)
      requires Position(k) >= 4 && Sees(input, files) && o.At(k) == Decision(k, input)
      requires run == Run(Order[Position(k)..], o, password, Snapshot())
      modifies this`errors
      ensures failure.Some? ==> Reached(failure) == run
      ensures failure.None? ==> run == Run(Order[Position(k) + 1..], o, password, Snapshot())
    {
      ghost var i := Position(k);
      EveryRuleInOrder(k);
      failure := None;
      ghost var t := Snapshot();
      if IsSet(configuration, k) {
        var option := Get(configuration, k);
        if k == Key.RejectPreviousPasswords {
          failure := RejectPreviousPasswords(option);
        } else if k == RejectUsernameInPassword {
          failure := ValidateDoesNotContainUsername(option);
        } else if k == RejectSubstrings {
          failure := ValidateDoesNotHaveSubstrings(option);
        } else if k == RejectWordlist {
          failure := ValidatePasswordIsNotInWordlist(option, files);
        } else {
          failure := ValidatePasswordPartIsNotInWordlist(option, files);
        }
      } else {
        Skipped(o, password, k, t);
      }
      Advance(o, password, i, t, Reached(failure), run);
    }

    /** validateLength: four points per byte of the trimmed password, and the length code when it is too short. */
    method ValidateLength(length: Value)
      modifies this`errors, this`score
      ensures Done(Snapshot())
              == Settle(old(Snapshot()), LengthOutcome(length, password), RuleEffect(MinimumLength, password, old(Snapshot())))
    {
      var minimum := Intval(length);
      if minimum == 0 {
        minimum := 1;
      }
      var passwordLength := |Trim(password)|;
      score := passwordLength * 4;
      if passwordLength < minimum {
        errors := errors + [PasswordLength(minimum)];
      }
    }

    /** rejectPreviousPasswords: asks the delegate when the option is true. */
    method RejectPreviousPasswords(validate: Value) returns (failure: Option<Failure>)
      modifies this`errors
      ensures Reached(failure)
              == Settle(old(Snapshot()), PreviousOutcome(validate, password, passwordDelegate),
                        RuleEffect(Key.RejectPreviousPasswords, password, old(Snapshot())))
    {
      if validate == Bool(false) {
        return None;
      }
      if validate == Bool(true) {
        if passwordDelegate.NoDelegate? {
          return Some(DelegateNotSet);
        }
        if passwordDelegate.callable {
          if passwordDelegate.isPreviousPassword(password) {
            errors := errors + [PreviouslyUsed];
          }
          return None;
        } else {
          return Some(DelegateNotCallable);
        }
      }
      return Some(InvalidParameter(Key.RejectPreviousPasswords));
    }

    /** validateContainsNumber: counts the digits, adds the bonus for three, and checks the minimum. */
    method ValidateContainsNumber(validate: Value) returns (failure: Option<Failure>)
      modifies this`errors, this`score, this`scoreNumberCount
      ensures Reached(failure)
              == Settle(old(Snapshot()), NumberOutcome(validate, password), RuleEffect(ContainsNumber, password, old(Snapshot())))
    {
      if !validate.Bool? && !validate.Int? {
        return Some(InvalidParameter(ContainsNumber));
      }
      var minNumber: int;
      if validate == Bool(true) {
        minNumber := 1;
      } else if validate == Bool(false) {
        minNumber := 0;
      } else {
        minNumber := validate.n;
      }
      scoreNumberCount := Count(password, Digit);
      if scoreNumberCount >= 3 {
        score := score + 5;
      }
      if scoreNumberCount < minNumber {
        errors := errors + [NotEnoughNumbers(minNumber)];
      }
      return None;
    }

    /** validateContainsSpecialCharacter: the same for the special characters, with the bonus for two. */
    method ValidateContainsSpecialCharacter(validate: Value) returns (failure: Option<Failure>)
      modifies this`errors, this`score, this`scoreSpecialCharactersCount
      ensures Reached(failure)
              == Settle(old(Snapshot()), SpecialOutcome(validate, password),
                        RuleEffect(ContainsSpecialCharacter, password, old(Snapshot())))
    {
      if !validate.Bool? && !validate.Int? {
        return Some(InvalidParameter(ContainsSpecialCharacter));
      }
      var minNumber: int;
      if validate == Bool(true) {
        minNumber := 1;
      } else if validate == Bool(false) {
        minNumber := 0;
      } else {
        minNumber := validate.n;
      }
      scoreSpecialCharactersCount := Count(password, Special);
      if scoreSpecialCharactersCount >= 2 {
        score := score + 5;
      }
      if scoreSpecialCharactersCount < minNumber {
        errors := errors + [NotEnoughSpecialCharacters(minNumber)];
      }
      return None;
    }

    /** validateDoesNotContainUsername */
    method ValidateDoesNotContainUsername(validate: Value) returns (failure: Option<Failure>)
      modifies this`errors
      ensures Reached(failure)
              == Settle(old(Snapshot()), UsernameOutcome(validate, password, username),
                        RuleEffect(RejectUsernameInPassword, password, old(Snapshot())))
    {
      if !validate.Bool? {
        return Some(InvalidParameter(RejectUsernameInPassword));
      }
      if username == [] {
        return Some(UsernameUnknown);
      }
      if validate.b {
        if Contains(Lower(password), Lower(username)) {
          errors := errors + [ContainsUsername];
        }
      }
      return None;
    }

    /** validateDoesNotHaveSubstrings: one code per forbidden word found, in the order of the list. */
    method ValidateDoesNotHaveSubstrings(words: Value) returns (failure: Option<Failure>)
      modifies this`errors
      ensures Reached(failure)
              == Settle(old(Snapshot()), SubstringsOutcome(words, password), RuleEffect(RejectSubstrings, password, old(Snapshot())))
    {
      if words == Bool(false) {
        return None;
      }
      if !words.List? {
        return Some(InvalidParameter(RejectSubstrings));
      }
      if words.items == [] {
        return None;
      }
      var lowered := Lower(password);
      var i := 0;
      while i < |words.items|
        invariant 0 <= i <= |words.items|
        invariant errors == old(errors) + SubstringErrors(lowered, words.items[..i])
      {
        var word := words.items[i];
        SubstringErrorsStep(lowered, words.items, i);
        if Contains(lowered, Lower(word)) {
          errors := errors + [ContainsSubstring(word)];
        }
        i := i + 1;
      }
      assert words.items[..i] == words.items;
      return None;
    }

    /** validateCases: the bonus for mixing cases, the letter counter, and the case codes when asked for. */
    method ValidateCases(validate: Value)
      modifies this`errors, this`score, this`scoreCharactersCount
      ensures Done(Snapshot())
              == Settle(old(Snapshot()), CasesOutcome(validate, password), RuleEffect(Key.ValidateCases, password, old(Snapshot())))
    {
      var lowercase := Count(password, Lowercase);
      var uppercase := Count(password, Uppercase);
      if lowercase > 0 && uppercase > 0 {
        score := score + 10;
      }
      scoreCharactersCount := lowercase + uppercase;
      if validate == Bool(true) {
        if lowercase == 0 {
          errors := errors + [NoLowercase];
        }
        if uppercase == 0 {
          errors := errors + [NoUppercase];
        }
      }
    }

    /** validatePasswordIsNotInWordlist */
    method ValidatePasswordIsNotInWordlist(filePath: Value, files: FileSystem) returns (failure: Option<Failure>)
      modifies this`errors
      ensures Reached(failure)
              == Settle(old(Snapshot()), WordlistOutcome(filePath, password, files),
                        RuleEffect(RejectWordlist, password, old(Snapshot())))
    {
      var words := ReadWordlist(filePath, files);
      if words.None? {
        return Some(WordlistNotFound);
      }
      var lowered := Lower(password);
      if lowered in words.value {
        errors := errors + [InBlacklist];
      }
      return None;
    }

    /** validatePasswordPartIsNotInWordlist: one code per long enough line found, in the order of the file. */
    method ValidatePasswordPartIsNotInWordlist(filePath: Value, files: FileSystem) returns (failure: Option<Failure>)
      modifies this`errors
      ensures Reached(failure)
              == Settle(old(Snapshot()), WordlistPartOutcome(filePath, password, files),
                        RuleEffect(RejectWordlistSubstring, password, old(Snapshot())))
    {
      var read := ReadWordlist(filePath, files);
      if read.None? {
        return Some(WordlistNotFound);
      }
      var words := read.value;
      var lowered := Lower(password);
      var i := 0;
      while i < |words|
        invariant 0 <= i <= |words|
        invariant errors == old(errors) + PartErrors(lowered, words[..i])
      {
        var word := words[i];
        PartErrorsStep(lowered, words, i);
        if |word| > 0 && Contains(lowered, word) && |word| > 4 {
          errors := errors + [PartInBlacklist(word)];
        }
        i := i + 1;
      }
      assert words[..i] == words;
      return None;
    }

    /** calculateScore: the pair bonuses and penalties from the counters, then the clamp to 0..100. */
    method CalculateScore() returns (r: int)
      modifies this`score
      ensures Snapshot() == Rules.CalculateScore(old(Snapshot()))
      ensures r == score
    {
      if scoreNumberCount > 0 && scoreSpecialCharactersCount > 0 {
        score := score + 15;
      }
      if scoreNumberCount > 0 && scoreCharactersCount > 0 {
        score := score + 15;
      }
      if scoreSpecialCharactersCount > 0 && scoreCharactersCount > 0 {
        score := score + 15;
      }
      if scoreNumberCount == 0 && scoreSpecialCharactersCount == 0 {
        score := score - 10;
      }
      if scoreSpecialCharactersCount == 0 && scoreCharactersCount == 0 {
        score := score - 10;
      }
      if score < 0 {
        score := 0;
      }
      if score > 100 {
        score := 100;
      }
      r := score;
    }
  }
}
