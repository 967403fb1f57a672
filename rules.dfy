/**
 * What one evaluation of the validator computes, as functions of its inputs.
 *
 * validatePassword clears the error list and runs nine rules in a fixed
 * order, one per configuration option. Each rule either throws before it
 * changes anything, or appends its error codes and adjusts the score and the
 * three character counters; calculateScore then combines the counters and
 * clamps the score. A rule's codes and its failure depend only on the inputs,
 * and its effect on the score and counters only on the password: `Outcome` and
 * `RuleEffect` say what each rule does, `Run` and `Validate` chain them as
 * the source does, and the lemmas state what an evaluation yields.
 */
module Rules {
  import opened Wrappers
  import opened PhpText
  import opened Settings
  import opened ErrorCodes

  /**
   * The object given to setPasswordDelegate: none (null), or an object whose
   * isPreviousPassword may or may not be callable, with the answer it gives
   * for a password.
   */
  datatype Delegate = NoDelegate | Delegate(callable: bool, isPreviousPassword: Bytes -> bool)

  /** The regular files a wordlist option may name, with their contents. */
  type FileSystem = map<Bytes, Bytes>

  /** The exceptions the rules throw, told apart by their message. */
  datatype Failure =
    | InvalidParameter(key: Key)  // an option holds a value of a type its rule refuses
    | DelegateNotSet              // previous passwords are to be rejected but no delegate is set
    | DelegateNotCallable         // the delegate has no callable isPreviousPassword
    | UsernameUnknown             // the username rule runs while the username is empty
    | WordlistNotFound            // a wordlist option names no regular file

  /** Everything an evaluation reads. */
  datatype Inputs = Inputs(
    config: Configuration,
    password: Bytes,
    username: Bytes,
    delegate: Delegate,
    files: FileSystem)

  /** The fields an evaluation writes: the errors, the score and the three counters. */
  datatype Tally = Tally(
    errors: seq<ErrorCode>,
    score: int,
    numberCount: int,
    specialCount: int,
    letterCount: int)

  /** What one rule decides: it throws, or it emits these codes. */
  datatype Outcome = Fails(failure: Failure) | Emits(codes: seq<ErrorCode>)

  /** The state after some rules: they all completed, or one threw and left this state behind. */
  datatype Step = Done(tally: Tally) | Thrown(tally: Tally, failure: Failure)

  // ---------------------------------------------------------------------------
  // The rules, one by one
  // ---------------------------------------------------------------------------

  /** Every code an outcome emits belongs to the rule of option `k`. */
  predicate Own(k: Key, o: Outcome)
  {
    o.Emits? ==> forall e :: e in o.codes ==> Origin(e) == k
  }

  /** validateLength: the trimmed password must be at least as long as the minimum. */
  function LengthOutcome(length: Value, password: Bytes): (o: Outcome)
    ensures o.Emits?
    ensures Own(MinimumLength, o)
  {
    var m := LengthMinimum(length);
    Emits(if |Trim(password)| < m then [PasswordLength(m)] else [])
  }

  /** validateContainsNumber: at least the minimum number of digits. */
  function NumberOutcome(validate: Value, password: Bytes): (o: Outcome)
    ensures Own(ContainsNumber, o)
  {
    match MinimumCount(validate)
    case None => Fails(InvalidParameter(ContainsNumber))
    case Some(m) => Emits(if Count(password, Digit) < m then [NotEnoughNumbers(m)] else [])
  }

  /** validateContainsSpecialCharacter: at least the minimum number of special characters. */
  function SpecialOutcome(validate: Value, password: Bytes): (o: Outcome)
    ensures Own(ContainsSpecialCharacter, o)
  {
    match MinimumCount(validate)
    case None => Fails(InvalidParameter(ContainsSpecialCharacter))
    case Some(m) => Emits(if Count(password, Special) < m then [NotEnoughSpecialCharacters(m)] else [])
  }

  /** validateCases: when the option is exactly true, a lowercase and an uppercase letter, each checked on its own. */
  function CasesOutcome(validate: Value, password: Bytes): (o: Outcome)
    ensures Own(ValidateCases, o)
  {
    if validate == Bool(true) then
      Emits((if Count(password, Lowercase) == 0 then [NoLowercase] else [])
            + (if Count(password, Uppercase) == 0 then [NoUppercase] else []))
    else Emits([])
  }

  /** rejectPreviousPasswords: false skips; true asks the delegate; any other value is refused. */
  function PreviousOutcome(validate: Value, password: Bytes, delegate: Delegate): (o: Outcome)
    ensures Own(RejectPreviousPasswords, o)
  {
    match validate
    case Bool(false) => Emits([])
    case Bool(true) =>
      (match delegate
       case NoDelegate => Fails(DelegateNotSet)
       case Delegate(callable, oracle) =>
         if !callable then Fails(DelegateNotCallable)
         else Emits(if oracle(password) then [PreviouslyUsed] else []))
    case _ => Fails(InvalidParameter(RejectPreviousPasswords))
  }

  /**
   * validateDoesNotContainUsername: the option must be a boolean, and the
   * username must be known whatever the boolean is; when it is true, the
   * lowercased username must not occur in the lowercased password.
   */
  function UsernameOutcome(validate: Value, password: Bytes, username: Bytes): (o: Outcome)
    ensures Own(RejectUsernameInPassword, o)
  {
    if !validate.Bool? then Fails(InvalidParameter(RejectUsernameInPassword))
    else if username == [] then Fails(UsernameUnknown)
    else Emits(if validate.b && Contains(Lower(password), Lower(username)) then [ContainsUsername] else [])
  }

  /** The codes for the forbidden words that occur, ignoring case, in the already lowercased password. */
  function SubstringErrors(lowered: Bytes, words: seq<Bytes>): (es: seq<ErrorCode>)
    ensures forall e :: e in es ==> e.ContainsSubstring? && e.word in words && Contains(lowered, Lower(e.word))
    decreases |words|
  {
    if words == [] then []
    else
      var word := words[|words| - 1];
      SubstringErrors(lowered, words[..|words| - 1])
        + (if Contains(lowered, Lower(word)) then [ContainsSubstring(word)] else [])
  }

  /** validateDoesNotHaveSubstrings: false skips; a list is checked word by word; any other value is refused. */
  function SubstringsOutcome(words: Value, password: Bytes): (o: Outcome)
    ensures Own(RejectSubstrings, o)
  {
    match words
    case Bool(false) => Emits([])
    case List(ws) => Emits(SubstringErrors(Lower(password), ws))
    case _ => Fails(InvalidParameter(RejectSubstrings))
  }

  /** The lines of the file a wordlist option names, or nothing when it names no regular file. */
  function ReadWordlist(filePath: Value, files: FileSystem): (lines: Option<seq<Bytes>>)
    ensures lines.Some? <==> PathOf(filePath).Some? && PathOf(filePath).value != [] && PathOf(filePath).value in files
    ensures lines.Some? ==> |lines.value| >= 1
  {
    match PathOf(filePath)
    case None => None
    case Some(p) => if p != [] && p in files then Some(Explode(Newline, files[p])) else None
  }

  /** validatePasswordIsNotInWordlist: the lowercased, untrimmed password must not be a line of the file. */
  function WordlistOutcome(filePath: Value, password: Bytes, files: FileSystem): (o: Outcome)
    ensures Own(RejectWordlist, o)
  {
    match ReadWordlist(filePath, files)
    case None => Fails(WordlistNotFound)
    case Some(lines) => Emits(if Lower(password) in lines then [InBlacklist] else [])
  }

  /** The codes for the lines, taken as they are, longer than four bytes that occur in the lowercased password. */
  function PartErrors(lowered: Bytes, lines: seq<Bytes>): (es: seq<ErrorCode>)
    ensures forall e :: e in es ==> e.PartInBlacklist? && e.word in lines && |e.word| > 4 && Contains(lowered, e.word)
    decreases |lines|
  {
    if lines == [] then []
    else
      var line := lines[|lines| - 1];
      PartErrors(lowered, lines[..|lines| - 1])
        + (if |line| > 0 && Contains(lowered, line) && |line| > 4 then [PartInBlacklist(line)] else [])
  }

  /** validatePasswordPartIsNotInWordlist: no line of the file longer than four bytes may occur in the lowercased password. */
  function WordlistPartOutcome(filePath: Value, password: Bytes, files: FileSystem): (o: Outcome)
    ensures Own(RejectWordlistSubstring, o)
  {
    match ReadWordlist(filePath, files)
    case None => Fails(WordlistNotFound)
    case Some(lines) => Emits(PartErrors(Lower(password), lines))
  }

  /** What the nine rules decide for one set of inputs, one field per rule. */
  datatype Decisions = Decisions(
    length: Outcome,
    number: Outcome,
    special: Outcome,
    cases: Outcome,
    previous: Outcome,
    username: Outcome,
    substrings: Outcome,
    wordlist: Outcome,
    wordlistPart: Outcome)
  {
    /** The decision of the rule of option `k`. */
    function At(k: Key): Outcome
    {
      match k
      case MinimumLength => length
      case ContainsNumber => number
      case ContainsSpecialCharacter => special
      case ValidateCases => cases
      case RejectPreviousPasswords => previous
      case RejectUsernameInPassword => username
      case RejectSubstrings => substrings
      case RejectWordlist => wordlist
      case RejectWordlistSubstring => wordlistPart
    }
  }

  /**
   * The rule for option `k` as validatePassword calls it: the first four
   * always run, with getConfigData's value; the other five run only when the
   * option is set, with the option's own value.
   */
  function Decision(k: Key, input: Inputs): (o: Outcome)
    ensures Own(k, o)
  {
    var config, pw := input.config, input.password;
    var v := Get(config, k);
    match k
    case MinimumLength => LengthOutcome(ConfigData(config, k), pw)
    case ContainsNumber => NumberOutcome(ConfigData(config, k), pw)
    case ContainsSpecialCharacter => SpecialOutcome(ConfigData(config, k), pw)
    case ValidateCases => CasesOutcome(ConfigData(config, k), pw)
    case RejectPreviousPasswords => if IsSet(config, k) then PreviousOutcome(v, pw, input.delegate) else Emits([])
    case RejectUsernameInPassword => if IsSet(config, k) then UsernameOutcome(v, pw, input.username) else Emits([])
    case RejectSubstrings => if IsSet(config, k) then SubstringsOutcome(v, pw) else Emits([])
    case RejectWordlist => if IsSet(config, k) then WordlistOutcome(v, pw, input.files) else Emits([])
    case RejectWordlistSubstring => if IsSet(config, k) then WordlistPartOutcome(v, pw, input.files) else Emits([])
  }

  /** What the nine rules decide for one set of inputs. */
  function Decide(input: Inputs): (d: Decisions)
  {
    Decisions(
      Decision(MinimumLength, input),
      Decision(ContainsNumber, input),
      Decision(ContainsSpecialCharacter, input),
      Decision(ValidateCases, input),
      Decision(RejectPreviousPasswords, input),
      Decision(RejectUsernameInPassword, input),
      Decision(RejectSubstrings, input),
      Decision(RejectWordlist, input),
      Decision(RejectWordlistSubstring, input))
  }

  /** `Decide` holds, for each option, its `Decision`. */
  lemma DecideAgrees(input: Inputs)
    ensures forall k :: Decide(input).At(k) == Decision(k, input)
  {
    forall k ensures Decide(input).At(k) == Decision(k, input) {
      match k
      case MinimumLength =>
      case ContainsNumber =>
      case ContainsSpecialCharacter =>
      case ValidateCases =>
      case RejectPreviousPasswords =>
      case RejectUsernameInPassword =>
      case RejectSubstrings =>
      case RejectWordlist =>
      case RejectWordlistSubstring =>
    }
  }

  /**
   * What a completed rule does to the score and the counters: the length
   * rule sets the score to four points per byte of the trimmed password, the
   * next three set their counters and add their bonuses, the rest leave both
   * alone. None of it depends on the configuration.
   */
  function RuleEffect(k: Key, password: Bytes, t: Tally): (r: Tally)
    ensures r.errors == t.errors
    ensures Position(k) >= 4 ==> r == t
  {
    match k
    case MinimumLength => t.(score := 4 * |Trim(password)|)
    case ContainsNumber =>
      var digits := Count(password, Digit);
      t.(numberCount := digits, score := t.score + (if digits >= 3 then 5 else 0))
    case ContainsSpecialCharacter =>
      var specials := Count(password, Special);
      t.(specialCount := specials, score := t.score + (if specials >= 2 then 5 else 0))
    case ValidateCases =>
      var lower, upper := Count(password, Lowercase), Count(password, Uppercase);
      t.(letterCount := lower + upper, score := t.score + (if lower > 0 && upper > 0 then 10 else 0))
    case _ => t
  }

  /** The state a rule leaves: the state before it when it throws, else its effect with its codes appended. */
  function Settle(before: Tally, outcome: Outcome, after: Tally): Step
  {
    match outcome
    case Fails(f) => Thrown(before, f)
    case Emits(codes) => Done(after.(errors := before.errors + codes))
  }

  /** One rule, given what the rules decide. */
  function Apply(k: Key, outcomes: Decisions, password: Bytes, t: Tally): Step
  {
    Settle(t, outcomes.At(k), RuleEffect(k, password, t))
  }

  /** Run rules one after the other, stopping at the first that throws. */
  function Run(rules: seq<Key>, outcomes: Decisions, password: Bytes, t: Tally): Step
    decreases |rules|
  {
    if rules == [] then Done(t)
    else
      match Apply(rules[0], outcomes, password, t)
      case Thrown(u, f) => Thrown(u, f)
      case Done(u) => Run(rules[1..], outcomes, password, u)
  }

  /** The rules validatePassword always runs, in its order. */
  const AlwaysRun: seq<Key> := [MinimumLength, ContainsNumber, ContainsSpecialCharacter, ValidateCases]

  /** The rules validatePassword runs only when their option is set, in its order. */
  const RunWhenSet: seq<Key> :=
    [RejectPreviousPasswords, RejectUsernameInPassword, RejectSubstrings, RejectWordlist, RejectWordlistSubstring]

  /** The order in which validatePassword runs the rules. */
  const Order: seq<Key> := AlwaysRun + RunWhenSet

  /** The place of each option's rule in `Order`. */
  function Position(k: Key): nat
  {
    match k
    case MinimumLength => 0
    case ContainsNumber => 1
    case ContainsSpecialCharacter => 2
    case ValidateCases => 3
    case RejectPreviousPasswords => 4
    case RejectUsernameInPassword => 5
    case RejectSubstrings => 6
    case RejectWordlist => 7
    case RejectWordlistSubstring => 8
  }

  /** validatePassword calls the nine rules in this order, each once. */
  lemma OrderOfCalls()
    ensures Order == [MinimumLength, ContainsNumber, ContainsSpecialCharacter, ValidateCases,
      RejectPreviousPasswords, RejectUsernameInPassword, RejectSubstrings, RejectWordlist, RejectWordlistSubstring]
    ensures forall i, j :: 0 <= i < j < |Order| ==> Order[i] != Order[j]
  {
  }

  function Clamp(n: int): (r: int)
    ensures 0 <= r <= 100
    ensures 0 <= n <= 100 ==> r == n
  {
    if n < 0 then 0 else if n > 100 then 100 else n
  }

  /** The points calculateScore adds for each pair of character kinds the password mixes. */
  function PairBonus(digits: int, specials: int, letters: int): (b: int)
    ensures 0 <= b <= 45
    ensures b == 45 <==> digits > 0 && specials > 0 && letters > 0
    ensures b == 0 <==> (digits <= 0 || specials <= 0) && (digits <= 0 || letters <= 0) && (specials <= 0 || letters <= 0)
  {
    (if digits > 0 && specials > 0 then 15 else 0)
    + (if digits > 0 && letters > 0 then 15 else 0)
    + (if specials > 0 && letters > 0 then 15 else 0)
  }

  /** The points calculateScore takes away when the password lacks both digits and specials, and both specials and letters. */
  function Penalty(digits: int, specials: int, letters: int): (p: int)
    ensures 0 <= p <= 20
    ensures p == 0 <==> (digits != 0 || specials != 0) && (specials != 0 || letters != 0)
  {
    (if digits == 0 && specials == 0 then 10 else 0)
    + (if specials == 0 && letters == 0 then 10 else 0)
  }

  /** calculateScore: the pair bonuses and penalties from the counters, then the clamp. */
  function CalculateScore(t: Tally): (r: Tally)
    ensures 0 <= r.score <= 100
    ensures r.errors == t.errors && r.numberCount == t.numberCount
    ensures r.specialCount == t.specialCount && r.letterCount == t.letterCount
  {
    var digits, specials, letters := t.numberCount, t.specialCount, t.letterCount;
    t.(score := Clamp(t.score + PairBonus(digits, specials, letters) - Penalty(digits, specials, letters)))
  }

  /** validatePassword: clear the errors, run the rules in order, then score. */
  function Validate(input: Inputs, before: Tally): Step
  {
    match Run(Order, Decide(input), input.password, before.(errors := []))
    case Thrown(t, f) => Thrown(t, f)
    case Done(t) => Done(CalculateScore(t))
  }

  // ---------------------------------------------------------------------------
  // Reference definitions
  // ---------------------------------------------------------------------------

  /** The codes a rule emits, when it does not throw. */
  function Emitted(k: Key, outcomes: Decisions): seq<ErrorCode>
  {
    match outcomes.At(k)
    case Emits(codes) => codes
    case Fails(_) => []
  }

  /** The codes of some rules, rule after rule. */
  function ErrorsOf(rules: seq<Key>, outcomes: Decisions): seq<ErrorCode>
    decreases |rules|
  {
    if rules == [] then [] else Emitted(rules[0], outcomes) + ErrorsOf(rules[1..], outcomes)
  }

  /** The effects of some rules on the score and counters, rule after rule. */
  function Effects(rules: seq<Key>, password: Bytes, t: Tally): Tally
    decreases |rules|
  {
    if rules == [] then t else Effects(rules[1..], password, RuleEffect(rules[0], password, t))
  }

  /** The index of the first rule that throws, or the number of rules when none does. */
  function FirstFailing(rules: seq<Key>, outcomes: Decisions): (i: nat)
    ensures i <= |rules|
    ensures forall j :: 0 <= j < i ==> outcomes.At(rules[j]).Emits?
    ensures i < |rules| ==> outcomes.At(rules[i]).Fails?
    decreases |rules|
  {
    if rules == [] then 0
    else if outcomes.At(rules[0]).Fails? then 0
    else 1 + FirstFailing(rules[1..], outcomes)
  }

  /** The score of a password before the clamp: the length points, the three bonuses, the pair bonuses and penalties. */
  function Unclamped(password: Bytes): int
  {
    var digits, specials := Count(password, Digit), Count(password, Special);
    var lower, upper := Count(password, Lowercase), Count(password, Uppercase);
    4 * |Trim(password)|
    + (if digits >= 3 then 5 else 0)
    + (if specials >= 2 then 5 else 0)
    + (if lower > 0 && upper > 0 then 10 else 0)
    + PairBonus(digits, specials, lower + upper)
    - Penalty(digits, specials, lower + upper)
  }

  /** The score of a password, in one formula. */
  function StrengthScore(password: Bytes): (r: int)
    ensures 0 <= r <= 100
  {
    Clamp(Unclamped(password))
  }

  /** The condition each rule checks, stated for a rule that does not throw. */
  predicate RuleHolds(k: Key, input: Inputs)
  {
    var pw, v := input.password, Get(input.config, k);
    match k
    case MinimumLength => |Trim(pw)| >= LengthMinimum(ConfigData(input.config, k))
    case ContainsNumber =>
      var m := MinimumCount(ConfigData(input.config, k));
      m.Some? ==> Count(pw, Digit) >= m.value
    case ContainsSpecialCharacter =>
      var m := MinimumCount(ConfigData(input.config, k));
      m.Some? ==> Count(pw, Special) >= m.value
    case ValidateCases =>
      ConfigData(input.config, k) == Bool(true) ==> Count(pw, Lowercase) > 0 && Count(pw, Uppercase) > 0
    case RejectPreviousPasswords =>
      v == Bool(true) && input.delegate.Delegate? ==> !input.delegate.isPreviousPassword(pw)
    case RejectUsernameInPassword =>
      v == Bool(true) ==> !Contains(Lower(pw), Lower(input.username))
    case RejectSubstrings =>
      v.List? ==> forall i :: 0 <= i < |v.items| ==> !Contains(Lower(pw), Lower(v.items[i]))
    case RejectWordlist =>
      var lines := ReadWordlist(v, input.files);
      IsSet(input.config, k) && lines.Some? ==> Lower(pw) !in lines.value
    case RejectWordlistSubstring =>
      var lines := ReadWordlist(v, input.files);
      IsSet(input.config, k) && lines.Some? ==>
        forall i :: 0 <= i < |lines.value| && |lines.value[i]| > 4 ==> !Contains(Lower(pw), lines.value[i])
  }

  /** The state every completed evaluation ends in, whatever the state it started from. */
  function Completed(input: Inputs): Tally
  {
    var pw := input.password;
    Tally(ErrorsOf(Order, Decide(input)), StrengthScore(pw),
          Count(pw, Digit), Count(pw, Special), Count(pw, Lowercase) + Count(pw, Uppercase))
  }
}
