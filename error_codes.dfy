/**
 * The error codes the validator collects. In the source each one is a
 * string: an identifier, and for some identifiers a colon and one parameter
 * (`PASSWORD_LENGTH:8`, `PASSWORD_CONTAINS_SUBSTRING:secret`). Here a code is
 * a value, `Render` gives the string the source stores, and two functions
 * split such a string back into identifier and parameter: `ExplodeCode`, the
 * way getHumanReadableErrorMessage does it, and `SplitCode`, at the first
 * colon only.
 */
module ErrorCodes {
  import opened Wrappers
  import opened PhpText
  import opened Settings

  datatype ErrorCode =
    | PasswordLength(minimum: int)
    | NotEnoughNumbers(minimum: int)
    | NotEnoughSpecialCharacters(minimum: int)
    | NoLowercase
    | NoUppercase
    | PreviouslyUsed
    | ContainsUsername
    | ContainsSubstring(word: Bytes)
    | InBlacklist
    | PartInBlacklist(word: Bytes)

  function IdentifierName(e: ErrorCode): string
  {
    match e
    case PasswordLength(_) => "PASSWORD_LENGTH"
    case NotEnoughNumbers(_) => "PASSWORD_NOT_ENOUGH_NUMBERS"
    case NotEnoughSpecialCharacters(_) => "PASSWORD_NOT_ENOUGH_SPECIAL_CHARACTERS"
    case NoLowercase => "PASSWORD_CONTAINS_NO_LOWERCASE"
    case NoUppercase => "PASSWORD_CONTAINS_NO_UPPERCASE"
    case PreviouslyUsed => "PASSWORD_PREVIOUSLY_USED"
    case ContainsUsername => "PASSWORD_CONTAINS_USERNAME"
    case ContainsSubstring(_) => "PASSWORD_CONTAINS_SUBSTRING"
    case InBlacklist => "PASSWORD_IN_BLACKLIST"
    case PartInBlacklist(_) => "PASSWORD_PART_IN_BLACKLIST"
  }

  /** The identifier as the bytes of the code string. */
  function Identifier(e: ErrorCode): Bytes
  {
    Ascii(IdentifierName(e))
  }

  /** The parameter after the colon: a minimum as a decimal number, or a word as it was configured. */
  function Parameter(e: ErrorCode): Option<Bytes>
  {
    match e
    case PasswordLength(m) => Some(Decimal(m))
    case NotEnoughNumbers(m) => Some(Decimal(m))
    case NotEnoughSpecialCharacters(m) => Some(Decimal(m))
    case ContainsSubstring(w) => Some(w)
    case PartInBlacklist(w) => Some(w)
    case _ => None
  }

  /** The string the source appends to its error list for `e`. */
  function Render(e: ErrorCode): Bytes
  {
    match Parameter(e)
    case None => Identifier(e)
    case Some(p) => Identifier(e) + [Colon] + p
  }

  /** The option whose rule emits each code. */
  function Origin(e: ErrorCode): Key
  {
    match e
    case PasswordLength(_) => MinimumLength
    case NotEnoughNumbers(_) => ContainsNumber
    case NotEnoughSpecialCharacters(_) => ContainsSpecialCharacter
    case NoLowercase => ValidateCases
    case NoUppercase => ValidateCases
    case PreviouslyUsed => RejectPreviousPasswords
    case ContainsUsername => RejectUsernameInPassword
    case ContainsSubstring(_) => RejectSubstrings
    case InBlacklist => RejectWordlist
    case PartInBlacklist(_) => RejectWordlistSubstring
  }

  /** Identifiers are written in capitals and underscores. */
  predicate IsUpperSnake(s: string)
  {
    forall i :: 0 <= i < |s| ==> 'A' <= s[i] <= 'Z' || s[i] == '_'
  }

  lemma UpperSnakeHasNoColon(s: string)
    requires IsUpperSnake(s)
    ensures Colon !in Ascii(s)
  {
    forall i | 0 <= i < |s| ensures Ascii(s)[i] != Colon {
    }
  }

  // The identifiers are checked in four groups, each small enough for the solver.

  lemma MinimumIdentifiersAreUpperSnake(e: ErrorCode)
    requires e.PasswordLength? || e.NotEnoughNumbers? || e.NotEnoughSpecialCharacters?
    ensures IsUpperSnake(IdentifierName(e))
  {
    match e
    case PasswordLength(_) =>
    case NotEnoughNumbers(_) =>
    case NotEnoughSpecialCharacters(_) =>
  }

  lemma WordIdentifiersAreUpperSnake(e: ErrorCode)
    requires e.ContainsSubstring? || e.PartInBlacklist?
    ensures IsUpperSnake(IdentifierName(e))
  {
    match e
    case ContainsSubstring(_) =>
    case PartInBlacklist(_) =>
  }

  lemma CaseIdentifiersAreUpperSnake(e: ErrorCode)
    requires e.NoLowercase? || e.NoUppercase?
    ensures IsUpperSnake(IdentifierName(e))
  {
    match e
    case NoLowercase =>
    case NoUppercase =>
  }

  lemma FlagIdentifiersAreUpperSnake(e: ErrorCode)
    requires e.PreviouslyUsed? || e.ContainsUsername? || e.InBlacklist?
    ensures IsUpperSnake(IdentifierName(e))
  {
    match e
    case PreviouslyUsed =>
    case ContainsUsername =>
    case InBlacklist =>
  }

  lemma IdentifierNameIsUpperSnake(e: ErrorCode)
    ensures IsUpperSnake(IdentifierName(e))
  {
    if e.PasswordLength? || e.NotEnoughNumbers? || e.NotEnoughSpecialCharacters? {
      MinimumIdentifiersAreUpperSnake(e);
    } else if e.ContainsSubstring? || e.PartInBlacklist? {
      WordIdentifiersAreUpperSnake(e);
    } else if e.NoLowercase? || e.NoUppercase? {
      CaseIdentifiersAreUpperSnake(e);
    } else {
      FlagIdentifiersAreUpperSnake(e);
    }
  }

  lemma IdentifierHasNoColon(e: ErrorCode)
    ensures Colon !in Identifier(e)
  {
    IdentifierNameIsUpperSnake(e);
    UpperSnakeHasNoColon(IdentifierName(e));
  }

  // ---------------------------------------------------------------------------
  // Reading a code back
  // ---------------------------------------------------------------------------

  /**
   * getHumanReadableErrorMessage's split: explode the code on every colon,
   * take the first piece as the identifier and the second piece, when there
   * is one, as the parameter.
   */
  function ExplodeCode(code: Bytes): (Bytes, Option<Bytes>)
  {
    var parts := Explode(Colon, code);
    (parts[0], if |parts| > 1 then Some(parts[1]) else None)
  }

  /** The split at the first colon only: the parameter is all that follows it. */
  function SplitCode(code: Bytes): (Bytes, Option<Bytes>)
  {
    if code == [] then ([], None)
    else if code[0] == Colon then ([], Some(code[1..]))
    else
      var rest := SplitCode(code[1..]);
      ([code[0]] + rest.0, rest.1)
  }

  lemma {:induction false} SplitCodeWithoutColon(a: Bytes)
    requires Colon !in a
    ensures SplitCode(a) == (a, None)
  {
    if a != [] {
      assert Colon !in a[1..];
      SplitCodeWithoutColon(a[1..]);
      assert [a[0]] + a[1..] == a;
    }
  }

  lemma {:induction false} SplitCodeAtColon(a: Bytes, b: Bytes)
    requires Colon !in a
    ensures SplitCode(a + [Colon] + b) == (a, Some(b))
  {
    var code := a + [Colon] + b;
    if a == [] {
      assert code[1..] == b;
    } else {
      assert code[1..] == a[1..] + [Colon] + b;
      assert Colon !in a[1..];
      SplitCodeAtColon(a[1..], b);
      assert [a[0]] + a[1..] == a;
    }
  }

  /** Splitting at the first colon gives back the identifier and the whole parameter of every code. */
  lemma SplitCodeInvertsRender(e: ErrorCode)
    ensures SplitCode(Render(e)) == (Identifier(e), Parameter(e))
  {
    IdentifierHasNoColon(e);
    match Parameter(e)
    case None => SplitCodeWithoutColon(Identifier(e));
    case Some(p) => SplitCodeAtColon(Identifier(e), p);
  }

  /** getHumanReadableErrorMessage's split is right for every code whose parameter holds no colon. */
  lemma ExplodeCodeWithoutColonInParameter(e: ErrorCode)
    requires Parameter(e).Some? ==> Colon !in Parameter(e).value
    ensures ExplodeCode(Render(e)) == (Identifier(e), Parameter(e))
  {
    IdentifierHasNoColon(e);
    match Parameter(e)
    case None => ExplodeWithoutSeparator(Colon, Identifier(e));
    case Some(p) =>
      ExplodeAtFirstSeparator(Colon, Identifier(e), p);
      ExplodeWithoutSeparator(Colon, p);
  }

  /**
   * A forbidden substring with a colon in it, `a:b`, comes back from
   * getHumanReadableErrorMessage's split as `a` alone.
   */
  lemma ExplodeCodeTruncatesParameter(a: Bytes, b: Bytes)
    requires Colon !in a
    ensures Parameter(ContainsSubstring(a + [Colon] + b)) == Some(a + [Colon] + b)
    ensures ExplodeCode(Render(ContainsSubstring(a + [Colon] + b))) == (Identifier(ContainsSubstring([])), Some(a))
  {
    var e := ContainsSubstring(a + [Colon] + b);
    IdentifierHasNoColon(e);
    var id := Identifier(e);
    ExplodeAtFirstSeparator(Colon, id, a + [Colon] + b);
    ExplodeAtFirstSeparator(Colon, a, b);
    assert Explode(Colon, Render(e)) == [id] + ([a] + Explode(Colon, b));
  }
}
