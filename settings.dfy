/**
 * The validator's configuration: the PHP array passed to the constructor,
 * read option by option. Each option holds a loosely typed PHP value, and
 * each rule decides for itself which types it accepts.
 */
module Settings {
  import opened Wrappers
  import opened PhpText

  /**
   * A PHP value as a configuration option may hold it. `Absent` stands for
   * an option that is missing or null (isset is false for both); `Other` is
   * any other PHP value (a float, an object), kept only as what intval makes
   * of it.
   */
  datatype Value =
    | Absent
    | Bool(b: bool)
    | Int(n: int)
    | Str(s: Bytes)
    | List(items: seq<Bytes>)
    | Other(asInt: int)

  /** The option names the validator reads. */
  datatype Key =
    | MinimumLength
    | ContainsNumber
    | ContainsSpecialCharacter
    | ValidateCases
    | RejectPreviousPasswords
    | RejectUsernameInPassword
    | RejectSubstrings
    | RejectWordlist
    | RejectWordlistSubstring

  type Configuration = map<Key, Value>

  function Get(config: Configuration, key: Key): Value
  {
    if key in config then config[key] else Absent
  }

  /** isset($configuration[key]) */
  predicate IsSet(config: Configuration, key: Key)
  {
    Get(config, key) != Absent
  }

  /** getConfigData: the option's value when it is set, and false otherwise. */
  function ConfigData(config: Configuration, key: Key): (v: Value)
    ensures v != Absent
    ensures IsSet(config, key) ==> v == config[key]
    ensures !IsSet(config, key) ==> v == Bool(false)
  {
    if IsSet(config, key) then Get(config, key) else Bool(false)
  }

  /** intval of a configuration value. */
  function Intval(v: Value): int
  {
    match v
    case Absent => 0
    case Bool(b) => if b then 1 else 0
    case Int(n) => n
    case Str(s) => IntvalOfString(s)
    case List(items) => if items == [] then 0 else 1
    case Other(n) => n
  }

  /**
   * The minimum length validateLength enforces: intval of the option, where
   * 0 (which is also what a missing option gives) means 1.
   */
  function LengthMinimum(length: Value): (m: int)
    ensures m != 0
    ensures Intval(length) != 0 ==> m == Intval(length)
    ensures Intval(length) == 0 ==> m == 1
  {
    var n := Intval(length);
    if n == 0 then 1 else n
  }

  /** A minimum length given as a string of digits is read as that number. */
  lemma LengthMinimumOfString(n: int)
    ensures LengthMinimum(Str(Decimal(n))) == if n == 0 then 1 else n
  {
    IntvalOfDecimal(n);
  }

  /**
   * The minimum count containsNumber and containsSpecialCharacter ask for:
   * true is 1, false is 0, an integer is itself, and any other type is
   * refused.
   */
  function MinimumCount(validate: Value): Option<int>
  {
    match validate
    case Bool(b) => Some(if b then 1 else 0)
    case Int(n) => Some(n)
    case _ => None
  }

  /**
   * The file name is_file and file_get_contents see for a wordlist option:
   * strings as they are, and integers and booleans as PHP converts them to
   * strings. An array or another value names no file.
   */
  function PathOf(filePath: Value): Option<Bytes>
  {
    match filePath
    case Str(s) => Some(s)
    case Int(n) => Some(Decimal(n))
    case Bool(b) => Some(if b then Ascii("1") else [])
    case _ => None
  }
}
