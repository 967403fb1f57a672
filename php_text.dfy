/**
 * The byte-string primitives the validator is built from. A PHP string is a
 * sequence of bytes, and every string operation the validator uses works byte
 * by byte: trim, strtolower, strstr, explode, intval of a string, the
 * conversion of an integer to a string, and the one-byte character classes of
 * its preg_match_all patterns (none of which carries the `u` modifier).
 */
module PhpText {
  import opened Wrappers

  type byte = x: int | 0 <= x < 256
  type Bytes = seq<byte>

  const Colon: byte := 58
  const Newline: byte := 10

  /** The bytes of a literal written in ASCII. */
  function Ascii(s: string): Bytes
  {
    seq(|s|, i requires 0 <= i < |s| => (s[i] as int) % 256)
  }

  // ---------------------------------------------------------------------------
  // Character classes of the preg_match_all patterns
  // ---------------------------------------------------------------------------

  /** `[0-9]`, `[a-z]`, `[A-Z]` and the special-character class. */
  datatype CharClass = Digit | Lowercase | Uppercase | Special

  /**
   * The bytes the special-character class matches: the ASCII punctuation
   * | ! @ # $ % & * / = ? , ; . : - _ + ~ ^ < > ( ) [ ] { } ` ' \ (every
   * ASCII punctuation mark except the double quote, 34), and, because the
   * pattern is matched byte by byte, each byte of the UTF-8 encodings of the
   * diaeresis (C2 A8) and of the euro sign (E2 82 AC) on its own.
   */
  predicate IsSpecialByte(c: byte)
  {
    || (33 <= c <= 47 && c != 34)
    || 58 <= c <= 64
    || 91 <= c <= 96
    || 123 <= c <= 126
    || c == 0xC2 || c == 0xA8 || c == 0xE2 || c == 0x82 || c == 0xAC
  }

  predicate InClass(c: byte, k: CharClass)
  {
    match k
    case Digit => 48 <= c <= 57
    case Lowercase => 97 <= c <= 122
    case Uppercase => 65 <= c <= 90
    case Special => IsSpecialByte(c)
  }

  /** The number of matches preg_match_all finds for a one-byte class. */
  function Count(s: Bytes, k: CharClass): (n: nat)
    ensures n <= |s|
  {
    if s == [] then 0
    else Count(s[..|s| - 1], k) + (if InClass(s[|s| - 1], k) then 1 else 0)
  }

  /** A class is matched nowhere exactly when no byte of the string is in it. */
  lemma {:induction false} CountZeroIff(s: Bytes, k: CharClass)
    ensures Count(s, k) == 0 <==> forall i :: 0 <= i < |s| ==> !InClass(s[i], k)
  {
    if s != [] {
      var init := s[..|s| - 1];
      CountZeroIff(init, k);
      assert forall i :: 0 <= i < |init| ==> init[i] == s[i];
    }
  }

  /** Matches in two strings put together are the matches in each. */
  lemma {:induction false} CountAppend(s: Bytes, t: Bytes, k: CharClass)
    ensures Count(s + t, k) == Count(s, k) + Count(t, k)
    decreases |t|
  {
    if t == [] {
      assert s + t == s;
    } else {
      var init := t[..|t| - 1];
      CountAppend(s, init, k);
      assert (s + t)[..|s + t| - 1] == s + init;
    }
  }

  // ---------------------------------------------------------------------------
  // trim
  // ---------------------------------------------------------------------------

  /** The bytes trim removes by default: space, tab, LF, CR, NUL and vertical tab. */
  predicate IsTrimSpace(c: byte)
  {
    c == 32 || c == 9 || c == 10 || c == 13 || c == 0 || c == 11
  }

  predicate AllTrimSpace(s: Bytes)
  {
    forall i :: 0 <= i < |s| ==> IsTrimSpace(s[i])
  }

  function TrimLeft(s: Bytes): Bytes
  {
    if s != [] && IsTrimSpace(s[0]) then TrimLeft(s[1..]) else s
  }

  function TrimRight(s: Bytes): Bytes
  {
    if s != [] && IsTrimSpace(s[|s| - 1]) then TrimRight(s[..|s| - 1]) else s
  }

  function Trim(s: Bytes): Bytes
  {
    TrimRight(TrimLeft(s))
  }

  /**
   * `r` is the infix of `s` that starts at `i`, everything of `s` outside it
   * is trim whitespace, and neither end of `r` is.
   */
  ghost predicate StripsEnds(s: Bytes, r: Bytes, i: int)
  {
    && 0 <= i <= i + |r| <= |s|
    && r == s[i..i + |r|]
    && AllTrimSpace(s[..i])
    && AllTrimSpace(s[i + |r|..])
    && (r != [] ==> !IsTrimSpace(r[0]) && !IsTrimSpace(r[|r| - 1]))
  }

  lemma {:induction false} TrimLeftStrips(s: Bytes)
    ensures |TrimLeft(s)| <= |s|
    ensures TrimLeft(s) == s[|s| - |TrimLeft(s)|..]
    ensures AllTrimSpace(s[..|s| - |TrimLeft(s)|])
    ensures TrimLeft(s) != [] ==> !IsTrimSpace(TrimLeft(s)[0])
  {
    if s != [] && IsTrimSpace(s[0]) {
      TrimLeftStrips(s[1..]);
      var k := |s[1..]| - |TrimLeft(s[1..])|;
      assert s[1..][k..] == s[k + 1..];
      assert s[..k + 1] == [s[0]] + s[1..][..k];
    }
  }

  lemma {:induction false} TrimRightStrips(s: Bytes)
    ensures |TrimRight(s)| <= |s|
    ensures TrimRight(s) == s[..|TrimRight(s)|]
    ensures AllTrimSpace(s[|TrimRight(s)|..])
    ensures TrimRight(s) != [] ==> !IsTrimSpace(TrimRight(s)[|TrimRight(s)| - 1])
  {
    if s != [] && IsTrimSpace(s[|s| - 1]) {
      var init := s[..|s| - 1];
      TrimRightStrips(init);
      var k := |TrimRight(init)|;
      assert init[..k] == s[..k];
      assert s[k..] == init[k..] + [s[|s| - 1]];
    }
  }

  /** trim removes exactly the whitespace runs at both ends of its argument. */
  lemma TrimStripsEnds(s: Bytes)
    ensures exists i :: StripsEnds(s, Trim(s), i)
  {
    TrimLeftStrips(s);
    var l := TrimLeft(s);
    var i := |s| - |l|;
    TrimRightStrips(l);
    var r := TrimRight(l);
    assert l == s[i..];
    assert r == l[..|r|] == s[i..i + |r|];
    assert s[i + |r|..] == l[|r|..];
    assert AllTrimSpace(s[..i]);
    assert AllTrimSpace(s[i + |r|..]);
    if r != [] {
      assert r[0] == l[0];
    }
    assert Trim(s) == r;
    assert StripsEnds(s, Trim(s), i);
  }

  // ---------------------------------------------------------------------------
  // strtolower
  // ---------------------------------------------------------------------------

  /** strtolower maps A-Z to a-z and leaves every other byte alone. */
  function LowerByte(c: byte): byte
  {
    if 65 <= c <= 90 then c + 32 else c
  }

  function Lower(s: Bytes): (r: Bytes)
    ensures |r| == |s|
  {
    seq(|s|, i requires 0 <= i < |s| => LowerByte(s[i]))
  }

  // ---------------------------------------------------------------------------
  // strstr
  // ---------------------------------------------------------------------------

  /** `needle` occurs in `haystack` at offset `i`. */
  predicate OccursAt(haystack: Bytes, needle: Bytes, i: int)
  {
    0 <= i && i + |needle| <= |haystack| && haystack[i..i + |needle|] == needle
  }

  /**
   * strstr: the rest of `haystack` from the first occurrence of `needle` on,
   * or nothing when there is none. An empty needle occurs at offset 0.
   */
  function StrStr(haystack: Bytes, needle: Bytes): Option<Bytes>
    decreases |haystack|
  {
    if |needle| <= |haystack| && haystack[..|needle|] == needle then Some(haystack)
    else if haystack == [] then None
    else StrStr(haystack[1..], needle)
  }

  /** `strstr(haystack, needle) !== false` */
  predicate Contains(haystack: Bytes, needle: Bytes)
  {
    StrStr(haystack, needle).Some?
  }

  /** An occurrence in the tail is an occurrence one further on in the whole. */
  lemma OccursInTail(h: Bytes, n: Bytes, i: int)
    requires h != [] && 0 <= i
    ensures OccursAt(h, n, i + 1) <==> OccursAt(h[1..], n, i)
  {
    if i + |n| <= |h[1..]| {
      assert h[1..][i..i + |n|] == h[i + 1..i + 1 + |n|];
    }
  }

  /** strstr finds an occurrence exactly when there is one. */
  lemma {:induction false} StrStrFindsOccurrence(haystack: Bytes, needle: Bytes)
    ensures Contains(haystack, needle) <==> exists i :: OccursAt(haystack, needle, i)
    decreases |haystack|
  {
    var h, n := haystack, needle;
    if |n| <= |h| && h[..|n|] == n {
      assert OccursAt(h, n, 0);
    } else if h != [] {
      StrStrFindsOccurrence(h[1..], n);
      assert !OccursAt(h, n, 0);
      if i :| OccursAt(h, n, i) {
        OccursInTail(h, n, i - 1);
      }
      if i :| OccursAt(h[1..], n, i) {
        OccursInTail(h, n, i);
      }
    }
  }

  /** strstr returns the rest of the haystack from the first occurrence on. */
  lemma {:induction false} StrStrFindsFirst(haystack: Bytes, needle: Bytes, i: int)
    requires OccursAt(haystack, needle, i)
    requires forall j :: 0 <= j < i ==> !OccursAt(haystack, needle, j)
    ensures StrStr(haystack, needle) == Some(haystack[i..])
    decreases i
  {
    var h, n := haystack, needle;
    if i > 0 {
      assert !OccursAt(h, n, 0);
      OccursInTail(h, n, i - 1);
      forall j | 0 <= j < i - 1 ensures !OccursAt(h[1..], n, j) {
        OccursInTail(h, n, j);
      }
      StrStrFindsFirst(h[1..], n, i - 1);
      assert h[1..][i - 1..] == h[i..];
    }
  }

  // ---------------------------------------------------------------------------
  // explode
  // ---------------------------------------------------------------------------

  /** explode: the pieces of `s` between the occurrences of `sep`. */
  function Explode(sep: byte, s: Bytes): (parts: seq<Bytes>)
    ensures |parts| >= 1
    decreases |s|
  {
    if s == [] then [[]]
    else
      var rest := Explode(sep, s[1..]);
      if s[0] == sep then [[]] + rest
      else [[s[0]] + rest[0]] + rest[1..]
  }

  /** implode, the inverse of explode: the pieces joined with `sep` between them. */
  function Implode(sep: byte, parts: seq<Bytes>): Bytes
    requires |parts| >= 1
  {
    if |parts| == 1 then parts[0] else parts[0] + [sep] + Implode(sep, parts[1..])
  }

  /** explode loses nothing: joining its pieces gives back the string, and no piece holds a separator. */
  lemma {:induction false} ExplodeImplode(sep: byte, s: Bytes)
    ensures Implode(sep, Explode(sep, s)) == s
    ensures forall k :: 0 <= k < |Explode(sep, s)| ==> sep !in Explode(sep, s)[k]
    decreases |s|
  {
    if s != [] {
      var rest := Explode(sep, s[1..]);
      ExplodeImplode(sep, s[1..]);
      if s[0] == sep {
        assert Explode(sep, s)[1..] == rest;
      } else {
        var parts := Explode(sep, s);
        assert parts[1..] == rest[1..];
        if |rest| > 1 {
          assert Implode(sep, rest) == rest[0] + [sep] + Implode(sep, rest[1..]);
        }
        assert s == [s[0]] + s[1..];
      }
    }
  }

  /** A string without the separator explodes into itself alone. */
  lemma {:induction false} ExplodeWithoutSeparator(sep: byte, s: Bytes)
    requires sep !in s
    ensures Explode(sep, s) == [s]
    decreases |s|
  {
    if s != [] {
      assert sep !in s[1..];
      ExplodeWithoutSeparator(sep, s[1..]);
      assert s == [s[0]] + s[1..];
    }
  }

  /** Exploding `a`, a separator and `b`, where `a` holds no separator, gives `a` and then the pieces of `b`. */
  lemma {:induction false} ExplodeAtFirstSeparator(sep: byte, a: Bytes, b: Bytes)
    requires sep !in a
    ensures Explode(sep, a + [sep] + b) == [a] + Explode(sep, b)
    decreases |a|
  {
    if a == [] {
      assert [sep] + b == a + [sep] + b;
      assert ([sep] + b)[1..] == b;
    } else {
      var s := a + [sep] + b;
      assert s[1..] == a[1..] + [sep] + b;
      assert sep !in a[1..];
      ExplodeAtFirstSeparator(sep, a[1..], b);
      assert [a[0]] + a[1..] == a;
    }
  }

  // ---------------------------------------------------------------------------
  // Integers as strings
  // ---------------------------------------------------------------------------

  predicate AllDigits(s: Bytes)
  {
    forall i :: 0 <= i < |s| ==> InClass(s[i], Digit)
  }

  /** The decimal digits of a natural number, most significant first, without leading zeros. */
  function DigitString(n: nat): (r: Bytes)
    ensures r != [] && AllDigits(r)
  {
    if n < 10 then [48 + n] else DigitString(n / 10) + [48 + n % 10]
  }

  /** The string PHP makes of an integer, as in "PASSWORD_LENGTH:$length". */
  function Decimal(n: int): Bytes
  {
    if n < 0 then [45] + DigitString(-n) else DigitString(n)
  }

  /** The value of a run of decimal digits. */
  function DigitValue(ds: Bytes): nat
    requires AllDigits(ds)
  {
    if ds == [] then 0 else DigitValue(ds[..|ds| - 1]) * 10 + (ds[|ds| - 1] - 48)
  }

  /** The longest prefix of `s` made of decimal digits. */
  function LeadingDigits(s: Bytes): (r: Bytes)
    ensures AllDigits(r)
  {
    if s != [] && InClass(s[0], Digit) then [s[0]] + LeadingDigits(s[1..]) else []
  }

  /** The whitespace intval skips before a number: space, tab, LF, vertical tab, form feed, CR. */
  predicate IsNumericSpace(c: byte)
  {
    c == 32 || 9 <= c <= 13
  }

  function SkipNumericSpace(s: Bytes): Bytes
  {
    if s != [] && IsNumericSpace(s[0]) then SkipNumericSpace(s[1..]) else s
  }

  /**
   * intval of a string: leading whitespace, an optional sign, then the
   * longest run of decimal digits; 0 when there are no digits.
   */
  function IntvalOfString(s: Bytes): int
  {
    var t := SkipNumericSpace(s);
    if t != [] && t[0] == 45 then -(DigitValue(LeadingDigits(t[1..])) as int)
    else if t != [] && t[0] == 43 then DigitValue(LeadingDigits(t[1..]))
    else DigitValue(LeadingDigits(t))
  }

  lemma {:induction false} LeadingDigitsOfDigits(s: Bytes)
    requires AllDigits(s)
    ensures LeadingDigits(s) == s
    decreases |s|
  {
    if s != [] {
      LeadingDigitsOfDigits(s[1..]);
      assert s == [s[0]] + s[1..];
    }
  }

  lemma {:induction false} DigitValueOfDigitString(n: nat)
    ensures DigitValue(DigitString(n)) == n
  {
    if n >= 10 {
      DigitValueOfDigitString(n / 10);
      var ds := DigitString(n);
      assert ds[..|ds| - 1] == DigitString(n / 10);
    }
  }

  /** intval reads back every integer PHP writes out. */
  lemma IntvalOfDecimal(n: int)
    ensures IntvalOfString(Decimal(n)) == n
  {
    var m: nat := if n < 0 then -n else n;
    var ds := DigitString(m);
    LeadingDigitsOfDigits(ds);
    DigitValueOfDigitString(m);
    if n < 0 {
      assert SkipNumericSpace(Decimal(n)) == Decimal(n);
      assert Decimal(n)[1..] == ds;
    } else {
      assert SkipNumericSpace(ds) == ds;
    }
  }
}
