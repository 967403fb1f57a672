/**
 * What a completed evaluation reports, rule by rule: for each error code the
 * exact condition under which it is in the error list, and what a completed
 * evaluation tells about the configuration (the option types each rule
 * accepts, the delegate, the username, the wordlist files).
 */
module Reporting {
  import opened Wrappers
  import opened PhpText
  import opened Settings
  import opened ErrorCodes
  import opened Rules
  import opened Evaluation

  /** The error list of an evaluation that completes. */
  function Errors(input: Inputs, before: Tally): seq<ErrorCode>
    requires Validate(input, before).Done?
  {
    Validate(input, before).tally.errors
  }

  // Each rule's decision on its own, and then what a completed evaluation
  // reports: the rule completed, and its codes are in the error list exactly
  // when it emitted them.

  lemma LengthDecision(input: Inputs)
    ensures var m := LengthMinimum(ConfigData(input.config, MinimumLength));
      Decide(input).At(MinimumLength) == Emits(if |Trim(input.password)| < m then [PasswordLength(m)] else [])
  {
  }

  /**
   * The length code carries the minimum in force, is reported exactly when
   * the trimmed password is shorter, then exactly once, and then comes first.
   */
  lemma LengthReported(input: Inputs, before: Tally)
    requires Validate(input, before).Done?
    ensures var es, m := Errors(input, before), LengthMinimum(ConfigData(input.config, MinimumLength));
      && (PasswordLength(m) in es <==> |Trim(input.password)| < m)
      && (forall e :: e in es && e.PasswordLength? ==> e == PasswordLength(m))
      && multiset(es)[PasswordLength(m)] == (if |Trim(input.password)| < m then 1 else 0)
      && (|Trim(input.password)| < m ==> es[0] == PasswordLength(m))
  {
    var es, m := Errors(input, before), LengthMinimum(ConfigData(input.config, MinimumLength));
    LengthDecision(input);
    ReportedBy(input, before, MinimumLength, PasswordLength(m));
    forall e | e in es && e.PasswordLength? ensures e == PasswordLength(m) {
      ReportedBy(input, before, MinimumLength, e);
    }
    LengthCodesFirst(input, before);
    LengthCodeOnce(input, before);
  }

  /** Only the length rule emits a length code, so the error list holds its codes and no other copy. */
  lemma LengthCodeOnce(input: Inputs, before: Tally)
    requires Validate(input, before).Done?
    ensures var m := LengthMinimum(ConfigData(input.config, MinimumLength));
      multiset(Errors(input, before))[PasswordLength(m)] == (if |Trim(input.password)| < m then 1 else 0)
  {
    var d, m := Decide(input), LengthMinimum(ConfigData(input.config, MinimumLength));
    ValidateCompletes(input, before);
    ErrorsOfCons(Order, d);
    DecisionsTagged(input);
    ErrorsOfOrigins(Order[1..], d);
    LengthDecision(input);
    var rest := ErrorsOf(Order[1..], d);
    assert PasswordLength(m) !in rest;
    assert Errors(input, before) == Emitted(MinimumLength, d) + rest;
  }

  lemma NumberDecision(input: Inputs, m: int)
    requires Decide(input).At(ContainsNumber).Emits?
    ensures MinimumCount(ConfigData(input.config, ContainsNumber)).Some?
    ensures (NotEnoughNumbers(m) in Decide(input).At(ContainsNumber).codes)
        <==> MinimumCount(ConfigData(input.config, ContainsNumber)) == Some(m) && Count(input.password, Digit) < m
  {
  }

  /**
   * A completed evaluation had a boolean or an integer for containsNumber,
   * and reports a missing digit count exactly for that minimum when the
   * password has fewer digits.
   */
  lemma NumbersReported(input: Inputs, before: Tally, m: int)
    requires Validate(input, before).Done?
    ensures MinimumCount(ConfigData(input.config, ContainsNumber)).Some?
    ensures (NotEnoughNumbers(m) in Errors(input, before))
        <==> MinimumCount(ConfigData(input.config, ContainsNumber)) == Some(m) && Count(input.password, Digit) < m
  {
    ReportedBy(input, before, ContainsNumber, NotEnoughNumbers(m));
    NumberDecision(input, m);
  }

  lemma SpecialDecision(input: Inputs, m: int)
    requires Decide(input).At(ContainsSpecialCharacter).Emits?
    ensures MinimumCount(ConfigData(input.config, ContainsSpecialCharacter)).Some?
    ensures (NotEnoughSpecialCharacters(m) in Decide(input).At(ContainsSpecialCharacter).codes)
        <==> MinimumCount(ConfigData(input.config, ContainsSpecialCharacter)) == Some(m)
             && Count(input.password, Special) < m
  {
  }

  /** The same for containsSpecialCharacter and the special characters. */
  lemma SpecialsReported(input: Inputs, before: Tally, m: int)
    requires Validate(input, before).Done?
    ensures MinimumCount(ConfigData(input.config, ContainsSpecialCharacter)).Some?
    ensures (NotEnoughSpecialCharacters(m) in Errors(input, before))
        <==> MinimumCount(ConfigData(input.config, ContainsSpecialCharacter)) == Some(m)
             && Count(input.password, Special) < m
  {
    ReportedBy(input, before, ContainsSpecialCharacter, NotEnoughSpecialCharacters(m));
    SpecialDecision(input, m);
  }

  lemma CasesDecision(input: Inputs)
    ensures var on, codes := ConfigData(input.config, ValidateCases) == Bool(true), Decide(input).At(ValidateCases).codes;
      && Decide(input).At(ValidateCases).Emits?
      && (NoLowercase in codes <==> on && Count(input.password, Lowercase) == 0)
      && (NoUppercase in codes <==> on && Count(input.password, Uppercase) == 0)
      && |codes| == (if NoLowercase in codes then 1 else 0) + (if NoUppercase in codes then 1 else 0)
      && (on && Count(input.password, Lowercase) == 0 && Count(input.password, Uppercase) == 0 ==> codes == [NoLowercase, NoUppercase])
  {
  }

  /** When validateCases is exactly true, each missing letter case is reported on its own. */
  lemma CasesReported(input: Inputs, before: Tally)
    requires Validate(input, before).Done?
    ensures var on := ConfigData(input.config, ValidateCases) == Bool(true);
      && (NoLowercase in Errors(input, before) <==> on && Count(input.password, Lowercase) == 0)
      && (NoUppercase in Errors(input, before) <==> on && Count(input.password, Uppercase) == 0)
    ensures var es, on := Errors(input, before), ConfigData(input.config, ValidateCases) == Bool(true);
      var lower, upper := Count(input.password, Lowercase), Count(input.password, Uppercase);
      && multiset(es)[NoLowercase] == (if on && lower == 0 then 1 else 0)
      && multiset(es)[NoUppercase] == (if on && upper == 0 then 1 else 0)
      && (on && lower == 0 && upper == 0 ==> exists k :: 0 <= k && k + 1 < |es| && es[k] == NoLowercase && es[k + 1] == NoUppercase)
  {
    ReportedBy(input, before, ValidateCases, NoLowercase);
    ReportedBy(input, before, ValidateCases, NoUppercase);
    CasesDecision(input);
    CaseCodesInList(input, before);
  }

  /** The case rule's codes, lowercase code first. */
  lemma CasesCodes(input: Inputs)
    ensures var on := ConfigData(input.config, ValidateCases) == Bool(true);
      Emitted(ValidateCases, Decide(input))
        == (if on && Count(input.password, Lowercase) == 0 then [NoLowercase] else [])
           + (if on && Count(input.password, Uppercase) == 0 then [NoUppercase] else [])
  {
    DecideAgrees(input);
  }

  /** A completed error list is the case rule's codes with only codes of other rules before and after them. */
  lemma CasesSegment(input: Inputs, before: Tally) returns (front: seq<ErrorCode>, back: seq<ErrorCode>)
    requires Validate(input, before).Done?
    ensures Errors(input, before) == front + Emitted(ValidateCases, Decide(input)) + back
    ensures NoLowercase !in front && NoUppercase !in front
    ensures NoLowercase !in back && NoUppercase !in back
  {
    var d := Decide(input);
    ValidateCompletes(input, before);
    ErrorsOfOrder(d);
    DecisionsTagged(input);
    front := Emitted(MinimumLength, d) + (Emitted(ContainsNumber, d) + Emitted(ContainsSpecialCharacter, d));
    back := Emitted(RejectPreviousPasswords, d) + (Emitted(RejectUsernameInPassword, d)
      + (Emitted(RejectSubstrings, d) + (Emitted(RejectWordlist, d) + Emitted(RejectWordlistSubstring, d))));
    Regroup(Emitted(MinimumLength, d), Emitted(ContainsNumber, d), Emitted(ContainsSpecialCharacter, d),
      Emitted(ValidateCases, d), back);
    NoCaseCodeFrom(d, MinimumLength);
    NoCaseCodeFrom(d, ContainsNumber);
    NoCaseCodeFrom(d, ContainsSpecialCharacter);
    NoCaseCodeFrom(d, RejectPreviousPasswords);
    NoCaseCodeFrom(d, RejectUsernameInPassword);
    NoCaseCodeFrom(d, RejectSubstrings);
    NoCaseCodeFrom(d, RejectWordlist);
    NoCaseCodeFrom(d, RejectWordlistSubstring);
  }

  /** Concatenation regrouped around a middle part. */
  lemma Regroup(a: seq<ErrorCode>, b: seq<ErrorCode>, c: seq<ErrorCode>, m: seq<ErrorCode>, rest: seq<ErrorCode>)
    ensures a + (b + (c + (m + rest))) == (a + (b + c)) + m + rest
  {
  }

  /** A rule other than the case rule emits no case code. */
  lemma NoCaseCodeFrom(outcomes: Decisions, k: Key)
    requires Tagged(outcomes) && k != ValidateCases
    ensures NoLowercase !in Emitted(k, outcomes) && NoUppercase !in Emitted(k, outcomes)
  {
    assert Origin(NoLowercase) == ValidateCases && Origin(NoUppercase) == ValidateCases;
  }

  /** A value that is in neither outer part occurs in the whole as often as in the middle part. */
  lemma MultiplicityOfMiddle(front: seq<ErrorCode>, middle: seq<ErrorCode>, back: seq<ErrorCode>, e: ErrorCode)
    requires e !in front && e !in back
    ensures multiset(front + middle + back)[e] == multiset(middle)[e]
  {
    assert multiset(front + middle + back) == multiset(front) + multiset(middle) + multiset(back);
  }

  /**
   * Only the case rule emits case codes, so the error list holds its codes,
   * in its order, and no other copy: each case code at most once, and the
   * lowercase code right before the uppercase one when both are reported.
   */
  lemma CaseCodesInList(input: Inputs, before: Tally)
    requires Validate(input, before).Done?
    ensures var es, on := Errors(input, before), ConfigData(input.config, ValidateCases) == Bool(true);
      var lower, upper := Count(input.password, Lowercase), Count(input.password, Uppercase);
      && multiset(es)[NoLowercase] == (if on && lower == 0 then 1 else 0)
      && multiset(es)[NoUppercase] == (if on && upper == 0 then 1 else 0)
      && (on && lower == 0 && upper == 0 ==> exists k :: 0 <= k && k + 1 < |es| && es[k] == NoLowercase && es[k + 1] == NoUppercase)
  {
    var front, back := CasesSegment(input, before);
    CasesCodes(input);
    var codes := Emitted(ValidateCases, Decide(input));
    assert NoLowercase !in front && NoLowercase !in back;
    assert NoUppercase !in front && NoUppercase !in back;
    MultiplicityOfMiddle(front, codes, back, NoLowercase);
    MultiplicityOfMiddle(front, codes, back, NoUppercase);
    var es := Errors(input, before);
    if codes == [NoLowercase, NoUppercase] {
      assert es[|front|] == NoLowercase && es[|front| + 1] == NoUppercase;
    }
  }

  lemma PreviousDecision(input: Inputs)
    requires Decide(input).At(RejectPreviousPasswords).Emits?
    ensures var v := Get(input.config, RejectPreviousPasswords);
      && (v == Absent || v.Bool?)
      && (v == Bool(true) ==> input.delegate.Delegate? && input.delegate.callable)
      && ((PreviouslyUsed in Decide(input).At(RejectPreviousPasswords).codes)
            <==> v == Bool(true) && input.delegate.isPreviousPassword(input.password))
  {
  }

  /**
   * A completed evaluation had rejectPreviousPasswords unset or boolean, and
   * a callable delegate when it was true; the password is reported as used
   * exactly when the option is true and the delegate says so.
   */
  lemma PreviousReported(input: Inputs, before: Tally)
    requires Validate(input, before).Done?
    ensures var v := Get(input.config, RejectPreviousPasswords);
      && (v == Absent || v.Bool?)
      && (v == Bool(true) ==> input.delegate.Delegate? && input.delegate.callable)
      && ((PreviouslyUsed in Errors(input, before))
            <==> v == Bool(true) && input.delegate.isPreviousPassword(input.password))
  {
    ReportedBy(input, before, RejectPreviousPasswords, PreviouslyUsed);
    PreviousDecision(input);
  }

  lemma UsernameDecision(input: Inputs)
    requires Decide(input).At(RejectUsernameInPassword).Emits?
    ensures var v := Get(input.config, RejectUsernameInPassword);
      && (v != Absent ==> v.Bool? && input.username != [])
      && ((ContainsUsername in Decide(input).At(RejectUsernameInPassword).codes)
            <==> v == Bool(true) && Contains(Lower(input.password), Lower(input.username)))
  {
  }

  /**
   * A completed evaluation with rejectUsernameInPassword set had a boolean
   * there and a known username; the username is reported exactly when the
   * option is true and it occurs in the password, ignoring case.
   */
  lemma UsernameReported(input: Inputs, before: Tally)
    requires Validate(input, before).Done?
    ensures var v := Get(input.config, RejectUsernameInPassword);
      && (v != Absent ==> v.Bool? && input.username != [])
      && ((ContainsUsername in Errors(input, before))
            <==> v == Bool(true) && Contains(Lower(input.password), Lower(input.username)))
  {
    ReportedBy(input, before, RejectUsernameInPassword, ContainsUsername);
    UsernameDecision(input);
  }

  lemma SubstringDecision(input: Inputs, w: Bytes)
    requires Decide(input).At(RejectSubstrings).Emits?
    ensures var v := Get(input.config, RejectSubstrings);
      && (v == Absent || v == Bool(false) || v.List?)
      && ((ContainsSubstring(w) in Decide(input).At(RejectSubstrings).codes)
            <==> v.List? && w in v.items && Contains(Lower(input.password), Lower(w)))
  {
    var v := Get(input.config, RejectSubstrings);
    if v.List? {
      SubstringErrorsMembers(Lower(input.password), v.items);
    }
  }

  /**
   * A completed evaluation with rejectSubstrings set had false or a list
   * there; a word is reported exactly when it is in the list and occurs in the
   * password, ignoring case.
   */
  lemma SubstringReported(input: Inputs, before: Tally, w: Bytes)
    requires Validate(input, before).Done?
    ensures var v := Get(input.config, RejectSubstrings);
      && (v == Absent || v == Bool(false) || v.List?)
      && ((ContainsSubstring(w) in Errors(input, before))
            <==> v.List? && w in v.items && Contains(Lower(input.password), Lower(w)))
  {
    ReportedBy(input, before, RejectSubstrings, ContainsSubstring(w));
    SubstringDecision(input, w);
  }

  lemma WordlistDecision(input: Inputs)
    requires Decide(input).At(RejectWordlist).Emits?
    ensures var v := Get(input.config, RejectWordlist);
      var lines := ReadWordlist(v, input.files);
      && (v != Absent ==> lines.Some?)
      && (InBlacklist in Decide(input).At(RejectWordlist).codes <==> v != Absent && Lower(input.password) in lines.value)
  {
  }

  /**
   * A completed evaluation with rejectWordlist set found the file; the
   * password is reported exactly when, lowercased but not trimmed, it is one
   * of the file's lines.
   */
  lemma WordlistReported(input: Inputs, before: Tally)
    requires Validate(input, before).Done?
    ensures var v := Get(input.config, RejectWordlist);
      var lines := ReadWordlist(v, input.files);
      && (v != Absent ==> lines.Some?)
      && (InBlacklist in Errors(input, before) <==> v != Absent && Lower(input.password) in lines.value)
  {
    ReportedBy(input, before, RejectWordlist, InBlacklist);
    WordlistDecision(input);
  }

  lemma PartDecision(input: Inputs, w: Bytes)
    requires Decide(input).At(RejectWordlistSubstring).Emits?
    ensures var v := Get(input.config, RejectWordlistSubstring);
      var lines := ReadWordlist(v, input.files);
      && (v != Absent ==> lines.Some?)
      && ((PartInBlacklist(w) in Decide(input).At(RejectWordlistSubstring).codes)
            <==> v != Absent && w in lines.value && |w| > 4 && Contains(Lower(input.password), w))
  {
    var v := Get(input.config, RejectWordlistSubstring);
    if v != Absent {
      PartErrorsMembers(Lower(input.password), ReadWordlist(v, input.files).value);
    }
  }

  /**
   * A completed evaluation with rejectWordlistSubstring set found the file;
   * a line is reported exactly when it is longer than four bytes and occurs,
   * as it is, in the lowercased password.
   */
  lemma PartReported(input: Inputs, before: Tally, w: Bytes)
    requires Validate(input, before).Done?
    ensures var v := Get(input.config, RejectWordlistSubstring);
      var lines := ReadWordlist(v, input.files);
      && (v != Absent ==> lines.Some?)
      && ((PartInBlacklist(w) in Errors(input, before))
            <==> v != Absent && w in lines.value && |w| > 4 && Contains(Lower(input.password), w))
  {
    ReportedBy(input, before, RejectWordlistSubstring, PartInBlacklist(w));
    PartDecision(input, w);
  }

  // ---------------------------------------------------------------------------
  // A password passes exactly when every rule's condition holds
  // ---------------------------------------------------------------------------

  /** The substring rule reports nothing exactly when no configured word occurs, ignoring case. */
  lemma SubstringErrorsEmpty(lowered: Bytes, words: seq<Bytes>)
    ensures SubstringErrors(lowered, words) == [] <==> forall i :: 0 <= i < |words| ==> !Contains(lowered, Lower(words[i]))
  {
    var es := SubstringErrors(lowered, words);
    SubstringErrorsMembers(lowered, words);
    if es != [] {
      assert es[0] in es;
      var i :| 0 <= i < |words| && words[i] == es[0].word;
    }
  }

  /** The wordlist-part rule reports nothing exactly when no line longer than four bytes occurs in the password. */
  lemma PartErrorsEmpty(lowered: Bytes, lines: seq<Bytes>)
    ensures PartErrors(lowered, lines) == [] <==> forall i :: 0 <= i < |lines| && |lines[i]| > 4 ==> !Contains(lowered, lines[i])
  {
    var es := PartErrors(lowered, lines);
    PartErrorsMembers(lowered, lines);
    if es != [] {
      assert es[0] in es;
      var i :| 0 <= i < |lines| && lines[i] == es[0].word;
    }
  }

  /** A rule that completes emits no code exactly when the condition it checks holds. */
  lemma RuleHoldsIff(input: Inputs, k: Key)
    requires Decide(input).At(k).Emits?
    ensures RuleHolds(k, input) <==> Decide(input).At(k).codes == []
  {
    var v := Get(input.config, k);
    match k
    case RejectSubstrings =>
      if v.List? {
        SubstringErrorsEmpty(Lower(input.password), v.items);
      }
    case RejectWordlistSubstring =>
      var lines := ReadWordlist(v, input.files);
      if IsSet(input.config, k) && lines.Some? {
        PartErrorsEmpty(Lower(input.password), lines.value);
      }
    case _ =>
  }

  /** A completed evaluation reports no error exactly when no rule emitted a code. */
  lemma NoErrorsIffNoneEmitted(input: Inputs, before: Tally)
    requires Validate(input, before).Done?
    ensures Errors(input, before) == [] <==> forall k :: Emitted(k, Decide(input)) == []
  {
    var es := Errors(input, before);
    ValidateCompletes(input, before);
    DecisionsTagged(input);
    ErrorsOfOrigins(Order, Decide(input));
    if es != [] {
      assert es[0] in es;
      EveryRuleInOrder(Origin(es[0]));
      assert Emitted(Origin(es[0]), Decide(input)) != [];
    } else {
      // The error list is the nine rules' codes one after the other, so each is empty.
      ErrorsOfOrder(Decide(input));
      forall k ensures Emitted(k, Decide(input)) == [] {
        assert |Emitted(k, Decide(input))| == 0;
      }
    }
  }

  /** A completed evaluation reports no error exactly when the password meets every rule's condition. */
  lemma ValidIffRulesHold(input: Inputs, before: Tally)
    requires Validate(input, before).Done?
    ensures Errors(input, before) == [] <==> forall k :: RuleHolds(k, input)
  {
    NoErrorsIffNoneEmitted(input, before);
    ValidateCompletes(input, before);
    forall k ensures RuleHolds(k, input) <==> Emitted(k, Decide(input)) == [] {
      assert Decide(input).At(k).Emits?;
      RuleHoldsIff(input, k);
    }
  }
}
