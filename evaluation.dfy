/**
 * What one evaluation yields: which codes end up in the error list and in
 * what order, when and how it throws, and what the score is.
 *
 * The first part holds whatever the rules decide (`outcomes`), the second
 * for what the nine rules decide on given inputs, `Decide(input)`.
 */
module Evaluation {
  import opened Wrappers
  import opened PhpText
  import opened Settings
  import opened ErrorCodes
  import opened Rules

  // ---------------------------------------------------------------------------
  // Running rules, whatever they decide
  // ---------------------------------------------------------------------------

  /** The effects on score and counters neither read nor change the error list. */
  lemma {:induction false} EffectsIgnoreErrors(rules: seq<Key>, password: Bytes, t: Tally, errors: seq<ErrorCode>)
    ensures Effects(rules, password, t.(errors := errors)) == Effects(rules, password, t).(errors := errors)
    ensures Effects(rules, password, t).errors == t.errors
    decreases |rules|
  {
    if rules != [] {
      var u := RuleEffect(rules[0], password, t);
      assert RuleEffect(rules[0], password, t.(errors := errors)) == u.(errors := errors);
      EffectsIgnoreErrors(rules[1..], password, u, errors);
    }
  }

  /**
   * Running rules stops at the first that throws: the run completes exactly
   * when no rule throws, a thrown failure is that of the first failing rule,
   * and the state left behind holds the effects and codes of the rules before
   * it, appended to the codes already there.
   */
  lemma {:induction false} RunStopsAtFirstFailure(rules: seq<Key>, outcomes: Decisions, password: Bytes, t: Tally)
    ensures var i, s := FirstFailing(rules, outcomes), Run(rules, outcomes, password, t);
      && (s.Done? <==> i == |rules|)
      && (s.Thrown? ==> i < |rules| && s.failure == outcomes.At(rules[i]).failure)
      && s.tally == Effects(rules[..i], password, t).(errors := t.errors + ErrorsOf(rules[..i], outcomes))
    decreases |rules|
  {
    if rules == [] {
      assert t.(errors := t.errors + []) == t;
    } else {
      var k := rules[0];
      if outcomes.At(k).Fails? {
        assert rules[..0] == [];
        assert t.(errors := t.errors + []) == t;
      } else {
        var codes := outcomes.At(k).codes;
        var e := RuleEffect(k, password, t);
        var u := e.(errors := t.errors + codes);
        RunStopsAtFirstFailure(rules[1..], outcomes, password, u);
        var i := FirstFailing(rules, outcomes);
        var rest := rules[1..][..i - 1];
        assert rules[..i][1..] == rest;
        EffectsIgnoreErrors(rest, password, e, t.errors + codes);
        assert Effects(rules[..i], password, t) == Effects(rest, password, e);
        assert ErrorsOf(rules[..i], outcomes) == codes + ErrorsOf(rest, outcomes);
        assert u.errors + ErrorsOf(rest, outcomes) == t.errors + ErrorsOf(rules[..i], outcomes);
      }
    }
  }

  /** No rule after the fourth touches the score or the counters. */
  lemma {:induction false} EffectsOfLaterRules(rules: seq<Key>, password: Bytes, t: Tally)
    requires forall j :: 0 <= j < |rules| ==> Position(rules[j]) >= 4
    ensures Effects(rules, password, t) == t
    decreases |rules|
  {
    if rules != [] {
      EffectsOfLaterRules(rules[1..], password, t);
    }
  }

  /** The effects of all nine rules, in one formula. */
  lemma EffectsOfOrder(password: Bytes, t: Tally)
    ensures var digits, specials := Count(password, Digit), Count(password, Special);
      var lower, upper := Count(password, Lowercase), Count(password, Uppercase);
      Effects(Order, password, t)
        == Tally(t.errors,
                 4 * |Trim(password)|
                 + (if digits >= 3 then 5 else 0)
                 + (if specials >= 2 then 5 else 0)
                 + (if lower > 0 && upper > 0 then 10 else 0),
                 digits, specials, lower + upper)
  {
    var t1 := RuleEffect(MinimumLength, password, t);
    var t2 := RuleEffect(ContainsNumber, password, t1);
    var t3 := RuleEffect(ContainsSpecialCharacter, password, t2);
    var t4 := RuleEffect(ValidateCases, password, t3);
    assert Order[1..][1..] == Order[2..];
    assert Order[2..][1..] == Order[3..];
    assert Order[3..][1..] == Order[4..];
    assert Effects(Order, password, t) == Effects(Order[1..], password, t1);
    assert Effects(Order[1..], password, t1) == Effects(Order[2..], password, t2);
    assert Effects(Order[2..], password, t2) == Effects(Order[3..], password, t3);
    assert Effects(Order[3..], password, t3) == Effects(Order[4..], password, t4);
    EffectsOfLaterRules(Order[4..], password, t4);
  }

  /** calculateScore after the nine rules gives the strength score of the password. */
  lemma ScoreOfEffects(password: Bytes, t: Tally, errors: seq<ErrorCode>)
    ensures CalculateScore(Effects(Order, password, t).(errors := errors))
      == Tally(errors, StrengthScore(password), Count(password, Digit), Count(password, Special),
               Count(password, Lowercase) + Count(password, Uppercase))
  {
    EffectsOfOrder(password, t);
  }

  /** Every option has its rule in `Order`, at its position. */
  lemma EveryRuleInOrder(k: Key)
    ensures Position(k) < |Order| && Order[Position(k)] == k
  {
  }

  lemma PositionOfOrder(j: int)
    requires 0 <= j < |Order|
    ensures Position(Order[j]) == j
  {
  }

  lemma ErrorsOfCons(rules: seq<Key>, outcomes: Decisions)
    requires rules != []
    ensures ErrorsOf(rules, outcomes) == Emitted(rules[0], outcomes) + ErrorsOf(rules[1..], outcomes)
  {
  }

  /** The error list of a whole evaluation is the codes of the nine rules, one rule after the other. */
  lemma ErrorsOfOrder(outcomes: Decisions)
    ensures ErrorsOf(Order, outcomes)
      == Emitted(MinimumLength, outcomes) + (Emitted(ContainsNumber, outcomes)
         + (Emitted(ContainsSpecialCharacter, outcomes) + (Emitted(ValidateCases, outcomes)
         + (Emitted(RejectPreviousPasswords, outcomes) + (Emitted(RejectUsernameInPassword, outcomes)
         + (Emitted(RejectSubstrings, outcomes) + (Emitted(RejectWordlist, outcomes)
         + Emitted(RejectWordlistSubstring, outcomes))))))))
  {
    ErrorsOfCons(Order, outcomes);
    assert Order[1..][1..] == Order[2..];
    ErrorsOfCons(Order[1..], outcomes);
    assert Order[2..][1..] == Order[3..];
    ErrorsOfCons(Order[2..], outcomes);
    assert Order[3..][1..] == Order[4..];
    ErrorsOfCons(Order[3..], outcomes);
    assert Order[4..][1..] == Order[5..];
    ErrorsOfCons(Order[4..], outcomes);
    assert Order[5..][1..] == Order[6..];
    ErrorsOfCons(Order[5..], outcomes);
    assert Order[6..][1..] == Order[7..];
    ErrorsOfCons(Order[6..], outcomes);
    assert Order[7..][1..] == Order[8..];
    ErrorsOfCons(Order[7..], outcomes);
    assert Order[8..][1..] == Order[9..];
    ErrorsOfCons(Order[8..], outcomes);
    assert Order[9..] == [];
    assert Emitted(RejectWordlistSubstring, outcomes) + [] == Emitted(RejectWordlistSubstring, outcomes);
  }

  /** The whole run of the nine rules: it completes when none throws, with all their codes and the strength score. */
  lemma RunOfOrder(outcomes: Decisions, password: Bytes, t: Tally)
    ensures var s := Run(Order, outcomes, password, t);
      && (s.Done? <==> NoneFails(outcomes))
      && (s.Done? ==> CalculateScore(s.tally)
                      == Tally(t.errors + ErrorsOf(Order, outcomes), StrengthScore(password), Count(password, Digit),
                               Count(password, Special), Count(password, Lowercase) + Count(password, Uppercase)))
  {
    RunStopsAtFirstFailure(Order, outcomes, password, t);
    var i := FirstFailing(Order, outcomes);
    if i < |Order| {
      assert outcomes.At(Order[i]).Fails?;
    } else {
      forall k ensures outcomes.At(k).Emits? {
        EveryRuleInOrder(k);
      }
      assert Order[..i] == Order;
      ScoreOfEffects(password, t, t.errors + ErrorsOf(Order, outcomes));
    }
  }

  /** No rule throws. */
  ghost predicate NoneFails(outcomes: Decisions)
  {
    forall k :: outcomes.At(k).Emits?
  }

  /** Every rule that runs before the rule of `k` completes. */
  ghost predicate CompletesBefore(outcomes: Decisions, k: Key)
  {
    forall j :: Position(j) < Position(k) ==> outcomes.At(j).Emits?
  }

  /** Each rule emits only codes of its own. */
  ghost predicate Tagged(outcomes: Decisions)
  {
    forall k, e :: e in Emitted(k, outcomes) ==> Origin(e) == k
  }

  /** A code is among the codes of some rules exactly when its own rule is one of them and emits it. */
  /** The codes of two runs of rules one after the other are the codes of the first, then those of the second. */
  lemma {:induction false} ErrorsOfAppend(a: seq<Key>, b: seq<Key>, outcomes: Decisions)
    ensures ErrorsOf(a + b, outcomes) == ErrorsOf(a, outcomes) + ErrorsOf(b, outcomes)
    decreases |a|
  {
    if a == [] {
      assert a + b == b;
    } else {
      assert (a + b)[0] == a[0];
      assert (a + b)[1..] == a[1..] + b;
      ErrorsOfAppend(a[1..], b, outcomes);
    }
  }

  lemma {:induction false} ErrorsOfOrigins(rules: seq<Key>, outcomes: Decisions)
    requires Tagged(outcomes)
    ensures forall e :: e in ErrorsOf(rules, outcomes) <==> Origin(e) in rules && e in Emitted(Origin(e), outcomes)
    decreases |rules|
  {
    if rules != [] {
      ErrorsOfOrigins(rules[1..], outcomes);
      assert rules == [rules[0]] + rules[1..];
    }
  }

  /** Codes of an earlier rule never follow codes of a later rule. */
  predicate InRuleOrder(es: seq<ErrorCode>)
  {
    forall i, j :: 0 <= i < j < |es| ==> Position(Origin(es[i])) <= Position(Origin(es[j]))
  }

  /** When the rules come in order, so do their codes: a code of an earlier rule never follows one of a later rule. */
  lemma {:induction false} ErrorsOfSorted(rules: seq<Key>, outcomes: Decisions)
    requires Tagged(outcomes)
    requires forall a, b :: 0 <= a < b < |rules| ==> Position(rules[a]) < Position(rules[b])
    ensures InRuleOrder(ErrorsOf(rules, outcomes))
    decreases |rules|
  {
    if rules != [] {
      var head, rest := Emitted(rules[0], outcomes), ErrorsOf(rules[1..], outcomes);
      ErrorsOfSorted(rules[1..], outcomes);
      ErrorsOfOrigins(rules[1..], outcomes);
      var es := head + rest;
      forall i, j | 0 <= i < j < |es|
        ensures Position(Origin(es[i])) <= Position(Origin(es[j]))
      {
        if j < |head| {
          assert es[i] in head && es[j] in head;
          assert Origin(es[i]) == rules[0] && Origin(es[j]) == rules[0];
        } else if i < |head| {
          assert es[i] in head;
          assert Origin(es[i]) == rules[0];
          assert es[j] == rest[j - |head|];
          var b :| 0 <= b < |rules[1..]| && rules[1..][b] == Origin(es[j]);
          assert rules[b + 1] == Origin(es[j]);
          assert Position(rules[0]) < Position(rules[b + 1]);
        } else {
          assert es[i] == rest[i - |head|] && es[j] == rest[j - |head|];
          assert InRuleOrder(rest);
        }
      }
    }
  }

  // ---------------------------------------------------------------------------
  // The nine rules: completing and throwing
  // ---------------------------------------------------------------------------

  /**
   * An evaluation completes exactly when no rule throws, and then it ends in
   * `Completed(input)` whatever the state before it: the codes of the nine
   * rules, the strength score and the three counters.
   */
  lemma ValidateCompletes(input: Inputs, before: Tally)
    ensures Validate(input, before).Done? <==> NoneFails(Decide(input))
    ensures Validate(input, before).Done? ==> Validate(input, before).tally == Completed(input)
  {
    RunOfOrder(Decide(input), input.password, before.(errors := []));
    assert [] + ErrorsOf(Order, Decide(input)) == ErrorsOf(Order, Decide(input));
  }

  /**
   * An evaluation that throws throws the failure of the first rule that
   * throws, and leaves behind the codes, score and counters of the rules
   * before it: the error list partly filled.
   */
  lemma ValidateThrows(input: Inputs, before: Tally)
    ensures var s, i := Validate(input, before), FirstFailing(Order, Decide(input));
      s.Thrown? ==>
        && i < |Order|
        && s.failure == Decide(input).At(Order[i]).failure
        && (forall j :: 0 <= j < i ==> Decide(input).At(Order[j]).Emits?)
        && s.tally == Effects(Order[..i], input.password, before).(errors := ErrorsOf(Order[..i], Decide(input)))
  {
    var i := FirstFailing(Order, Decide(input));
    RunStopsAtFirstFailure(Order, Decide(input), input.password, before.(errors := []));
    EffectsIgnoreErrors(Order[..i], input.password, before, []);
    assert [] + ErrorsOf(Order[..i], Decide(input)) == ErrorsOf(Order[..i], Decide(input));
  }

  /** Whichever rule throws, the evaluation throws. */
  lemma RuleFailureThrows(input: Inputs, before: Tally, k: Key)
    requires Decide(input).At(k).Fails?
    ensures Validate(input, before).Thrown?
  {
    ValidateCompletes(input, before);
  }

  /** A rule that throws while every rule before it completes decides the failure of the evaluation. */
  lemma FailureOfEarliestRule(input: Inputs, before: Tally, k: Key)
    requires Decide(input).At(k).Fails?
    requires CompletesBefore(Decide(input), k)
    ensures Validate(input, before).Thrown?
    ensures Validate(input, before).failure == Decide(input).At(k).failure
  {
    RuleFailureThrows(input, before, k);
    ValidateThrows(input, before);
    var i := FirstFailing(Order, Decide(input));
    EveryRuleInOrder(k);
    if i < |Order| {
      PositionOfOrder(i);
    }
  }

  /** The username rule throws on an empty username whether its option is true or false. */
  lemma EmptyUsernameThrows(input: Inputs, before: Tally)
    requires Get(input.config, RejectUsernameInPassword).Bool?
    requires input.username == []
    ensures Validate(input, before).Thrown?
    ensures CompletesBefore(Decide(input), RejectUsernameInPassword) ==>
              Validate(input, before).failure == UsernameUnknown
  {
    RuleFailureThrows(input, before, RejectUsernameInPassword);
    if CompletesBefore(Decide(input), RejectUsernameInPassword) {
      FailureOfEarliestRule(input, before, RejectUsernameInPassword);
    }
  }

  /** Rejecting previous passwords needs a delegate whose isPreviousPassword is callable. */
  lemma PreviousPasswordsNeedDelegate(input: Inputs, before: Tally)
    requires Get(input.config, RejectPreviousPasswords) == Bool(true)
    requires !(input.delegate.Delegate? && input.delegate.callable)
    ensures Validate(input, before).Thrown?
    ensures CompletesBefore(Decide(input), RejectPreviousPasswords) ==>
              Validate(input, before).failure == (if input.delegate.NoDelegate? then DelegateNotSet else DelegateNotCallable)
  {
    RuleFailureThrows(input, before, RejectPreviousPasswords);
    if CompletesBefore(Decide(input), RejectPreviousPasswords) {
      FailureOfEarliestRule(input, before, RejectPreviousPasswords);
    }
  }

  /** A containsNumber option that is neither a boolean nor an integer always throws. */
  lemma InvalidNumberOptionThrows(input: Inputs, before: Tally)
    requires MinimumCount(ConfigData(input.config, ContainsNumber)).None?
    ensures Validate(input, before).Thrown?
    ensures Validate(input, before).failure == InvalidParameter(ContainsNumber)
  {
    FailureOfEarliestRule(input, before, ContainsNumber);
  }

  lemma WordlistFails(input: Inputs)
    requires IsSet(input.config, RejectWordlist)
    requires ReadWordlist(Get(input.config, RejectWordlist), input.files).None?
    ensures Decide(input).At(RejectWordlist) == Fails(WordlistNotFound)
  {
  }

  /** A wordlist option that names no regular file throws once the rules before it complete. */
  lemma MissingWordlistThrows(input: Inputs, before: Tally)
    requires IsSet(input.config, RejectWordlist)
    requires ReadWordlist(Get(input.config, RejectWordlist), input.files).None?
    ensures Validate(input, before).Thrown?
    ensures CompletesBefore(Decide(input), RejectWordlist) ==>
              Validate(input, before).failure == WordlistNotFound
  {
    WordlistFails(input);
    RuleFailureThrows(input, before, RejectWordlist);
    if CompletesBefore(Decide(input), RejectWordlist) {
      FailureOfEarliestRule(input, before, RejectWordlist);
    }
  }

  // ---------------------------------------------------------------------------
  // The nine rules: which codes are reported, and in what order
  // ---------------------------------------------------------------------------

  /** The substring rule reports each configured word that occurs, ignoring case. */
  lemma {:induction false} SubstringErrorsMembers(lowered: Bytes, words: seq<Bytes>)
    ensures forall w :: w in words && Contains(lowered, Lower(w)) ==> ContainsSubstring(w) in SubstringErrors(lowered, words)
    decreases |words|
  {
    if words != [] {
      var init, last := words[..|words| - 1], words[|words| - 1];
      SubstringErrorsMembers(lowered, init);
      assert words == init + [last];
    }
  }

  /** The wordlist-part rule reports each line longer than four bytes that occurs in the lowercased password. */
  lemma {:induction false} PartErrorsMembers(lowered: Bytes, lines: seq<Bytes>)
    ensures forall w :: w in lines && |w| > 4 && Contains(lowered, w) ==> PartInBlacklist(w) in PartErrors(lowered, lines)
    decreases |lines|
  {
    if lines != [] {
      var init, last := lines[..|lines| - 1], lines[|lines| - 1];
      PartErrorsMembers(lowered, init);
      assert lines == init + [last];
    }
  }

  /** The substring loop over two lists one after the other appends the codes of the first, then those of the second. */
  lemma {:induction false} SubstringErrorsAppend(lowered: Bytes, a: seq<Bytes>, b: seq<Bytes>)
    ensures SubstringErrors(lowered, a + b) == SubstringErrors(lowered, a) + SubstringErrors(lowered, b)
    decreases |b|
  {
    if b == [] {
      assert a + b == a;
    } else {
      var init := b[..|b| - 1];
      assert (a + b)[..|a + b| - 1] == a + init;
      assert (a + b)[|a + b| - 1] == b[|b| - 1];
      SubstringErrorsAppend(lowered, a, init);
    }
  }

  /** One listed word: its code when it occurs case-insensitively, nothing otherwise. */
  lemma SubstringErrorsSingle(lowered: Bytes, w: Bytes)
    ensures SubstringErrors(lowered, [w]) == if Contains(lowered, Lower(w)) then [ContainsSubstring(w)] else []
  {
    assert [w][..0] == [];
  }

  /** The wordlist-part loop over two lists of lines appends the codes of the first, then those of the second. */
  lemma {:induction false} PartErrorsAppend(lowered: Bytes, a: seq<Bytes>, b: seq<Bytes>)
    ensures PartErrors(lowered, a + b) == PartErrors(lowered, a) + PartErrors(lowered, b)
    decreases |b|
  {
    if b == [] {
      assert a + b == a;
    } else {
      var init := b[..|b| - 1];
      assert (a + b)[..|a + b| - 1] == a + init;
      assert (a + b)[|a + b| - 1] == b[|b| - 1];
      PartErrorsAppend(lowered, a, init);
    }
  }

  /** One line: its code when it is longer than four bytes and occurs, nothing otherwise. */
  lemma PartErrorsSingle(lowered: Bytes, line: Bytes)
    ensures PartErrors(lowered, [line]) == if |line| > 4 && Contains(lowered, line) then [PartInBlacklist(line)] else []
  {
    assert [line][..0] == [];
  }

  /** Each of the nine rules emits only codes of its own. */
  lemma DecisionsTagged(input: Inputs)
    ensures Tagged(Decide(input))
  {
    var d := Decide(input);
    forall k, e | e in Emitted(k, Decide(input)) ensures Origin(e) == k {
      assert Own(k, d.At(k));
    }
  }

  /** The error list of a completed evaluation follows the order of the rules. */
  lemma ErrorsFollowRuleOrder(input: Inputs, before: Tally)
    requires Validate(input, before).Done?
    ensures InRuleOrder(Validate(input, before).tally.errors)
  {
    ValidateCompletes(input, before);
    DecisionsTagged(input);
    forall a, b | 0 <= a < b < |Order| ensures Position(Order[a]) < Position(Order[b]) {
      PositionOfOrder(a);
      PositionOfOrder(b);
    }
    ErrorsOfSorted(Order, Decide(input));
  }

  /** A completed evaluation reports a code exactly when the code's own rule emits it. */
  lemma Reported(input: Inputs, before: Tally, e: ErrorCode)
    requires Validate(input, before).Done?
    ensures e in Validate(input, before).tally.errors <==> e in Emitted(Origin(e), Decide(input))
  {
    ValidateCompletes(input, before);
    DecisionsTagged(input);
    ErrorsOfOrigins(Order, Decide(input));
    EveryRuleInOrder(Origin(e));
  }

  /** In a completed evaluation the rule of `k` completed, and a code of its own is reported exactly when it emitted it. */
  lemma ReportedBy(input: Inputs, before: Tally, k: Key, e: ErrorCode)
    requires Validate(input, before).Done?
    requires Origin(e) == k
    ensures Decide(input).At(k).Emits?
    ensures e in Validate(input, before).tally.errors <==> e in Decide(input).At(k).codes
  {
    ValidateCompletes(input, before);
    Reported(input, before, e);
  }

  /** The codes of the length rule open the error list of a completed evaluation. */
  lemma LengthCodesFirst(input: Inputs, before: Tally)
    requires Validate(input, before).Done?
    ensures var es, codes := Validate(input, before).tally.errors, Emitted(MinimumLength, Decide(input));
      |codes| <= |es| && es[..|codes|] == codes
  {
    ValidateCompletes(input, before);
    ErrorsOfCons(Order, Decide(input));
    var codes := Emitted(MinimumLength, Decide(input));
    assert ErrorsOf(Order, Decide(input)) == codes + ErrorsOf(Order[1..], Decide(input));
  }

  /** When no rule throws or emits a code, the evaluation completes with an empty error list and the strength score. */
  lemma QuietEvaluation(input: Inputs, before: Tally)
    requires forall k :: Decide(input).At(k) == Emits([])
    ensures var pw := input.password;
      Validate(input, before)
        == Done(Tally([], StrengthScore(pw), Count(pw, Digit), Count(pw, Special), Count(pw, Lowercase) + Count(pw, Uppercase)))
  {
    ValidateCompletes(input, before);
    ErrorsOfOrder(Decide(input));
    assert forall k :: Emitted(k, Decide(input)) == [];
  }
}
