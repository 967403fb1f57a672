# KLGPasswordValidator in Dafny

This project models the PHP class `KLGPasswordValidator` and proves properties
of the model. The class grades one password against a configuration array.
It runs a fixed pipeline of nine rules:

1. minimum trimmed length
2. digit count
3. special-character count
4. the mix of letter cases
5. previous passwords, asked of a delegate object
6. the username inside the password
7. forbidden substrings
8. an exact-match wordlist file
9. a substring wordlist file

Each rule may append an error code such as `PASSWORD_LENGTH:8` to the error list.
Rules may also throw `InvalidArgumentException`. The length rule sets the score
to four points per byte of the trimmed password. The digit, special-character
and case rules each write one of three character counters and may add a bonus
to the score. The other five rules touch neither. A final scorer combines the
counters and clamps the score to 0..100. Setters mark the object dirty. The
getters re-run the evaluation only while it is dirty. An evaluation that
completes clears the flag.

The model is laid out in these modules:

- `PhpText` (php_text.dfy): passwords and strings as byte sequences, plus the PHP
  string functions the rules use.
  - The digit, letter and special-character classes of the regular expressions.
    The specials pattern has no `/u` flag, so `€` and `¨` count once per UTF-8
    byte.
  - `trim`, ASCII `strtolower` and `strstr`.
  - `explode` on one separator byte.
  - The `intval` of a string.
- `Settings` (settings.dfy)
  - Configuration values: absent or null, booleans, integers, strings, string lists
    and other values.
  - `getConfigData`, `isset` and `intval`.
  - The minimum counts the count rules accept.
  - How a wordlist option becomes a file name.
- `ErrorCodes` (error_codes.dfy)
  - The error codes as a datatype.
  - Their rendering as the strings the class stores.
  - How `getHumanReadableErrorMessage` splits a code back into identifier and
    parameter.
- `Rules` (rules.dfy): the specification of one evaluation, as pure functions.
  - What each rule decides: it throws, or it emits these codes.
  - What each rule does to the score and counters.
  - `Run` of the rules in validatePassword's order, stopping at the first throw.
  - `Validate`, which is the rules followed by calculateScore.
- `Evaluation`, `Reporting` and `Scoring` (evaluation.dfy, reporting.dfy,
  scoring.dfy): lemmas about `Validate`.
  - When it completes and when it throws, and with what.
  - Exactly which codes end up in the error list, and in which order.
  - What the score is.
- `Validator` (validator.dfy): the class itself, with its fields.
  - Fields: `errors`, `password`, `username`, `score`, `passwordDelegate`, the
    three counters, `dirty` and a constant `configuration`.
  - Every rule is a method that changes those fields in place.
  - Each method is proved to leave exactly the state `Rules` specifies.
  - The two `foreach` loops are `while` loops with invariants.
  - validatePassword is one method whose sequence of calls is grouped into:
    - `RunRules`, all nine rules;
    - `RunRequiredRules`, the four that always run;
    - `RunOptionalRules` and `RunWordRules`, the five guarded by `isset`;
    - `RunIfSet`, one guarded call;
    - `Finish`, calculateScore and clearing `dirty`.
  - That method is proved to end in the state `Validate` describes.
  - The getters are proved to answer from the fresh or the cached evaluation.
- `Examples` (examples.dfy): worked evaluations and the behaviour that is easy
  to miss.

The class's collaborators become parameters:

- **Delegate:** a `Delegate` value. It says whether `isPreviousPassword` is
  callable and what it answers.
- **Wordlist files:** a map from file names to contents, handed to each getter.
- **Thrown exceptions:** a `Failure` value. When a rule throws, the object stays
  dirty with the errors and score as the earlier rules left them.

## Model

| member | source | states |
|---|---|---|
| `Validator.KLGPasswordValidator.constructor` | KLGPasswordValidator.php:46-51 | the configuration is kept; the error list is empty, every other field is at its initial value, and the object starts dirty |
| `Validator.KLGPasswordValidator.SetUsername` | KLGPasswordValidator.php:53-58 | sets the username, marks the object dirty, returns the object itself and changes nothing else |
| `Validator.KLGPasswordValidator.SetPassword` | KLGPasswordValidator.php:60-65 | sets the password, marks the object dirty, returns the object itself and changes nothing else |
| `Validator.KLGPasswordValidator.SetPasswordDelegate` | KLGPasswordValidator.php:67-71 | sets the delegate and marks the object dirty, changing nothing else |
| `Validator.KLGPasswordValidator.IsPasswordValid` | KLGPasswordValidator.php:73-77 | true exactly when the error list of the (fresh or cached) evaluation is empty; an exception of the evaluation passes through and leaves the object dirty |
| `Validator.KLGPasswordValidator.GetErrors` | KLGPasswordValidator.php:79-83 | when dirty, runs the evaluation and returns its error list (or its exception); when not dirty, returns the cached list unchanged, which is the list a completed evaluation of the current inputs yields, so repeated calls with no setter between agree |
| `Validator.KLGPasswordValidator.GetScore` | KLGPasswordValidator.php:85-89 | as GetErrors, for the score |
| `Validator.KLGPasswordValidator.ValidatePassword` | KLGPasswordValidator.php:91-111 | the fields end exactly as `Validate` says for the inputs and the fields before; `dirty` is cleared iff no rule threw; afterwards the cache invariant holds |
| `Validator.KLGPasswordValidator.RunRules` | KLGPasswordValidator.php:95-104 | the nine rule calls, in order, leave the fields as `Run` of `Order` does, stopping at the first exception |
| `Validator.KLGPasswordValidator.RunRequiredRules` | KLGPasswordValidator.php:95-98 | the four rules run with getConfigData's values leave the fields as the first four steps of `Run` do, stopping at an exception |
| `Validator.KLGPasswordValidator.RunOptionalRules` | KLGPasswordValidator.php:100-104 | the five isset-guarded rules leave the fields as the last five steps of `Run` do |
| `Validator.KLGPasswordValidator.RunWordRules` | KLGPasswordValidator.php:102-104 | the substring, wordlist and wordlist-part lines leave the fields as the last three steps of `Run` do |
| `Validator.KLGPasswordValidator.RunIfSet` | KLGPasswordValidator.php:100-104 | one guarded line: when the option is not set nothing changes, else the rule runs with the option's own value, as the step for that option in `Run` |
| `Validator.KLGPasswordValidator.Finish` | KLGPasswordValidator.php:108-110 | after every rule completed, scoring and clearing `dirty` end in `Validate`'s state and establish the cache invariant |
| `Validator.KLGPasswordValidator.ValidateLength` | KLGPasswordValidator.php:119-131 | the score becomes 4 per byte of the trimmed password and `PASSWORD_LENGTH:<min>` is appended when it is shorter than the minimum, exactly as `LengthOutcome` decides |
| `Validator.KLGPasswordValidator.RejectPreviousPasswords` | KLGPasswordValidator.php:133-155 | false does nothing; true throws without a delegate or with an uncallable one, else appends `PASSWORD_PREVIOUSLY_USED` when the delegate says so; any other value throws |
| `Validator.KLGPasswordValidator.ValidateContainsNumber` | KLGPasswordValidator.php:157-187 | throws for a value that is not a boolean or integer; else sets the digit counter, adds 5 for three digits or more and appends the code when there are fewer digits than the minimum |
| `Validator.KLGPasswordValidator.ValidateContainsSpecialCharacter` | KLGPasswordValidator.php:189-217 | as the digit rule, for special characters, with the bonus at two or more |
| `Validator.KLGPasswordValidator.ValidateDoesNotContainUsername` | KLGPasswordValidator.php:219-230 | throws for a non-boolean value and for an empty username whatever the flag; else appends `PASSWORD_CONTAINS_USERNAME` iff the flag is true and the lowercased username occurs in the lowercased password |
| `Validator.KLGPasswordValidator.ValidateDoesNotHaveSubstrings` | KLGPasswordValidator.php:232-245 | false and an empty list do nothing, a non-list throws; else the loop appends one code per word that occurs case-insensitively, in list order (`SubstringErrors`) |
| `Validator.KLGPasswordValidator.ValidateCases` | KLGPasswordValidator.php:247-282 | adds 10 iff both cases occur whatever the flag, sets the letter counter to lowercase plus uppercase, and with the flag true appends the lowercase code then the uppercase code for a missing case |
| `Validator.KLGPasswordValidator.ValidatePasswordIsNotInWordlist` | KLGPasswordValidator.php:284-296 | throws when the option names no file; else appends `PASSWORD_IN_BLACKLIST` iff the lowercased, untrimmed password is a line of the file |
| `Validator.KLGPasswordValidator.ValidatePasswordPartIsNotInWordlist` | KLGPasswordValidator.php:298-316 | throws when the option names no file; else the loop appends one code per line longer than four bytes occurring in the lowercased password, in file order (`PartErrors`) |
| `Validator.KLGPasswordValidator.CalculateScore` | KLGPasswordValidator.php:326-359 | the score becomes `Rules.CalculateScore` of the fields, and the method returns it |
| `Rules.LengthOutcome` | KLGPasswordValidator.php:119-131 | the length rule never throws, and it emits only length codes |
| `Rules.NumberOutcome` | KLGPasswordValidator.php:157-187 | the digit rule emits only digit codes |
| `Rules.SpecialOutcome` | KLGPasswordValidator.php:189-217 | the special-character rule emits only special-character codes |
| `Rules.CasesOutcome` | KLGPasswordValidator.php:247-282 | the case rule emits only the two case codes |
| `Rules.PreviousOutcome` | KLGPasswordValidator.php:133-155 | the previous-password rule emits only its own code |
| `Rules.UsernameOutcome` | KLGPasswordValidator.php:219-230 | the username rule emits only its own code |
| `Rules.SubstringsOutcome` | KLGPasswordValidator.php:232-245 | the substring rule emits only substring codes |
| `Rules.WordlistOutcome` | KLGPasswordValidator.php:284-296 | the exact-wordlist rule emits only its own code |
| `Rules.WordlistPartOutcome` | KLGPasswordValidator.php:298-316 | the wordlist-part rule emits only wordlist-part codes |
| `Rules.SubstringErrors` | KLGPasswordValidator.php:240-244 | every code the loop appends names a listed word that occurs, case-insensitively, in the password |
| `Rules.PartErrors` | KLGPasswordValidator.php:307-315 | every code the loop appends names a line longer than four bytes that occurs in the lowercased password |
| `Settings.ConfigData` | KLGPasswordValidator.php:113-117 | getConfigData: the option's own value when it is set, `false` otherwise, and never null |
| `Settings.Intval` | KLGPasswordValidator.php:121 | intval of an option value: a boolean is 0 or 1, an integer itself, a string as `PhpText.IntvalOfString` reads it, an array 0 when empty and 1 otherwise (definition; `PhpText.IntvalOfDecimal` and `Settings.LengthMinimumOfString` state its properties) |
| `Settings.IsSet` | KLGPasswordValidator.php:100-104 | isset on a configuration key: the key is present and not null (definition; `Settings.ConfigData` states how getConfigData depends on it) |
| `Settings.LengthMinimum` | KLGPasswordValidator.php:121-122 | the minimum length in force is never 0: it is the option's intval, with 0 replaced by 1 |
| `Settings.MinimumCount` | KLGPasswordValidator.php:159-166 | the digit and special-character minimum: true is 1, false is 0, an integer is itself, any other value is refused (definition; `Reporting.NumberDecision` and `Reporting.SpecialDecision` state what it decides) |
| `Settings.PathOf` | KLGPasswordValidator.php:286-288 | the file name a wordlist option stands for once PHP converts it to a string (definition; see `Rules.ReadWordlist`) |
| `Rules.ReadWordlist` | KLGPasswordValidator.php:286-289 | the wordlist is read iff the option names a non-empty file name that is a regular file, and then has at least one line, as explode always gives |
| `Rules.RuleEffect` | KLGPasswordValidator.php:119-282 | what a completed rule does to the score and counters: it never touches the error list, and the five optional rules change nothing |
| `Rules.Run` | KLGPasswordValidator.php:95-104 | the rules one after the other, with an exception ending the run in the state that the rule before it left behind (definition; `Evaluation.RunStopsAtFirstFailure` states its meaning) |
| `Rules.OrderOfCalls` | KLGPasswordValidator.php:95-104 | `Rules.Order` is validatePassword's nine calls: minimum length, numbers, special characters, letter cases, previous passwords, username, substrings, wordlist, wordlist parts; no rule twice |
| `Rules.Decide` | KLGPasswordValidator.php:95-104 | the nine decisions for one set of inputs (definition; `Rules.DecideAgrees` ties it to `Rules.Decision`) |
| `Rules.Validate` | KLGPasswordValidator.php:91-111 | validatePassword: an empty error list, the rules in order, then scoring (definition; the `Evaluation` lemmas state what it yields) |
| `Rules.PairBonus` | KLGPasswordValidator.php:328-338 | the pair bonus lies in 0..45: it is 45 iff all three counters are positive, and 0 iff at most one of them is |
| `Rules.Penalty` | KLGPasswordValidator.php:340-346 | the penalty lies in 0..20, and it is 0 iff there is a digit or a special character, and a special character or a letter |
| `Rules.StrengthScore` | KLGPasswordValidator.php:326-359 | the score of a password in one formula, always within 0..100 |
| `Rules.Clamp` | KLGPasswordValidator.php:348-355 | the result lies in 0..100 and equals its argument when that already does |
| `Rules.CalculateScore` | KLGPasswordValidator.php:326-359 | the score ends in 0..100 and the error list and counters are untouched |
| `Rules.Decision` | KLGPasswordValidator.php:95-104 | every code the rule for an option emits names that option as its origin |
| `Rules.FirstFailing` | KLGPasswordValidator.php:95-104 | the index of the first rule that throws: every rule before it completes, and the rule at it throws |
| `Rules.DecideAgrees` | KLGPasswordValidator.php:95-104 | the table of all nine decisions holds, for each option, the decision of that option's rule |
| `Evaluation.RunStopsAtFirstFailure` | KLGPasswordValidator.php:95-104 | running rules completes iff none throws; a throw is the first failing rule's, and leaves the effects and codes of exactly the rules before it |
| `Evaluation.ValidateCompletes` | KLGPasswordValidator.php:91-111 | an evaluation completes iff no rule throws, and then ends in `Completed(input)` whatever the state before it |
| `Evaluation.ValidateThrows` | KLGPasswordValidator.php:91-111 | a throwing evaluation throws the first failing rule's exception and leaves the counters and score of the rules before it, with exactly their codes in the error list |
| `Evaluation.RuleFailureThrows` | KLGPasswordValidator.php:91-111 | a rule that would throw makes the evaluation throw |
| `Evaluation.FailureOfEarliestRule` | KLGPasswordValidator.php:95-104 | when every earlier rule completes, the evaluation throws that rule's exception |
| `Evaluation.EmptyUsernameThrows` | KLGPasswordValidator.php:221-222 | a boolean username option with an empty username throws, whatever the flag's value |
| `Evaluation.PreviousPasswordsNeedDelegate` | KLGPasswordValidator.php:137-149 | rejecting previous passwords throws without a delegate, or with one whose isPreviousPassword is not callable |
| `Evaluation.InvalidNumberOptionThrows` | KLGPasswordValidator.php:157-159 | when getConfigData's value for the digit option is neither a boolean nor an integer, the evaluation throws the invalid-parameter exception (no earlier rule can throw) |
| `Evaluation.MissingWordlistThrows` | KLGPasswordValidator.php:286 | a set wordlist option that names no file throws |
| `Evaluation.WordlistFails` | KLGPasswordValidator.php:286 | a set exact-wordlist option that names no file makes that rule throw `Wordlist file not found` |
| `Evaluation.EffectsIgnoreErrors` | KLGPasswordValidator.php:119-282 | the score and counter updates of the rules never read or write the error list |
| `Evaluation.EffectsOfOrder` | KLGPasswordValidator.php:119-282 | after all rules, the score is 4 per trimmed byte plus 5 for three digits, 5 for two specials and 10 for both cases, the counters are the digit, special and letter counts, and only the first four rules touch them |
| `Evaluation.ScoreOfEffects` | KLGPasswordValidator.php:326-359 | scoring after all rules yields the password's strength score and its three counts, with the error list untouched |
| `Evaluation.RunOfOrder` | KLGPasswordValidator.php:95-108 | the nine rules complete iff none throws, and then scoring leaves the codes of all rules in order, the strength score and the three counts |
| `Evaluation.ErrorsOfAppend` | KLGPasswordValidator.php:93-104 | the codes of two runs of rules one after the other are those of the first, then those of the second |
| `Evaluation.EveryRuleInOrder` | KLGPasswordValidator.php:95-104 | every rule is called, at the place `Position` gives it |
| `Evaluation.PositionOfOrder` | KLGPasswordValidator.php:95-104 | the call at place j is the rule whose position is j |
| `Evaluation.ErrorsOfOrigins` | KLGPasswordValidator.php:93-104 | a code is in the collected list iff its rule is among those run and that rule emitted it |
| `Evaluation.ErrorsOfSorted` | KLGPasswordValidator.php:93-104 | rules run in increasing position collect their codes sorted by rule |
| `Evaluation.SubstringErrorsMembers` | KLGPasswordValidator.php:240-244 | every listed word that occurs case-insensitively gets its code |
| `Evaluation.PartErrorsMembers` | KLGPasswordValidator.php:307-315 | every wordlist line longer than four bytes that occurs in the lowercased password gets its code |
| `Evaluation.SubstringErrorsAppend` | KLGPasswordValidator.php:240-244 | the loop over a list made of two parts appends the codes of the first part, then those of the second, so codes come in list order |
| `Evaluation.SubstringErrorsSingle` | KLGPasswordValidator.php:241-243 | one listed word adds exactly one code when it occurs case-insensitively and none otherwise; with `SubstringErrorsAppend`, a word listed twice gives its code twice |
| `Evaluation.PartErrorsAppend` | KLGPasswordValidator.php:307-315 | the loop over lines made of two parts appends the codes of the first part, then those of the second, so codes come in file order |
| `Evaluation.PartErrorsSingle` | KLGPasswordValidator.php:308-312 | one line adds exactly one code when it is longer than four bytes and occurs in the lowercased password, and none otherwise |
| `Evaluation.DecisionsTagged` | KLGPasswordValidator.php:95-104 | each rule emits only its own codes |
| `Evaluation.ErrorsFollowRuleOrder` | KLGPasswordValidator.php:93-104 | the error list of a completed evaluation is sorted by rule, in validatePassword's order |
| `Evaluation.Reported` | KLGPasswordValidator.php:93-104 | a code is in the error list iff the rule it belongs to emitted it |
| `Evaluation.ReportedBy` | KLGPasswordValidator.php:93-104 | the same, stated for one rule: in the list iff in that rule's codes |
| `Evaluation.LengthCodesFirst` | KLGPasswordValidator.php:93-95 | the length rule's codes open the error list |
| `Evaluation.QuietEvaluation` | KLGPasswordValidator.php:91-111 | when no rule emits anything, the list is empty and only the score and counters are set |
| `Reporting.LengthDecision` | KLGPasswordValidator.php:119-131 | the length rule emits `PASSWORD_LENGTH:<min>` iff the trimmed password is shorter than the minimum, and nothing else |
| `Reporting.LengthReported` | KLGPasswordValidator.php:119-131 | the length code for the minimum is reported iff the trimmed password is too short, and then exactly once; no other minimum appears; and it comes first |
| `Reporting.LengthCodeOnce` | KLGPasswordValidator.php:93-104 | the completed error list holds the length code once when the trimmed password is too short and never otherwise, since no later rule emits it |
| `Reporting.NumberDecision` | KLGPasswordValidator.php:157-187 | a completing digit rule has a valid minimum, and emits the digit code for `m` iff `m` is that minimum and there are fewer digits |
| `Reporting.NumbersReported` | KLGPasswordValidator.php:157-187 | the same for the final error list |
| `Reporting.SpecialDecision` | KLGPasswordValidator.php:189-217 | the special-character rule's counterpart of NumberDecision |
| `Reporting.SpecialsReported` | KLGPasswordValidator.php:189-217 | the same for the final error list |
| `Reporting.CasesDecision` | KLGPasswordValidator.php:247-282 | the case rule never throws; each case code is emitted iff the flag is true and that case is missing, and at most once; when both cases are missing the codes are the lowercase one, then the uppercase one |
| `Reporting.CasesReported` | KLGPasswordValidator.php:247-282 | each case code is in the final error list iff the flag is true and that case is missing; it is there exactly once in that case and not at all otherwise, and when both are missing the lowercase code comes directly before the uppercase one |
| `Reporting.CasesCodes` | KLGPasswordValidator.php:247-282 | the case rule's codes: the lowercase code if the flag is true and there is no lowercase letter, then the uppercase code if the flag is true and there is no uppercase letter |
| `Reporting.CasesSegment` | KLGPasswordValidator.php:93-104 | a completed error list is the case rule's codes with the codes of the three earlier and the five later rules around them, none of which is a case code |
| `Reporting.NoCaseCodeFrom` | KLGPasswordValidator.php:247-282 | only the case rule emits the two case codes |
| `Reporting.CaseCodesInList` | KLGPasswordValidator.php:93-104 | the case codes occur in the completed error list as often as the case rule emits them, in its order |
| `Reporting.PreviousDecision` | KLGPasswordValidator.php:133-155 | a completing previous-password rule had a boolean or no option, a callable delegate if true, and emits its code iff the flag is true and the delegate recognises the password |
| `Reporting.PreviousReported` | KLGPasswordValidator.php:133-155 | the same for the final error list |
| `Reporting.UsernameDecision` | KLGPasswordValidator.php:219-230 | a completing username rule had a boolean (or no) option and a username, and emits its code iff the flag is true and the lowercased username occurs in the lowercased password |
| `Reporting.UsernameReported` | KLGPasswordValidator.php:219-230 | the same for the final error list |
| `Reporting.SubstringDecision` | KLGPasswordValidator.php:232-245 | a completing substring rule had no option, false or a list, and emits the code for `w` iff `w` is listed and occurs case-insensitively |
| `Reporting.SubstringReported` | KLGPasswordValidator.php:232-245 | the same for the final error list |
| `Reporting.WordlistDecision` | KLGPasswordValidator.php:284-296 | a completing exact-wordlist rule found its file when set, and emits its code iff the lowercased password is a line of it |
| `Reporting.WordlistReported` | KLGPasswordValidator.php:284-296 | the same for the final error list |
| `Reporting.PartDecision` | KLGPasswordValidator.php:298-316 | a completing wordlist-part rule found its file when set, and emits the code for `w` iff `w` is a line longer than four bytes occurring in the lowercased password |
| `Reporting.PartReported` | KLGPasswordValidator.php:298-316 | the same for the final error list |
| `Reporting.SubstringErrorsEmpty` | KLGPasswordValidator.php:240-244 | the substring loop appends nothing iff no word occurs case-insensitively |
| `Reporting.PartErrorsEmpty` | KLGPasswordValidator.php:307-315 | the wordlist-part loop appends nothing iff no line longer than four bytes occurs |
| `Reporting.RuleHoldsIff` | KLGPasswordValidator.php:119-316 | a completing rule emits no code iff the password meets that rule, stated independently of the rule's code |
| `Reporting.NoErrorsIffNoneEmitted` | KLGPasswordValidator.php:93-104 | the final error list is empty iff no rule emitted a code |
| `Reporting.ValidIffRulesHold` | KLGPasswordValidator.php:73-77 | a completed evaluation reports no error iff the password meets every rule |
| `Scoring.ScoreReported` | KLGPasswordValidator.php:326-359 | a completed evaluation's score is the strength score of the password, in 0..100, and the counters are the digit, special and letter counts |
| `Scoring.ScoreIgnoresConfiguration` | KLGPasswordValidator.php:326-359 | two completed evaluations of the same password score the same whatever the options, username, delegate or files |
| `Scoring.EmptyPasswordScoresZero` | KLGPasswordValidator.php:340-350 | the empty password's unclamped score is negative and its score is 0 |
| `Scoring.LongPasswordScoresFullMarks` | KLGPasswordValidator.php:348-355 | a trimmed length of 30 or more always scores 100 |
| `Scoring.UpperClampReached` | KLGPasswordValidator.php:353-355 | 22 trimmed bytes with a digit and a letter exceed 100 before the clamp, so the upper clamp is reachable |
| `Examples.PasswordScore` | KLGPasswordValidator.php:326-359 | "Passw0rd!" scores 91 from one digit, one special and seven letters |
| `Examples.StrictPasswordPasses` | KLGPasswordValidator.php:91-111 | "Passw0rd!" under a minimum length of 8 with one digit and one special required reports nothing and scores 91 |
| `Examples.EmptyPasswordFails` | KLGPasswordValidator.php:119-131 | the empty password with no options is reported too short for the minimum of 1 and scores 0 |
| `Examples.StrictDecisions` | KLGPasswordValidator.php:95-104 | under the strict options every rule completes on "Passw0rd!" and emits nothing |
| `Examples.EmptyDecisions` | KLGPasswordValidator.php:95-104 | with no options only the length rule emits, with the minimum 1, on the empty password |
| `Examples.LowerHasNoUppercase` | KLGPasswordValidator.php:291 | strtolower leaves no capital letter |
| `Examples.SubstringIgnoresCase` | KLGPasswordValidator.php:241 | the forbidden word "ab" is found in "xAB" |
| `Examples.ExactWordlistIsNotTrimmed` | KLGPasswordValidator.php:291-293 | "ab " is not reported though the file holds the line "ab" |
| `Examples.WordlistLinesAreNotLowercased` | KLGPasswordValidator.php:303-309 | a wordlist line with a capital letter never matches, exactly or as a part |
| `Examples.EuroSignCountsThrice` | KLGPasswordValidator.php:200 | the euro sign counts as three special characters |
| `PhpText.IsSpecialByte` | KLGPasswordValidator.php:200 | the bytes the special-character pattern matches, one byte at a time (definition; `Examples.EuroSignCountsThrice` shows the multi-byte case) |
| `PhpText.Count` | KLGPasswordValidator.php:168-171 | the number of preg_match_all matches of a one-byte class, never more than the length of the string |
| `PhpText.Trim` | KLGPasswordValidator.php:124 | trim with PHP's default whitespace set (definition; `PhpText.TrimStripsEnds` states its meaning) |
| `PhpText.Lower` | KLGPasswordValidator.php:225 | ASCII strtolower, which keeps the length (`Examples.LowerHasNoUppercase` states that no capital remains) |
| `PhpText.StrStr` | KLGPasswordValidator.php:225 | strstr (definition; `PhpText.StrStrFindsOccurrence` and `PhpText.StrStrFindsFirst` state its meaning) |
| `PhpText.Explode` | KLGPasswordValidator.php:289 | explode on one separator byte, which always gives at least one piece |
| `PhpText.CountZeroIff` | KLGPasswordValidator.php:168-171 | a class count is zero iff no byte of the password is in the class |
| `PhpText.CountAppend` | KLGPasswordValidator.php:168-171 | counting a concatenation adds the counts |
| `PhpText.TrimStripsEnds` | KLGPasswordValidator.php:124 | trim removes exactly the whitespace at both ends |
| `PhpText.StrStrFindsOccurrence` | KLGPasswordValidator.php:225 | strstr finds something iff the needle occurs at some offset |
| `PhpText.StrStrFindsFirst` | KLGPasswordValidator.php:225 | strstr returns the rest of the haystack from the first occurrence |
| `PhpText.ExplodeImplode` | KLGPasswordValidator.php:289 | explode on a byte loses nothing (joining the pieces gives the input back) and no piece holds the separator |
| `PhpText.ExplodeWithoutSeparator` | KLGPasswordValidator.php:289 | a string without the separator explodes into itself alone |
| `PhpText.ExplodeAtFirstSeparator` | KLGPasswordValidator.php:289 | explode cuts at the first separator and goes on with the rest |
| `PhpText.Decimal` | KLGPasswordValidator.php:129 | PHP's decimal form of an integer, as interpolated into the minimum in `PASSWORD_LENGTH:$length` and the two count codes at 185 and 215 (definition; `PhpText.IntvalOfDecimal` reads it back) |
| `PhpText.IntvalOfString` | KLGPasswordValidator.php:121 | PHP's intval of a string: skips leading space, tab, LF, vertical tab, form feed and CR, reads an optional `-` or `+`, then the longest run of decimal digits; 0 when there is none (definition; `PhpText.IntvalOfDecimal` states its round trip with `Decimal`) |
| `PhpText.IntvalOfDecimal` | KLGPasswordValidator.php:121 | intval reads a decimal string back as its number |
| `Settings.LengthMinimumOfString` | KLGPasswordValidator.php:121-122 | a minimum length given as a decimal string is that number, and 0 means 1 |
| `ErrorCodes.Render` | KLGPasswordValidator.php:129 | the string stored for a code: the identifier, then a colon and the parameter when there is one (definition; `ErrorCodes.SplitCodeInvertsRender` inverts it) |
| `ErrorCodes.ExplodeCode` | KLGPasswordValidator.php:374-376 | getHumanReadableErrorMessage's split as written (definition; see the two lemmas on it below) |
| `ErrorCodes.SplitCode` | KLGPasswordValidator.php:374-379 | the split at the first colon (definition; `ErrorCodes.SplitCodeInvertsRender` proves it inverts `Render`) |
| `ErrorCodes.IdentifierHasNoColon` | KLGPasswordValidator.php:129 | no code identifier contains a colon |
| `ErrorCodes.SplitCodeAtColon` | KLGPasswordValidator.php:374-379 | a code split at its first colon gives the part before it and everything after it |
| `ErrorCodes.SplitCodeInvertsRender` | KLGPasswordValidator.php:374-379 | splitting a rendered code at its first colon gives back the identifier and the parameter |
| `ErrorCodes.ExplodeCodeWithoutColonInParameter` | KLGPasswordValidator.php:374-379 | the source's explode-based split is right whenever the parameter holds no colon |
| `ErrorCodes.ExplodeCodeTruncatesParameter` | KLGPasswordValidator.php:374-379 | for a forbidden word holding a colon, the explode-based split keeps only the part before it |

## Left out

- The constructor's `is_array` guard (line 48): the configuration is a map by its type, so the guard cannot fail.
- checkChunks (lines 318-324): its one statement with an effect is commented out, so it changes nothing and is not called in the model.
- getHumanReadableErrorMessage: reading `german.i18n`, the translation table and `sprintf` are I/O and formatting. Only the split of a code into identifier and parameter is modelled.
- `in_array` at line 293 compares loosely in PHP, so numeric strings compare as numbers. The model compares bytes exactly.
- PhpText.IntvalOfString: `intval` of a string reads optional whitespace, a sign and leading decimal digits. Exponent notation, saturation at the platform's integer width, and floats are not modelled. A float or object option keeps only its intval (`Other`).
- The list items of a `rejectSubstrings` array are taken as strings. Arrays with non-string or nested elements, and array keys, are not modelled.
- Settings.PathOf: a float option is kept only as its intval, so the string PHP passes to `is_file` for it (`1.0` names the file `1`) is not modelled. The model treats such an option as naming no file.
- Rules.ReadWordlist: under PHP 8, an array given as a wordlist option makes `is_file` raise a `TypeError`. The model throws `Wordlist file not found` instead. Either way the evaluation ends with an exception, but the exception differs.
- `strstr` with an empty needle follows PHP 8, where it is found at offset 0.
- `strtolower` is ASCII only, as in PHP 8.2 and later.
- The delegate is a pure oracle. Its own code, and any side effects or exceptions of `isPreviousPassword`, are not modelled. `is_callable` becomes a flag, and `== true` on its answer becomes a boolean.
- `is_file` and `file_get_contents` are a map from file names to contents, passed to the getters. A name is a file iff it is a key of the map; the empty name is never a file. Read errors are not modelled.
- example/test.php: an HTML form demo that only calls the public API.
- Integers are unbounded: PHP's 64-bit integers and their overflow to float are not modelled. No reachable score or count comes near those bounds.
- Regular-expression matching is modelled as membership of each byte in a fixed class, with one match per byte. No regex engine is modelled.
- Validator.KLGPasswordValidator.ValidatePassword: the PHP method is one straight sequence of calls whose exceptions propagate. The model returns the exception as a value, and groups the calls into the helper methods listed above so each proof stays small. The order and guards of the calls are unchanged.
- Validator.KLGPasswordValidator.ValidatePasswordPartIsNotInWordlist: the three nested `if`s of the loop body are one conjunction, which is equivalent because none has an `else`.

## Findings

| source | as written | input that shows it | evidently intended | confidence | as-written member | corrected member |
|---|---|---|---|---|---|---|
| KLGPasswordValidator.php:374-379 | `explode(':', $error)` and then `$error[1]` as the parameter | the code `PASSWORD_CONTAINS_SUBSTRING:a:b`, stored for the forbidden word `a:b`, gives the parameter `a` | split at the first colon only, so the parameter is `a:b` | not executed | `ErrorCodes.ExplodeCodeTruncatesParameter` | `ErrorCodes.SplitCodeInvertsRender` |
