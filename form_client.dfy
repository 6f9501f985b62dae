/** The browser script of the contact form (public/js/form.js): the password
    strength score and its label, the e-mail check, the HTML escaper, and the
    checks run before the form is sent. */
module FormClient {
  import opened Wrappers
  import opened Text
  import opened Regex
  import opened Submissions

  // ---------------------------------------------------------------------
  // Password strength

  /** The five things `scorePassword` rewards. */
  datatype Criterion = MinLength | HasLower | HasUpper | HasDigit | HasSymbol

  const Criteria: seq<Criterion> := [MinLength, HasLower, HasUpper, HasDigit, HasSymbol]

  /** The character class a "contains" criterion looks for. */
  function ClassOf(c: Criterion): CharClass
    requires c != MinLength
  {
    match c
    case HasLower => Lower
    case HasUpper => Upper
    case HasDigit => Digit
    case HasSymbol => NonAlnum
  }

  /** `p` satisfies criterion `c`: at least eight characters, or some
      character of the criterion's class. */
  predicate Meets(p: string, c: Criterion) {
    if c == MinLength then |p| >= 8
    else exists i :: 0 <= i < |p| && InClass(p[i], ClassOf(c))
  }

  function Bit(b: bool): nat {
    if b then 1 else 0
  }

  /** How many criteria of `cs` the password satisfies. */
  function CountMet(cs: seq<Criterion>, p: string): (n: nat)
    ensures n <= |cs|
  {
    if cs == [] then 0
    else Bit(Meets(p, cs[0])) + CountMet(cs[1..], p)
  }

  /** The strength of a password: the number of the five criteria it meets. */
  function Strength(p: string): nat {
    CountMet(Criteria, p)
  }

  lemma StrengthExpand(p: string)
    ensures Strength(p) == Bit(Meets(p, MinLength)) + Bit(Meets(p, HasLower)) + Bit(Meets(p, HasUpper))
                         + Bit(Meets(p, HasDigit)) + Bit(Meets(p, HasSymbol))
  {
    assert [HasSymbol][1..] == [];
    var c4 := CountMet([HasSymbol], p);
    assert [HasDigit, HasSymbol][1..] == [HasSymbol];
    var c3 := CountMet([HasDigit, HasSymbol], p);
    assert c3 == Bit(Meets(p, HasDigit)) + c4;
    assert [HasUpper, HasDigit, HasSymbol][1..] == [HasDigit, HasSymbol];
    var c2 := CountMet([HasUpper, HasDigit, HasSymbol], p);
    assert c2 == Bit(Meets(p, HasUpper)) + c3;
    assert [HasLower, HasUpper, HasDigit, HasSymbol][1..] == [HasUpper, HasDigit, HasSymbol];
    var c1 := CountMet([HasLower, HasUpper, HasDigit, HasSymbol], p);
    assert c1 == Bit(Meets(p, HasLower)) + c2;
    assert Criteria[1..] == [HasLower, HasUpper, HasDigit, HasSymbol];
  }

  /** Every character is a lower-case letter, an upper-case letter, a digit
      or something else, so a non-empty password meets some criterion. */
  lemma NonEmptyScores(p: string)
    requires p != []
    ensures Strength(p) >= 1
  {
    StrengthExpand(p);
    var c := p[0];
    if InClass(c, Lower) {
      assert Meets(p, HasLower);
    } else if InClass(c, Upper) {
      assert Meets(p, HasUpper);
    } else if InClass(c, Digit) {
      assert Meets(p, HasDigit);
    } else {
      assert Meets(p, HasSymbol);
    }
  }

  /** `scorePassword(p)` (form.js:41-50): one point per criterion met, found
      with the search `/[a-z]/.test(p)` and its siblings. */
  method ScorePassword(p: string) returns (score: nat)
    ensures score == Strength(p)
    ensures score <= 5
    ensures score == 0 <==> p == []
  {
    StrengthExpand(p);
    score := 0;
    if p == [] {
      return;
    }
    if |p| >= 8 {
      score := score + 1;
    }
    if Test(Lower, p) {
      score := score + 1;
    }
    if Test(Upper, p) {
      score := score + 1;
    }
    if Test(Digit, p) {
      score := score + 1;
    }
    if Test(NonAlnum, p) {
      score := score + 1;
    }
    NonEmptyScores(p);
  }

  lemma {:induction false} CountMonotone(cs: seq<Criterion>, p: string, q: string)
    requires forall c :: Meets(p, c) ==> Meets(q, c)
    ensures CountMet(cs, p) <= CountMet(cs, q)
  {
    if cs != [] {
      CountMonotone(cs[1..], p, q);
    }
  }

  /** Typing more characters never lowers the score: every criterion is
      "long enough" or "contains some character". */
  lemma StrengthMonotone(p: string, q: string)
    ensures Strength(p) <= Strength(p + q)
  {
    forall c | Meets(p, c) ensures Meets(p + q, c) {
      if c != MinLength {
        var i :| 0 <= i < |p| && InClass(p[i], ClassOf(c));
        assert (p + q)[i] == p[i];
      }
    }
    CountMonotone(Criteria, p, p + q);
  }

  /** `passwordLabel(score)` (form.js:52-58). */
  function PasswordLabel(score: int): (name: string)
    ensures name == "Very weak" <==> score <= 1
    ensures name == "Weak" <==> score == 2
    ensures name == "Okay" <==> score == 3
    ensures name == "Good" <==> score == 4
    ensures name == "Strong" <==> score >= 5
  {
    if score <= 1 then "Very weak"
    else if score == 2 then "Weak"
    else if score == 3 then "Okay"
    else if score == 4 then "Good"
    else "Strong"
  }

  /** A password is labelled "Strong" exactly when it meets all five
      criteria, and "Very weak" exactly when it meets at most one. */
  lemma StrongIffAllCriteria(p: string)
    ensures PasswordLabel(Strength(p)) == "Strong" <==> forall c :: Meets(p, c)
    ensures PasswordLabel(Strength(p)) == "Very weak" <==> Strength(p) <= 1
  {
    StrengthExpand(p);
    if forall c :: Meets(p, c) {
      assert Meets(p, MinLength) && Meets(p, HasLower) && Meets(p, HasUpper) && Meets(p, HasDigit) && Meets(p, HasSymbol);
    } else {
      var c :| !Meets(p, c);
      assert c == MinLength || c == HasLower || c == HasUpper || c == HasDigit || c == HasSymbol;
    }
  }

  // ---------------------------------------------------------------------
  // E-mail

  /** `isValidEmail(v)` (form.js:84): the pattern `^\S+@\S+\.\S+$`. */
  function IsValidEmail(v: string): (ok: bool)
    ensures ok <==> EmailShape(v)
  {
    EmailOkIff(v);
    EmailOk(v)
  }

  // ---------------------------------------------------------------------
  // HTML escaping

  /** The replacement `escapeHtml` uses for one character. */
  function EscapeChar(c: char): string {
    match c
    case '&' => "&amp;"
    case '<' => "&lt;"
    case '>' => "&gt;"
    case '"' => "&quot;"
    case _ => [c]
  }

  /** Every `&`, `<`, `>` and `"` replaced by its entity (form.js:175). */
  function EscapeText(s: string): (r: string)
    ensures '<' !in r && '>' !in r && '"' !in r
    ensures |r| >= |s|
  {
    if s == [] then [] else EscapeChar(s[0]) + EscapeText(s[1..])
  }

  /** `escapeHtml(s)` (form.js:174-176): a missing value escapes to '', a
      present one to its escaped text, which decodes back to the value. */
  function EscapeHtml(s: Option<string>): (r: string)
    ensures s.None? || s == Some([]) ==> r == []
    ensures s.Some? ==> r == EscapeText(s.value)
    ensures Unescape(r) == s.GetOr([])
    ensures '<' !in r && '>' !in r && '"' !in r
  {
    UnescapeEscape(s.GetOr([]));
    EscapeText(s.GetOr([]))
  }

  /** Decodes the four entities `escapeHtml` produces; everything else is
      copied. */
  function Unescape(s: string): string
    decreases |s|
  {
    if s == [] then []
    else if "&amp;" <= s then "&" + Unescape(s[5..])
    else if "&lt;" <= s then "<" + Unescape(s[4..])
    else if "&gt;" <= s then ">" + Unescape(s[4..])
    else if "&quot;" <= s then "\"" + Unescape(s[6..])
    else [s[0]] + Unescape(s[1..])
  }

  /** Escaping loses nothing: decoding the escaped text gives the text back. */
  lemma {:induction false} UnescapeEscape(s: string)
    ensures Unescape(EscapeText(s)) == s
  {
    if s != [] {
      UnescapeEscape(s[1..]);
      UnescapeChar(s[0], EscapeText(s[1..]));
      assert s == [s[0]] + s[1..];
    }
  }

  /** Decoding undoes the replacement of one character, whatever follows. */
  lemma UnescapeChar(c: char, rest: string)
    ensures Unescape(EscapeChar(c) + rest) == [c] + Unescape(rest)
  {
    if c == '&' {
      UnescapeAmp(rest);
    } else if c == '<' {
      UnescapeLt(rest);
    } else if c == '>' {
      UnescapeGt(rest);
    } else if c == '"' {
      UnescapeQuot(rest);
    } else {
      UnescapePlain(c, rest);
    }
  }

  lemma UnescapeAmp(rest: string)
    ensures Unescape("&amp;" + rest) == "&" + Unescape(rest)
  {
    var e := "&amp;" + rest;
    assert "&amp;" <= e && e[5..] == rest;
  }

  lemma UnescapeLt(rest: string)
    ensures Unescape("&lt;" + rest) == "<" + Unescape(rest)
  {
    var e := "&lt;" + rest;
    assert e[1] == 'l' && "&lt;" <= e && e[4..] == rest;
  }

  lemma UnescapeGt(rest: string)
    ensures Unescape("&gt;" + rest) == ">" + Unescape(rest)
  {
    var e := "&gt;" + rest;
    assert e[1] == 'g' && "&gt;" <= e && e[4..] == rest;
  }

  lemma UnescapeQuot(rest: string)
    ensures Unescape("&quot;" + rest) == "\"" + Unescape(rest)
  {
    var e := "&quot;" + rest;
    assert e[1] == 'q' && "&quot;" <= e && e[6..] == rest;
  }

  lemma UnescapePlain(c: char, rest: string)
    requires c != '&'
    ensures Unescape([c] + rest) == [c] + Unescape(rest)
  {
    var e := [c] + rest;
    assert e[0] == c && e[1..] == rest;
  }

  /** Escaping works character by character. */
  lemma {:induction false} EscapeAppend(a: string, b: string)
    ensures EscapeText(a + b) == EscapeText(a) + EscapeText(b)
  {
    if a == [] {
      assert a + b == b;
    } else {
      var ab := a + b;
      assert ab[0] == a[0] && ab[1..] == a[1..] + b;
      var x, ta, tb := EscapeChar(a[0]), EscapeText(a[1..]), EscapeText(b);
      EscapeAppend(a[1..], b);
      assert EscapeText(ab) == x + (ta + tb);
      AppendAssoc(x, ta, tb);
    }
  }

  /** Text without `& < > "` (an apostrophe, say) is left as it is. */
  lemma {:induction false} EscapeKeepsPlainText(s: string)
    requires '&' !in s && '<' !in s && '>' !in s && '"' !in s
    ensures EscapeText(s) == s
  {
    if s != [] {
      EscapeKeepsPlainText(s[1..]);
      assert s == [s[0]] + s[1..];
    }
  }

  /** Escaping is not idempotent: an ampersand escaped twice is "&amp;amp;". */
  lemma EscapeTwice()
    ensures EscapeText(EscapeText("&")) == "&amp;amp;"
    ensures EscapeText(EscapeText("&")) != EscapeText("&")
  {
    assert EscapeText("&") == "&amp;";
    EscapeAppend("&", "amp;");
    assert "&amp;" == "&" + "amp;";
    EscapeKeepsPlainText("amp;");
  }

  // ---------------------------------------------------------------------
  // Checks before sending

  /** The toast shown for a failed check, in the handler's own words. */
  function ClientMessage(r: Rule): string {
    match r
    case NameRule => "Name must be at least 2 characters."
    case EmailRule => "Enter a valid email."
    case PasswordRule => "Password must be at least 6 characters."
    case MatchRule => "Passwords do not match."
  }

  /** The form's current field values (input values are always strings). */
  datatype Fields = Fields(name: string, email: string, message: string, password: string, confirmPassword: string)

  /** The condition under which the submit handler stops at a rule
      (form.js:92, 97, 102, 107). */
  predicate ClientFails(r: Rule, v: Fields) {
    match r
    case NameRule => v.name == [] || |Trim(v.name)| < 2
    case EmailRule => !IsValidEmail(v.email)
    case PasswordRule => |v.password| < 6
    case MatchRule => v.password != v.confirmPassword
  }

  /** The first rule of `rules` that fails. */
  function FirstFailing(rules: seq<Rule>, v: Fields): (r: Option<Rule>)
    ensures r.None? <==> forall i :: 0 <= i < |rules| ==> !ClientFails(rules[i], v)
    ensures r.Some? ==>
              exists k :: 0 <= k < |rules| && rules[k] == r.value && ClientFails(r.value, v)
                          && forall i :: 0 <= i < k ==> !ClientFails(rules[i], v)
  {
    if rules == [] then None
    else if ClientFails(rules[0], v) then Some(rules[0])
    else
      var r := FirstFailing(rules[1..], v);
      assert forall i :: 1 <= i < |rules| ==> rules[i] == rules[1..][i - 1];
      if r.Some? then
        var k :| 0 <= k < |rules[1..]| && rules[1..][k] == r.value && ClientFails(r.value, v)
                 && forall i :: 0 <= i < k ==> !ClientFails(rules[1..][i], v);
        assert rules[k + 1] == r.value;
        r
      else r
  }

  /** The rule the handler stops at, if any. */
  function FirstFailure(v: Fields): Option<Rule> {
    FirstFailing(RuleOrder, v)
  }

  /** Only the first failing rule is reported: it fails, and every rule
      before it in the order name, e-mail, password length, match passes.
      No rule is reported exactly when all four pass. */
  lemma FirstFailureSpec(v: Fields)
    ensures FirstFailure(v).None? <==> forall r :: !ClientFails(r, v)
    ensures FirstFailure(v).Some? ==>
              ClientFails(FirstFailure(v).value, v)
              && forall r :: Rank(r) < Rank(FirstFailure(v).value) ==> !ClientFails(r, v)
  {
    var order := RuleOrder;
    if FirstFailure(v).Some? {
      var k :| 0 <= k < |order| && order[k] == FirstFailure(v).value && ClientFails(order[k], v)
               && forall i :: 0 <= i < k ==> !ClientFails(order[i], v);
      forall r | Rank(r) < Rank(FirstFailure(v).value) ensures !ClientFails(r, v) {
        assert order[Rank(r)] == r;
        assert Rank(order[k]) == k;
      }
    } else {
      forall r ensures !ClientFails(r, v) {
        assert order[Rank(r)] == r;
      }
    }
  }

  /** The request body the browser sends: every field present as a string. */
  function AsSubmitted(v: Fields): SubmitForm {
    SubmitForm(Some(v.name), Some(v.email), Some(v.message), Some(v.password), Some(v.confirmPassword))
  }

  /** The browser's checks are the server's: the handler stops at a rule
      exactly when the server would reject the sent form for it, and it
      stops at the first of the server's failed rules. */
  lemma ClientAgreesWithServer(v: Fields)
    ensures forall r :: ClientFails(r, v) <==> Fails(r, AsSubmitted(v))
    ensures FirstFailure(v).None? <==> Accepted(AsSubmitted(v))
    ensures FirstFailure(v).Some? ==>
              FailedRules(AsSubmitted(v)) != [] && FirstFailure(v).value == FailedRules(AsSubmitted(v))[0]
  {
    var f := AsSubmitted(v);
    assert v.email == [] ==> !IsValidEmail(v.email);
    forall r ensures ClientFails(r, v) <==> Fails(r, f) {
    }
    FirstFailureSpec(v);
    ErrorsInRuleOrder(f);
    NoErrorsIffAccepted(f);
    if FirstFailure(v).Some? {
      var r := FirstFailure(v).value;
      var rs := FailedRules(f);
      assert r in rs;
      var k :| 0 <= k < |rs| && rs[k] == r;
      assert Fails(rs[0], f);
      assert Rank(rs[0]) <= Rank(rs[k]);
      assert Rank(rs[0]) >= Rank(r);
      assert RuleOrder[Rank(rs[0])] == rs[0] && RuleOrder[Rank(r)] == r;
    }
  }

  /** A note shown to the user. */
  datatype ToastKind = Info | Success | Failure
  datatype Toast = Toast(text: string, kind: ToastKind)

  /** The form's page state that the submit handler changes. */
  class DemoForm {
    var submitDisabled: bool
    var toasts: seq<Toast>

    constructor ()
      ensures !submitDisabled && toasts == []
    {
      submitDisabled := false;
      toasts := [];
    }

    /** The start of the submit handler (form.js:87-111): the button is
        disabled, the four checks run in order, and the first that fails is
        shown and re-enables the button; `send` says whether the request goes
        out (the button stays disabled while it is in flight). */
    method OnSubmit(v: Fields) returns (send: bool)
      modifies this
      ensures send <==> FirstFailure(v).None?
      ensures !send ==> !submitDisabled && toasts == old(toasts) + [Toast(ClientMessage(FirstFailure(v).value), Failure)]
      ensures send ==> submitDisabled && toasts == old(toasts)
    {
      submitDisabled := true;
      FirstFailureSpec(v);
      if v.name == [] || |Trim(v.name)| < 2 {
        assert ClientFails(NameRule, v);
        toasts := toasts + [Toast(ClientMessage(NameRule), Failure)];
        submitDisabled := false;
        return false;
      }
      if !IsValidEmail(v.email) {
        assert ClientFails(EmailRule, v);
        toasts := toasts + [Toast(ClientMessage(EmailRule), Failure)];
        submitDisabled := false;
        return false;
      }
      if |v.password| < 6 {
        assert ClientFails(PasswordRule, v);
        toasts := toasts + [Toast(ClientMessage(PasswordRule), Failure)];
        submitDisabled := false;
        return false;
      }
      if v.password != v.confirmPassword {
        assert ClientFails(MatchRule, v);
        toasts := toasts + [Toast(ClientMessage(MatchRule), Failure)];
        submitDisabled := false;
        return false;
      }
      assert !ClientFails(NameRule, v) && !ClientFails(EmailRule, v);
      assert !ClientFails(PasswordRule, v) && !ClientFails(MatchRule, v);
      send := true;
    }
  }
}
