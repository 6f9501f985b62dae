/** The server side of the contact form (app.js): the four validation rules
    of `POST /submit`, the entry built from an accepted form, and the
    in-memory `submissions` list that the handler appends to and
    `GET /api/entries` returns. */
module Submissions {
  import opened Wrappers
  import opened Text
  import opened Regex

  /** The urlencoded body of `POST /submit`; None is a field that is absent. */
  datatype SubmitForm = SubmitForm(
    name: Option<string>,
    email: Option<string>,
    message: Option<string>,
    password: Option<string>,
    confirmPassword: Option<string>)

  /** A stored submission. The password fields are not part of it. */
  datatype Entry = Entry(id: nat, name: string, email: string, message: string, createdAt: string)

  /** A field is truthy in JavaScript: present and not the empty string. */
  predicate Truthy(v: Option<string>) {
    v.Some? && v.value != []
  }

  /** The four checks of the handler, in the order they run. */
  datatype Rule = NameRule | EmailRule | PasswordRule | MatchRule

  const RuleOrder: seq<Rule> := [NameRule, EmailRule, PasswordRule, MatchRule]

  /** The position of a rule in `RuleOrder`. */
  function Rank(r: Rule): (n: nat)
    ensures n < |RuleOrder| && RuleOrder[n] == r
  {
    match r
    case NameRule => 0
    case EmailRule => 1
    case PasswordRule => 2
    case MatchRule => 3
  }

  /** The message pushed when a rule fails. */
  function Message(r: Rule): string {
    match r
    case NameRule => "Name is required (min 2 chars)."
    case EmailRule => "Valid email is required."
    case PasswordRule => "Password must be at least 6 characters."
    case MatchRule => "Passwords do not match."
  }

  /** The condition under which the handler pushes the rule's message. */
  predicate Fails(r: Rule, f: SubmitForm) {
    match r
    case NameRule => !Truthy(f.name) || |Trim(f.name.value)| < 2
    case EmailRule => !Truthy(f.email) || !EmailOk(f.email.value)
    case PasswordRule => !Truthy(f.password) || |f.password.value| < 6
    case MatchRule => f.password != f.confirmPassword  // `!==`: two absent fields are equal
  }

  /** The rules of `rules` that fail on `f`, in their order in `rules`. */
  function Failing(rules: seq<Rule>, f: SubmitForm): (r: seq<Rule>)
    ensures |r| <= |rules|
  {
    if rules == [] then []
    else if Fails(rules[0], f) then [rules[0]] + Failing(rules[1..], f)
    else Failing(rules[1..], f)
  }

  /** `Failing` keeps exactly the failing rules. */
  lemma {:induction false} FailingMembers(rules: seq<Rule>, f: SubmitForm)
    ensures forall x :: x in Failing(rules, f) <==> x in rules && Fails(x, f)
  {
    if rules != [] {
      FailingMembers(rules[1..], f);
      assert rules == [rules[0]] + rules[1..];
    }
  }

  /** The failing rules of the handler, in rule order. */
  function FailedRules(f: SubmitForm): seq<Rule> {
    Failing(RuleOrder, f)
  }

  /** The messages of a list of rules, in the same order. */
  function Messages(rs: seq<Rule>): (ms: seq<string>)
    ensures |ms| == |rs|
  {
    if rs == [] then [] else [Message(rs[0])] + Messages(rs[1..])
  }

  /** The `errors` array the handler builds. */
  function ErrorsFor(f: SubmitForm): seq<string> {
    Messages(FailedRules(f))
  }

  /** The form passes every rule. */
  predicate Accepted(f: SubmitForm) {
    !Fails(NameRule, f) && !Fails(EmailRule, f) && !Fails(PasswordRule, f) && !Fails(MatchRule, f)
  }

  /** The messages contributed by one rule. */
  function ErrorsOf(r: Rule, f: SubmitForm): seq<string> {
    if Fails(r, f) then [Message(r)] else []
  }

  lemma {:induction false} MessagesAppend(a: seq<Rule>, b: seq<Rule>)
    ensures Messages(a + b) == Messages(a) + Messages(b)
  {
    if a != [] {
      MessagesAppend(a[1..], b);
      assert (a + b)[1..] == a[1..] + b;
    } else {
      assert a + b == b;
    }
  }

  /** The rule itself when it fails, else nothing. */
  function RulesIf(r: Rule, f: SubmitForm): seq<Rule> {
    if Fails(r, f) then [r] else []
  }

  // FailingHead, FailedLast, FailedLastTwo and FailedLastThree unfold
  // `Failing` one rule at a time. Left to unfold the literal rule list in
  // one go, the solver's cost for CollectErrors depended on its seed.

  /** `Failing` takes the head rule, then the rest. */
  lemma FailingHead(rules: seq<Rule>, f: SubmitForm)
    requires rules != []
    ensures Failing(rules, f) == RulesIf(rules[0], f) + Failing(rules[1..], f)
  {
  }

  lemma FailedLast(f: SubmitForm)
    ensures Failing([MatchRule], f) == RulesIf(MatchRule, f)
  {
    FailingHead([MatchRule], f);
    assert [MatchRule][1..] == [];
  }

  lemma FailedLastTwo(f: SubmitForm)
    ensures Failing([PasswordRule, MatchRule], f) == RulesIf(PasswordRule, f) + RulesIf(MatchRule, f)
  {
    FailingHead([PasswordRule, MatchRule], f);
    assert [PasswordRule, MatchRule][1..] == [MatchRule];
    FailedLast(f);
  }

  lemma FailedLastThree(f: SubmitForm)
    ensures Failing([EmailRule, PasswordRule, MatchRule], f)
         == RulesIf(EmailRule, f) + (RulesIf(PasswordRule, f) + RulesIf(MatchRule, f))
  {
    FailingHead([EmailRule, PasswordRule, MatchRule], f);
    assert [EmailRule, PasswordRule, MatchRule][1..] == [PasswordRule, MatchRule];
    FailedLastTwo(f);
  }

  /** The failing rules are those of the four checks, one after the other. */
  lemma FailedExpand(f: SubmitForm)
    ensures FailedRules(f) == RulesIf(NameRule, f) + RulesIf(EmailRule, f) + RulesIf(PasswordRule, f) + RulesIf(MatchRule, f)
  {
    var a, b, c, d := RulesIf(NameRule, f), RulesIf(EmailRule, f), RulesIf(PasswordRule, f), RulesIf(MatchRule, f);
    var order := RuleOrder;
    FailingHead(order, f);
    assert order[1..] == [EmailRule, PasswordRule, MatchRule];
    FailedLastThree(f);
    RulesAssoc(a, b, c, d);
  }

  /** Regrouping four rule lists, kept as a separate step for the same
      reason: inline, associativity in FailedExpand was seed-dependent. */
  lemma RulesAssoc(a: seq<Rule>, b: seq<Rule>, c: seq<Rule>, d: seq<Rule>)
    ensures a + (b + (c + d)) == a + b + c + d
  {
  }

  /** The messages of one rule's failure list are that rule's errors; a
      separate step that ErrorsExpand applies to each of the four rules. */
  lemma MessagesIf(r: Rule, f: SubmitForm)
    ensures Messages(RulesIf(r, f)) == ErrorsOf(r, f)
  {
  }

  lemma ErrorsExpand(f: SubmitForm)
    ensures ErrorsFor(f) == ErrorsOf(NameRule, f) + ErrorsOf(EmailRule, f) + ErrorsOf(PasswordRule, f) + ErrorsOf(MatchRule, f)
  {
    var a, b, c, d := RulesIf(NameRule, f), RulesIf(EmailRule, f), RulesIf(PasswordRule, f), RulesIf(MatchRule, f);
    FailedExpand(f);
    MessagesAppend(a + b + c, d);
    MessagesAppend(a + b, c);
    MessagesAppend(a, b);
    MessagesIf(NameRule, f);
    MessagesIf(EmailRule, f);
    MessagesIf(PasswordRule, f);
    MessagesIf(MatchRule, f);
  }

  /** No error message exactly when every rule passes. */
  lemma {:induction false} NoErrorsIffAccepted(f: SubmitForm)
    ensures ErrorsFor(f) == [] <==> Accepted(f)
  {
    ErrorsExpand(f);
  }

  /** Builds `errors` with one `push` per failing check (app.js:30-35). */
  method CollectErrors(f: SubmitForm) returns (errors: seq<string>)
    ensures errors == ErrorsFor(f)
    ensures errors == [] <==> Accepted(f)
  {
    errors := [];
    if !Truthy(f.name) || |Trim(f.name.value)| < 2 {
      errors := errors + [Message(NameRule)];
    }
    ghost var e1 := errors;
    assert e1 == ErrorsOf(NameRule, f);
    if !Truthy(f.email) || !EmailOk(f.email.value) {
      errors := errors + [Message(EmailRule)];
    }
    ghost var e2 := errors;
    assert e2 == e1 + ErrorsOf(EmailRule, f);
    if !Truthy(f.password) || |f.password.value| < 6 {
      errors := errors + [Message(PasswordRule)];
    }
    ghost var e3 := errors;
    assert e3 == e2 + ErrorsOf(PasswordRule, f);
    if f.password != f.confirmPassword {
      errors := errors + [Message(MatchRule)];
    }
    assert errors == e3 + ErrorsOf(MatchRule, f);
    ErrorsExpand(f);
    NoErrorsIffAccepted(f);
  }

  /** A form is rejected exactly when one of the four conditions holds. */
  lemma RejectedIff(f: SubmitForm)
    ensures ErrorsFor(f) != [] <==>
      || f.name.None? || |Trim(f.name.value)| < 2
      || f.email.None? || !EmailOk(f.email.value)
      || f.password.None? || |f.password.value| < 6
      || f.password != f.confirmPassword
  {
    NoErrorsIffAccepted(f);
    if f.name.Some? && f.name.value == [] {
      assert |Trim(f.name.value)| == 0;
    }
    if f.email.Some? && f.email.value == [] {
      assert !EmailShape(f.email.value);
      EmailOkIff(f.email.value);
    }
  }

  /** `Failing` keeps the order of its input list. */
  lemma {:induction false} FailingOrdered(rules: seq<Rule>, f: SubmitForm)
    requires forall i, j :: 0 <= i < j < |rules| ==> Rank(rules[i]) < Rank(rules[j])
    ensures forall i, j :: 0 <= i < j < |Failing(rules, f)| ==> Rank(Failing(rules, f)[i]) < Rank(Failing(rules, f)[j])
  {
    if rules != [] {
      FailingOrdered(rules[1..], f);
      FailingMembers(rules[1..], f);
      var rest := Failing(rules[1..], f);
      forall x | x in rest ensures Rank(rules[0]) < Rank(x) {
        var k :| 1 <= k < |rules| && rules[k] == x by {
          assert x in rules[1..];
        }
      }
    }
  }

  lemma {:induction false} MessagesAt(rs: seq<Rule>, i: nat)
    requires i < |rs|
    ensures Messages(rs)[i] == Message(rs[i])
  {
    if i > 0 {
      MessagesAt(rs[1..], i - 1);
    }
  }

  /** The messages come out in rule order, one per failing rule and no other:
      the i-th message is that of a failing rule, every failing rule has its
      message, and the rule of an earlier message comes earlier in
      `RuleOrder`. */
  lemma ErrorsInRuleOrder(f: SubmitForm)
    ensures |ErrorsFor(f)| == |FailedRules(f)|
    ensures forall i :: 0 <= i < |ErrorsFor(f)| ==> ErrorsFor(f)[i] == Message(FailedRules(f)[i]) && Fails(FailedRules(f)[i], f)
    ensures forall r :: Fails(r, f) <==> r in FailedRules(f)
    ensures forall i, j :: 0 <= i < j < |FailedRules(f)| ==> Rank(FailedRules(f)[i]) < Rank(FailedRules(f)[j])
  {
    var order := RuleOrder;
    var rs := Failing(order, f);
    RuleOrderRanked();
    FailingOrdered(order, f);
    FailingMembers(order, f);
    forall i | 0 <= i < |rs| ensures Messages(rs)[i] == Message(rs[i]) && Fails(rs[i], f) {
      MessagesAt(rs, i);
      assert rs[i] in rs;
    }
    forall r ensures Fails(r, f) <==> r in rs {
      assert r in order by { assert order[Rank(r)] == r; }
    }
  }

  /** The rules of `RuleOrder` come in increasing rank. */
  lemma RuleOrderRanked()
    ensures forall i, j :: 0 <= i < j < |RuleOrder| ==> Rank(RuleOrder[i]) < Rank(RuleOrder[j])
  {
    forall i | 0 <= i < |RuleOrder| ensures Rank(RuleOrder[i]) == i {
    }
  }

  /** "jo@x.com" matches the e-mail pattern. */
  lemma JoAddressOk()
    ensures EmailOk("jo@x.com")
  {
    assert "jo@x.com"[2] == '@' && "jo@x.com"[4] == '.';
    EmailOkIff("jo@x.com");
  }

  /** "bad" does not. */
  lemma BadAddressRejected()
    ensures !EmailOk("bad")
  {
    assert !EmailShape("bad");
    EmailOkIff("bad");
  }

  /** A valid name and address with a short password and a different
      confirmation. */
  const MismatchForm := SubmitForm(Some("Jo"), Some("jo@x.com"), None, Some("abc"), Some("abd"))

  lemma MismatchFormRules()
    ensures !Fails(NameRule, MismatchForm) && !Fails(EmailRule, MismatchForm)
    ensures Fails(PasswordRule, MismatchForm) && Fails(MatchRule, MismatchForm)
  {
    assert !Fails(NameRule, MismatchForm) by {
      TrimNoSpace("Jo");
    }
    assert !Fails(EmailRule, MismatchForm) by {
      JoAddressOk();
    }
    assert Fails(MatchRule, MismatchForm) by {
      assert "abc"[2] != "abd"[2];
    }
  }

  /** Several errors are reported together: a short password that differs
      from its confirmation yields both password messages, in that order. */
  lemma ShortPasswordAndMismatch()
    ensures ErrorsFor(MismatchForm) == [Message(PasswordRule), Message(MatchRule)]
  {
    MismatchFormRules();
    ErrorsExpand(MismatchForm);
  }

  /** A one-letter name, an address without '@', an empty message and no
      password. */
  const BadForm := SubmitForm(Some("A"), Some("bad"), Some(""), None, None)

  lemma BadFormRules()
    ensures Fails(NameRule, BadForm) && Fails(EmailRule, BadForm)
    ensures Fails(PasswordRule, BadForm) && !Fails(MatchRule, BadForm)
  {
    assert Fails(NameRule, BadForm) by {
      assert |Trim("A")| <= 1;
    }
    assert Fails(EmailRule, BadForm) by {
      BadAddressRejected();
    }
  }

  /** The name and the e-mail message are reported together (and, without a
      password, the password message). */
  lemma ShortNameAndBadEmail()
    ensures ErrorsFor(BadForm) == [Message(NameRule), Message(EmailRule), Message(PasswordRule)]
  {
    BadFormRules();
    ErrorsExpand(BadForm);
  }

  /** The entry built from an accepted form (app.js:41-47). */
  function NewEntry(id: nat, f: SubmitForm, createdAt: string): (e: Entry)
    requires Accepted(f)
    ensures e.id == id && e.createdAt == createdAt
    ensures e.name == Trim(f.name.value) && |e.name| >= 2
    ensures e.email == f.email.value && EmailOk(e.email)
    ensures e.message == Trim(f.message.GetOr([]))
  {
    EmailOkHasNoSpace(f.email.value);
    TrimNoSpace(f.email.value);
    Entry(id, Trim(f.name.value), Trim(f.email.value), Trim(f.message.GetOr([])), createdAt)
  }

  /** Entry i of the list has id i + 1: what the store keeps when only the
      submit handler writes to it. */
  predicate IdsSequential(entries: seq<Entry>) {
    forall i :: 0 <= i < |entries| ==> entries[i].id == i + 1
  }

  /** The outcome of `POST /submit`: the form re-rendered with status 400 and
      the errors, or the thank-you page showing the new entry. */
  datatype SubmitResponse = Rejected(status: nat, errors: seq<string>) | ThankYou(entry: Entry)

  /** The store after one submission (the list the handler leaves behind). */
  function AfterSubmit(entries: seq<Entry>, f: SubmitForm, createdAt: string): (r: seq<Entry>)
    ensures !Accepted(f) ==> r == entries
    ensures Accepted(f) ==> |r| == |entries| + 1 && r[..|entries|] == entries && r[|entries|].id == |entries| + 1
  {
    if Accepted(f) then entries + [NewEntry(|entries| + 1, f, createdAt)] else entries
  }

  /** A submission keeps "entry i has id i + 1". */
  lemma AfterSubmitKeepsIds(entries: seq<Entry>, f: SubmitForm, createdAt: string)
    requires IdsSequential(entries)
    ensures IdsSequential(AfterSubmit(entries, f, createdAt))
  {
    if Accepted(f) {
      AppendKeepsIds(entries, NewEntry(|entries| + 1, f, createdAt));
    }
  }

  lemma AppendKeepsIds(entries: seq<Entry>, e: Entry)
    requires IdsSequential(entries) && e.id == |entries| + 1
    ensures IdsSequential(entries + [e])
  {
    var r := entries + [e];
    forall i | 0 <= i < |r| ensures r[i].id == i + 1 {
      if i < |entries| {
        assert r[i] == entries[i];
      }
    }
  }

  /** The store after a sequence of submissions, each with its timestamp. */
  function Replay(entries: seq<Entry>, forms: seq<(SubmitForm, string)>): seq<Entry>
    decreases |forms|
  {
    if forms == [] then entries
    else Replay(AfterSubmit(entries, forms[0].0, forms[0].1), forms[1..])
  }

  /** However many forms are submitted, starting from the empty list, entry i
      has id i + 1 (so ids are distinct), the list never shrinks, and every
      earlier entry stays as it was. */
  lemma {:induction false} ReplayKeepsIds(entries: seq<Entry>, forms: seq<(SubmitForm, string)>)
    requires IdsSequential(entries)
    ensures IdsSequential(Replay(entries, forms))
    ensures |Replay(entries, forms)| >= |entries| && Replay(entries, forms)[..|entries|] == entries
    decreases |forms|
  {
    if forms != [] {
      var next := AfterSubmit(entries, forms[0].0, forms[0].1);
      AfterSubmitKeepsIds(entries, forms[0].0, forms[0].1);
      AfterSubmitExtends(entries, forms[0].0, forms[0].1);
      ReplayKeepsIds(next, forms[1..]);
      PrefixOfPrefix(Replay(next, forms[1..]), next, entries);
    }
  }

  /** A submission never removes or changes an entry. */
  lemma AfterSubmitExtends(entries: seq<Entry>, f: SubmitForm, createdAt: string)
    ensures |AfterSubmit(entries, f, createdAt)| >= |entries|
    ensures AfterSubmit(entries, f, createdAt)[..|entries|] == entries
  {
    if !Accepted(f) {
      assert entries[..|entries|] == entries;
    }
  }

  /** A prefix of a prefix is a prefix; proved apart from ReplayKeepsIds,
      whose context made this step seed-dependent. */
  lemma PrefixOfPrefix(r: seq<Entry>, s: seq<Entry>, t: seq<Entry>)
    requires |r| >= |s| >= |t| && r[..|s|] == s && s[..|t|] == t
    ensures r[..|t|] == t
  {
    assert r[..|t|] == r[..|s|][..|t|];
  }

  /** Sequential ids are distinct. */
  lemma SequentialIdsDistinct(entries: seq<Entry>, i: nat, j: nat)
    requires IdsSequential(entries)
    requires i < |entries| && j < |entries| && i != j
    ensures entries[i].id != entries[j].id
  {
  }

  /** The module-level `submissions` array of app.js:8. */
  class SubmissionStore {
    var submissions: seq<Entry>

    ghost predicate Valid()
      reads this
    {
      IdsSequential(submissions)
    }

    constructor ()
      ensures Valid() && submissions == []
    {
      submissions := [];
    }

    /** `POST /submit` (app.js:28-51). `createdAt` stands for the clock
        reading `new Date().toISOString()`. */
    method Submit(f: SubmitForm, createdAt: string) returns (res: SubmitResponse)
      requires Valid()
      modifies this
      ensures Valid()
      ensures res.Rejected? <==> !Accepted(f)
      ensures res.Rejected? ==> res.status == 400 && res.errors == ErrorsFor(f) && submissions == old(submissions)
      ensures res.ThankYou? ==>
                res.entry == NewEntry(|old(submissions)| + 1, f, createdAt) && submissions == old(submissions) + [res.entry]
      ensures submissions == AfterSubmit(old(submissions), f, createdAt)
    {
      var errors := CollectErrors(f);
      if |errors| > 0 {
        return Rejected(400, errors);
      }
      var entry := NewEntry(|submissions| + 1, f, createdAt);
      AfterSubmitKeepsIds(submissions, f, createdAt);
      submissions := submissions + [entry];
      res := ThankYou(entry);
    }

    /** `GET /api/entries` (app.js:54-56): the list as it is, in insertion order. */
    method ListEntries() returns (entries: seq<Entry>)
      ensures entries == submissions
    {
      entries := submissions;
    }
  }

  /** A first contact form: a two-letter name, a valid address, a message
      and a matching six-character password. */
  const JoForm := SubmitForm(Some("Jo"), Some("jo@x.com"), Some("hi"), Some("secret"), Some("secret"))

  /** The form passes all four rules. */
  lemma JoFormAccepted()
    ensures Accepted(JoForm)
  {
    assert !Fails(NameRule, JoForm) by {
      TrimNoSpace("Jo");
    }
    JoAddressOk();
  }

  /** As the first submission the form is stored with id 1 and its fields as
      given. */
  lemma JoFormStored(createdAt: string)
    ensures Accepted(JoForm) && NewEntry(1, JoForm, createdAt) == Entry(1, "Jo", "jo@x.com", "hi", createdAt)
  {
    JoFormAccepted();
    JoEntryName();
    JoEntryMessage();
  }

  lemma JoEntryName()
    ensures Trim(JoForm.name.value) == "Jo"
  {
    TrimNoSpace("Jo");
  }

  lemma JoEntryMessage()
    ensures Trim(JoForm.message.GetOr([])) == "hi"
  {
    TrimNoSpace("hi");
  }

  /** A caller's view: the first accepted submission to an empty store gets
      id 1 and the trimmed fields; a rejected one leaves the store alone. */
  method StoreScenario(t1: string, t2: string)
  {
    var store := new SubmissionStore();
    JoFormStored(t1);
    var r := store.Submit(JoForm, t1);
    assert r == ThankYou(Entry(1, "Jo", "jo@x.com", "hi", t1));
    ShortNameAndBadEmail();
    var r2 := store.Submit(BadForm, t2);
    assert r2.Rejected?;
    var all := store.ListEntries();
    assert all == [Entry(1, "Jo", "jo@x.com", "hi", t1)];
  }
}
