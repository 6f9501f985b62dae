/** The few regular expressions the application uses, with JavaScript's
    meaning: the anchored e-mail pattern `^\S+@\S+\.\S+$` and the
    one-class searches `/[a-z]/`, `/[A-Z]/`, `/\d/` and `/[\W_]/`. */
module Regex {
  import opened Text

  /** `\S`, `[a-z]`, `[A-Z]`, `\d` (ASCII digits only) and `[\W_]`. */
  datatype CharClass = NonSpace | Lower | Upper | Digit | NonAlnum

  predicate InClass(c: char, k: CharClass) {
    match k
    case NonSpace => !IsSpace(c)
    case Lower => 'a' <= c <= 'z'
    case Upper => 'A' <= c <= 'Z'
    case Digit => '0' <= c <= '9'
    // `\W` is everything but [A-Za-z0-9_]; adding `_` leaves everything but [A-Za-z0-9]
    case NonAlnum => !('a' <= c <= 'z' || 'A' <= c <= 'Z' || '0' <= c <= '9')
  }

  /** An atom of an anchored pattern: a literal character, or `class+`. */
  datatype Token = Lit(c: char) | Plus(k: CharClass)

  /** The whole of `s` matches the anchored pattern `^p$` (with backtracking
      over how much each `+` consumes). */
  function Matches(p: seq<Token>, s: string): bool
    decreases |p|, |s|
  {
    if p == [] then s == []
    else match p[0]
      case Lit(c) => s != [] && s[0] == c && Matches(p[1..], s[1..])
      case Plus(k) => s != [] && InClass(s[0], k) && (Matches(p[1..], s[1..]) || Matches(p, s[1..]))
  }

  /** `/[k]/.test(s)`: some character of `s` is in the class. */
  function Test(k: CharClass, s: string): (r: bool)
    ensures r <==> exists i :: 0 <= i < |s| && InClass(s[i], k)
  {
    if s == [] then false
    else if InClass(s[0], k) then true
    else
      assert forall i :: 1 <= i < |s| ==> s[i] == s[1..][i - 1];
      Test(k, s[1..])
  }

  /** `^\S+@\S+\.\S+$` */
  const EmailPattern: seq<Token> := [Plus(NonSpace), Lit('@'), Plus(NonSpace), Lit('.'), Plus(NonSpace)]

  /** `/^\S+@\S+\.\S+$/.test(v)` */
  predicate EmailOk(v: string) {
    Matches(EmailPattern, v)
  }

  /** What the pattern accepts, stated without the pattern: no white space
      anywhere, and an '@' at some position i >= 1 followed by a '.' at a
      position j >= i + 2 with at least one character after it.  Other '@'
      and '.' characters are allowed anywhere. */
  predicate EmailShape(v: string) {
    NoSpace(v) && exists i, j :: 1 <= i && i + 2 <= j && j + 2 <= |v| && v[i] == '@' && v[j] == '.'
  }

  lemma {:induction false} TailIff(s: string)
    ensures Matches([Plus(NonSpace)], s) <==> s != [] && NoSpace(s)
    decreases |s|
  {
    if s != [] {
      TailIff(s[1..]);
      assert NoSpace(s) <==> !IsSpace(s[0]) && NoSpace(s[1..]) by {
        assert forall i :: 1 <= i < |s| ==> s[i] == s[1..][i - 1];
      }
    }
  }

  /** `\S+\.\S+$` */
  lemma {:induction false} DomainIff(s: string)
    ensures Matches(EmailPattern[2..], s) <==> NoSpace(s) && exists j :: 1 <= j && j + 2 <= |s| && s[j] == '.'
    decreases |s|
  {
    var p := EmailPattern[2..];
    assert p == [Plus(NonSpace), Lit('.'), Plus(NonSpace)];
    assert p[1..][1..] == [Plus(NonSpace)];
    if s != [] {
      var t := s[1..];
      DomainIff(t);
      assert NoSpace(s) <==> !IsSpace(s[0]) && NoSpace(t) by {
        assert forall i :: 1 <= i < |s| ==> s[i] == t[i - 1];
      }
      if t != [] {
        TailIff(t[1..]);
        assert NoSpace(t) <==> !IsSpace(t[0]) && NoSpace(t[1..]) by {
          assert forall i :: 1 <= i < |t| ==> t[i] == t[1..][i - 1];
        }
      }
      if Matches(p, s) {
        if Matches(p[1..], t) {
          assert s[1] == '.';
        } else {
          var j :| 1 <= j && j + 2 <= |t| && t[j] == '.';
          assert s[j + 1] == '.';
        }
      }
      if NoSpace(s) && exists j :: 1 <= j && j + 2 <= |s| && s[j] == '.' {
        var j :| 1 <= j && j + 2 <= |s| && s[j] == '.';
        if j == 1 {
          assert Matches(p[1..], t);
        } else {
          assert t[j - 1] == '.';
          assert Matches(p, t);
        }
      }
    }
  }

  /** The e-mail pattern accepts exactly the strings of `EmailShape`. */
  lemma {:induction false} EmailOkIff(v: string)
    ensures EmailOk(v) <==> EmailShape(v)
    decreases |v|
  {
    var p := EmailPattern;
    if v != [] {
      var t := v[1..];
      EmailOkIff(t);
      assert NoSpace(v) <==> !IsSpace(v[0]) && NoSpace(t) by {
        assert forall i :: 1 <= i < |v| ==> v[i] == t[i - 1];
      }
      assert p[1..][1..] == EmailPattern[2..];
      if t != [] {
        DomainIff(t[1..]);
        assert NoSpace(t) <==> !IsSpace(t[0]) && NoSpace(t[1..]) by {
          assert forall i :: 1 <= i < |t| ==> t[i] == t[1..][i - 1];
        }
      }
      if EmailOk(v) {
        if Matches(p[1..], t) {
          var j :| 1 <= j && j + 2 <= |t[1..]| && t[1..][j] == '.';
          assert v[1] == '@' && v[j + 2] == '.';
        } else {
          var i, j :| 1 <= i && i + 2 <= j && j + 2 <= |t| && t[i] == '@' && t[j] == '.';
          assert v[i + 1] == '@' && v[j + 1] == '.';
        }
      }
      if EmailShape(v) {
        var i, j :| 1 <= i && i + 2 <= j && j + 2 <= |v| && v[i] == '@' && v[j] == '.';
        if i == 1 {
          assert t[1..][j - 2] == '.';
          assert Matches(p[1..], t);
        } else {
          assert t[i - 1] == '@' && t[j - 1] == '.';
          assert Matches(p, t);
        }
      }
    }
  }

  /** An address with two '@' characters is accepted. */
  lemma TwoAtSignsAccepted()
    ensures EmailOk("a@b@c.d")
  {
    var v := "a@b@c.d";
    assert NoSpace(v);
    assert v[1] == '@' && v[5] == '.';
    EmailOkIff(v);
  }

  /** An accepted address contains no white space. */
  lemma EmailOkHasNoSpace(v: string)
    requires EmailOk(v)
    ensures NoSpace(v)
  {
    EmailOkIff(v);
  }
}
