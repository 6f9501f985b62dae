/** String helpers with JavaScript's meaning: white space as `\s` and
    `String.prototype.trim` see it, `Array.prototype.join`,
    `String.prototype.includes`, the first-occurrence `replace` of a
    one-character string, and the decimal rendering `String(n)` of a
    non-negative integer. */
module Text {

  /** The characters JavaScript counts as white space (WhiteSpace and
      LineTerminator): what `\s` matches and what `trim` strips. */
  predicate IsSpace(c: char) {
    || c == ' ' || c == '\t' || c == '\n' || c == '\r'
    || c == '\U{000B}' || c == '\U{000C}' || c == '\U{00A0}' || c == '\U{1680}'
    || ('\U{2000}' <= c <= '\U{200A}')
    || c == '\U{2028}' || c == '\U{2029}' || c == '\U{202F}' || c == '\U{205F}'
    || c == '\U{3000}' || c == '\U{FEFF}'
  }

  /** No character of `s` is white space. */
  predicate NoSpace(s: string) {
    forall i :: 0 <= i < |s| ==> !IsSpace(s[i])
  }

  /** `s` with its leading white space removed. */
  function TrimStart(s: string): (r: string)
    ensures |r| <= |s| && r == s[|s| - |r|..]
    ensures r != [] ==> !IsSpace(r[0])
    ensures forall i :: 0 <= i < |s| - |r| ==> IsSpace(s[i])
  {
    if s != [] && IsSpace(s[0]) then TrimStart(s[1..]) else s
  }

  /** `s` with its trailing white space removed. */
  function TrimEnd(s: string): (r: string)
    ensures |r| <= |s| && r == s[..|r|]
    ensures r != [] ==> !IsSpace(r[|r| - 1])
    ensures forall i :: |r| <= i < |s| ==> IsSpace(s[i])
  {
    if s != [] && IsSpace(s[|s| - 1]) then TrimEnd(s[..|s| - 1]) else s
  }

  /** JavaScript's `s.trim()`. */
  function Trim(s: string): (r: string)
    ensures |r| <= |s|
    ensures r != [] ==> !IsSpace(r[0]) && !IsSpace(r[|r| - 1])
    ensures r == [] <==> forall i :: 0 <= i < |s| ==> IsSpace(s[i])
  {
    var t := TrimStart(s);
    assert t != [] ==> t[0] == s[|s| - |t|];
    TrimEnd(t)
  }

  /** Trimming keeps a contiguous piece of the input: `s` is the trimmed
      string with only white space before it and only white space after it,
      so white space inside the string is kept. */
  lemma TrimIsInfix(s: string)
    ensures OccursAt(s, Trim(s), |s| - |TrimStart(s)|)
    ensures forall i :: 0 <= i < |s| - |TrimStart(s)| ==> IsSpace(s[i])
    ensures forall i :: |s| - |TrimStart(s)| + |Trim(s)| <= i < |s| ==> IsSpace(s[i])
  {
    var t := TrimStart(s);
    var r := TrimEnd(t);
    assert Trim(s) == r;
    InfixOfSuffix(s, t, r);
    SpaceAfterInfix(s, t, r);
  }

  /** What `TrimEnd` drops from a suffix `t` of `s` is white space in `s`. */
  lemma SpaceAfterInfix(s: string, t: string, r: string)
    requires |t| <= |s| && t == s[|s| - |t|..] && |r| <= |t|
    requires forall i :: |r| <= i < |t| ==> IsSpace(t[i])
    ensures forall i :: |s| - |t| + |r| <= i < |s| ==> IsSpace(s[i])
  {
    forall i | |s| - |t| + |r| <= i < |s|
      ensures IsSpace(s[i])
    {
      assert s[i] == t[i - (|s| - |t|)];
    }
  }

  /** A prefix of a suffix of `s` occurs in `s` where the suffix starts. */
  lemma InfixOfSuffix(s: string, t: string, r: string)
    requires |t| <= |s| && t == s[|s| - |t|..] && |r| <= |t| && r == t[..|r|]
    ensures OccursAt(s, r, |s| - |t|)
  {
    assert s[|s| - |t|..][..|r|] == s[|s| - |t|..|s| - |t| + |r|];
  }

  /** Regrouping a concatenation, as a separate step: stated inline, it made
      the proof of `FormClient.EscapeAppend` depend on the solver's seed. */
  lemma AppendAssoc(a: string, b: string, c: string)
    ensures a + (b + c) == (a + b) + c
  {
  }

  /** A string without white space is its own trim. */
  lemma TrimNoSpace(s: string)
    requires NoSpace(s)
    ensures Trim(s) == s
  {
    assert s != [] ==> !IsSpace(s[0]) && !IsSpace(s[|s| - 1]);
  }

  /** Trimming twice is trimming once. */
  lemma TrimIdempotent(s: string)
    ensures Trim(Trim(s)) == Trim(s)
  {
    var t := Trim(s);
    assert TrimStart(t) == t;
    assert TrimEnd(t) == t;
  }

  /** JavaScript's `xs.join(sep)`. */
  function Join(xs: seq<string>, sep: string): (r: string)
    ensures sep != [] ==> (r == [] <==> xs == [] || xs == [[]])
  {
    if xs == [] then []
    else if |xs| == 1 then xs[0]
    else xs[0] + sep + Join(xs[1..], sep)
  }

  /** `sub` occurs in `s` at position `i`. */
  predicate OccursAt(s: string, sub: string, i: nat) {
    i + |sub| <= |s| && s[i..i + |sub|] == sub
  }

  /** JavaScript's `s.includes(sub)`. */
  function Includes(s: string, sub: string): (r: bool)
    ensures r <==> exists i: nat :: OccursAt(s, sub, i)
    decreases |s|
  {
    if sub <= s then
      assert OccursAt(s, sub, 0);
      true
    else if s == [] then
      assert forall i: nat :: !OccursAt(s, sub, i);
      false
    else
      var r := Includes(s[1..], sub);
      assert forall i: nat :: OccursAt(s[1..], sub, i) <==> OccursAt(s, sub, i + 1) by {
        forall i: nat ensures OccursAt(s[1..], sub, i) <==> OccursAt(s, sub, i + 1) {
          if i + |sub| <= |s[1..]| {
            assert s[1..][i..i + |sub|] == s[i + 1..i + 1 + |sub|];
          }
        }
      }
      assert !OccursAt(s, sub, 0);
      assert r ==> exists i: nat :: OccursAt(s, sub, i) by {
        if r {
          var i: nat :| OccursAt(s[1..], sub, i);
          assert OccursAt(s, sub, i + 1);
        }
      }
      assert (exists i: nat :: OccursAt(s, sub, i)) ==> r by {
        if exists i: nat :: OccursAt(s, sub, i) {
          var i: nat :| OccursAt(s, sub, i);
          assert i != 0;
          assert OccursAt(s[1..], sub, i - 1);
        }
      }
      r
  }

  /** Where `xs[k]` starts in `Join(xs, sep)`: the lengths of the earlier
      elements, each followed by one separator. */
  function JoinOffset(xs: seq<string>, sep: string, k: nat): nat
    requires k <= |xs|
  {
    if k == 0 then 0 else JoinOffset(xs, sep, k - 1) + |xs[k - 1]| + |sep|
  }

  /** Dropping the head of the list moves every offset back by the head and
      one separator. */
  lemma {:induction false} JoinOffsetTail(xs: seq<string>, sep: string, k: nat)
    requires 0 < k <= |xs|
    ensures JoinOffset(xs, sep, k) == |xs[0]| + |sep| + JoinOffset(xs[1..], sep, k - 1)
  {
    if k > 1 {
      JoinOffsetTail(xs, sep, k - 1);
    }
  }

  /** Element `k` of the list appears in the joined string, at
      `JoinOffset(xs, sep, k)`. */
  lemma {:induction false} JoinIncludes(xs: seq<string>, sep: string, k: nat)
    requires k < |xs|
    ensures OccursAt(Join(xs, sep), xs[k], JoinOffset(xs, sep, k))
    ensures Includes(Join(xs, sep), xs[k])
  {
    if k == 0 {
      var j := Join(xs, sep);
      assert j[..|xs[0]|] == xs[0] by {
        if |xs| > 1 {
          AppendAssoc(xs[0], sep, Join(xs[1..], sep));
        }
      }
    } else {
      JoinIncludes(xs[1..], sep, k - 1);
      JoinOffsetTail(xs, sep, k);
      AppendAssoc(xs[0], sep, Join(xs[1..], sep));
      ShiftOccurs(xs[0] + sep, Join(xs[1..], sep), xs[k], JoinOffset(xs[1..], sep, k - 1));
    }
  }

  /** A separator follows every element but the last. */
  lemma {:induction false} JoinSeparatorAfter(xs: seq<string>, sep: string, k: nat)
    requires k + 1 < |xs|
    ensures OccursAt(Join(xs, sep), sep, JoinOffset(xs, sep, k) + |xs[k]|)
  {
    var rest := Join(xs[1..], sep);
    var j := xs[0] + sep + rest;
    assert Join(xs, sep) == j;
    if k == 0 {
      assert j[|xs[0]|..|xs[0]| + |sep|] == sep;
    } else {
      var tail := xs[1..];
      assert tail[k - 1] == xs[k];
      JoinSeparatorAfter(tail, sep, k - 1);
      JoinOffsetTail(xs, sep, k);
      ShiftOccurs(xs[0] + sep, rest, sep, JoinOffset(tail, sep, k - 1) + |tail[k - 1]|);
    }
  }

  /** The last element ends the joined string. */
  lemma {:induction false} JoinLength(xs: seq<string>, sep: string)
    requires xs != []
    ensures |Join(xs, sep)| == JoinOffset(xs, sep, |xs| - 1) + |xs[|xs| - 1]|
  {
    if |xs| > 1 {
      JoinLength(xs[1..], sep);
      JoinOffsetTail(xs, sep, |xs| - 1);
    }
  }

  /** `text` holds the elements of `xs` in list order, element `k` at
      `JoinOffset(xs, sep, k)`, each but the last followed by `sep`. */
  predicate LaidOut(text: string, xs: seq<string>, sep: string) {
    && (forall k :: 0 <= k < |xs| ==> OccursAt(text, xs[k], JoinOffset(xs, sep, k)))
    && (forall k :: 0 <= k < |xs| - 1 ==> OccursAt(text, sep, JoinOffset(xs, sep, k) + |xs[k]|))
  }

  /** The joined string is laid out element by element. */
  lemma JoinLayout(xs: seq<string>, sep: string)
    ensures LaidOut(Join(xs, sep), xs, sep)
  {
    forall k | 0 <= k < |xs|
      ensures OccursAt(Join(xs, sep), xs[k], JoinOffset(xs, sep, k))
    {
      JoinIncludes(xs, sep, k);
    }
    forall k | 0 <= k < |xs| - 1
      ensures OccursAt(Join(xs, sep), sep, JoinOffset(xs, sep, k) + |xs[k]|)
    {
      JoinSeparatorAfter(xs, sep, k);
    }
  }

  /** An occurrence in `b` is an occurrence in `a + b`, `|a|` further on. */
  lemma ShiftOccurs(a: string, b: string, sub: string, i: nat)
    requires OccursAt(b, sub, i)
    ensures OccursAt(a + b, sub, |a| + i)
  {
    assert (a + b)[|a| + i..|a| + i + |sub|] == b[i..i + |sub|];
  }

  /** The position of the first `c` in `s`, or -1 (JavaScript's `indexOf`). */
  function IndexOf(s: string, c: char): (r: int)
    ensures r == -1 <==> c !in s
    ensures r != -1 ==> 0 <= r < |s| && s[r] == c && c !in s[..r]
  {
    if s == [] then -1
    else if s[0] == c then 0
    else
      var r := IndexOf(s[1..], c);
      assert s == [s[0]] + s[1..];
      if r == -1 then -1
      else
        assert s[..r + 1] == [s[0]] + s[1..][..r];
        r + 1
  }

  /** JavaScript's `s.replace(c, '')` for a one-character string `c`:
      only the first occurrence is removed. */
  function RemoveFirst(s: string, c: char): (r: string)
    ensures c !in s ==> r == s
    ensures c in s ==> |r| == |s| - 1 && exists i :: 0 <= i < |s| && s[i] == c && c !in s[..i] && r == s[..i] + s[i + 1..]
  {
    var i := IndexOf(s, c);
    if i == -1 then s else s[..i] + s[i + 1..]
  }

  /** The decimal digit `d`. */
  function DigitChar(d: nat): (c: char)
    requires d < 10
    ensures '0' <= c <= '9' && c as int - '0' as int == d
  {
    (48 + d) as char
  }

  /** All characters of `s` are decimal digits. */
  predicate AllDigits(s: string) {
    forall i :: 0 <= i < |s| ==> '0' <= s[i] <= '9'
  }

  /** The number a string of decimal digits spells, most significant digit
      first. */
  function DecimalValue(s: string): nat
    requires AllDigits(s)
  {
    if s == [] then 0 else 10 * DecimalValue(s[..|s| - 1]) + (s[|s| - 1] as int - '0' as int)
  }

  /** JavaScript's `String(n)` for a non-negative integer `n`. */
  function NatToString(n: nat): (r: string)
    ensures r != []
    ensures AllDigits(r)
    ensures r[0] == '0' ==> n == 0
    ensures n < 10 <==> |r| == 1
  {
    if n < 10 then [DigitChar(n)] else NatToString(n / 10) + [DigitChar(n % 10)]
  }

  /** The digits of `String(n)` spell `n` in base 10. */
  lemma {:induction false} NatToStringValue(n: nat)
    ensures DecimalValue(NatToString(n)) == n
  {
    if n >= 10 {
      NatToStringValue(n / 10);
      var r := NatToString(n);
      assert r[..|r| - 1] == NatToString(n / 10);
    }
  }

  /** Different numbers print differently, so a number can be looked up by
      its printed form. */
  lemma NatToStringInjective(a: nat, b: nat)
    requires NatToString(a) == NatToString(b)
    ensures a == b
  {
    NatToStringValue(a);
    NatToStringValue(b);
  }
}
