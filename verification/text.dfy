/** Text helpers shared by the client and the server rules: prefix test, whitespace stripping,
    ASCII case folding, substring search and the code-unit order that the
    browser's default `Array.prototype.sort` uses on strings. */
module Text {
  import Sequences

  /** True iff `p` is a prefix of `s` (JavaScript `s.startsWith(p)`). */
  predicate StartsWith(s: string, p: string) {
    p <= s
  }

  /** ASCII upper-case letters are mapped to lower case; every other character is kept. */
  function LowerChar(c: char): (r: char)
    ensures 'A' <= c <= 'Z' ==> r != c && 'a' <= r <= 'z'
    ensures !('A' <= c <= 'Z') ==> r == c
  {
    if 'A' <= c <= 'Z' then (c as int + 32) as char else c
  }

  function Lower(s: string): (r: string)
    ensures |r| == |s|
    ensures forall i :: 0 <= i < |s| ==> r[i] == LowerChar(s[i])
  {
    seq(|s|, i requires 0 <= i < |s| => LowerChar(s[i]))
  }

  /** ASCII lower-case letters are mapped to upper case; every other character is kept. */
  function UpperChar(c: char): (r: char)
    ensures 'a' <= c <= 'z' ==> 'A' <= r <= 'Z' && LowerChar(r) == c
    ensures !('a' <= c <= 'z') ==> r == c
  {
    if 'a' <= c <= 'z' then (c as int - 32) as char else c
  }

  function Upper(s: string): (r: string)
    ensures |r| == |s|
    ensures forall i :: 0 <= i < |s| ==> r[i] == UpperChar(s[i])
  {
    seq(|s|, i requires 0 <= i < |s| => UpperChar(s[i]))
  }

  /** Folding an upper-cased string gives the folded original: the two cases agree letter for letter. */
  lemma LowerUpper(s: string)
    ensures Lower(Upper(s)) == Lower(s)
  {
  }

  /** Upper-casing a folded string gives the upper-cased original. */
  lemma UpperLower(s: string)
    ensures Upper(Lower(s)) == Upper(s)
  {
    forall i | 0 <= i < |s| ensures UpperChar(LowerChar(s[i])) == UpperChar(s[i]) {
    }
  }

  /** The characters Python's `str.isspace()` accepts, which `str.strip()` removes: the
      ASCII controls from tab to carriage return and from 0x1C to the space, the next-line
      and no-break spaces, and the Unicode space and line/paragraph separators. */
  predicate IsSpace(c: char) {
    || '\t' <= c <= '\r'
    || '\U{1C}' <= c <= ' '
    || c == '\U{85}' || c == '\U{A0}' || c == '\U{1680}'
    || '\U{2000}' <= c <= '\U{200A}'
    || c == '\U{2028}' || c == '\U{2029}' || c == '\U{202F}' || c == '\U{205F}' || c == '\U{3000}'
  }

  /** Every character of `s` is whitespace (the empty string included). */
  ghost predicate Blank(s: string) {
    forall j :: 0 <= j < |s| ==> IsSpace(s[j])
  }

  /** `s` neither starts nor ends with whitespace. */
  ghost predicate Stripped(s: string) {
    s == [] || (!IsSpace(s[0]) && !IsSpace(s[|s| - 1]))
  }

  /** `s` without its leading whitespace. */
  function TrimStart(s: string): (r: string)
    ensures |r| <= |s|
    ensures Blank(s[..|s| - |r|])
    ensures r == [] || !IsSpace(r[0])
    decreases |s|
  {
    if |s| > 0 && IsSpace(s[0]) then TrimStart(s[1..]) else s
  }

  /** `s` without its trailing whitespace. */
  function TrimEnd(s: string): (r: string)
    ensures |r| <= |s|
    ensures Blank(s[|r|..])
    ensures r == [] || !IsSpace(r[|r| - 1])
    decreases |s|
  {
    if |s| > 0 && IsSpace(s[|s| - 1]) then TrimEnd(s[..|s| - 1]) else s
  }

  /** What `TrimStart` keeps is the input's tail from the first character it keeps. */
  lemma {:induction false} TrimStartIsSuffix(s: string)
    ensures TrimStart(s) == s[|s| - |TrimStart(s)|..]
    decreases |s|
  {
    if |s| > 0 && IsSpace(s[0]) {
      TrimStartIsSuffix(s[1..]);
      assert s[1..][|s| - 1 - |TrimStart(s)|..] == s[|s| - |TrimStart(s)|..];
    }
  }

  /** What `TrimEnd` keeps is a prefix of the input. */
  lemma {:induction false} TrimEndIsPrefix(s: string)
    ensures TrimEnd(s) <= s
    decreases |s|
  {
    if |s| > 0 && IsSpace(s[|s| - 1]) {
      TrimEndIsPrefix(s[..|s| - 1]);
    }
  }

  /** `s` without its leading and trailing whitespace (Python `s.strip()`). */
  function Trim(s: string): (r: string)
    ensures |r| <= |s|
    ensures Stripped(r)
  {
    var a := TrimStart(s);
    TrimEndIsPrefix(a);
    TrimEnd(a)
  }

  /** A prefix `r` of a tail `a` of `s` sits in `s` where the tail starts, and blank stays blank. */
  lemma PrefixOfTail(s: string, a: string, r: string)
    requires |a| <= |s| && a == s[|s| - |a|..] && r <= a
    requires Blank(s[..|s| - |a|]) && Blank(a[|r|..])
    ensures |s| - |a| + |r| <= |s|
    ensures s[|s| - |a|..|s| - |a| + |r|] == r
    ensures Blank(s[..|s| - |a|]) && Blank(s[|s| - |a| + |r|..])
  {
    var i := |s| - |a|;
    assert s[i..i + |r|] == a[..|r|];
    assert s[i + |r|..] == a[|r|..];
  }

  /** What `Trim` leaves sits between a blank head and a blank tail of the input. */
  lemma TrimShape(s: string)
    ensures exists i :: 0 <= i <= |s| - |Trim(s)| && s[i..i + |Trim(s)|] == Trim(s) && Blank(s[..i]) && Blank(s[i + |Trim(s)|..])
  {
    var a := TrimStart(s);
    var r := TrimEnd(a);
    TrimStartIsSuffix(s);
    TrimEndIsPrefix(a);
    PrefixOfTail(s, a, r);
    var i := |s| - |a|;
    assert r == Trim(s);
    assert 0 <= i <= |s| - |r| && s[i..i + |r|] == r && Blank(s[..i]) && Blank(s[i + |r|..]);
  }

  /** A blank string joined to a blank string is blank. */
  lemma BlankConcat(a: string, b: string)
    requires Blank(a) && Blank(b)
    ensures Blank(a + b)
  {
  }

  /** Leading whitespace in front of a string that does not start with whitespace is all `TrimStart` removes. */
  lemma {:induction false} TrimStartSkips(a: string, u: string)
    requires Blank(a) && (u == [] || !IsSpace(u[0]))
    ensures TrimStart(a + u) == u
    decreases |a|
  {
    if a == [] {
      assert a + u == u;
    } else {
      assert (a + u)[0] == a[0];
      assert (a + u)[1..] == a[1..] + u;
      TrimStartSkips(a[1..], u);
    }
  }

  /** Trailing whitespace after a string that does not end with whitespace is all `TrimEnd` removes. */
  lemma {:induction false} TrimEndSkips(u: string, b: string)
    requires Blank(b) && (u == [] || !IsSpace(u[|u| - 1]))
    ensures TrimEnd(u + b) == u
    decreases |b|
  {
    if b == [] {
      assert u + b == u;
    } else {
      assert (u + b)[|u + b| - 1] == b[|b| - 1];
      assert (u + b)[..|u + b| - 1] == u + b[..|b| - 1];
      TrimEndSkips(u, b[..|b| - 1]);
    }
  }

  /** Stripping is determined by its result's shape: whatever sits between a blank head and a
      blank tail without whitespace at its own ends is exactly what `Trim` returns. */
  lemma TrimUnique(a: string, t: string, b: string)
    requires Blank(a) && Blank(b) && Stripped(t)
    ensures Trim(a + t + b) == t
  {
    if t == [] {
      BlankConcat(a, b);
      assert a + t + b == (a + b) + [];
      TrimStartSkips(a + b, []);
      assert TrimEnd([]) == [];
    } else {
      assert a + t + b == a + (t + b);
      TrimStartSkips(a, t + b);
      TrimEndSkips(t, b);
    }
  }

  /** Padding a stripped text with whitespace on both sides changes what it strips to not at all. */
  lemma TrimPadded(a: string, t: string, b: string)
    requires Blank(a) && Blank(b) && Stripped(t)
    ensures Trim(a + t + b) == Trim(t) == t
  {
    TrimUnique(a, t, b);
    TrimUnique([], t, []);
    assert [] + t + [] == t;
  }

  /** Stripping twice strips nothing more. */
  lemma TrimIdempotent(s: string)
    ensures Trim(Trim(s)) == Trim(s)
  {
    TrimPadded([], Trim(s), []);
  }

  /** A string is stripped to nothing exactly when it is blank. */
  lemma TrimEmptyIffBlank(s: string)
    ensures Trim(s) == [] <==> Blank(s)
  {
    if Blank(s) {
      assert s == s + [] + [];
      TrimUnique(s, [], []);
    }
    if Trim(s) == [] {
      TrimShape(s);
      var i :| 0 <= i <= |s| && s[i..i] == [] && Blank(s[..i]) && Blank(s[i..]);
      assert s == s[..i] + s[i..];
      BlankConcat(s[..i], s[i..]);
    }
  }

  /** `sub` occurs in `s` at position `i`. */
  ghost predicate OccursAt(s: string, sub: string, i: int) {
    0 <= i && i + |sub| <= |s| && s[i..i + |sub|] == sub
  }

  /** True iff `sub` is a contiguous part of `s`. */
  predicate Contains(s: string, sub: string)
    decreases |s|
  {
    sub <= s || (|s| > 0 && Contains(s[1..], sub))
  }

  lemma {:induction false} OccursImpliesContains(s: string, sub: string, i: int)
    requires OccursAt(s, sub, i)
    ensures Contains(s, sub)
    decreases i
  {
    if i > 0 {
      assert s[1..][i - 1..i - 1 + |sub|] == s[i..i + |sub|];
      OccursImpliesContains(s[1..], sub, i - 1);
    }
  }

  lemma {:induction false} ContainsImpliesOccurs(s: string, sub: string)
    requires Contains(s, sub)
    ensures exists i :: OccursAt(s, sub, i)
    decreases |s|
  {
    if sub <= s {
      assert OccursAt(s, sub, 0);
    } else {
      ContainsImpliesOccurs(s[1..], sub);
      var i :| OccursAt(s[1..], sub, i);
      assert s[i + 1..i + 1 + |sub|] == s[1..][i..i + |sub|];
      assert OccursAt(s, sub, i + 1);
    }
  }

  /** `Contains` agrees with the positional definition of a substring. */
  lemma ContainsIffOccurs(s: string, sub: string)
    ensures Contains(s, sub) <==> exists i :: OccursAt(s, sub, i)
  {
    if Contains(s, sub) {
      ContainsImpliesOccurs(s, sub);
    }
    if exists i :: OccursAt(s, sub, i) {
      var i :| OccursAt(s, sub, i);
      OccursImpliesContains(s, sub, i);
    }
  }

  /** Case-insensitive containment, as an `icontains` lookup with ASCII folding. */
  predicate ContainsIgnoringCase(s: string, sub: string) {
    Contains(Lower(s), Lower(sub))
  }

  /** Strict lexicographic order on character codes; a proper prefix comes first. */
  predicate Below(a: string, b: string)
    decreases |a|
  {
    if |a| == 0 then |b| > 0
    else if |b| == 0 then false
    else if a[0] != b[0] then a[0] < b[0]
    else Below(a[1..], b[1..])
  }

  lemma {:induction false} BelowIrreflexive(a: string)
    ensures !Below(a, a)
    decreases |a|
  {
    if |a| > 0 {
      BelowIrreflexive(a[1..]);
    }
  }

  lemma {:induction false} BelowTransitive(a: string, b: string, c: string)
    requires Below(a, b) && Below(b, c)
    ensures Below(a, c)
    decreases |a|
  {
    if |a| > 0 && |b| > 0 && |c| > 0 && a[0] == b[0] && b[0] == c[0] {
      BelowTransitive(a[1..], b[1..], c[1..]);
    }
  }

  lemma {:induction false} BelowTotal(a: string, b: string)
    requires a != b
    ensures Below(a, b) || Below(b, a)
    decreases |a|
  {
    if |a| > 0 && |b| > 0 && a[0] == b[0] {
      assert a == [a[0]] + a[1..] && b == [b[0]] + b[1..];
      BelowTotal(a[1..], b[1..]);
    }
  }

  lemma BelowAsymmetric(a: string, b: string)
    requires Below(a, b)
    ensures !Below(b, a)
  {
    if Below(b, a) {
      BelowTransitive(a, b, a);
      BelowIrreflexive(a);
    }
  }

  /** `Below` is a strict total order, so it can sort. */
  lemma BelowIsStrictTotalOrder()
    ensures Sequences.StrictTotalOrder(Below)
  {
    forall x: string ensures !Below(x, x) {
      BelowIrreflexive(x);
    }
    forall x: string, y: string, z: string | Below(x, y) && Below(y, z) ensures Below(x, z) {
      BelowTransitive(x, y, z);
    }
    forall x: string, y: string | x != y ensures Below(x, y) || Below(y, x) {
      BelowTotal(x, y);
    }
  }
}
