/**
 * The string operations of Python's `str` that the scrapers rely on:
 * `lower`, `strip`, `replace`, the `in` substring test, `str.isdigit` and `int`
 * on a string of decimal digits.
 */
module Text {

  // ---------------------------------------------------------------------------
  // Lower-casing
  // ---------------------------------------------------------------------------

  /** `str.lower` on one character: ASCII letters and the upper-case Romanian
      letters (with breve, circumflex, comma and cedilla) are mapped to lower case. */
  function LowerChar(c: char): (r: char)
    ensures 'A' <= c <= 'Z' ==> r as int == c as int + 32
    ensures 'a' <= r <= 'z' ==> 'a' <= c <= 'z' || 'A' <= c <= 'Z'
  {
    if 'A' <= c <= 'Z' then (c as int + 32) as char
    else if c == '\U{0102}' then '\U{0103}'   // Ă
    else if c == '\U{00C2}' then '\U{00E2}'   // Â
    else if c == '\U{00CE}' then '\U{00EE}'   // Î
    else if c == '\U{0218}' then '\U{0219}'   // Ș
    else if c == '\U{015E}' then '\U{015F}'   // Ş
    else if c == '\U{021A}' then '\U{021B}'   // Ț
    else if c == '\U{0162}' then '\U{0163}'   // Ţ
    else c
  }

  lemma LowerCharIdempotent(c: char)
    ensures LowerChar(LowerChar(c)) == LowerChar(c)
  {
  }

  function Lower(s: string): (r: string)
    ensures |r| == |s|
    ensures forall i :: 0 <= i < |s| ==> r[i] == LowerChar(s[i])
  {
    seq(|s|, i requires 0 <= i < |s| => LowerChar(s[i]))
  }

  /** A string that `lower` leaves as it is. */
  predicate IsLowered(s: string) {
    forall i :: 0 <= i < |s| ==> LowerChar(s[i]) == s[i]
  }

  lemma LowerIsLowered(s: string)
    ensures IsLowered(Lower(s))
    ensures IsLowered(s) ==> Lower(s) == s
  {
    forall i | 0 <= i < |s| ensures LowerChar(Lower(s)[i]) == Lower(s)[i] {
      LowerCharIdempotent(s[i]);
    }
  }

  lemma LowerAppend(a: string, b: string)
    ensures Lower(a + b) == Lower(a) + Lower(b)
  {
    assert forall i :: 0 <= i < |a + b| ==> (a + b)[i] == if i < |a| then a[i] else b[i - |a|];
  }

  // ---------------------------------------------------------------------------
  // Substrings and `str.replace`
  // ---------------------------------------------------------------------------

  /** `p` occurs in `s` starting at index `i`. */
  predicate OccursAt(s: string, p: string, i: int) {
    0 <= i && i + |p| <= |s| && s[i..i + |p|] == p
  }

  /** Python's `p in s` for strings. */
  predicate Contains(s: string, p: string) {
    exists i | 0 <= i <= |s| - |p| :: OccursAt(s, p, i)
  }

  /** `p` cannot occur where one of its characters is missing. */
  lemma AbsentChar(s: string, p: string, k: nat)
    requires k < |p| && p[k] !in s
    ensures !Contains(s, p)
  {
    forall i | 0 <= i <= |s| - |p| ensures !OccursAt(s, p, i) {
      assert s[i + k] in s;
      assert s[i..i + |p|][k] == s[i + k];
    }
  }

  /** No character of `q` occurs in `p`. */
  predicate Disjoint(q: string, p: string) {
    forall c :: c in q ==> c !in p
  }

  /** Python's `s.replace(p, q)` for a non-empty `p`: scans left to right and
      replaces every non-overlapping occurrence of `p`, never rescanning the
      replacement text. */
  function ReplaceAll(s: string, p: string, q: string): (r: string)
    requires p != []
    decreases |s|
  {
    if |s| < |p| then s
    else if s[..|p|] == p then q + ReplaceAll(s[|p|..], p, q)
    else [s[0]] + ReplaceAll(s[1..], p, q)
  }

  /** A string with no occurrence of `p` is returned unchanged. */
  lemma {:induction false} ReplaceWithoutMatch(s: string, p: string, q: string)
    requires p != []
    requires !Contains(s, p)
    ensures ReplaceAll(s, p, q) == s
    decreases |s|
  {
    if |s| >= |p| {
      assert !OccursAt(s, p, 0);
      if Contains(s[1..], p) {
        var i :| 0 <= i <= |s[1..]| - |p| && OccursAt(s[1..], p, i);
        assert s[1..][i..i + |p|] == s[i + 1..i + 1 + |p|];
        assert OccursAt(s, p, i + 1);
      }
      ReplaceWithoutMatch(s[1..], p, q);
    }
  }

  /** Every character of the result comes from `s` or from `q`. */
  lemma {:induction false} ReplaceChars(s: string, p: string, q: string)
    requires p != []
    ensures forall c :: c in ReplaceAll(s, p, q) ==> c in s || c in q
    decreases |s|
  {
    if |s| < |p| {
    } else if s[..|p|] == p {
      ReplaceChars(s[|p|..], p, q);
      forall c | c in ReplaceAll(s, p, q) ensures c in s || c in q {
        if c !in q {
          assert c in ReplaceAll(s[|p|..], p, q);
          assert c in s[|p|..];
        }
      }
    } else {
      ReplaceChars(s[1..], p, q);
      forall c | c in ReplaceAll(s, p, q) ensures c in s || c in q {
        if c != s[0] {
          assert c in ReplaceAll(s[1..], p, q);
        }
      }
    }
  }

  /** A prefix of the result that holds no character of a non-empty `q` was
      copied unchanged from `s`. */
  lemma {:induction false} ReplacePrefixIsCopied(s: string, p: string, q: string, m: nat)
    requires p != [] && q != []
    requires m <= |ReplaceAll(s, p, q)|
    requires forall k :: 0 <= k < m ==> ReplaceAll(s, p, q)[k] !in q
    ensures m <= |s| && ReplaceAll(s, p, q)[..m] == s[..m]
    decreases |s|
  {
    var r := ReplaceAll(s, p, q);
    if |s| < |p| {
    } else if s[..|p|] == p {
      assert r == q + ReplaceAll(s[|p|..], p, q);
      assert r[0] == q[0] && q[0] in q;
    } else if m > 0 {
      var rest := ReplaceAll(s[1..], p, q);
      assert r == [s[0]] + rest;
      forall k | 0 <= k < m - 1 ensures rest[k] !in q {
        assert rest[k] == r[k + 1];
      }
      ReplacePrefixIsCopied(s[1..], p, q, m - 1);
      assert r[..m] == [s[0]] + rest[..m - 1];
      assert s[..m] == [s[0]] + s[1..][..m - 1];
    }
  }

  lemma OccursShift(s: string, w: string, k: nat, j: int)
    requires k <= |s|
    requires 0 <= j <= |s[k..]| - |w| && OccursAt(s[k..], w, j)
    ensures 0 <= j + k <= |s| - |w| && OccursAt(s, w, j + k)
  {
    assert s[k..][j..j + |w|] == s[j + k..j + k + |w|];
  }

  lemma SliceOfTail(x: string, y: string, i: nat, w: string)
    requires |x| <= i && i + |w| <= |x + y| && (x + y)[i..i + |w|] == w
    ensures y[i - |x|..i - |x| + |w|] == w
  {
    assert (x + y)[i..i + |w|] == y[i - |x|..i - |x| + |w|];
  }

  /** Any stretch `w` of the result that holds no character of a non-empty `q`
      is a stretch of `s`. */
  lemma {:induction false} ReplaceWindowIsCopied(s: string, p: string, q: string, i: nat, w: string)
    requires p != [] && q != []
    requires i + |w| <= |ReplaceAll(s, p, q)| && ReplaceAll(s, p, q)[i..i + |w|] == w
    requires forall c :: c in w ==> c !in q
    ensures exists j | 0 <= j <= |s| - |w| :: OccursAt(s, w, j)
    decreases |s|
  {
    if w == [] {
      assert OccursAt(s, w, 0);
    } else if |s| < |p| {
      assert OccursAt(s, w, i);
    } else if s[..|p|] == p {
      var rest := ReplaceAll(s[|p|..], p, q);
      assert ReplaceAll(s, p, q) == q + rest;
      WindowPastReplacement(q, rest, i, w);
      ReplaceWindowIsCopied(s[|p|..], p, q, i - |q|, w);
      OccurrenceShift(s, w, |p|);
    } else if i == 0 {
      var r := ReplaceAll(s, p, q);
      forall k | 0 <= k < |w| ensures r[k] !in q {
        assert r[k] == w[k] && w[k] in w;
      }
      ReplacePrefixIsCopied(s, p, q, |w|);
      assert OccursAt(s, w, 0);
    } else {
      var rest := ReplaceAll(s[1..], p, q);
      assert ReplaceAll(s, p, q) == [s[0]] + rest;
      SliceOfTail([s[0]], rest, i, w);
      ReplaceWindowIsCopied(s[1..], p, q, i - 1, w);
      OccurrenceShift(s, w, 1);
    }
  }

  /** A non-empty window with no character of `q` lies past a leading `q`. */
  lemma WindowPastReplacement(q: string, rest: string, i: nat, w: string)
    requires w != [] && (forall c :: c in w ==> c !in q)
    requires i + |w| <= |q + rest| && (q + rest)[i..i + |w|] == w
    ensures |q| <= i && rest[i - |q|..i - |q| + |w|] == w
  {
    assert w[0] == (q + rest)[i] && w[0] in w;
    assert forall k :: 0 <= k < |q| ==> (q + rest)[k] == q[k] && q[k] in q;
    SliceOfTail(q, rest, i, w);
  }

  /** An occurrence in a suffix of `s` is an occurrence in `s`. */
  lemma OccurrenceShift(s: string, w: string, k: nat)
    requires k <= |s|
    requires exists j | 0 <= j <= |s[k..]| - |w| :: OccursAt(s[k..], w, j)
    ensures exists j | 0 <= j <= |s| - |w| :: OccursAt(s, w, j)
  {
    var j :| 0 <= j <= |s[k..]| - |w| && OccursAt(s[k..], w, j);
    OccursShift(s, w, k, j);
  }

  /** Replacing `p` by a non-empty `q` that shares no character with `p` leaves
      no occurrence of `p`. */
  lemma {:induction false} ReplaceRemovesAll(s: string, p: string, q: string)
    requires p != [] && q != []
    requires Disjoint(q, p)
    ensures !Contains(ReplaceAll(s, p, q), p)
    decreases |s|
  {
    if |s| < |p| {
    } else if s[..|p|] == p {
      ReplaceRemovesAll(s[|p|..], p, q);
      NoMatchAfterReplacement(q, ReplaceAll(s[|p|..], p, q), p);
    } else {
      ReplaceRemovesAll(s[1..], p, q);
      NoMatchAtCopiedHead(s, p, q);
    }
  }

  /** A replacement that shares no character with `p`, followed by a string
      without `p`, holds no `p`. */
  lemma NoMatchAfterReplacement(q: string, rest: string, p: string)
    requires p != [] && Disjoint(q, p) && !Contains(rest, p)
    ensures !Contains(q + rest, p)
  {
    var r := q + rest;
    forall i | 0 <= i <= |r| - |p| ensures !OccursAt(r, p, i) {
      if i < |q| {
        assert r[i] == q[i] && q[i] in q;
        assert r[i..i + |p|][0] == r[i];
      } else {
        assert r[i..i + |p|] == rest[i - |q|..i - |q| + |p|];
        assert !OccursAt(rest, p, i - |q|);
      }
    }
  }

  /** When `s` does not start with `p`, its first character is copied, and
      `p` cannot start there either. */
  lemma NoMatchAtCopiedHead(s: string, p: string, q: string)
    requires p != [] && q != [] && Disjoint(q, p)
    requires |s| >= |p| && s[..|p|] != p
    requires !Contains(ReplaceAll(s[1..], p, q), p)
    ensures !Contains(ReplaceAll(s, p, q), p)
  {
    var rest := ReplaceAll(s[1..], p, q);
    var r := [s[0]] + rest;
    assert ReplaceAll(s, p, q) == r;
    NoMatchInTail(s[0], rest, p);
    if OccursAt(r, p, 0) {
      HeadMatchIsPrefix(s, p, q);
      assert false;
    }
  }

  /** After one character, a string without `p` can hold `p` only at the start. */
  lemma NoMatchInTail(c: char, rest: string, p: string)
    requires !Contains(rest, p)
    ensures forall i :: 0 < i <= |[c] + rest| - |p| ==> !OccursAt([c] + rest, p, i)
  {
    var r := [c] + rest;
    forall i | 0 < i <= |r| - |p| ensures !OccursAt(r, p, i) {
      assert rest[i - 1..i - 1 + |p|] == r[i..i + |p|];
      assert !OccursAt(rest, p, i - 1);
    }
  }

  /** `p` at the start of the result, with the first character copied, means
      `p` at the start of `s`: the rest of `p` holds no character of `q`, so it
      was copied too. */
  lemma HeadMatchIsPrefix(s: string, p: string, q: string)
    requires p != [] && q != [] && Disjoint(q, p) && |s| >= |p|
    requires OccursAt([s[0]] + ReplaceAll(s[1..], p, q), p, 0)
    ensures s[..|p|] == p
  {
    var rest := ReplaceAll(s[1..], p, q);
    var r := [s[0]] + rest;
    assert r[..|p|] == [s[0]] + rest[..|p| - 1];
    assert p == [p[0]] + p[1..];
    forall k | 0 <= k < |p| - 1 ensures rest[k] !in q {
      assert rest[k] == p[k + 1] && p[k + 1] in p;
    }
    ReplacePrefixIsCopied(s[1..], p, q, |p| - 1);
    assert s[..|p|] == [s[0]] + s[1..][..|p| - 1];
  }

  /** Replacing `p` by a non-empty `q` that shares no character with `t` cannot
      create an occurrence of `t`. */
  lemma ReplaceKeepsAbsent(s: string, p: string, q: string, t: string)
    requires p != [] && q != []
    requires Disjoint(q, t)
    requires !Contains(s, t)
    ensures !Contains(ReplaceAll(s, p, q), t)
  {
    var r := ReplaceAll(s, p, q);
    forall i | 0 <= i <= |r| - |t| && OccursAt(r, t, i) ensures false {
      ReplaceWindowIsCopied(s, p, q, i, t);
    }
  }

  /** When the first character of `p` does not occur in `a`, the only
      occurrence of `p` in `a + p` is the final one. */
  lemma {:induction false} ReplaceAtEnd(a: string, p: string, q: string)
    requires p != [] && p[0] !in a
    ensures ReplaceAll(a + p, p, q) == a + q
    decreases |a|
  {
    var s := a + p;
    if a == [] {
      assert s == p && s[..|p|] == p && s[|p|..] == [];
    } else {
      assert s[..|p|] != p by {
        assert s[..|p|][0] == a[0] && a[0] in a;
      }
      assert s[1..] == a[1..] + p;
      ReplaceAtEnd(a[1..], p, q);
      assert [a[0]] + (a[1..] + q) == a + q;
    }
  }

  /** Replacing inside a lowered string by lowered text gives a lowered string. */
  lemma ReplaceKeepsLowered(s: string, p: string, q: string)
    requires p != []
    requires IsLowered(s) && IsLowered(q)
    ensures IsLowered(ReplaceAll(s, p, q))
  {
    var r := ReplaceAll(s, p, q);
    ReplaceChars(s, p, q);
    forall i | 0 <= i < |r| ensures LowerChar(r[i]) == r[i] {
      assert r[i] in r;
    }
  }

  // ---------------------------------------------------------------------------
  // `str.strip`
  // ---------------------------------------------------------------------------

  /** `str.isspace` on one character: the characters Python treats as white space. */
  predicate IsSpace(c: char) {
    || '\t' <= c <= '\r'
    || '\U{001C}' <= c <= ' '
    || c == '\U{0085}' || c == '\U{00A0}' || c == '\U{1680}'
    || '\U{2000}' <= c <= '\U{200A}'
    || c == '\U{2028}' || c == '\U{2029}' || c == '\U{202F}' || c == '\U{205F}' || c == '\U{3000}'
  }

  /** `str.lstrip()`: drops the leading white space and nothing else. */
  function TrimStart(s: string): (r: string)
    ensures |r| <= |s| && r == s[|s| - |r|..]
    ensures forall i :: 0 <= i < |s| - |r| ==> IsSpace(s[i])
    ensures r != [] ==> !IsSpace(r[0])
  {
    if s != [] && IsSpace(s[0]) then TrimStart(s[1..]) else s
  }

  /** `str.rstrip()`: drops the trailing white space and nothing else. */
  function TrimEnd(s: string): (r: string)
    ensures |r| <= |s| && r == s[..|r|]
    ensures forall i :: |r| <= i < |s| ==> IsSpace(s[i])
    ensures r != [] ==> !IsSpace(r[|r| - 1])
  {
    if s != [] && IsSpace(s[|s| - 1]) then TrimEnd(s[..|s| - 1]) else s
  }

  /** `str.strip()`. */
  function Strip(s: string): string
  {
    TrimEnd(TrimStart(s))
  }

  /** How much leading white space `strip` removes. */
  function LeadingSpace(s: string): nat
  {
    |s| - |TrimStart(s)|
  }

  /** The stripped string is the stretch of `s` between its leading and its
      trailing white space: it neither begins nor ends with white space, and
      everything cut away is white space. */
  lemma StripIsInnerStretch(s: string)
    ensures var r, i := Strip(s), LeadingSpace(s);
      && i + |r| <= |s| && r == s[i..i + |r|]
      && (forall k :: 0 <= k < i ==> IsSpace(s[k]))
      && (forall k :: i + |r| <= k < |s| ==> IsSpace(s[k]))
      && (r != [] ==> !IsSpace(r[0]) && !IsSpace(r[|r| - 1]))
  {
    StripSits(s);
    TrailingIsSpace(s);
    StripEnds(s);
  }

  lemma StripSits(s: string)
    ensures LeadingSpace(s) + |Strip(s)| <= |s|
    ensures Strip(s) == s[LeadingSpace(s)..LeadingSpace(s) + |Strip(s)|]
    ensures forall k :: 0 <= k < LeadingSpace(s) ==> IsSpace(s[k])
  {
    SuffixPrefix(s, TrimStart(s), Strip(s));
  }

  /** A prefix of a suffix sits at the suffix's start. */
  lemma SuffixPrefix(s: string, t: string, r: string)
    requires |t| <= |s| && t == s[|s| - |t|..]
    requires |r| <= |t| && r == t[..|r|]
    ensures r == s[|s| - |t|..|s| - |t| + |r|]
  {
    SliceOfSlice(s, |s| - |t|, |r|);
  }

  lemma SliceOfSlice(s: string, i: nat, n: nat)
    requires i + n <= |s|
    ensures s[i..][..n] == s[i..i + n]
  {
    assert forall k :: 0 <= k < n ==> s[i..][..n][k] == s[i + k];
  }

  lemma TrailingIsSpace(s: string)
    ensures forall k :: LeadingSpace(s) + |Strip(s)| <= k < |s| ==> IsSpace(s[k])
  {
    var t := TrimStart(s);
    var i := |s| - |t|;
    var n := |TrimEnd(t)|;
    forall k | i + n <= k < |s| ensures IsSpace(s[k]) {
      assert s[k] == t[k - i];
    }
  }

  lemma StripEnds(s: string)
    ensures Strip(s) != [] ==> !IsSpace(Strip(s)[0]) && !IsSpace(Strip(s)[|Strip(s)| - 1])
  {
    var t := TrimStart(s);
    var r := TrimEnd(t);
    if r != [] {
      assert r[0] == t[0];
    }
  }

  /** A string is stripped to nothing exactly when it is all white space. */
  lemma StripEmptyIffAllSpace(s: string)
    ensures Strip(s) == [] <==> forall k :: 0 <= k < |s| ==> IsSpace(s[k])
  {
    StripIsInnerStretch(s);
  }

  /** A string with no white space at either end is its own strip. */
  lemma StripOfStripped(s: string)
    requires IsStripped(s)
    ensures Strip(s) == s
  {
    if s != [] {
      assert TrimStart(s) == s;
    }
  }

  /** Stripping twice is stripping once. */
  lemma StripIdempotent(s: string)
    ensures Strip(Strip(s)) == Strip(s)
  {
    var r := Strip(s);
    StripIsInnerStretch(s);
    if r != [] {
      assert TrimStart(r) == r;
      assert TrimEnd(r) == r;
    }
  }

  /** Neither begins nor ends with white space. */
  predicate IsStripped(r: string) {
    r == [] || (!IsSpace(r[0]) && !IsSpace(r[|r| - 1]))
  }

  /** `r` sits in `s` at index `i` with only white space around it. */
  predicate StrippedAt(s: string, r: string, i: int) {
    && OccursAt(s, r, i)
    && (forall k :: 0 <= k < i ==> IsSpace(s[k]))
    && (forall k :: i + |r| <= k < |s| ==> IsSpace(s[k]))
  }

  /** `r` is what is left of `s` once its leading and trailing white space is
      cut away: a reference description of `strip` that does not say how. */
  predicate StrippedFrom(s: string, r: string) {
    IsStripped(r) && exists i | 0 <= i <= |s| - |r| :: StrippedAt(s, r, i)
  }

  lemma TrimStartAt(s: string, i: nat)
    requires i <= |s|
    requires forall k :: 0 <= k < i ==> IsSpace(s[k])
    requires i < |s| ==> !IsSpace(s[i])
    ensures TrimStart(s) == s[i..]
  {
    SpaceBefore(s, TrimStart(s), i);
  }

  /** A suffix of `s` preceded by white space only and starting with a
      non-space character starts at the first non-space index. */
  lemma SpaceBefore(s: string, t: string, i: nat)
    requires |t| <= |s| && t == s[|s| - |t|..]
    requires forall k :: 0 <= k < |s| - |t| ==> IsSpace(s[k])
    requires t != [] ==> !IsSpace(t[0])
    requires i <= |s| && (forall k :: 0 <= k < i ==> IsSpace(s[k])) && (i < |s| ==> !IsSpace(s[i]))
    ensures t == s[i..]
  {
    var j := |s| - |t|;
    assert j < |s| ==> !IsSpace(s[j]) by {
      if j < |s| {
        assert t[0] == s[j];
      }
    }
    FirstNonSpace(s, i, j);
  }

  /** Two indices before which `s` is all white space and at which it is not
      (or ends) are the same. */
  lemma FirstNonSpace(s: string, i: nat, j: nat)
    requires i <= |s| && j <= |s|
    requires forall k :: 0 <= k < i ==> IsSpace(s[k])
    requires i < |s| ==> !IsSpace(s[i])
    requires forall k :: 0 <= k < j ==> IsSpace(s[k])
    requires j < |s| ==> !IsSpace(s[j])
    ensures i == j
  {
  }

  lemma TrimEndAt(s: string, n: nat)
    requires n <= |s|
    requires forall k :: n <= k < |s| ==> IsSpace(s[k])
    requires 0 < n ==> !IsSpace(s[n - 1])
    ensures TrimEnd(s) == s[..n]
  {
    SpaceAfter(s, TrimEnd(s), n);
  }

  /** A prefix of `s` followed by white space only and ending with a non-space
      character ends just after the last non-space index. */
  lemma SpaceAfter(s: string, t: string, n: nat)
    requires |t| <= |s| && t == s[..|t|]
    requires forall k :: |t| <= k < |s| ==> IsSpace(s[k])
    requires t != [] ==> !IsSpace(t[|t| - 1])
    requires n <= |s| && (forall k :: n <= k < |s| ==> IsSpace(s[k])) && (0 < n ==> !IsSpace(s[n - 1]))
    ensures t == s[..n]
  {
    assert 0 < |t| ==> !IsSpace(s[|t| - 1]) by {
      if 0 < |t| {
        assert t[|t| - 1] == s[|t| - 1];
      }
    }
    LastNonSpace(s, n, |t|);
  }

  /** Two lengths after which `s` is all white space and just before which it
      is not (or starts) are the same. */
  lemma LastNonSpace(s: string, m: nat, n: nat)
    requires m <= |s| && n <= |s|
    requires forall k :: m <= k < |s| ==> IsSpace(s[k])
    requires 0 < m ==> !IsSpace(s[m - 1])
    requires forall k :: n <= k < |s| ==> IsSpace(s[k])
    requires 0 < n ==> !IsSpace(s[n - 1])
    ensures m == n
  {
  }

  lemma StripMeetsReference(s: string)
    ensures StrippedFrom(s, Strip(s))
  {
    StripIsInnerStretch(s);
    assert StrippedAt(s, Strip(s), LeadingSpace(s));
  }

  lemma AllSpaceStripsToEmpty(s: string, i: nat)
    requires StrippedAt(s, [], i)
    ensures Strip(s) == []
  {
    forall k | 0 <= k < |s| ensures IsSpace(s[k]) {
      if k >= i {
        assert i <= k;
      }
    }
    StripEmptyIffAllSpace(s);
  }

  lemma ReferenceIsStrip(s: string, r: string, i: nat)
    requires IsStripped(r) && r != [] && StrippedAt(s, r, i)
    ensures r == Strip(s)
  {
    ReferenceStart(s, r, i);
    ReferenceEnd(s, r, i);
  }

  lemma ReferenceStart(s: string, r: string, i: nat)
    requires IsStripped(r) && r != [] && StrippedAt(s, r, i)
    ensures TrimStart(s) == s[i..]
  {
    assert s[i] == r[0];
    TrimStartAt(s, i);
  }

  lemma ReferenceEnd(s: string, r: string, i: nat)
    requires IsStripped(r) && r != [] && StrippedAt(s, r, i)
    ensures TrimEnd(s[i..]) == r
  {
    var t := s[i..];
    assert t[..|r|] == r;
    TrailingSpace(s, r, i);
    TrimEndAt(t, |r|);
  }

  lemma TrailingSpace(s: string, r: string, i: nat)
    requires r != [] && !IsSpace(r[|r| - 1]) && StrippedAt(s, r, i)
    ensures forall k :: |r| <= k < |s[i..]| ==> IsSpace(s[i..][k])
    ensures !IsSpace(s[i..][|r| - 1])
  {
    assert s[i..][|r| - 1] == s[i + |r| - 1] == r[|r| - 1];
    forall k | |r| <= k < |s[i..]| ensures IsSpace(s[i..][k]) {
      assert s[i..][k] == s[i + k];
    }
  }

  /** `strip` meets its reference description, and nothing else does. */
  lemma StripCharacterised(s: string, r: string)
    ensures StrippedFrom(s, r) <==> r == Strip(s)
  {
    StripMeetsReference(s);
    if StrippedFrom(s, r) {
      var i :| 0 <= i <= |s| - |r| && StrippedAt(s, r, i);
      if r == [] {
        AllSpaceStripsToEmpty(s, i);
      } else {
        ReferenceIsStrip(s, r, i);
      }
    }
  }

  // ---------------------------------------------------------------------------
  // Digits
  // ---------------------------------------------------------------------------

  /** `str.isdigit`, restricted to the ASCII digits. */
  predicate IsDigit(c: char) {
    '0' <= c <= '9'
  }

  predicate AllDigits(d: string) {
    forall i :: 0 <= i < |d| ==> IsDigit(d[i])
  }

  /** `"".join(filter(str.isdigit, s))`: every digit of `s`, in order. */
  function DigitsOf(s: string): (r: string)
    ensures |r| <= |s|
    ensures forall i :: 0 <= i < |r| ==> IsDigit(r[i])
  {
    if s == [] then []
    else if IsDigit(s[0]) then [s[0]] + DigitsOf(s[1..])
    else DigitsOf(s[1..])
  }

  lemma {:induction false} DigitsOfAppend(a: string, b: string)
    ensures DigitsOf(a + b) == DigitsOf(a) + DigitsOf(b)
    decreases |a|
  {
    if a != [] {
      assert (a + b)[1..] == a[1..] + b;
      DigitsOfAppend(a[1..], b);
    } else {
      assert a + b == b;
    }
  }

  /** A string without digits yields no digits, and one made of digits only
      yields itself. */
  lemma {:induction false} DigitsOfExtremes(s: string)
    ensures (forall i :: 0 <= i < |s| ==> !IsDigit(s[i])) ==> DigitsOf(s) == []
    ensures (forall i :: 0 <= i < |s| ==> IsDigit(s[i])) ==> DigitsOf(s) == s
  {
    if s != [] {
      DigitsOfExtremes(s[1..]);
      assert forall i :: 1 <= i < |s| ==> s[1..][i - 1] == s[i];
    }
  }

  /** A string of digits is its own digits, is unchanged by `lower`, and
      holds no other character. */
  lemma DigitStringFacts(d: string)
    requires AllDigits(d)
    ensures DigitsOf(d) == d && Lower(d) == d
    ensures forall c :: c in d ==> IsDigit(c)
  {
    DigitsOfExtremes(d);
    assert IsLowered(d) by {
      forall i | 0 <= i < |d| ensures LowerChar(d[i]) == d[i] {
        assert IsDigit(d[i]);
      }
    }
    LowerIsLowered(d);
  }

  function DigitValue(c: char): (d: nat)
    requires IsDigit(c)
    ensures d < 10
  {
    c as int - '0' as int
  }

  function Pow10(n: nat): (r: nat)
    ensures r >= 1
  {
    if n == 0 then 1 else 10 * Pow10(n - 1)
  }

  /** `int(ds)` for a non-empty string of ASCII digits (leading zeros allowed). */
  function DecimalValue(ds: string): (n: nat)
    requires forall i :: 0 <= i < |ds| ==> IsDigit(ds[i])
    ensures n < Pow10(|ds|)
  {
    if ds == [] then 0
    else 10 * DecimalValue(ds[..|ds| - 1]) + DigitValue(ds[|ds| - 1])
  }

  /** The value of two digit strings written one after the other: the first
      counts `Pow10(|b|)` times, so separate numbers run together. */
  lemma {:induction false} DecimalValueAppend(a: string, b: string)
    requires forall i :: 0 <= i < |a| ==> IsDigit(a[i])
    requires forall i :: 0 <= i < |b| ==> IsDigit(b[i])
    ensures forall i :: 0 <= i < |a + b| ==> IsDigit((a + b)[i])
    ensures DecimalValue(a + b) == DecimalValue(a) * Pow10(|b|) + DecimalValue(b)
    decreases |b|
  {
    if b == [] {
      assert a + b == a;
    } else {
      var b' := b[..|b| - 1];
      var x := a + b;
      assert x[..|x| - 1] == a + b';
      assert x[|x| - 1] == b[|b| - 1];
      DecimalValueAppend(a, b');
      Regroup(DecimalValue(a), Pow10(|b'|), DecimalValue(b'), DigitValue(b[|b| - 1]));
    }
  }

  lemma Regroup(va: int, p: int, vb: int, d: int)
    ensures 10 * (va * p + vb) + d == va * (10 * p) + (10 * vb + d)
  {
  }
}
