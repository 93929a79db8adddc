/**
  The JavaScript string primitives the model relies on, written out over
  `seq<char>`: `trim`, `split` on one character, global removal of a literal
  substring (`replace(/lit/g, '')`), `includes`, ASCII lower-casing and the
  decimal rendering of an integer (template literals such as `bill_${now}`).
 */
module Text {
  import Lists

  /** JavaScript's LineTerminator production: LF, CR, LS and PS. */
  predicate IsLineTerminator(c: char) {
    c == '\n' || c == '\r' || c == '\U{2028}' || c == '\U{2029}'
  }

  /** JavaScript's `\s` class, which is also what `String.prototype.trim` strips:
      WhiteSpace (TAB, VT, FF, SP, NBSP, ZWNBSP and the Zs category) plus LineTerminator. */
  predicate IsWhitespace(c: char) {
    || c == '\t' || c == '\U{B}' || c == '\U{C}' || c == ' '
    || c == '\U{A0}' || c == '\U{FEFF}' || c == '\U{1680}'
    || ('\U{2000}' <= c <= '\U{200A}')
    || c == '\U{202F}' || c == '\U{205F}' || c == '\U{3000}'
    || IsLineTerminator(c)
  }

  predicate NoWhitespace(s: string) {
    forall i :: 0 <= i < |s| ==> !IsWhitespace(s[i])
  }

  predicate AllWhitespace(s: string) {
    forall i :: 0 <= i < |s| ==> IsWhitespace(s[i])
  }

  // ---------------------------------------------------------------- trim

  function TrimStart(s: string): (r: string)
    ensures |r| <= |s| && r == s[|s| - |r|..]
    ensures forall k :: 0 <= k < |s| - |r| ==> IsWhitespace(s[k])
    ensures r == [] || !IsWhitespace(r[0])
  {
    if |s| > 0 && IsWhitespace(s[0]) then TrimStart(s[1..]) else s
  }

  function TrimEnd(s: string): (r: string)
    ensures |r| <= |s| && r == s[..|r|]
    ensures forall k :: |r| <= k < |s| ==> IsWhitespace(s[k])
    ensures r == [] || !IsWhitespace(r[|r| - 1])
  {
    if |s| > 0 && IsWhitespace(s[|s| - 1]) then TrimEnd(s[..|s| - 1]) else s
  }

  /** `String.prototype.trim`: no longer than the input, and neither end is
      whitespace (`TrimPadded` says which text it keeps). */
  function Trim(s: string): (r: string)
    ensures |r| <= |s|
    ensures r == [] || (!IsWhitespace(r[0]) && !IsWhitespace(r[|r| - 1]))
  {
    TrimEnd(TrimStart(s))
  }

  /** A string with non-whitespace ends is its own trim. */
  lemma TrimOfTrimmed(s: string)
    requires s == [] || (!IsWhitespace(s[0]) && !IsWhitespace(s[|s| - 1]))
    ensures Trim(s) == s
  {
  }

  /** `trim` keeps one contiguous stretch of its input: the characters from
      index `a` on. */
  lemma TrimSlice(s: string) returns (a: nat)
    ensures a + |Trim(s)| <= |s| && Trim(s) == s[a..a + |Trim(s)|]
  {
    var t := TrimStart(s);
    var r := TrimEnd(t);
    a := |s| - |t|;
    assert t == s[a..] && r == t[..|r|];
    assert s[a..][..|r|] == s[a..a + |r|];
  }

  /** `trim` keeps the characters it does not drop in their order. */
  lemma TrimSubsequence(s: string)
    ensures Lists.IsSubsequence(Trim(s), s)
  {
    var t := TrimStart(s);
    Lists.SuffixIsSubsequence(s, |s| - |t|);
    Lists.PrefixIsSubsequence(t, |TrimEnd(t)|);
    Lists.SubsequenceTrans(Trim(s), t, s);
  }

  /** `trim` is idempotent. */
  lemma TrimIdempotent(s: string)
    ensures Trim(Trim(s)) == Trim(s)
  {
    TrimOfTrimmed(Trim(s));
  }

  /** The trim is empty exactly when every character is whitespace: the
      JavaScript test `!s.trim()`. */
  lemma {:induction false} TrimEmptyIff(s: string)
    ensures Trim(s) == [] <==> AllWhitespace(s)
  {
    if AllWhitespace(s) {
      TrimStartAllWhitespace(s);
    }
    var t := TrimStart(s);
    assert TrimEnd(t) == [] ==> AllWhitespace(t);
    assert t == [] ==> AllWhitespace(s);
  }

  lemma {:induction false} TrimStartAllWhitespace(s: string)
    requires AllWhitespace(s)
    ensures TrimStart(s) == []
    decreases |s|
  {
    if |s| > 0 {
      TrimStartAllWhitespace(s[1..]);
    }
  }

  lemma {:induction false} TrimStartPadded(w: string, t: string)
    requires AllWhitespace(w) && (t == [] || !IsWhitespace(t[0]))
    ensures TrimStart(w + t) == t
    decreases |w|
  {
    if w == [] {
      assert w + t == t;
    } else {
      assert (w + t)[1..] == w[1..] + t;
      TrimStartPadded(w[1..], t);
    }
  }

  lemma {:induction false} TrimEndPadded(t: string, w: string)
    requires AllWhitespace(w) && (t == [] || !IsWhitespace(t[|t| - 1]))
    ensures TrimEnd(t + w) == t
    decreases |w|
  {
    if w == [] {
      assert t + w == t;
    } else {
      assert (t + w)[..|t + w| - 1] == t + w[..|w| - 1];
      TrimEndPadded(t, w[..|w| - 1]);
    }
  }

  /** Trimming a text padded with whitespace on both sides gives back the
      text, when the text itself starts and ends with a non-whitespace character. */
  lemma TrimPadded(w1: string, t: string, w2: string)
    requires AllWhitespace(w1) && AllWhitespace(w2)
    requires t != [] && !IsWhitespace(t[0]) && !IsWhitespace(t[|t| - 1])
    ensures Trim(w1 + t + w2) == t
  {
    assert w1 + t + w2 == w1 + (t + w2);
    TrimStartPadded(w1, t + w2);
    TrimEndPadded(t, w2);
  }

  // ---------------------------------------------------------------- split

  /** Number of occurrences of `c` in `s`. */
  function Count(s: string, c: char): nat {
    if s == [] then 0 else (if s[0] == c then 1 else 0) + Count(s[1..], c)
  }

  lemma {:induction false} CountZeroIffAbsent(s: string, c: char)
    ensures Count(s, c) == 0 <==> c !in s
  {
    if s != [] {
      CountZeroIffAbsent(s[1..], c);
      assert s == [s[0]] + s[1..];
    }
  }

  lemma {:induction false} CountAppend(a: string, b: string, c: char)
    ensures Count(a + b, c) == Count(a, c) + Count(b, c)
  {
    if a == [] {
      assert a + b == b;
    } else {
      assert (a + b)[1..] == a[1..] + b;
      CountAppend(a[1..], b, c);
    }
  }

  /** Index of the first `c` in `s`, or `|s|` when there is none. */
  function IndexOf(s: string, c: char): (i: nat)
    ensures i <= |s|
    ensures i < |s| ==> s[i] == c
    ensures forall k :: 0 <= k < i ==> s[k] != c
    ensures i == |s| <==> c !in s
  {
    if s == [] then 0
    else if s[0] == c then 0
    else IndexOf(s[1..], c) + 1
  }

  /** `s.split(c)` for a one-character separator: the maximal `c`-free pieces,
      always at least one. */
  function Split(s: string, c: char): (parts: seq<string>)
    ensures |parts| >= 1
    ensures forall k :: 0 <= k < |parts| ==> c !in parts[k]
    decreases |s|
  {
    var i := IndexOf(s, c);
    if i == |s| then [s] else [s[..i]] + Split(s[i + 1..], c)
  }

  /** `parts.join(c)`. */
  function Join(parts: seq<string>, c: char): string
    requires |parts| >= 1
  {
    if |parts| == 1 then parts[0] else parts[0] + [c] + Join(parts[1..], c)
  }

  /** Splitting and re-joining gives back the input. */
  lemma {:induction false} JoinSplit(s: string, c: char)
    ensures Join(Split(s, c), c) == s
    decreases |s|
  {
    var i := IndexOf(s, c);
    if i < |s| {
      var tail := Split(s[i + 1..], c);
      var parts := Split(s, c);
      assert parts == [s[..i]] + tail;
      assert parts[0] == s[..i] && parts[1..] == tail;
      JoinSplit(s[i + 1..], c);
      assert Join(parts, c) == s[..i] + [c] + s[i + 1..];
      assert s == s[..i] + [c] + s[i + 1..];
    }
  }

  /** There is one more piece than there are separators. */
  lemma {:induction false} SplitLength(s: string, c: char)
    ensures |Split(s, c)| == Count(s, c) + 1
    decreases |s|
  {
    var i := IndexOf(s, c);
    if i == |s| {
      CountZeroIffAbsent(s, c);
    } else {
      SplitLength(s[i + 1..], c);
      assert s == s[..i] + ([c] + s[i + 1..]);
      CountAppend(s[..i], [c] + s[i + 1..], c);
      CountAppend([c], s[i + 1..], c);
      CountZeroIffAbsent(s[..i], c);
    }
  }

  /** Splitting a join of separator-free pieces gives the pieces back. */
  lemma {:induction false} SplitJoin(parts: seq<string>, c: char)
    requires |parts| >= 1
    requires forall k :: 0 <= k < |parts| ==> c !in parts[k]
    ensures Split(Join(parts, c), c) == parts
    decreases |parts|
  {
    var s := Join(parts, c);
    if |parts| == 1 {
      assert IndexOf(s, c) == |s|;
    } else {
      var rest := Join(parts[1..], c);
      assert s == parts[0] + [c] + rest;
      var i := IndexOf(s, c);
      assert s[|parts[0]|] == c;
      assert s[..|parts[0]|] == parts[0];
      assert forall k :: 0 <= k < |parts[0]| ==> s[k] == parts[0][k];
      assert i == |parts[0]|;
      assert s[i + 1..] == rest;
      SplitJoin(parts[1..], c);
    }
  }

  /** The first `c` of `s` is at `i`, and the next one at `j` (or `j` is the
      end of `s`): the second piece of the split runs from `i + 1` to `j`. */
  predicate SecondFieldAt(s: string, c: char, i: int, j: int) {
    && 0 <= i < j <= |s|
    && s[i] == c && c !in s[..i] && c !in s[i + 1..j]
    && (j == |s| || s[j] == c)
  }

  /** A text with the separator in it has exactly those cut points. */
  lemma SecondFieldCuts(s: string, c: char) returns (i: int, j: int)
    requires c in s
    ensures SecondFieldAt(s, c, i, j)
  {
    i := IndexOf(s, c);
    var t := s[i + 1..];
    j := i + 1 + IndexOf(t, c);
    assert s[i + 1..j] == t[..IndexOf(t, c)];
    assert forall k :: 0 <= k < i ==> s[..i][k] == s[k];
  }

  /** The second piece of `s.split(c)` is the text between the cut points. */
  lemma SplitSecondField(s: string, c: char, i: int, j: int)
    requires SecondFieldAt(s, c, i, j)
    ensures |Split(s, c)| >= 2 && Split(s, c)[1] == s[i + 1..j]
  {
    assert forall k :: 0 <= k < i ==> s[k] == s[..i][k];
    assert IndexOf(s, c) == i;
    var t := s[i + 1..];
    assert Split(s, c) == [s[..i]] + Split(t, c);
    assert forall k :: 0 <= k < j - i - 1 ==> t[k] == s[i + 1..j][k];
    if j == |s| {
      assert t == s[i + 1..j];
    } else {
      assert t[j - i - 1] == c;
      assert IndexOf(t, c) == j - i - 1;
      assert t[..j - i - 1] == s[i + 1..j];
    }
  }

  lemma SplitSecondFields(s: string, c: char)
    ensures forall i, j :: SecondFieldAt(s, c, i, j) ==>
      |Split(s, c)| >= 2 && Split(s, c)[1] == s[i + 1..j]
  {
    forall i, j | SecondFieldAt(s, c, i, j)
      ensures |Split(s, c)| >= 2 && Split(s, c)[1] == s[i + 1..j]
    {
      SplitSecondField(s, c, i, j);
    }
  }

  // ---------------------------------------------------------------- substrings

  predicate IsPrefix(p: string, s: string) {
    |p| <= |s| && s[..|p|] == p
  }

  /** `sub` occurs in `s` starting at index `i`. */
  predicate OccursAt(s: string, sub: string, i: int) {
    0 <= i <= |s| - |sub| && s[i..i + |sub|] == sub
  }

  /** `s.includes(sub)`. */
  predicate Contains(s: string, sub: string) {
    exists i | 0 <= i <= |s| - |sub| :: OccursAt(s, sub, i)
  }

  /** A text contains whatever sits in its middle. */
  lemma ContainsMiddle(a: string, b: string, c: string)
    ensures Contains(a + b + c, b)
  {
    assert (a + b + c)[|a|..|a| + |b|] == b;
    assert OccursAt(a + b + c, b, |a|);
  }

  /** What a text contains, any text around it contains too. */
  lemma ContainsWithin(a: string, x: string, b: string, sub: string)
    requires Contains(x, sub)
    ensures Contains(a + x + b, sub)
  {
    var i :| 0 <= i <= |x| - |sub| && OccursAt(x, sub, i);
    assert (a + x + b)[|a| + i..|a| + i + |sub|] == x[i..i + |sub|];
    assert OccursAt(a + x + b, sub, |a| + i);
  }

  /** `s.replace(/lit/g, '')` for a regular expression that is a non-empty
      literal: the leftmost occurrences are removed, scanning left to right
      without overlap. */
  function RemoveAll(s: string, lit: string): (r: string)
    requires |lit| > 0
    ensures |r| <= |s|
    decreases |s|
  {
    if s == [] then []
    else if IsPrefix(lit, s) then RemoveAll(s[|lit|..], lit)
    else [s[0]] + RemoveAll(s[1..], lit)
  }

  /** Removal only deletes: what is left keeps its order. */
  lemma {:induction false} RemoveAllSubsequence(s: string, lit: string)
    requires |lit| > 0
    ensures Lists.IsSubsequence(RemoveAll(s, lit), s)
    decreases |s|
  {
    if s == [] {
    } else if IsPrefix(lit, s) {
      RemoveAllSubsequence(s[|lit|..], lit);
      Lists.SuffixIsSubsequence(s, |lit|);
      Lists.SubsequenceTrans(RemoveAll(s, lit), s[|lit|..], s);
    } else {
      var rest := RemoveAll(s[1..], lit);
      RemoveAllSubsequence(s[1..], lit);
      assert ([s[0]] + rest)[1..] == rest;
    }
  }

  /** Removal leaves a string without the literal's first character unchanged. */
  lemma {:induction false} RemoveAllAbsent(s: string, lit: string)
    requires |lit| > 0 && lit[0] !in s
    ensures RemoveAll(s, lit) == s
    decreases |s|
  {
    if s != [] {
      assert !IsPrefix(lit, s);
      RemoveAllAbsent(s[1..], lit);
      assert s == [s[0]] + s[1..];
    }
  }

  /** Every character of the result comes from the input. */
  lemma {:induction false} RemoveAllSubset(s: string, lit: string, x: char)
    requires |lit| > 0 && x !in s
    ensures x !in RemoveAll(s, lit)
    decreases |s|
  {
    if s != [] {
      if IsPrefix(lit, s) {
        RemoveAllSubset(s[|lit|..], lit, x);
      } else {
        RemoveAllSubset(s[1..], lit, x);
      }
    }
  }

  /** Removal distributes over a leading occurrence and over a tail that starts
      with a character the literal does not start with. */
  lemma RemoveAllLeading(lit: string, s: string)
    requires |lit| > 0
    ensures RemoveAll(lit + s, lit) == RemoveAll(s, lit)
  {
    assert (lit + s)[..|lit|] == lit;
    assert (lit + s)[|lit|..] == s;
  }

  lemma {:induction false} RemoveAllConcatAbsent(a: string, b: string, lit: string)
    requires |lit| > 0 && lit[0] !in a
    ensures RemoveAll(a + b, lit) == a + RemoveAll(b, lit)
    decreases |a|
  {
    if a != [] {
      assert (a + b)[0] == a[0];
      assert !IsPrefix(lit, a + b);
      assert (a + b)[1..] == a[1..] + b;
      RemoveAllConcatAbsent(a[1..], b, lit);
    } else {
      assert a + b == b;
    }
  }

  // ---------------------------------------------------------------- case

  /** `toLowerCase` on the ASCII range. */
  function ToLowerChar(c: char): (d: char)
    ensures ('A' <= c <= 'Z') ==> d as int == c as int + 32
    ensures !('A' <= c <= 'Z') ==> d == c
  {
    if 'A' <= c <= 'Z' then (c as int + 32) as char else c
  }

  function ToLower(s: string): (r: string)
    ensures |r| == |s|
    ensures forall i :: 0 <= i < |s| ==> r[i] == ToLowerChar(s[i])
  {
    seq(|s|, i requires 0 <= i < |s| => ToLowerChar(s[i]))
  }

  /** Lower-casing keeps whitespace where it was. */
  lemma ToLowerKeepsWhitespace(s: string)
    ensures forall i :: 0 <= i < |s| ==> (IsWhitespace(ToLower(s)[i]) <==> IsWhitespace(s[i]))
  {
  }

  // ---------------------------------------------------------------- numbers

  predicate IsDigit(c: char) { '0' <= c <= '9' }

  function DigitChar(d: nat): (c: char)
    requires d < 10
    ensures IsDigit(c)
  {
    ('0' as int + d) as char
  }

  /** Decimal rendering of a natural number, as JavaScript prints an integer. */
  function NatToString(n: nat): (s: string)
    ensures |s| >= 1
    ensures forall i :: 0 <= i < |s| ==> IsDigit(s[i])
    ensures |s| > 1 ==> s[0] != '0'
    decreases n
  {
    if n < 10 then [DigitChar(n)]
    else NatToString(n / 10) + [DigitChar(n % 10)]
  }

  predicate AllDigits(s: string) {
    forall i :: 0 <= i < |s| ==> IsDigit(s[i])
  }

  function DigitValue(c: char): (d: nat)
    requires IsDigit(c)
    ensures d < 10
  {
    c as int - '0' as int
  }

  /** The value of a string of decimal digits. */
  function DigitsValue(s: string): nat
    requires forall i :: 0 <= i < |s| ==> IsDigit(s[i])
  {
    if s == [] then 0 else DigitsValue(s[..|s| - 1]) * 10 + DigitValue(s[|s| - 1])
  }

  /** Reading the digits back yields the number: the rendering is faithful. */
  lemma {:induction false} NatToStringValue(n: nat)
    ensures DigitsValue(NatToString(n)) == n
    decreases n
  {
    var s := NatToString(n);
    if n >= 10 {
      NatToStringValue(n / 10);
      assert s[..|s| - 1] == NatToString(n / 10);
    }
  }

  /** Distinct numbers render as distinct strings. */
  lemma NatToStringInjective(m: nat, n: nat)
    requires NatToString(m) == NatToString(n)
    ensures m == n
  {
    NatToStringValue(m);
    NatToStringValue(n);
  }

  /** `String(n)` for an integer `n`: a minus sign before the magnitude when
      negative. Either way the digits, read back, give the magnitude, and
      only zero itself starts with a zero. */
  function IntToString(n: int): (s: string)
    ensures n >= 0 ==> AllDigits(s) && |s| >= 1 && DigitsValue(s) == n
    ensures n < 0 ==> |s| >= 2 && s[0] == '-' && AllDigits(s[1..]) && DigitsValue(s[1..]) == -n
    ensures |s| >= 2 ==> s[0] != '0'
  {
    if n >= 0 then
      NatToStringValue(n);
      NatToString(n)
    else
      NatToStringValue(-n);
      var t := "-" + NatToString(-n);
      assert t[1..] == NatToString(-n);
      t
  }

  /** Distinct integers render as distinct strings, so clock readings make
      distinct ids. */
  lemma IntToStringInjective(m: int, n: int)
    requires IntToString(m) == IntToString(n)
    ensures m == n
  {
  }
}
