/**
  The trial email form: the format check the form applies and the order in
  which it refuses, normalises and submits an address. The insert into the
  leads table and the local backup are left to the caller; the model says
  what value they receive.
 */
module Email {
  import opened Text

  /** The regex class `[^\s@]`, repeated. */
  predicate Plain(s: string) {
    forall i :: 0 <= i < |s| ==> !IsWhitespace(s[i]) && s[i] != '@'
  }

  /** `s` reads as local@name.tld, cut at the `@` index `k` and the `.`
      index `j`, with three non-empty plain parts. */
  predicate Decomposes(s: string, k: int, j: int) {
    && 1 <= k && k + 1 < j && j + 1 < |s|
    && s[k] == '@' && s[j] == '.'
    && Plain(s[..k]) && Plain(s[k + 1..j]) && Plain(s[j + 1..])
  }

  /** `/^[^\s@]+@[^\s@]+\.[^\s@]+$/` accepts `s`. */
  ghost predicate RegexAccepts(s: string) {
    exists k, j :: Decomposes(s, k, j)
  }

  /** The domain has a `.` that is neither its first nor its last character. */
  predicate HasInnerDot(d: string) {
    exists j | 1 <= j < |d| - 1 :: d[j] == '.'
  }

  /** `validateEmail(email)`, as a scan: no whitespace, split at `@` into
      exactly two parts, a non-empty local part, and an inner dot in the
      domain. */
  predicate ValidateEmail(s: string) {
    && NoWhitespace(s)
    && var parts := Split(s, '@');
       |parts| == 2 && parts[0] != [] && HasInnerDot(parts[1])
  }

  /** Splitting a text with no separator gives the text alone. */
  lemma SplitAbsent(t: string, c: char)
    requires c !in t
    ensures Split(t, c) == [t]
  {
  }

  /** Splitting a text with exactly one separator at `k`. */
  lemma SplitOnce(s: string, c: char, k: int)
    requires 0 <= k < |s| && s[k] == c && c !in s[..k] && c !in s[k + 1..]
    ensures Split(s, c) == [s[..k], s[k + 1..]]
  {
    var i := IndexOf(s, c);
    assert forall m :: 0 <= m < k ==> s[m] == s[..k][m];
    assert i == k;
    SplitAbsent(s[k + 1..], c);
  }

  /** A valid address decomposes as the regex needs. */
  lemma ValidDecomposes(s: string)
    requires ValidateEmail(s)
    ensures RegexAccepts(s)
  {
    var i := IndexOf(s, '@');
    var parts := Split(s, '@');
    assert i < |s|;
    var tail := Split(s[i + 1..], '@');
    assert parts == [s[..i]] + tail;
    assert tail == [s[i + 1..]];
    var d := s[i + 1..];
    assert '@' !in d && '@' !in s[..i];
    var jd :| 1 <= jd < |d| - 1 && d[jd] == '.';
    var j := i + 1 + jd;
    assert s[i + 1..j] == d[..jd];
    assert s[j + 1..] == d[jd + 1..];
    assert Decomposes(s, i, j);
  }

  /** An address the regex accepts passes the scan. */
  lemma DecomposedIsValid(s: string, k: int, j: int)
    requires Decomposes(s, k, j)
    ensures ValidateEmail(s)
  {
    forall i | 0 <= i < |s| ensures !IsWhitespace(s[i]) {
      if i < k {
        assert s[i] == s[..k][i];
      } else if k < i < j {
        assert s[i] == s[k + 1..j][i - k - 1];
      } else if j < i {
        assert s[i] == s[j + 1..][i - j - 1];
      }
    }
    var d := s[k + 1..];
    assert d == s[k + 1..j] + s[j..];
    forall i | 0 <= i < |d| ensures d[i] != '@' {
      if i < j - k - 1 {
        assert d[i] == s[k + 1..j][i];
      } else if i > j - k - 1 {
        assert d[i] == s[j + 1..][i - (j - k)];
      }
    }
    assert '@' !in s[..k];
    SplitOnce(s, '@', k);
    assert d[j - k - 1] == '.';
  }

  /** The scan accepts exactly what the regex accepts. */
  lemma ValidateEmailMatchesRegex(s: string)
    ensures ValidateEmail(s) <==> RegexAccepts(s)
  {
    if ValidateEmail(s) {
      ValidDecomposes(s);
    }
    if RegexAccepts(s) {
      var k, j :| Decomposes(s, k, j);
      DecomposedIsValid(s, k, j);
    }
  }

  const EmptyEmailError: string := "Please enter your email address"
  const InvalidEmailError: string := "Please enter a valid email address"

  /** What a submit does: refuse with a message, or store one value in the
      leads table and the local backup and hand another to `onSubmit`. */
  datatype Submission = Refused(error: string) | Accepted(stored: string, submitted: string)

  /** `handleSubmit`: the emptiness check reads the trimmed input, the format
      check reads the raw input, the stored value is lower-cased and trimmed,
      and `onSubmit` receives the input as typed. */
  function HandleSubmit(email: string): (r: Submission)
    ensures r.Refused? <==> Trim(email) == [] || !ValidateEmail(email)
    ensures Trim(email) == [] ==> r == Refused(EmptyEmailError)
    ensures Trim(email) != [] && !ValidateEmail(email) ==> r == Refused(InvalidEmailError)
    ensures r.Accepted? ==> r.stored == ToLower(Trim(email)) && r.submitted == email
  {
    if Trim(email) == [] then Refused(EmptyEmailError)
    else if !ValidateEmail(email) then Refused(InvalidEmailError)
    else Accepted(ToLower(Trim(email)), email)
  }

  /** Surrounding whitespace passes the emptiness check but fails the format
      check, so a padded address is refused as invalid. */
  lemma PaddedAddressRefused(email: string)
    requires Trim(email) != []
    requires IsWhitespace(email[0]) || IsWhitespace(email[|email| - 1])
    ensures HandleSubmit(email) == Refused(InvalidEmailError)
  {
  }

  /** A lower-cased character is `@`, or whitespace, exactly when it was. */
  lemma ToLowerKeepsPlain(s: string)
    requires Plain(s)
    ensures Plain(ToLower(s))
  {
    ToLowerKeepsWhitespace(s);
  }

  /** Lower-casing keeps the cut points of an address. */
  lemma LowerDecomposes(s: string, k: int, j: int)
    requires Decomposes(s, k, j)
    ensures Decomposes(ToLower(s), k, j)
  {
    var low := ToLower(s);
    assert low[..k] == ToLower(s[..k]);
    assert low[k + 1..j] == ToLower(s[k + 1..j]);
    assert low[j + 1..] == ToLower(s[j + 1..]);
    ToLowerKeepsPlain(s[..k]);
    ToLowerKeepsPlain(s[k + 1..j]);
    ToLowerKeepsPlain(s[j + 1..]);
  }

  /** The stored address is the typed one lower-cased (trimming has nothing
      to remove), and it is itself a valid address. */
  lemma StoredAddressValid(email: string)
    requires HandleSubmit(email).Accepted?
    ensures HandleSubmit(email).stored == ToLower(email)
    ensures ValidateEmail(HandleSubmit(email).stored)
  {
    assert ValidateEmail(email) && email != [];
    assert !IsWhitespace(email[0]) && !IsWhitespace(email[|email| - 1]);
    TrimOfTrimmed(email);
    assert HandleSubmit(email).stored == ToLower(email);
    ValidDecomposes(email);
    var k, j :| Decomposes(email, k, j);
    LowerDecomposes(email, k, j);
    DecomposedIsValid(ToLower(email), k, j);
  }
}
