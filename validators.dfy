/**
  Input format validators of the request layer (api/shared/validators.py):
  required, stripped of surrounding whitespace, then a shape check for date
  and datetime strings, and a length and injection-pattern check for
  document names. On success each returns the stripped string.
*/
module Validators {
  import opened Wrappers

  datatype ValidatorError = Required | BadFormat | TooLong | Dangerous

  // ----- whitespace, digits and case -----

  /** The characters Python's str.isspace() accepts (and so str.strip() removes and \s matches). */
  predicate IsSpace(c: char)
  {
    || c == ' ' || ('\t' <= c <= '\r') || ('\U{1C}' <= c <= '\U{1F}') || c == '\U{85}' || c == '\U{A0}'
    || c == '\U{1680}' || ('\U{2000}' <= c <= '\U{200A}') || c == '\U{2028}' || c == '\U{2029}'
    || c == '\U{202F}' || c == '\U{205F}' || c == '\U{3000}'
  }

  predicate IsDigit(c: char)
  {
    '0' <= c <= '9'
  }

  function LowerChar(c: char): (d: char)
    ensures IsSpace(d) <==> IsSpace(c)
    ensures 'A' <= c <= 'Z' ==> d as int == c as int + 32
    ensures !('A' <= c <= 'Z') ==> d == c
  {
    if 'A' <= c <= 'Z' then (c as int + 32) as char else c
  }

  function Lower(s: string): (r: string)
    ensures |r| == |s|
    ensures forall k :: 0 <= k < |s| ==> r[k] == LowerChar(s[k])
  {
    seq(|s|, k requires 0 <= k < |s| => LowerChar(s[k]))
  }

  // ----- strip -----

  /** How many space characters `s` starts with. */
  function LeadingSpaces(s: string): (n: nat)
    ensures n <= |s|
    ensures forall k :: 0 <= k < n ==> IsSpace(s[k])
    ensures n < |s| ==> !IsSpace(s[n])
    decreases |s|
  {
    if s != [] && IsSpace(s[0]) then 1 + LeadingSpaces(s[1..]) else 0
  }

  /** `s` without its trailing space characters. */
  function TrimRight(s: string): (r: string)
    ensures |r| <= |s| && r == s[..|r|]
    ensures r == [] || !IsSpace(r[|r| - 1])
    ensures forall k :: |r| <= k < |s| ==> IsSpace(s[k])
    decreases |s|
  {
    if s != [] && IsSpace(s[|s| - 1]) then TrimRight(s[..|s| - 1]) else s
  }

  /**
    str.strip(): what lies between the leading and the trailing space
    characters; "" when `s` is all space.
  */
  function Strip(s: string): (r: string)
    ensures LeadingSpaces(s) + |r| <= |s| && r == s[LeadingSpaces(s)..LeadingSpaces(s) + |r|]
    ensures forall k :: LeadingSpaces(s) + |r| <= k < |s| ==> IsSpace(s[k])
    ensures r == [] || (!IsSpace(r[0]) && !IsSpace(r[|r| - 1]))
  {
    var i := LeadingSpaces(s);
    var r := TrimRight(s[i..]);
    assert r != [] ==> r[0] == s[i];
    assert forall k :: i + |r| <= k < |s| ==> s[k] == s[i..][k - i];
    r
  }

  // ----- shapes -----

  /** `DDDD-DD-DD`. */
  predicate DateShape(s: string)
  {
    && |s| == 10
    && IsDigit(s[0]) && IsDigit(s[1]) && IsDigit(s[2]) && IsDigit(s[3]) && s[4] == '-'
    && IsDigit(s[5]) && IsDigit(s[6]) && s[7] == '-' && IsDigit(s[8]) && IsDigit(s[9])
  }

  /** `DDDD-DD-DD DD:DD:DD`. */
  predicate DateTimeShape(s: string)
  {
    && |s| == 19
    && DateShape(s[..10]) && s[10] == ' '
    && IsDigit(s[11]) && IsDigit(s[12]) && s[13] == ':'
    && IsDigit(s[14]) && IsDigit(s[15]) && s[16] == ':'
    && IsDigit(s[17]) && IsDigit(s[18])
  }

  /** validate_date_string (validators.py:13-38). */
  function ValidateDateString(s: string): (r: Result<string, ValidatorError>)
    ensures s == "" ==> r == Err(Required)
    ensures s != "" ==> (r.Ok? <==> DateShape(Strip(s)))
    ensures r.Ok? ==> r.value == Strip(s) && DateShape(r.value)
    ensures r.Err? ==> r.error == Required || r.error == BadFormat
  {
    if s == "" then Err(Required)
    else
      var t := Strip(s);
      if DateShape(t) then Ok(t) else Err(BadFormat)
  }

  /** validate_datetime_string (validators.py:41-67). */
  function ValidateDateTimeString(s: string): (r: Result<string, ValidatorError>)
    ensures s == "" ==> r == Err(Required)
    ensures s != "" ==> (r.Ok? <==> DateTimeShape(Strip(s)))
    ensures r.Ok? ==> r.value == Strip(s) && DateTimeShape(r.value)
    ensures r.Err? ==> r.error == Required || r.error == BadFormat
  {
    if s == "" then Err(Required)
    else
      var t := Strip(s);
      if DateTimeShape(t) then Ok(t) else Err(BadFormat)
  }

  // ----- rendering a date, the inverse of the shape -----

  function Digit(n: nat): (c: char)
    requires n < 10
    ensures IsDigit(c) && c as int - '0' as int == n
  {
    ('0' as int + n) as char
  }

  function DigitValue(c: char): int
  {
    c as int - '0' as int
  }

  /** `n` written with exactly `width` digits, most significant first. */
  function Pad(n: nat, width: nat): (r: string)
    requires n < Pow10(width)
    ensures |r| == width
    ensures forall k :: 0 <= k < |r| ==> IsDigit(r[k])
    ensures Value(r) == n
    decreases width
  {
    if width == 0 then ""
    else
      var r := Pad(n / 10, width - 1) + [Digit(n % 10)];
      ValueSnoc(Pad(n / 10, width - 1), Digit(n % 10));
      r
  }

  function Pow10(w: nat): (p: nat)
    ensures p >= 1
  {
    if w == 0 then 1 else 10 * Pow10(w - 1)
  }

  /** The number a string of digits denotes. */
  function Value(s: string): int
    decreases |s|
  {
    if s == [] then 0 else 10 * Value(s[..|s| - 1]) + DigitValue(s[|s| - 1])
  }

  lemma ValueSnoc(s: string, c: char)
    ensures Value(s + [c]) == 10 * Value(s) + DigitValue(c)
  {
    assert (s + [c])[..|s|] == s;
  }

  /** The text of a calendar date in the API's `YYYY-MM-DD` form. */
  function FormatDate(year: nat, month: nat, day: nat): string
    requires year < 10000 && month < 100 && day < 100
  {
    Pad(year, 4) + "-" + Pad(month, 2) + "-" + Pad(day, 2)
  }

  /** Any rendered date passes the date validator unchanged, and its fields read back. */
  lemma FormattedDateAccepted(year: nat, month: nat, day: nat)
    requires year < 10000 && month < 100 && day < 100
    ensures ValidateDateString(FormatDate(year, month, day)) == Ok(FormatDate(year, month, day))
    ensures var s := FormatDate(year, month, day);
            Value(s[..4]) == year && Value(s[5..7]) == month && Value(s[8..]) == day
  {
    var y, m, d := Pad(year, 4), Pad(month, 2), Pad(day, 2);
    var s := FormatDate(year, month, day);
    DateParts(y, m, d);
    StripUnpadded(s);
  }

  /** Where the three fields of a rendered date sit. */
  lemma DateParts(y: string, m: string, d: string)
    requires |y| == 4 && |m| == 2 && |d| == 2
    requires forall k :: 0 <= k < 4 ==> IsDigit(y[k])
    requires IsDigit(m[0]) && IsDigit(m[1]) && IsDigit(d[0]) && IsDigit(d[1])
    ensures var s := y + "-" + m + "-" + d;
            && s[..4] == y && s[5..7] == m && s[8..] == d
            && DateShape(s) && !IsSpace(s[0]) && !IsSpace(s[|s| - 1])
  {
    var s := y + "-" + m + "-" + d;
    assert s[0] == y[0] && s[1] == y[1] && s[2] == y[2] && s[3] == y[3];
    assert s[5] == m[0] && s[6] == m[1] && s[8] == d[0] && s[9] == d[1];
  }

  /** Strip leaves a string that neither starts nor ends with space as it is. */
  lemma StripUnpadded(s: string)
    requires s == [] || (!IsSpace(s[0]) && !IsSpace(s[|s| - 1]))
    ensures Strip(s) == s
  {
  }

  /** Surrounding whitespace never changes what the validators accept or return. */
  lemma PaddingIgnored(core: string, pre: string, post: string)
    requires core != []
    requires forall k :: 0 <= k < |pre| ==> IsSpace(pre[k])
    requires forall k :: 0 <= k < |post| ==> IsSpace(post[k])
    ensures ValidateDateString(pre + core + post) == ValidateDateString(core)
    ensures ValidateDateTimeString(pre + core + post) == ValidateDateTimeString(core)
    ensures ValidateDocname(pre + core + post) == ValidateDocname(core)
  {
    StripPadded(core, pre, post);
  }

  lemma StripPadded(core: string, pre: string, post: string)
    requires forall k :: 0 <= k < |pre| ==> IsSpace(pre[k])
    requires forall k :: 0 <= k < |post| ==> IsSpace(post[k])
    ensures Strip(pre + core + post) == Strip(core)
  {
    var x := pre + core + post;
    assert x == pre + (core + post);
    LeadingPrefix(pre, core + post);
    LeadingSuffix(core, post);
    var lc := LeadingSpaces(core);
    if lc < |core| {
      TailOfPadded(core, pre, post, lc);
      TrimRightPadded(core[lc..], post);
    }
    StripFromTail(x, core, LeadingSpaces(x), lc, post);
  }

  /** Strip depends only on what follows the leading spaces, up to trailing ones. */
  lemma StripFromTail(x: string, core: string, n: nat, lc: nat, post: string)
    requires n == LeadingSpaces(x) && lc == LeadingSpaces(core)
    requires lc < |core| ==> x[n..] == core[lc..] + post && TrimRight(core[lc..] + post) == TrimRight(core[lc..])
    requires lc == |core| ==> n == |x|
    ensures Strip(x) == Strip(core)
  {
    if lc == |core| {
      assert x[n..] == [] && core[lc..] == [];
    }
  }

  lemma TailOfPadded(core: string, pre: string, post: string, lc: nat)
    requires lc <= |core|
    ensures (pre + core + post)[|pre| + lc..] == core[lc..] + post
  {
  }

  /** Space characters in front only add to the leading count. */
  lemma {:induction false} LeadingPrefix(pre: string, s: string)
    requires forall k :: 0 <= k < |pre| ==> IsSpace(pre[k])
    ensures LeadingSpaces(pre + s) == |pre| + LeadingSpaces(s)
    decreases |pre|
  {
    if pre == [] {
      assert pre + s == s;
    } else {
      assert (pre + s)[0] == pre[0];
      assert (pre + s)[1..] == pre[1..] + s;
      LeadingPrefix(pre[1..], s);
    }
  }

  /** Space characters behind matter to the leading count only when `s` is all space. */
  lemma {:induction false} LeadingSuffix(s: string, post: string)
    requires forall k :: 0 <= k < |post| ==> IsSpace(post[k])
    ensures LeadingSpaces(s) < |s| ==> LeadingSpaces(s + post) == LeadingSpaces(s)
    ensures LeadingSpaces(s) == |s| ==> LeadingSpaces(s + post) == |s| + |post|
    decreases |s|
  {
    if s == [] {
      assert s + post == post;
      LeadingPrefix(post, []);
      assert post + [] == post;
    } else {
      assert (s + post)[0] == s[0];
      assert (s + post)[1..] == s[1..] + post;
      LeadingSuffix(s[1..], post);
    }
  }

  /** Space characters behind never survive the right trim. */
  lemma {:induction false} TrimRightPadded(s: string, post: string)
    requires forall k :: 0 <= k < |post| ==> IsSpace(post[k])
    ensures TrimRight(s + post) == TrimRight(s)
    decreases |post|
  {
    if post != [] {
      var q := post[..|post| - 1];
      assert (s + post)[..|s + post| - 1] == s + q;
      TrimRightPadded(s, q);
    } else {
      assert s + post == s;
    }
  }

  // ----- document names -----

  const MaxDocnameLength := 140

  /** One entry of the blacklist: a literal, or a keyword that must be followed by whitespace. */
  datatype Pattern = Literal(text: string) | KeywordThenSpace(keyword: string)

  /** The blacklist of validators.py:96-109, in lower case. */
  const DangerousPatterns: seq<Pattern> := [
    Literal("<script"), Literal("javascript:"), Literal("onclick"), Literal("onerror"),
    KeywordThenSpace("select"), KeywordThenSpace("insert"), KeywordThenSpace("update"),
    KeywordThenSpace("delete"), KeywordThenSpace("drop"), KeywordThenSpace("union"),
    Literal("--"), Literal(";")]

  /** The pattern matches `s` starting at position `i`. */
  predicate MatchesAt(p: Pattern, s: string, i: nat)
  {
    match p
    case Literal(t) => i + |t| <= |s| && s[i..i + |t|] == t
    case KeywordThenSpace(w) => i + |w| < |s| && s[i..i + |w|] == w && IsSpace(s[i + |w|])
  }

  /** re.search: the first position from `from` at which `p` matches, if any. */
  function Search(p: Pattern, s: string, from: nat): (r: Option<nat>)
    ensures r.None? <==> forall i :: from <= i <= |s| ==> !MatchesAt(p, s, i)
    ensures r.Some? ==> from <= r.value <= |s| && MatchesAt(p, s, r.value)
    ensures r.Some? ==> forall i :: from <= i < r.value ==> !MatchesAt(p, s, i)
    decreases |s| - from
  {
    if from > |s| then None
    else if MatchesAt(p, s, from) then Some(from)
    else Search(p, s, from + 1)
  }

  /** Some blacklist entry occurs in `s`. */
  predicate HasDangerous(s: string)
  {
    exists n, i :: 0 <= n < |DangerousPatterns| && 0 <= i <= |s| && MatchesAt(DangerousPatterns[n], s, i)
  }

  /** The loop over the blacklist (validators.py:111-114): the first entry that occurs, if any. */
  function FirstDangerous(s: string, n: nat): (r: Option<nat>)
    requires n <= |DangerousPatterns|
    ensures r.None? <==> forall m, i :: n <= m < |DangerousPatterns| && 0 <= i <= |s| ==> !MatchesAt(DangerousPatterns[m], s, i)
    ensures r.Some? ==> n <= r.value < |DangerousPatterns| && Search(DangerousPatterns[r.value], s, 0).Some?
    decreases |DangerousPatterns| - n
  {
    if n == |DangerousPatterns| then None
    else if Search(DangerousPatterns[n], s, 0).Some? then Some(n)
    else FirstDangerous(s, n + 1)
  }

  /** validate_docname (validators.py:70-116). */
  function ValidateDocname(s: string): (r: Result<string, ValidatorError>)
    ensures s == "" ==> r == Err(Required)
    ensures r.Ok? <==> s != "" && |Strip(s)| <= MaxDocnameLength && !HasDangerous(Lower(Strip(s)))
    ensures r.Ok? ==> r.value == Strip(s)
    ensures s != "" && |Strip(s)| > MaxDocnameLength ==> r == Err(TooLong)
    ensures r == Err(Dangerous) ==> HasDangerous(Lower(Strip(s)))
  {
    if s == "" then Err(Required)
    else
      var t := Strip(s);
      if |t| > MaxDocnameLength then Err(TooLong)
      else if FirstDangerous(Lower(t), 0).Some? then Err(Dangerous)
      else Ok(t)
  }

  // ----- properties of the name check -----

  /** Lowering commutes with stripping, because it never turns space into non-space. */
  lemma StripLower(s: string)
    ensures Lower(Strip(s)) == Strip(Lower(s))
  {
    LeadingLower(s);
    var i := LeadingSpaces(s);
    assert Lower(s)[i..] == Lower(s[i..]);
    TrimRightLower(s[i..]);
  }

  lemma {:induction false} LeadingLower(s: string)
    ensures LeadingSpaces(Lower(s)) == LeadingSpaces(s)
    decreases |s|
  {
    if s != [] {
      assert Lower(s)[1..] == Lower(s[1..]);
      LeadingLower(s[1..]);
    }
  }

  lemma {:induction false} TrimRightLower(s: string)
    ensures Lower(TrimRight(s)) == TrimRight(Lower(s))
    decreases |s|
  {
    if s != [] && IsSpace(s[|s| - 1]) {
      assert Lower(s)[..|s| - 1] == Lower(s[..|s| - 1]);
      TrimRightLower(s[..|s| - 1]);
    }
  }

  /** Two names that differ only in ASCII letter case are accepted or rejected together. */
  lemma DocnameCaseInsensitive(s: string, t: string)
    requires Lower(s) == Lower(t)
    ensures ValidateDocname(s).Ok? <==> ValidateDocname(t).Ok?
  {
    StripLower(s);
    StripLower(t);
    assert |Strip(s)| == |Lower(Strip(s))| == |Lower(Strip(t))| == |Strip(t)|;
    assert s == "" <==> t == "" by { assert |s| == |Lower(s)| == |Lower(t)| == |t|; }
  }

  /** A name holding a blacklisted piece anywhere is rejected, whatever surrounds it. */
  lemma ContainingDangerousRejected(pre: string, n: nat, mid: string, post: string)
    requires n < |DangerousPatterns| && MatchesAt(DangerousPatterns[n], mid, 0)
    requires Strip(pre + mid + post) == pre + mid + post
    ensures ValidateDocname(pre + mid + post).Err?
  {
    var s := pre + mid + post;
    LowerPattern(n, mid);
    ShiftMatch(DangerousPatterns[n], Lower(pre), Lower(mid), Lower(post));
    LowerConcat(pre, mid, post);
    assert MatchesAt(DangerousPatterns[n], Lower(Strip(s)), |pre|);
    assert HasDangerous(Lower(Strip(s)));
  }

  lemma LowerConcat(a: string, b: string, c: string)
    ensures Lower(a + b + c) == Lower(a) + Lower(b) + Lower(c)
  {
  }

  /** A blacklist entry is already in lower case, so lowering the text keeps a match. */
  lemma LowerPattern(n: nat, s: string)
    requires n < |DangerousPatterns| && MatchesAt(DangerousPatterns[n], s, 0)
    ensures MatchesAt(DangerousPatterns[n], Lower(s), 0)
  {
    PatternsLower();
    LowerMatch(DangerousPatterns[n], s);
  }

  /** The pattern's text has no upper-case letter. */
  predicate LowerText(p: Pattern)
  {
    var w := if p.Literal? then p.text else p.keyword;
    forall k :: 0 <= k < |w| ==> !('A' <= w[k] <= 'Z')
  }

  lemma PatternsLower()
    ensures forall m :: 0 <= m < |DangerousPatterns| ==> LowerText(DangerousPatterns[m])
  {
  }

  lemma LowerMatch(p: Pattern, s: string)
    requires LowerText(p) && MatchesAt(p, s, 0)
    ensures MatchesAt(p, Lower(s), 0)
  {
    var w := if p.Literal? then p.text else p.keyword;
    assert forall k :: 0 <= k < |w| ==> Lower(s)[k] == LowerChar(s[k]) == s[k];
    assert Lower(s)[..|w|] == s[..|w|];
  }

  lemma ShiftMatch(p: Pattern, pre: string, mid: string, post: string)
    requires MatchesAt(p, mid, 0)
    ensures MatchesAt(p, pre + mid + post, |pre|)
  {
    var s := pre + mid + post;
    match p
    case Literal(t) =>
      assert s[|pre|..|pre| + |t|] == mid[..|t|];
    case KeywordThenSpace(w) =>
      assert s[|pre|..|pre| + |w|] == mid[..|w|];
      assert s[|pre| + |w|] == mid[|w|];
  }
}
