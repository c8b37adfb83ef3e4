/** String helpers the model relies on: decimal rendering (`std::to_string`
    of an unsigned value) and the `StringUtils` operations used by the URI
    parser (`Split`, `AfterFirst`, `BeforeFirst`, `RegexMatch` on a
    `Prefix.*` pattern). */
module Text {
  import opened Wrappers

  // ---------------------------------------------------------------------
  // Decimal numbers

  predicate IsDigit(c: char) {
    '0' <= c <= '9'
  }

  predicate AllDigits(s: string) {
    forall i :: 0 <= i < |s| ==> IsDigit(s[i])
  }

  function DigitChar(d: nat): (c: char)
    requires d < 10
    ensures IsDigit(c) && (c as int) - ('0' as int) == d
  {
    (('0' as int) + d) as char
  }

  function DigitValue(c: char): (d: nat)
    requires IsDigit(c)
    ensures d < 10 && DigitChar(d) == c
  {
    (c as int) - ('0' as int)
  }

  /** Base-10 rendering without leading zeros, as `std::to_string` prints an
      unsigned integer. */
  function ToDecimal(n: nat): (s: string)
    ensures |s| >= 1 && AllDigits(s)
    ensures |s| > 1 ==> s[0] != '0'
    decreases n
  {
    if n < 10 then [DigitChar(n)] else ToDecimal(n / 10) + [DigitChar(n % 10)]
  }

  /** Reference reading of a digit string, most significant digit first. */
  function ParseDecimal(s: string): nat
    requires AllDigits(s)
    decreases |s|
  {
    if |s| == 0 then 0 else ParseDecimal(s[..|s| - 1]) * 10 + DigitValue(s[|s| - 1])
  }

  lemma {:induction false} ParseInvertsToDecimal(n: nat)
    ensures ParseDecimal(ToDecimal(n)) == n
    decreases n
  {
    var s := ToDecimal(n);
    if n >= 10 {
      ParseInvertsToDecimal(n / 10);
      assert s[..|s| - 1] == ToDecimal(n / 10);
    }
  }

  /** Distinct numbers print as distinct strings. */
  lemma ToDecimalInjective(m: nat, n: nat)
    requires ToDecimal(m) == ToDecimal(n)
    ensures m == n
  {
    ParseInvertsToDecimal(m);
    ParseInvertsToDecimal(n);
  }

  /** The length of the longest run of digits `s` starts with. */
  function DigitRun(s: string): (k: nat)
    ensures k <= |s| && AllDigits(s[..k])
    ensures k < |s| ==> !IsDigit(s[k])
    decreases |s|
  {
    if |s| == 0 || !IsDigit(s[0]) then 0
    else
      var k := 1 + DigitRun(s[1..]);
      assert s[..k] == [s[0]] + s[1..][..k - 1];
      k
  }

  /** A digit string followed by a non-digit (or nothing) is read back whole. */
  lemma {:induction false} DigitRunStopsAtNonDigit(d: string, t: string)
    requires AllDigits(d)
    requires t == [] || !IsDigit(t[0])
    ensures DigitRun(d + t) == |d|
    decreases |d|
  {
    if |d| > 0 {
      assert (d + t)[1..] == d[1..] + t;
      DigitRunStopsAtNonDigit(d[1..], t);
    } else {
      assert d + t == t;
    }
  }

  // ---------------------------------------------------------------------
  // Searching for a separator

  predicate IsPrefix(p: string, s: string) {
    |p| <= |s| && s[..|p|] == p
  }

  /** Putting the same head in front of both sides does not change whether
      one is a prefix of the other. */
  lemma PrefixAfterCommonHead(head: string, p: string, s: string)
    ensures IsPrefix(head + p, head + s) <==> IsPrefix(p, s)
  {
    if IsPrefix(p, s) {
      assert (head + s)[..|head + p|] == head + s[..|p|];
    }
    if IsPrefix(head + p, head + s) {
      assert s[..|p|] == (head + s)[..|head + p|][|head|..];
    }
  }

  predicate OccursAt(s: string, sep: string, k: nat) {
    k + |sep| <= |s| && s[k..k + |sep|] == sep
  }

  ghost predicate Contains(s: string, sep: string) {
    exists k: nat :: OccursAt(s, sep, k)
  }

  /** Position of the first occurrence of `sep` at or after `from`. */
  function FindFrom(s: string, sep: string, from: nat): (r: Option<nat>)
    requires from <= |s|
    ensures r.Some? ==> from <= r.value && OccursAt(s, sep, r.value)
    ensures r.Some? ==> forall j: nat :: from <= j < r.value ==> !OccursAt(s, sep, j)
    ensures r.None? ==> forall j: nat :: from <= j ==> !OccursAt(s, sep, j)
    decreases |s| - from
  {
    if from + |sep| > |s| then None
    else if s[from..from + |sep|] == sep then Some(from)
    else FindFrom(s, sep, from + 1)
  }

  function Find(s: string, sep: string): (r: Option<nat>)
    ensures r.Some? ==> OccursAt(s, sep, r.value)
    ensures r.Some? ==> forall j: nat :: j < r.value ==> !OccursAt(s, sep, j)
    ensures r.None? <==> !Contains(s, sep)
  {
    FindFrom(s, sep, 0)
  }

  /** A prefix of `s` that ends before the first occurrence holds no occurrence. */
  lemma PrefixBeforeFirstIsFree(s: string, sep: string, k: nat)
    requires |sep| > 0 && k <= |s|
    requires forall j: nat :: j < k ==> !OccursAt(s, sep, j)
    ensures !Contains(s[..k], sep)
  {
    if Contains(s[..k], sep) {
      var j: nat :| OccursAt(s[..k], sep, j);
      assert s[..k][j..j + |sep|] == s[j..j + |sep|];
      assert OccursAt(s, sep, j);
      assert false;
    }
  }

  /** `StringUtils::Split`: the pieces between successive occurrences of `sep`,
      empty pieces included. */
  function Split(s: string, sep: string): (parts: seq<string>)
    requires |sep| > 0
    ensures |parts| >= 1
    ensures forall i :: 0 <= i < |parts| ==> !Contains(parts[i], sep)
    ensures Join(parts, sep) == s
    decreases |s|
  {
    match Find(s, sep)
    case None => [s]
    case Some(k) =>
      PrefixBeforeFirstIsFree(s, sep, k);
      var rest := Split(s[k + |sep|..], sep);
      assert s == s[..k] + sep + s[k + |sep|..];
      [s[..k]] + rest
  }

  /** Reference inverse of `Split`: the pieces glued back with `sep`. */
  function Join(parts: seq<string>, sep: string): string
    requires |parts| >= 1
    decreases |parts|
  {
    if |parts| == 1 then parts[0] else parts[0] + sep + Join(parts[1..], sep)
  }

  /** `StringUtils::AfterFirst`: the text after the first occurrence, or the
      empty string when there is none. */
  function AfterFirst(s: string, sep: string): string {
    match Find(s, sep)
    case None => ""
    case Some(k) => s[k + |sep|..]
  }

  /** `StringUtils::BeforeFirst`: the text before the first occurrence, or the
      empty string when there is none. */
  function BeforeFirst(s: string, sep: string): string {
    match Find(s, sep)
    case None => ""
    case Some(k) => s[..k]
  }

  /** When `sep` occurs, the two halves and the separator rebuild `s`, and
      the first half holds no occurrence; otherwise both halves are empty. */
  lemma BeforeAndAfterFirstRebuild(s: string, sep: string)
    requires |sep| > 0
    ensures Contains(s, sep) ==> s == BeforeFirst(s, sep) + sep + AfterFirst(s, sep)
    ensures Contains(s, sep) ==> !Contains(BeforeFirst(s, sep), sep)
    ensures !Contains(s, sep) ==> BeforeFirst(s, sep) == "" && AfterFirst(s, sep) == ""
  {
    match Find(s, sep)
    case None =>
    case Some(k) =>
      PrefixBeforeFirstIsFree(s, sep, k);
      assert s == s[..k] + sep + s[k + |sep|..];
  }

  /** With exactly two pieces, the text after the first separator is the
      second piece. */
  lemma AfterFirstOfTwoPieces(s: string, sep: string)
    requires |sep| > 0
    requires |Split(s, sep)| == 2
    ensures AfterFirst(s, sep) == Split(s, sep)[1]
    ensures BeforeFirst(s, sep) == Split(s, sep)[0]
  {
  }

  lemma SplitOfSeparatorFree(s: string, sep: string)
    requires |sep| > 0
    ensures !Contains(s, sep) <==> Split(s, sep) == [s]
  {
  }

  // ---------------------------------------------------------------------
  // `StringUtils::RegexMatch(s, "Prefix/.*")`: a whole-string ECMAScript
  // match, where `.` matches every character except a line terminator.

  predicate IsLineTerminator(c: char) {
    c == '\n' || c == '\r' || c as int == 0x2028 || c as int == 0x2029
  }

  predicate MatchesPrefixThenAnything(s: string, prefix: string) {
    && IsPrefix(prefix, s)
    && forall i :: |prefix| <= i < |s| ==> !IsLineTerminator(s[i])
  }

  /** A longer literal prefix selects a subset of the strings a shorter one does. */
  lemma LongerPrefixMatchImplies(s: string, short: string, long: string)
    requires IsPrefix(short, long)
    requires forall i :: |short| <= i < |long| ==> !IsLineTerminator(long[i])
    requires MatchesPrefixThenAnything(s, long)
    ensures MatchesPrefixThenAnything(s, short)
  {
    assert s[..|short|] == s[..|long|][..|short|];
    forall i | |short| <= i < |s| ensures !IsLineTerminator(s[i]) {
      if i < |long| {
        assert s[i] == s[..|long|][i];
      }
    }
  }
}
