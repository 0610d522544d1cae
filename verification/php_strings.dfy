/** The handful of PHP string built-ins the table writer relies on:
    `str_replace`, `ucwords`, `mb_substr(s, 0, n)`, `strlen` (a byte count)
    and the decimal rendering of an integer by `sprintf('%s', $n)`. */
module PhpStrings {

  // ---------------------------------------------------------------------------
  // str_replace
  // ---------------------------------------------------------------------------

  /** `p` occurs in `s` starting at index `i`. */
  predicate OccursAt(p: string, s: string, i: int) {
    0 <= i && i + |p| <= |s| && s[i..i + |p|] == p
  }

  predicate Occurs(p: string, s: string) {
    exists i :: 0 <= i <= |s| && OccursAt(p, s, i)
  }

  /** PHP `str_replace($search, $replace, $subject)` for one search string:
      occurrences are found left to right and do not overlap; an empty
      search string leaves the subject alone. */
  function StrReplace(search: string, replace: string, subject: string): (r: string)
    ensures |search| == 0 ==> r == subject
    decreases |subject|
  {
    if |search| == 0 || |subject| < |search| then subject
    else if subject[..|search|] == search then
      replace + StrReplace(search, replace, subject[|search|..])
    else
      [subject[0]] + StrReplace(search, replace, subject[1..])
  }

  /** PHP `str_replace` with arrays of search and replacement strings: each
      pair is applied in order to the output of the previous one. */
  function StrReplaceAll(pairs: seq<(string, string)>, subject: string): (r: string)
    decreases |pairs|
  {
    if |pairs| == 0 then subject
    else StrReplaceAll(pairs[1..], StrReplace(pairs[0].0, pairs[0].1, subject))
  }

  /** A subject in which the search string does not occur comes back unchanged. */
  lemma {:induction false} StrReplaceWithoutOccurrence(search: string, replace: string, subject: string)
    requires !Occurs(search, subject)
    ensures StrReplace(search, replace, subject) == subject
    decreases |subject|
  {
    if |search| == 0 || |subject| < |search| {
    } else {
      assert !OccursAt(search, subject, 0);
      forall i | OccursAt(search, subject[1..], i)
        ensures OccursAt(search, subject, i + 1)
      {
        assert subject[1..][i..i + |search|] == subject[i + 1..i + 1 + |search|];
      }
      StrReplaceWithoutOccurrence(search, replace, subject[1..]);
    }
  }

  /** A subject that does not contain the search string's first character
      does not contain the search string. */
  lemma FirstCharAbsentMeansNoOccurrence(search: string, subject: string)
    requires |search| > 0 && search[0] !in subject
    ensures !Occurs(search, subject)
  {
    forall i | 0 <= i <= |subject|
      ensures !OccursAt(search, subject, i)
    {
      if i + |search| <= |subject| {
        assert subject[i..i + |search|][0] == subject[i];
      }
    }
  }

  /** Replacing by something no longer than the search string never lengthens the subject. */
  lemma {:induction false} StrReplaceNotLonger(search: string, replace: string, subject: string)
    requires |replace| <= |search|
    ensures |StrReplace(search, replace, subject)| <= |subject|
    decreases |subject|
  {
    if |search| == 0 || |subject| < |search| {
    } else if subject[..|search|] == search {
      StrReplaceNotLonger(search, replace, subject[|search|..]);
    } else {
      StrReplaceNotLonger(search, replace, subject[1..]);
    }
  }

  /** Replacing a single character by a single character is a pointwise map. */
  lemma {:induction false} StrReplaceSingleChar(a: char, b: char, subject: string)
    ensures |StrReplace([a], [b], subject)| == |subject|
    ensures forall i :: 0 <= i < |subject| ==>
              StrReplace([a], [b], subject)[i] == (if subject[i] == a then b else subject[i])
    decreases |subject|
  {
    if |subject| == 0 {
    } else {
      StrReplaceSingleChar(a, b, subject[1..]);
      var rest := StrReplace([a], [b], subject[1..]);
      if subject[..1] == [a] {
        assert subject[0] == a;
        assert StrReplace([a], [b], subject) == [b] + rest;
      } else {
        assert subject[0] != a;
        assert StrReplace([a], [b], subject) == [subject[0]] + rest;
      }
    }
  }

  /** Applying a list of replacements to a subject in which none of the
      search strings occurs leaves it unchanged. */
  lemma {:induction false} StrReplaceAllWithoutOccurrence(pairs: seq<(string, string)>, subject: string)
    requires forall j :: 0 <= j < |pairs| ==> !Occurs(pairs[j].0, subject)
    ensures StrReplaceAll(pairs, subject) == subject
    decreases |pairs|
  {
    if |pairs| > 0 {
      StrReplaceWithoutOccurrence(pairs[0].0, pairs[0].1, subject);
      StrReplaceAllWithoutOccurrence(pairs[1..], subject);
    }
  }

  lemma {:induction false} StrReplaceAllNotLonger(pairs: seq<(string, string)>, subject: string)
    requires forall j :: 0 <= j < |pairs| ==> |pairs[j].1| <= |pairs[j].0|
    ensures |StrReplaceAll(pairs, subject)| <= |subject|
    decreases |pairs|
  {
    if |pairs| > 0 {
      StrReplaceNotLonger(pairs[0].0, pairs[0].1, subject);
      StrReplaceAllNotLonger(pairs[1..], StrReplace(pairs[0].0, pairs[0].1, subject));
    }
  }

  // ---------------------------------------------------------------------------
  // ucwords
  // ---------------------------------------------------------------------------

  /** The default word delimiters of PHP `ucwords`: space, tab, CR, LF, form feed, vertical tab. */
  predicate IsWordDelimiter(c: char) {
    c == ' ' || c == '\t' || c == '\r' || c == '\n' || c == '\U{000C}' || c == '\U{000B}'
  }

  /** ASCII upper-casing, as PHP 8 `toupper` does independently of the locale. */
  function ToUpper(c: char): (u: char)
    ensures 'a' <= c <= 'z' ==> 'A' <= u <= 'Z' && u as int == c as int - 32
    ensures !('a' <= c <= 'z') ==> u == c
  {
    if 'a' <= c <= 'z' then (c as int - 32) as char else c
  }

  /** The scan PHP's `ucwords` performs: upper-case the current character when
      `capitalize` holds, and capitalize the next one after a delimiter. */
  function UcWordsFrom(s: string, capitalize: bool): (r: string)
    ensures |r| == |s|
    decreases |s|
  {
    if |s| == 0 then []
    else [if capitalize then ToUpper(s[0]) else s[0]] + UcWordsFrom(s[1..], IsWordDelimiter(s[0]))
  }

  /** PHP `ucwords($s)`. */
  function UcWords(s: string): (r: string)
    ensures |r| == |s|
  {
    UcWordsFrom(s, true)
  }

  /** Index `i` begins a word: it is the first character or follows a delimiter. */
  predicate StartsWord(s: string, i: int)
    requires 0 <= i < |s|
  {
    i == 0 || IsWordDelimiter(s[i - 1])
  }

  lemma {:induction false} UcWordsFromPointwise(s: string, capitalize: bool)
    ensures forall i :: 0 <= i < |s| ==>
              UcWordsFrom(s, capitalize)[i] ==
              (if (if i == 0 then capitalize else IsWordDelimiter(s[i - 1])) then ToUpper(s[i]) else s[i])
    decreases |s|
  {
    if |s| > 0 {
      UcWordsFromPointwise(s[1..], IsWordDelimiter(s[0]));
      var r := UcWordsFrom(s, capitalize);
      forall i | 0 < i < |s|
        ensures r[i] == (if IsWordDelimiter(s[i - 1]) then ToUpper(s[i]) else s[i])
      {
        assert r[i] == UcWordsFrom(s[1..], IsWordDelimiter(s[0]))[i - 1];
        assert s[1..][i - 1] == s[i];
        if i > 1 {
          assert s[1..][i - 2] == s[i - 1];
        }
      }
    }
  }

  /** `ucwords` upper-cases exactly the first character of every word and
      leaves every other character as it was. */
  lemma UcWordsPointwise(s: string)
    ensures forall i :: 0 <= i < |s| ==>
              UcWords(s)[i] == (if StartsWord(s, i) then ToUpper(s[i]) else s[i])
  {
    UcWordsFromPointwise(s, true);
  }

  // ---------------------------------------------------------------------------
  // mb_substr($s, 0, n)
  // ---------------------------------------------------------------------------

  /** PHP `mb_substr($s, 0, $n)`: the first `n` characters, or all of `s` when shorter. */
  function Prefix(s: string, n: nat): (r: string)
    ensures r <= s
    ensures |r| == if |s| <= n then |s| else n
  {
    if |s| <= n then s else s[..n]
  }

  // ---------------------------------------------------------------------------
  // strlen (bytes of the UTF-8 encoding)
  // ---------------------------------------------------------------------------

  /** Number of bytes UTF-8 uses for one code point. */
  function Utf8Width(c: char): (w: nat)
    ensures 1 <= w <= 4
    ensures (c as int < 0x80) <==> w == 1
  {
    if c as int < 0x80 then 1
    else if c as int < 0x800 then 2
    else if c as int < 0x10000 then 3
    else 4
  }

  /** PHP `strlen`: the byte length of the UTF-8 encoded string. */
  function ByteLength(s: string): (n: nat)
    ensures |s| <= n <= 4 * |s|
    decreases |s|
  {
    if |s| == 0 then 0 else Utf8Width(s[0]) + ByteLength(s[1..])
  }

  // ---------------------------------------------------------------------------
  // Decimal rendering of a non-negative integer, and its inverse
  // ---------------------------------------------------------------------------

  predicate IsDigit(c: char) {
    '0' <= c <= '9'
  }

  function DigitChar(d: nat): (c: char)
    requires d < 10
    ensures IsDigit(c)
  {
    ('0' as int + d) as char
  }

  function DigitValue(c: char): (d: nat)
    requires IsDigit(c)
    ensures d < 10
  {
    c as int - '0' as int
  }

  /** The decimal digits of `n`, as PHP prints an `int` in `sprintf('%s', $n)`. */
  function NatToString(n: nat): (s: string)
    ensures |s| >= 1
    ensures forall i :: 0 <= i < |s| ==> IsDigit(s[i])
    decreases n
  {
    if n < 10 then [DigitChar(n)] else NatToString(n / 10) + [DigitChar(n % 10)]
  }

  /** Reads a string of decimal digits back as a number. */
  function ParseDigits(s: string): nat
    requires forall i :: 0 <= i < |s| ==> IsDigit(s[i])
    decreases |s|
  {
    if |s| == 0 then 0 else ParseDigits(s[..|s| - 1]) * 10 + DigitValue(s[|s| - 1])
  }

  /** Parsing the rendering gives the number back, so distinct numbers render differently. */
  lemma {:induction false} NatToStringRoundTrip(n: nat)
    ensures ParseDigits(NatToString(n)) == n
    decreases n
  {
    if n >= 10 {
      var s := NatToString(n);
      NatToStringRoundTrip(n / 10);
      assert s[..|s| - 1] == NatToString(n / 10);
      assert DigitValue(s[|s| - 1]) == n % 10;
    }
  }

  lemma NatToStringInjective(m: nat, n: nat)
    requires NatToString(m) == NatToString(n)
    ensures m == n
  {
    NatToStringRoundTrip(m);
    NatToStringRoundTrip(n);
  }

  /** Numbers below 100 render in at most two characters. */
  lemma NatToStringShort(n: nat)
    requires n < 100
    ensures |NatToString(n)| <= 2
  {
    if n >= 10 {
      assert NatToString(n / 10) == [DigitChar(n / 10)];
    }
  }
}
