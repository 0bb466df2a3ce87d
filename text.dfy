/**
 * String helpers the port knocker relies on from the .NET base library:
 * white-space tests and trimming (string.IsNullOrWhiteSpace, string.Trim),
 * string.Split on separator characters, ordinal case-insensitive comparison
 * (StringComparison.OrdinalIgnoreCase), int.TryParse and decimal formatting.
 */
module Text {

  import opened Wrappers

  /**
   * char.IsWhiteSpace, the set string.Trim and string.IsNullOrWhiteSpace
   * use: the Unicode White_Space characters (U+0009 to U+000D, space,
   * U+0085, U+00A0, U+1680, U+2000 to U+200A, U+2028, U+2029, U+202F,
   * U+205F and U+3000).
   */
  predicate IsWhiteSpace(c: char) {
    c == ' ' || '\t' <= c <= '\r' || c == '\U{85}' || c == '\U{A0}' || c == '\U{1680}'
    || '\U{2000}' <= c <= '\U{200A}' || c == '\U{2028}' || c == '\U{2029}' || c == '\U{202F}'
    || c == '\U{205F}' || c == '\U{3000}'
  }

  /** string.IsNullOrWhiteSpace (a Dafny string is never null). */
  predicate IsBlank(s: string) {
    forall i :: 0 <= i < |s| ==> IsWhiteSpace(s[i])
  }

  /** Length of the longest all-white-space prefix of s. */
  function LeadingWhiteSpace(s: string): (n: nat)
    ensures n <= |s|
    ensures forall k :: 0 <= k < n ==> IsWhiteSpace(s[k])
    ensures n < |s| ==> !IsWhiteSpace(s[n])
  {
    if |s| > 0 && IsWhiteSpace(s[0]) then 1 + LeadingWhiteSpace(s[1..]) else 0
  }

  /** Length of the longest all-white-space suffix of s. */
  function TrailingWhiteSpace(s: string): (n: nat)
    ensures n <= |s|
    ensures forall k :: |s| - n <= k < |s| ==> IsWhiteSpace(s[k])
    ensures n < |s| ==> !IsWhiteSpace(s[|s| - n - 1])
  {
    if |s| > 0 && IsWhiteSpace(s[|s| - 1]) then 1 + TrailingWhiteSpace(s[..|s| - 1]) else 0
  }

  /** Where the trimmed text starts. */
  function TrimStart(s: string): (i: nat)
    ensures i <= |s|
  {
    LeadingWhiteSpace(s)
  }

  /** Where the trimmed text ends. */
  function TrimEnd(s: string): (j: nat)
    ensures TrimStart(s) <= j <= |s|
  {
    |s| - TrailingWhiteSpace(s[TrimStart(s)..])
  }

  /** What is cut off at either end is white space, and what is kept starts and ends with none. */
  lemma TrimSlice(s: string)
    ensures IsBlank(s[..TrimStart(s)]) && IsBlank(s[TrimEnd(s)..])
    ensures TrimStart(s) == TrimEnd(s) <==> IsBlank(s)
    ensures TrimStart(s) < TrimEnd(s) ==> !IsWhiteSpace(s[TrimStart(s)]) && !IsWhiteSpace(s[TrimEnd(s) - 1])
  {
    var i, j := TrimStart(s), TrimEnd(s);
    var t := s[i..];
    assert IsBlank(s[..i]) by {
      forall k | 0 <= k < i ensures IsWhiteSpace(s[..i][k]) {
        assert s[..i][k] == s[k];
      }
    }
    assert IsBlank(s[j..]) by {
      forall k | 0 <= k < |s| - j ensures IsWhiteSpace(s[j..][k]) {
        assert s[j..][k] == t[j - i + k];
      }
    }
    if i < |s| {
      assert s[j - 1] == t[j - i - 1];
    }
  }

  /** string.Trim: drops white space at both ends and nothing else. */
  function Trim(s: string): (r: string)
    ensures exists i, j :: 0 <= i <= j <= |s| && r == s[i..j] && IsBlank(s[..i]) && IsBlank(s[j..])
    ensures r == [] <==> IsBlank(s)
    ensures r != [] ==> !IsWhiteSpace(r[0]) && !IsWhiteSpace(r[|r| - 1])
  {
    TrimSlice(s);
    s[TrimStart(s)..TrimEnd(s)]
  }

  /** Trimming twice is trimming once. */
  lemma TrimIdempotent(s: string)
    ensures Trim(Trim(s)) == Trim(s)
  {
    var t := Trim(s);
    if t != [] {
      assert LeadingWhiteSpace(t) == 0;
      assert TrailingWhiteSpace(t) == 0;
    }
  }

  /** A string with no white space at either end is its own trim. */
  lemma TrimOfTrimmed(s: string)
    requires s == [] || (!IsWhiteSpace(s[0]) && !IsWhiteSpace(s[|s| - 1]))
    ensures Trim(s) == s
  {
    if s != [] {
      assert LeadingWhiteSpace(s) == 0;
      assert TrailingWhiteSpace(s) == 0;
    }
  }

  // ----- string.Split -----

  /**
   * string.Split(params char[] separators): every maximal run between
   * separators, empty runs included, so the result is never empty.
   */
  function Split(s: string, seps: set<char>): (parts: seq<string>)
    ensures |parts| >= 1
    ensures forall p, k :: p in parts && 0 <= k < |p| ==> p[k] !in seps
  {
    if s == [] then [[]]
    else
      var rest := Split(s[1..], seps);
      if s[0] in seps then [[]] + rest
      else [[s[0]] + rest[0]] + rest[1..]
  }

  /** The inverse of splitting on one separator. */
  function Join(parts: seq<string>, sep: char): (s: string)
    requires |parts| >= 1
    ensures |s| >= |parts| - 1
  {
    if |parts| == 1 then parts[0] else parts[0] + [sep] + Join(parts[1..], sep)
  }

  /** No character of `s` is one of `seps`. */
  predicate Excludes(s: string, seps: set<char>) {
    forall k :: 0 <= k < |s| ==> s[k] !in seps
  }

  /** Splitting a string that holds no separator yields the string itself. */
  lemma {:induction false} SplitNoSeparator(s: string, seps: set<char>)
    requires Excludes(s, seps)
    ensures Split(s, seps) == [s]
  {
    if s != [] {
      SplitNoSeparator(s[1..], seps);
      assert [s[0]] + s[1..] == s;
    }
  }

  /** Splitting `a + [sep] + b`, where `a` holds no separator, peels `a` off. */
  lemma {:induction false} SplitCons(a: string, sep: char, b: string, seps: set<char>)
    requires sep in seps && Excludes(a, seps)
    ensures Split(a + [sep] + b, seps) == [a] + Split(b, seps)
  {
    if a == [] {
      assert a + [sep] + b == [sep] + b;
      assert ([sep] + b)[1..] == b;
    } else {
      assert (a + [sep] + b)[1..] == a[1..] + [sep] + b;
      SplitCons(a[1..], sep, b, seps);
      assert [a[0]] + a[1..] == a;
    }
  }

  /** Joining separator-free parts with one of the separators and splitting again gives back the parts. */
  lemma {:induction false} SplitJoin(parts: seq<string>, sep: char, seps: set<char>)
    requires |parts| >= 1 && sep in seps
    requires forall i :: 0 <= i < |parts| ==> Excludes(parts[i], seps)
    ensures Split(Join(parts, sep), seps) == parts
  {
    if |parts| == 1 {
      SplitNoSeparator(parts[0], seps);
    } else {
      SplitJoin(parts[1..], sep, seps);
      SplitCons(parts[0], sep, Join(parts[1..], sep), seps);
    }
  }

  /** Splitting on one separator and joining again gives back the string. */
  lemma {:induction false} JoinSplit(s: string, sep: char)
    ensures Join(Split(s, {sep}), sep) == s
  {
    if s != [] {
      JoinSplit(s[1..], sep);
      var rest := Split(s[1..], {sep});
      if s[0] != sep {
        assert s == [s[0]] + s[1..];
      }
    }
  }

  // ----- StringComparison.OrdinalIgnoreCase -----

  /** Simple upper-case mapping of the ASCII letters. */
  function ToUpper(c: char): (u: char)
    ensures 'a' <= c <= 'z' ==> 'A' <= u <= 'Z'
    ensures !('a' <= c <= 'z') ==> u == c
  {
    if 'a' <= c <= 'z' then (c as int - 32) as char else c
  }

  /** string.Equals(a, b, StringComparison.OrdinalIgnoreCase). */
  predicate EqualsIgnoreCase(a: string, b: string) {
    |a| == |b| && forall i :: 0 <= i < |a| ==> ToUpper(a[i]) == ToUpper(b[i])
  }

  /** Strings free of lower-case letters are equal ignoring case only if equal. */
  lemma EqualsIgnoreCaseWithoutLetters(a: string, b: string)
    requires forall i :: 0 <= i < |a| ==> !('a' <= a[i] <= 'z')
    requires forall i :: 0 <= i < |b| ==> !('a' <= b[i] <= 'z')
    ensures EqualsIgnoreCase(a, b) <==> a == b
  {
  }

  // ----- decimal digits, int.TryParse and int.ToString -----

  predicate IsDigit(c: char) { '0' <= c <= '9' }

  predicate AllDigits(s: string) {
    forall k :: 0 <= k < |s| ==> IsDigit(s[k])
  }

  function DigitValue(c: char): nat
    requires IsDigit(c)
  {
    c as int - '0' as int
  }

  function DigitChar(d: nat): (c: char)
    requires d < 10
    ensures IsDigit(c) && DigitValue(c) == d
  {
    ('0' as int + d) as char
  }

  /** The number a string of decimal digits denotes. */
  function DigitsValue(s: string): nat
    requires AllDigits(s)
  {
    if s == [] then 0 else 10 * DigitsValue(s[..|s| - 1]) + DigitValue(s[|s| - 1])
  }

  /** Decimal text of a natural number, without leading zeros. */
  function NatText(n: nat): (s: string)
    ensures 1 <= |s| && AllDigits(s)
    ensures DigitsValue(s) == n
    ensures s[0] == '0' ==> n == 0
    ensures n < 10 ==> |s| == 1
    ensures n < 100 ==> |s| <= 2
    ensures n < 1000 ==> |s| <= 3
  {
    if n < 10 then [DigitChar(n)]
    else
      var s := NatText(n / 10) + [DigitChar(n % 10)];
      assert s[..|s| - 1] == NatText(n / 10);
      s
  }

  /** Canonical digit strings are the decimal text of their value. */
  lemma {:induction false} NatTextOfDigits(s: string)
    requires 1 <= |s| && AllDigits(s)
    requires s[0] == '0' ==> |s| == 1
    ensures NatText(DigitsValue(s)) == s
  {
    var n := DigitsValue(s);
    if |s| == 1 {
      assert s[..0] == [];
    } else {
      var init := s[..|s| - 1];
      NatTextOfDigits(init);
      assert DigitsValue(init) >= 1 by {
        LeadingDigitPositive(init);
      }
      assert n / 10 == DigitsValue(init) && n % 10 == DigitValue(s[|s| - 1]);
      assert s == init + [s[|s| - 1]];
    }
  }

  /** A digit string that does not start with '0' denotes a positive number. */
  lemma {:induction false} LeadingDigitPositive(s: string)
    requires 1 <= |s| && AllDigits(s) && s[0] != '0'
    ensures DigitsValue(s) >= 1
  {
    if |s| > 1 {
      LeadingDigitPositive(s[..|s| - 1]);
    }
  }

  const Int32Min: int := -0x8000_0000
  const Int32Max: int := 0x7FFF_FFFF

  /**
   * int.TryParse with the default NumberStyles.Integer on text that has
   * already been trimmed: an optional sign and at least one decimal digit,
   * whose value fits in 32 bits.
   */
  function ParseInt32(s: string): (r: Option<int>)
    ensures r.Some? ==> Int32Min <= r.value <= Int32Max
  {
    if |s| >= 1 && (s[0] == '-' || s[0] == '+') then
      var digits := s[1..];
      if |digits| >= 1 && AllDigits(digits) then
        var v: int := if s[0] == '-' then -(DigitsValue(digits) as int) else DigitsValue(digits);
        if Int32Min <= v <= Int32Max then Some(v) else None
      else None
    else if |s| >= 1 && AllDigits(s) && DigitsValue(s) <= Int32Max then Some(DigitsValue(s))
    else None
  }

  /**
   * The white space NumberStyles.Integer lets int.TryParse skip around a
   * number: U+0009 to U+000D and the space, fewer than string.Trim cuts.
   */
  predicate IsNumberWhiteSpace(c: char) {
    c == ' ' || '\t' <= c <= '\r'
  }

  /** Length of the longest prefix of s that int.TryParse skips. */
  function LeadingNumberSpace(s: string): (n: nat)
    ensures n <= |s|
    ensures forall k :: 0 <= k < n ==> IsNumberWhiteSpace(s[k])
    ensures n < |s| ==> !IsNumberWhiteSpace(s[n])
  {
    if |s| > 0 && IsNumberWhiteSpace(s[0]) then 1 + LeadingNumberSpace(s[1..]) else 0
  }

  /** Length of the longest suffix of s that int.TryParse skips. */
  function TrailingNumberSpace(s: string): (n: nat)
    ensures n <= |s|
    ensures forall k :: |s| - n <= k < |s| ==> IsNumberWhiteSpace(s[k])
    ensures n < |s| ==> !IsNumberWhiteSpace(s[|s| - n - 1])
  {
    if |s| > 0 && IsNumberWhiteSpace(s[|s| - 1]) then 1 + TrailingNumberSpace(s[..|s| - 1]) else 0
  }

  /** What int.TryParse reads as the number: s without the number white space at its ends. */
  function NumberText(s: string): (r: string)
    ensures exists i, j :: 0 <= i <= j <= |s| && r == s[i..j]
                           && (forall k :: 0 <= k < i ==> IsNumberWhiteSpace(s[k]))
                           && (forall k :: j <= k < |s| ==> IsNumberWhiteSpace(s[k]))
    ensures r != [] ==> !IsNumberWhiteSpace(r[0]) && !IsNumberWhiteSpace(r[|r| - 1])
  {
    var i := LeadingNumberSpace(s);
    var j := |s| - TrailingNumberSpace(s[i..]);
    assert j < |s| ==> IsNumberWhiteSpace(s[j]) by {
      if j < |s| {
        assert s[j] == s[i..][j - i];
      }
    }
    assert i < j ==> s[j - 1] == s[i..][j - 1 - i];
    s[i..j]
  }

  /** Text with no number white space at its ends is read whole. */
  lemma NumberTextOfPlain(s: string)
    requires s == [] || (!IsNumberWhiteSpace(s[0]) && !IsNumberWhiteSpace(s[|s| - 1]))
    ensures NumberText(s) == s
  {
    if s != [] {
      assert LeadingNumberSpace(s) == 0;
      assert TrailingNumberSpace(s) == 0;
    }
  }

  /**
   * int.TryParse(s, out v) with NumberStyles.Integer: number white space
   * around an optional sign and decimal digits whose value fits in 32 bits.
   */
  function TryParseInt(s: string): (r: Option<int>)
    ensures r.Some? ==> Int32Min <= r.value <= Int32Max
    ensures IsBlank(s) ==> r.None?
  {
    var t := NumberText(s);
    assert IsBlank(s) && t != [] ==> !IsDigit(t[0]) && t[0] != '-' && t[0] != '+' by {
      if IsBlank(s) && t != [] {
        var i, j :| 0 <= i <= j <= |s| && t == s[i..j];
        assert t[0] == s[i];
      }
    }
    ParseInt32(t)
  }

  /** Once string.Trim has run, int.TryParse reads the whole text. */
  lemma TryParseIntOfTrimmed(s: string)
    ensures TryParseInt(Trim(s)) == ParseInt32(Trim(s))
  {
    NumberTextOfPlain(Trim(s));
  }

  /** Every 32-bit integer's text is read back by int.TryParse. */
  lemma TryParseIntText(n: int)
    requires Int32Min <= n <= Int32Max
    ensures TryParseInt(IntText(n)) == Some(n)
  {
    IntTextChars(n);
    var t := IntText(n);
    assert !IsNumberWhiteSpace(t[0]) && !IsNumberWhiteSpace(t[|t| - 1]);
    NumberTextOfPlain(t);
    ParseIntText(n);
  }

  /** A no-break space is white space to string.Trim but not to int.TryParse, which refuses it. */
  lemma NoBreakSpaceRefused()
    ensures TryParseInt("\U{A0}5") == None
  {
    var s := "\U{A0}5";
    assert !IsNumberWhiteSpace(s[0]) && !IsNumberWhiteSpace(s[1]);
    NumberTextOfPlain(s);
    assert !IsDigit(s[0]);
    assert ParseInt32(s) == None;
  }

  /** string.Trim cuts the no-break space off. */
  lemma NoBreakSpaceTrimmed()
    ensures Trim("\U{A0}5") == "5"
  {
    var s := "\U{A0}5";
    var r := Trim(s);
    assert !IsBlank(s) by { assert !IsWhiteSpace(s[1]); }
    var i, j :| 0 <= i <= j <= |s| && r == s[i..j] && IsBlank(s[..i]) && IsBlank(s[j..]);
    assert i == 1;
    assert j == 2;
  }

  /** The same text is read once string.Trim has cut the no-break space. */
  lemma NoBreakSpaceTrimmedFirst()
    ensures TryParseInt(Trim("\U{A0}5")) == Some(5)
  {
    NoBreakSpaceTrimmed();
    assert IntText(5) == "5";
    TryParseIntText(5);
  }

  /** Spaces and tabs around the digits are skipped by int.TryParse itself. */
  lemma SpacesSkipped()
    ensures TryParseInt(" 5\t") == Some(5)
  {
    assert LeadingNumberSpace(" 5\t") == 1;
    assert " 5\t"[1..] == "5\t";
    assert TrailingNumberSpace("5\t") == 1;
    assert NumberText(" 5\t") == "5";
    assert DigitsValue("5") == 5;
  }



  /** int.ToString in the invariant culture. */
  function IntText(n: int): (s: string)
    ensures |s| >= 1
    ensures n >= 0 ==> AllDigits(s)
  {
    if n < 0 then "-" + NatText(-n) else NatText(n)
  }

  /** The text of an integer is digits after an optional minus sign. */
  lemma IntTextChars(n: int)
    ensures forall k :: 0 <= k < |IntText(n)| ==> IsDigit(IntText(n)[k]) || IntText(n)[k] == '-'
  {
    if n < 0 {
      var d := NatText(-n);
      assert IntText(n) == ['-'] + d;
      assert AllDigits(d);
    }
  }

  /** Parsing the text of a 32-bit integer gives the integer back. */
  lemma ParseIntText(n: int)
    requires Int32Min <= n <= Int32Max
    ensures ParseInt32(IntText(n)) == Some(n)
  {
    if n < 0 {
      assert IntText(n)[1..] == NatText(-n);
    }
  }

  /** Text outside the 32-bit range, or without digits, is refused. */
  lemma ParseIntTextOutOfRange(n: int)
    requires n < Int32Min || n > Int32Max
    ensures ParseInt32(IntText(n)) == None
  {
    if n < 0 {
      assert IntText(n)[1..] == NatText(-n);
    }
  }
}
