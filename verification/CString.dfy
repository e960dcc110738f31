// The C string library that the shell components rest on. A C string is a Dafny string without its
// terminator; a pointer into one is an index, and -1 is the null pointer.
module CString {

  const INT_SPAN: int := 0x1_0000_0000

  // Two's-complement wrap-around of a 32-bit int.
  function Wrap32(n: int): (r: int)
    ensures -0x8000_0000 <= r < 0x8000_0000
    ensures -0x8000_0000 <= n < 0x8000_0000 ==> r == n
  {
    (n + 0x8000_0000) % INT_SPAN - 0x8000_0000
  }

  // Wrapping on the way does not change what a digit is taken in onto.
  lemma WrapStep(n: int, m: int, radix: nat, d: nat)
    requires radix in {8, 10, 16} && Wrap32(n) == Wrap32(m)
    ensures Wrap32(n * radix + d) == Wrap32(m * radix + d)
  {
    var q := (n - m) / INT_SPAN;
    assert n == m + q * INT_SPAN;
    WrapShift(m * radix + d, q * radix);
    assert n * radix + d == m * radix + d + (q * radix) * INT_SPAN;
  }

  lemma WrapShift(n: int, q: int)
    ensures Wrap32(n + q * INT_SPAN) == Wrap32(n)
  {
  }

  lemma WrapTwice(n: int)
    ensures Wrap32(Wrap32(n)) == Wrap32(n) && Wrap32(-Wrap32(n)) == Wrap32(-n)
  {
    var q := (n + 0x8000_0000) / INT_SPAN;
    assert Wrap32(n) == n - q * INT_SPAN;
    WrapShift(-n, q);
  }

  predicate Occurs(s: string, p: string, i: nat) { i + |p| <= |s| && s[i..i + |p|] == p }

  // The first place from `i` on where `p` occurs in `s`.
  function FindFrom(s: string, p: string, i: nat): (r: int)
    ensures r < 0 ==> r == -1 && forall k: nat :: i <= k ==> !Occurs(s, p, k)
    ensures r >= 0 ==> i <= r && r + |p| <= |s| && Occurs(s, p, r) && forall k: nat :: i <= k < r ==> !Occurs(s, p, k)
    decreases |s| - i
  {
    if i + |p| > |s| then -1
    else if s[i..i + |p|] == p then i
    else FindFrom(s, p, i + 1)
  }

  // A character is found where it first stands.
  lemma CharFound(before: string, c: char, rest: string)
    requires c !in before
    ensures FindFrom(before + ([c] + rest), [c], 0) == |before|
  {
    var s := before + ([c] + rest);
    assert s[|before|..|before| + 1] == [c];
    assert Occurs(s, [c], |before|);
    forall k: nat | k < |before|
      ensures !Occurs(s, [c], k)
    {
      assert s[k..k + 1][0] == s[k] == before[k];
    }
  }

  lemma CharAbsent(s: string, c: char)
    ensures c !in s ==> FindFrom(s, [c], 0) == -1
  {
    var f := FindFrom(s, [c], 0);
    assert f >= 0 ==> s[f] == s[f..f + 1][0] == c;
  }

  ghost predicate Contains(s: string, p: string) { exists k: nat :: Occurs(s, p, k) }

  method StrStr(haystack: string, needle: string) returns (r: int)
    ensures r == FindFrom(haystack, needle, 0)
  {
    if needle == "" {
      return 0;
    }
    var start := 0;
    while start < |haystack|
      invariant 0 <= start <= |haystack|
      invariant FindFrom(haystack, needle, 0) == FindFrom(haystack, needle, start)
    {
      var n := 0;
      while start + n < |haystack| && n < |needle| && haystack[start + n] == needle[n]
        invariant n <= |needle| && start + n <= |haystack|
        invariant haystack[start..start + n] == needle[..n]
      {
        assert haystack[start..start + n + 1] == haystack[start..start + n] + [haystack[start + n]];
        assert needle[..n + 1] == needle[..n] + [needle[n]];
        n := n + 1;
      }
      if n == |needle| {
        assert needle[..n] == needle;
        return start;
      }
      assert Occurs(haystack, needle, start) ==> haystack[start..start + |needle|][n] == needle[n];
      start := start + 1;
    }
    r := -1;
  }

  method StrChr(s: string, c: char) returns (r: int)
    ensures r == FindFrom(s, [c], 0)
    ensures -1 <= r < |s|
    ensures r >= 0 ==> s[r] == c && c !in s[..r]
    ensures r < 0 ==> c !in s
  {
    var i := 0;
    while i < |s|
      invariant i <= |s| && c !in s[..i]
      invariant FindFrom(s, [c], 0) == FindFrom(s, [c], i)
    {
      if s[i] == c {
        assert s[i..i + 1] == [c];
        return i;
      }
      assert s[i..i + 1] != [c] by {
        assert s[i..i + 1][0] == s[i];
      }
      i := i + 1;
    }
    r := -1;
  }

  predicate IsSpace(c: char) { c == ' ' || c == '\t' }

  function SkipSpaces(s: string): (r: string)
    ensures |r| <= |s| && (r == "" || !IsSpace(r[0]))
  {
    if s != "" && IsSpace(s[0]) then SkipSpaces(s[1..]) else s
  }

  // Spaces and tabs.
  predicate White(s: string) { forall k :: 0 <= k < |s| ==> s[k] == ' ' || s[k] == '\t' }

  // They are skipped, and nothing else is.
  lemma {:induction false} SkipsWhite(w: string, s: string)
    requires White(w) && (s != "" ==> s[0] != ' ' && s[0] != '\t')
    ensures SkipSpaces(w + s) == s
  {
    if w == "" {
      assert w + s == s;
    } else {
      assert (w + s)[1..] == w[1..] + s;
      SkipsWhite(w[1..], s);
    }
  }

  // How many of the first characters of `s`, at most `limit`, are not blank.
  function WordLength(s: string, limit: nat): (n: nat)
    ensures n <= |s| && n <= limit
  {
    if limit == 0 || s == "" || IsSpace(s[0]) then 0 else 1 + WordLength(s[1..], limit - 1)
  }

  function SkipOnlySpaces(s: string): (r: string)
    ensures |r| <= |s|
  {
    if s != "" && s[0] == ' ' then SkipOnlySpaces(s[1..]) else s
  }

  function Blanks(n: nat): (s: string)
    ensures |s| == n && forall k :: 0 <= k < n ==> s[k] == ' '
  {
    if n == 0 then "" else " " + Blanks(n - 1)
  }

  // Spaces in front are skipped.
  lemma {:induction false} SkipsSpaces(n: nat, s: string)
    requires s != "" ==> s[0] != ' '
    ensures SkipOnlySpaces(Blanks(n) + s) == s
  {
    if n == 0 {
      assert Blanks(n) + s == s;
    } else {
      assert (Blanks(n) + s)[1..] == Blanks(n - 1) + s;
      SkipsSpaces(n - 1, s);
    }
  }

  // A word that a blank or the end follows.
  lemma {:induction false} WordEnds(w: string, rest: string, limit: nat)
    requires |w| <= limit && (forall k :: 0 <= k < |w| ==> !IsSpace(w[k])) && (rest != "" ==> IsSpace(rest[0]))
    ensures WordLength(w + rest, limit) == |w|
    decreases |w|
  {
    if w == "" {
      assert w + rest == rest;
    } else {
      assert (w + rest)[1..] == w[1..] + rest;
      WordEnds(w[1..], rest, limit - 1);
    }
  }

  predicate IsDigit(c: char) { '0' <= c <= '9' }

  function DigitValue(c: char): nat
    requires IsDigit(c)
  {
    c as int - '0' as int
  }

  // The decimal digits of a number.
  function Decimal(n: nat): (s: string)
    ensures s != "" && IsDigit(s[0])
  {
    (if n < 10 then "" else Decimal(n / 10)) + ['0' + (n % 10) as char]
  }

  // The leading digits of `s`, folded onto `n`.
  function AtoiFrom(s: string, n: int): int
  {
    if s == "" || !IsDigit(s[0]) then n else AtoiFrom(s[1..], Wrap32(10 * n + DigitValue(s[0])))
  }

  // Decimal digits in front of `rest` are read onto the number so far, which wraps.
  lemma {:induction false} DecimalReads(n: nat, rest: string)
    ensures AtoiFrom(Decimal(n) + rest, 0) == AtoiFrom(rest, Wrap32(n))
    decreases n
  {
    hide Wrap32;
    var c := '0' + (n % 10) as char;
    if n >= 10 {
      assert Decimal(n) + rest == Decimal(n / 10) + ([c] + rest);
      DecimalReads(n / 10, [c] + rest);
    } else {
      assert Decimal(n) + rest == [c] + rest;
      assert Wrap32(0) == 0;
    }
    DigitReads(n, c, rest);
  }

  lemma DigitReads(n: nat, c: char, rest: string)
    requires c == '0' + (n % 10) as char
    ensures AtoiFrom([c] + rest, Wrap32(n / 10)) == AtoiFrom(rest, Wrap32(n))
  {
    hide Wrap32;
    assert ([c] + rest)[1..] == rest;
    assert n / 10 * 10 + n % 10 == n;
    WrapTwice(n / 10);
    WrapStep(Wrap32(n / 10), n / 10, 10, n % 10);
  }

  // A number is read up to the first character that is no digit.
  lemma NumberStops(n: nat, rest: string)
    requires rest != "" ==> !('0' <= rest[0] <= '9')
    ensures AtoiFrom(Decimal(n) + rest, 0) == Wrap32(n)
  {
    hide Wrap32, Decimal;
    DecimalReads(n, rest);
    NothingRead(rest, Wrap32(n));
  }

  lemma NothingRead(rest: string, n: int)
    requires rest != "" ==> !('0' <= rest[0] <= '9')
    ensures AtoiFrom(rest, n) == n
  {
  }

  method Atoi(s: string) returns (n: int)
    ensures n == AtoiFrom(s, 0)
  {
    n := 0;
    var i := 0;
    while i < |s| && IsDigit(s[i])
      invariant i <= |s| && AtoiFrom(s[i..], n) == AtoiFrom(s, 0)
    {
      assert s[i..][1..] == s[i + 1..];
      n := Wrap32(10 * n + DigitValue(s[i]));
      i := i + 1;
    }
  }

  // What strncpy followed by a terminator leaves of `s` in a buffer of `size` characters.
  function Truncated(s: string, size: nat): (r: string)
    requires size > 0
    ensures r <= s && |r| < size && (|r| == |s| || |r| == size - 1)
  {
    if |s| < size then s else s[..size - 1]
  }
}
