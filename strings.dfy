/** The java.lang.String and java.lang.Integer operations the library relies
    on: the `\W+` sanitiser, ASCII case folding, suffix tests, literal
    replacement, Java's 32-bit `hashCode` and `Integer.parseInt`. */
module Strings {
  import opened Wrappers

  // ---------------------------------------------------------------------
  // Regex \W+ removal: String.replaceAll("\\W+", "")
  // ---------------------------------------------------------------------

  /** A character of Java's default regex class \w: [a-zA-Z_0-9]. */
  predicate IsWordChar(c: char) {
    ('a' <= c <= 'z') || ('A' <= c <= 'Z') || ('0' <= c <= '9') || c == '_'
  }

  /** Removing every maximal run of non-word characters is the same as
      removing every non-word character, since the replacement is empty. */
  function StripNonWord(s: string): (r: string)
    ensures |r| <= |s|
    ensures forall i :: 0 <= i < |r| ==> IsWordChar(r[i])
  {
    if s == [] then []
    else (if IsWordChar(s[0]) then [s[0]] else []) + StripNonWord(s[1..])
  }

  lemma {:induction false} StripNonWordKeepsWords(s: string)
    requires forall i :: 0 <= i < |s| ==> IsWordChar(s[i])
    ensures StripNonWord(s) == s
  {
    if s != [] {
      StripNonWordKeepsWords(s[1..]);
    }
  }

  /** Sanitising is idempotent: a sanitised key is its own sanitised form. */
  lemma StripNonWordIdempotent(s: string)
    ensures StripNonWord(StripNonWord(s)) == StripNonWord(s)
  {
    StripNonWordKeepsWords(StripNonWord(s));
  }

  /** A sanitised key is a run of word characters, so it has no '.', no '/'. */
  lemma StripNonWordHasNoDot(s: string)
    ensures '.' !in StripNonWord(s) && '/' !in StripNonWord(s)
  {
  }

  /** Sanitising distributes over concatenation, so it removes exactly the
      non-word characters wherever they are. */
  lemma {:induction false} StripNonWordAppend(a: string, b: string)
    ensures StripNonWord(a + b) == StripNonWord(a) + StripNonWord(b)
  {
    if a != [] {
      assert (a + b)[1..] == a[1..] + b;
      StripNonWordAppend(a[1..], b);
    } else {
      assert a + b == b;
    }
  }

  // ---------------------------------------------------------------------
  // Case folding, suffixes, searching
  // ---------------------------------------------------------------------

  /** Character.toLowerCase restricted to ASCII letters. */
  function LowerChar(c: char): (r: char)
    ensures 'A' <= c <= 'Z' ==> r as int == c as int + 32
    ensures !('A' <= c <= 'Z') ==> r == c
  {
    if 'A' <= c <= 'Z' then (c as int + 32) as char else c
  }

  function ToLower(s: string): (r: string)
    ensures |r| == |s|
    ensures forall i :: 0 <= i < |s| ==> r[i] == LowerChar(s[i])
  {
    if s == [] then [] else [LowerChar(s[0])] + ToLower(s[1..])
  }

  lemma {:induction false} ToLowerIdempotent(s: string)
    ensures ToLower(ToLower(s)) == ToLower(s)
  {
    var t := ToLower(s);
    var u := ToLower(t);
    forall i | 0 <= i < |s| ensures u[i] == t[i] {
      assert t[i] == LowerChar(s[i]);
    }
  }

  /** String.equalsIgnoreCase, with ASCII case folding. */
  predicate EqualsIgnoreCase(a: string, b: string) {
    ToLower(a) == ToLower(b)
  }

  predicate EndsWith(s: string, suffix: string) {
    |suffix| <= |s| && s[|s| - |suffix|..] == suffix
  }

  /** String.contains. */
  predicate Contains(s: string, sub: string)
    decreases |s|
  {
    sub <= s || (s != [] && Contains(s[1..], sub))
  }

  lemma {:induction false} ContainsAt(s: string, sub: string, i: nat)
    requires i + |sub| <= |s| && s[i..i + |sub|] == sub
    ensures Contains(s, sub)
    decreases i
  {
    if i > 0 {
      assert s[1..][i - 1..i - 1 + |sub|] == s[i..i + |sub|];
      ContainsAt(s[1..], sub, i - 1);
    }
  }

  /** String.lastIndexOf(c): the index of the last c, or -1. */
  function LastIndexOf(s: string, c: char): (r: int)
    ensures -1 <= r < |s|
    ensures r == -1 <==> c !in s
    ensures r >= 0 ==> s[r] == c && c !in s[r + 1..]
  {
    if s == [] then -1
    else if s[|s| - 1] == c then |s| - 1
    else
      var k := LastIndexOf(s[..|s| - 1], c);
      assert s == s[..|s| - 1] + [s[|s| - 1]];
      assert k >= 0 ==> s[k + 1..] == s[..|s| - 1][k + 1..] + [s[|s| - 1]];
      k
  }

  /** `s.substring(s.lastIndexOf("."))`; None where Java throws
      StringIndexOutOfBoundsException for a string without '.'. */
  function SuffixFromLastDot(s: string): (r: Option<string>)
    ensures r.None? <==> '.' !in s
    ensures r.Some? ==> EndsWith(s, r.value) && |r.value| >= 1 && r.value[0] == '.'
                        && '.' !in r.value[1..]
  {
    var k := LastIndexOf(s, '.');
    if k < 0 then None else Some(s[k..])
  }

  /** The suffix from the last '.' of `prefix + ext` is `ext` itself when `ext`
      starts with '.' and holds no other '.'. */
  lemma SuffixOfDottedExtension(prefix: string, ext: string)
    requires |ext| >= 1 && ext[0] == '.' && '.' !in ext[1..]
    ensures SuffixFromLastDot(prefix + ext) == Some(ext)
  {
    var s := prefix + ext;
    var k := LastIndexOf(s, '.');
    assert s[|prefix|] == '.';
    assert k >= |prefix|;
    assert k <= |prefix|;
    assert s[k..] == ext;
  }

  // ---------------------------------------------------------------------
  // Literal replacement: String.replace(target, "")
  // ---------------------------------------------------------------------

  /** Removes every occurrence of `p`, scanning left to right without
      overlap, as `s.replace(p, "")` does. */
  function RemoveAll(s: string, p: string): (r: string)
    requires |p| > 0
    ensures |r| <= |s|
    decreases |s|
  {
    if |s| < |p| then s
    else if s[..|p|] == p then RemoveAll(s[|p|..], p)
    else [s[0]] + RemoveAll(s[1..], p)
  }

  /** A string holding no occurrence of `p` is left unchanged. */
  lemma {:induction false} RemoveAllAbsent(s: string, p: string)
    requires |p| > 0
    requires !Contains(s, p)
    ensures RemoveAll(s, p) == s
    decreases |s|
  {
    if |s| >= |p| {
      assert !(p <= s);
      assert s[..|p|] != p;
      RemoveAllAbsent(s[1..], p);
      assert s == [s[0]] + s[1..];
    }
  }

  /** A string without the first character of `p` does not contain `p`. */
  lemma {:induction false} NotContainsWithoutHead(s: string, p: string)
    requires |p| > 0 && p[0] !in s
    ensures !Contains(s, p)
    decreases |s|
  {
    if s != [] {
      NotContainsWithoutHead(s[1..], p);
    }
  }

  /** Removal distributes over `a + b` when `b` starts with a character that
      does not occur in `p`: no occurrence can run from `a` into `b`. */
  lemma {:induction false} RemoveAllSplit(a: string, b: string, p: string)
    requires |p| > 0 && b != [] && b[0] !in p
    ensures RemoveAll(a + b, p) == RemoveAll(a, p) + RemoveAll(b, p)
    decreases |a|
  {
    var s := a + b;
    if a == [] {
      assert s == b;
    } else if |a| >= |p| && a[..|p|] == p {
      assert s[..|p|] == p;
      assert s[|p|..] == a[|p|..] + b;
      RemoveAllSplit(a[|p|..], b, p);
    } else {
      if |s| >= |p| {
        assert s[..|p|] != p by {
          if |a| >= |p| {
            assert s[..|p|] == a[..|p|];
          } else {
            assert s[..|p|][|a|] == b[0];
          }
        }
        assert s[1..] == a[1..] + b;
        RemoveAllSplit(a[1..], b, p);
        assert RemoveAll(a, p) == [a[0]] + RemoveAll(a[1..], p);
      }
    }
  }

  /** A prefix free of the first character of `p` is copied unchanged. */
  lemma {:induction false} RemoveAllKeepsPrefix(a: string, t: string, p: string)
    requires |p| > 0 && p[0] !in a
    ensures RemoveAll(a + t, p) == a + RemoveAll(t, p)
    decreases |a|
  {
    if a == [] {
      assert a + t == t;
    } else {
      var s := a + t;
      assert s[0] == a[0];
      assert s[1..] == a[1..] + t;
      RemoveAllKeepsPrefix(a[1..], t, p);
      if |s| >= |p| {
        assert s[..|p|] != p by {
          assert s[..|p|][0] == a[0];
        }
        assert RemoveAll(s, p) == [s[0]] + RemoveAll(s[1..], p);
        assert a == [a[0]] + a[1..];
      }
    }
  }

  // ---------------------------------------------------------------------
  // Java int arithmetic and String.hashCode
  // ---------------------------------------------------------------------

  const INT_MIN: int := -0x8000_0000
  const INT_MAX: int := 0x7fff_ffff

  predicate IsInt32(x: int) { INT_MIN <= x <= INT_MAX }

  /** Two's-complement wrap-around of a Java int expression. */
  function Wrap32(x: int): (r: int)
    ensures IsInt32(r)
    ensures IsInt32(x) ==> r == x
    ensures (x - r) % 0x1_0000_0000 == 0
  {
    (x - INT_MIN) % 0x1_0000_0000 + INT_MIN
  }

  /** String.hashCode: h = 31 * h + c over the characters, in int arithmetic. */
  function StringHash(s: string): (h: int)
    ensures IsInt32(h)
  {
    if s == [] then 0 else Wrap32(31 * StringHash(s[..|s| - 1]) + s[|s| - 1] as int)
  }

  // ---------------------------------------------------------------------
  // Integer.toString / Integer.parseInt (radix 10, ASCII digits)
  // ---------------------------------------------------------------------

  predicate IsDigit(c: char) { '0' <= c <= '9' }

  predicate AllDigits(s: string) { forall i :: 0 <= i < |s| ==> IsDigit(s[i]) }

  function DigitValue(c: char): (d: nat)
    requires IsDigit(c)
    ensures d < 10
  {
    c as int - '0' as int
  }

  function DigitChar(d: nat): (c: char)
    requires d < 10
    ensures IsDigit(c) && DigitValue(c) == d
  {
    (d + '0' as int) as char
  }

  /** The value of a decimal digit string, most significant digit first. */
  function DigitsValue(s: string): nat
    requires AllDigits(s)
  {
    if s == [] then 0 else DigitsValue(s[..|s| - 1]) * 10 + DigitValue(s[|s| - 1])
  }

  function NatToDigits(n: nat): (s: string)
    ensures |s| >= 1 && AllDigits(s)
  {
    if n < 10 then [DigitChar(n)] else NatToDigits(n / 10) + [DigitChar(n % 10)]
  }

  /** Integer.toString for radix 10. */
  function IntToString(n: int): (s: string)
    ensures |s| >= 1
  {
    if n < 0 then ['-'] + NatToDigits(-n) else NatToDigits(n)
  }

  /** Integer.parseInt: an optional sign, at least one digit, and a value
      inside the int range; None where Java throws NumberFormatException. */
  function ParseInt(s: string): (r: Option<int>)
    ensures r.Some? ==> IsInt32(r.value)
    ensures s == [] ==> r.None?
  {
    if s == [] then None
    else
      var signed := s[0] == '-' || s[0] == '+';
      var digits := if signed then s[1..] else s;
      if digits == [] || !AllDigits(digits) then None
      else
        var v: int := if s[0] == '-' then -(DigitsValue(digits) as int) else DigitsValue(digits);
        if IsInt32(v) then Some(v) else None
  }

  lemma {:induction false} DigitsRoundTrip(n: nat)
    ensures DigitsValue(NatToDigits(n)) == n
  {
    if n >= 10 {
      DigitsRoundTrip(n / 10);
      var s := NatToDigits(n);
      assert s[..|s| - 1] == NatToDigits(n / 10);
    }
  }

  /** Integer.parseInt inverts Integer.toString on every int. */
  lemma ParseIntOfIntToString(n: int)
    requires IsInt32(n)
    ensures ParseInt(IntToString(n)) == Some(n)
  {
    if n < 0 {
      DigitsRoundTrip(-n);
      var s := IntToString(n);
      assert s[1..] == NatToDigits(-n);
    } else {
      DigitsRoundTrip(n);
      var s := NatToDigits(n);
      assert IsDigit(s[0]);
    }
  }

  /** Integer.parseInt rejects text containing a character that is neither a
      digit nor a leading sign. */
  lemma ParseIntRejectsNonDigit(s: string, i: nat)
    requires 0 < i < |s| && !IsDigit(s[i])
    ensures ParseInt(s) == None
  {
    if s[0] == '-' || s[0] == '+' {
      assert s[1..][i - 1] == s[i];
    }
  }
}
