// String primitives of PHP used throughout the framework: implode/explode,
// str_replace, strtolower/strtoupper, trim and decimal rendering.

module Text {

  // ---------------------------------------------------------------- occurrences

  /** p occurs in s starting at index i. */
  predicate OccursAt(s: string, p: string, i: int)
  {
    0 <= i && i + |p| <= |s| && s[i..i + |p|] == p
  }

  predicate Occurs(s: string, p: string)
  {
    exists i :: 0 <= i <= |s| - |p| && OccursAt(s, p, i)
  }

  predicate StartsWith(s: string, p: string)
  {
    |p| <= |s| && s[..|p|] == p
  }

  predicate EndsWith(s: string, p: string)
  {
    |p| <= |s| && s[|s| - |p|..] == p
  }

  lemma OccursShift(s: string, p: string, i: int)
    requires |s| > 0 && OccursAt(s[1..], p, i)
    ensures OccursAt(s, p, i + 1)
  {
    assert s[i + 1..i + 1 + |p|] == s[1..][i..i + |p|];
  }

  // ---------------------------------------------------------- implode / explode

  /** implode(sep, parts). */
  function Join(parts: seq<string>, sep: string): string
    decreases |parts|
  {
    if |parts| == 0 then ""
    else if |parts| == 1 then parts[0]
    else parts[0] + sep + Join(parts[1..], sep)
  }

  /** explode(c, s) for a one-character delimiter: never empty, and no piece holds c. */
  function Split(s: string, c: char): (r: seq<string>)
    ensures |r| >= 1
    ensures forall i :: 0 <= i < |r| ==> c !in r[i]
    decreases |s|
  {
    if |s| == 0 then [""]
    else
      var rest := Split(s[1..], c);
      if s[0] == c then [""] + rest
      else [[s[0]] + rest[0]] + rest[1..]
  }

  lemma JoinCons(x: char, r: seq<string>, sep: string)
    requires |r| >= 1
    ensures Join([[x] + r[0]] + r[1..], sep) == [x] + Join(r, sep)
  {
    var l := [[x] + r[0]] + r[1..];
    if |r| > 1 {
      assert l[1..] == r[1..];
    }
  }

  /** implode with one more piece at the end. */
  lemma {:induction false} JoinSnoc(parts: seq<string>, x: string, sep: string)
    requires |parts| >= 1
    ensures Join(parts + [x], sep) == Join(parts, sep) + sep + x
    decreases |parts|
  {
    if |parts| > 1 {
      assert (parts + [x])[1..] == parts[1..] + [x];
      JoinSnoc(parts[1..], x, sep);
    }
  }

  /** Joining the pieces of an explode with the delimiter gives back the input. */
  lemma {:induction false} JoinSplit(s: string, c: char)
    ensures Join(Split(s, c), [c]) == s
    decreases |s|
  {
    if |s| > 0 {
      JoinSplit(s[1..], c);
      var rest := Split(s[1..], c);
      if s[0] == c {
        assert ([""] + rest)[1..] == rest;
      } else {
        JoinCons(s[0], rest, [c]);
      }
    }
  }

  lemma {:induction false} SplitNoSeparator(a: string, c: char)
    requires c !in a
    ensures Split(a, c) == [a]
    decreases |a|
  {
    if |a| > 0 {
      SplitNoSeparator(a[1..], c);
      assert [a[0]] + a[1..] == a;
    }
  }

  lemma {:induction false} SplitAfter(a: string, t: string, c: char)
    requires c !in a
    ensures Split(a + [c] + t, c) == [a] + Split(t, c)
    decreases |a|
  {
    var s := a + [c] + t;
    if |a| == 0 {
      assert s[1..] == t;
    } else {
      assert s[1..] == a[1..] + [c] + t;
      SplitAfter(a[1..], t, c);
      assert [a[0]] + a[1..] == a;
    }
  }

  /** Exploding pieces that were imploded (and hold no delimiter) gives back the pieces. */
  lemma {:induction false} SplitJoin(parts: seq<string>, c: char)
    requires |parts| >= 1
    requires forall i :: 0 <= i < |parts| ==> c !in parts[i]
    ensures Split(Join(parts, [c]), c) == parts
    decreases |parts|
  {
    if |parts| == 1 {
      SplitNoSeparator(parts[0], c);
    } else {
      SplitJoin(parts[1..], c);
      SplitAfter(parts[0], Join(parts[1..], [c]), c);
      assert [parts[0]] + parts[1..] == parts;
    }
  }

  // ---------------------------------------------------------------- str_replace

  /**
   * str_replace(pat, rep, s): one left-to-right pass replacing non-overlapping
   * occurrences; an empty pattern leaves the subject unchanged.
   */
  function ReplaceAll(s: string, pat: string, rep: string): string
    decreases |s|
  {
    if |pat| == 0 || |s| < |pat| then s
    else if s[..|pat|] == pat then rep + ReplaceAll(s[|pat|..], pat, rep)
    else [s[0]] + ReplaceAll(s[1..], pat, rep)
  }

  /** Replacing every c by nothing leaves no c. */
  lemma {:induction false} ReplaceAllSemChar(s: string, c: char)
    ensures c !in ReplaceAll(s, [c], "")
    decreases |s|
  {
    if |s| >= 1 {
      ReplaceAllSemChar(s[1..], c);
      if s[..1] == [c] {
        assert ReplaceAll(s, [c], "") == "" + ReplaceAll(s[1..], [c], "");
      } else {
        assert s[0] != c;
      }
    }
  }

  /** A subject without the pattern is returned unchanged. */
  lemma {:induction false} ReplaceAbsent(s: string, pat: string, rep: string)
    requires !Occurs(s, pat)
    ensures ReplaceAll(s, pat, rep) == s
    decreases |s|
  {
    if |pat| > 0 && |s| >= |pat| {
      assert !OccursAt(s, pat, 0);
      if Occurs(s[1..], pat) {
        var i :| OccursAt(s[1..], pat, i);
        OccursShift(s, pat, i);
        assert false;
      }
      ReplaceAbsent(s[1..], pat, rep);
      assert [s[0]] + s[1..] == s;
    }
  }

  /** Replacing a pattern by itself changes nothing. */
  lemma {:induction false} ReplaceSelf(s: string, pat: string)
    ensures ReplaceAll(s, pat, pat) == s
    decreases |s|
  {
    if |pat| > 0 && |s| >= |pat| {
      if s[..|pat|] == pat {
        ReplaceSelf(s[|pat|..], pat);
        assert s[..|pat|] + s[|pat|..] == s;
      } else {
        ReplaceSelf(s[1..], pat);
        assert [s[0]] + s[1..] == s;
      }
    }
  }

  /** Replacing a single character by text without it removes every occurrence. */
  lemma {:induction false} ReplaceCharGone(s: string, c: char, rep: string)
    requires c !in rep
    ensures c !in ReplaceAll(s, [c], rep)
    decreases |s|
  {
    if |s| >= 1 {
      ReplaceCharGone(s[1..], c, rep);
    }
  }

  /** Every character of the result comes from the subject or the replacement. */
  lemma {:induction false} ReplaceChars(s: string, pat: string, rep: string, x: char)
    requires x in ReplaceAll(s, pat, rep)
    ensures x in s || x in rep
    decreases |s|
  {
    if |pat| > 0 && |s| >= |pat| {
      if s[..|pat|] == pat {
        if x !in rep {
          ReplaceChars(s[|pat|..], pat, rep, x);
        }
      } else if x != s[0] {
        ReplaceChars(s[1..], pat, rep, x);
      }
    }
  }


  /** str_replace of a one-character pattern distributes over concatenation. */
  lemma {:induction false} ReplaceCharAppend(x: string, y: string, c: char, rep: string)
    ensures ReplaceAll(x + y, [c], rep) == ReplaceAll(x, [c], rep) + ReplaceAll(y, [c], rep)
    decreases |x|
  {
    if x == [] {
      assert x + y == y;
    } else {
      assert (x + y)[1..] == x[1..] + y;
      assert (x + y)[..1] == [x[0]] && x[..1] == [x[0]];
      ReplaceCharAppend(x[1..], y, c, rep);
    }
  }

  /** A one-character pattern that does not occur is left alone. */
  lemma {:induction false} ReplaceCharAbsent(x: string, c: char, rep: string)
    requires c !in x
    ensures ReplaceAll(x, [c], rep) == x
    decreases |x|
  {
    if x != [] {
      assert x[..1] == [x[0]];
      ReplaceCharAbsent(x[1..], c, rep);
      assert [x[0]] + x[1..] == x;
    }
  }

  /** The characters of an implode come from the pieces or the separator. */
  lemma {:induction false} JoinChars(parts: seq<string>, sep: string, c: char)
    requires c in Join(parts, sep)
    ensures c in sep || exists i :: 0 <= i < |parts| && c in parts[i]
    decreases |parts|
  {
    if |parts| > 1 {
      if c !in parts[0] && c !in sep {
        JoinChars(parts[1..], sep, c);
        var i :| 0 <= i < |parts[1..]| && c in parts[1..][i];
        assert c in parts[i + 1];
      }
    }
  }

  /** Putting the first character back in front of the rest, then appending. */
  lemma ConsConcat(x: string, r: string)
    requires x != []
    ensures [x[0]] + (x[1..] + r) == x + r
  {
    assert x == [x[0]] + x[1..];
  }

  lemma ConsAssoc(c: char, a: string, x: string, b: string)
    requires b == [c] + a
    ensures [c] + (a + x) == b + x
  {
  }

  /** A sequence is its prefix without the last element, followed by that element. */
  lemma UltimoSeparado<T>(s: seq<T>, n: int)
    requires n == |s| - 1 >= 0
    ensures s[..n] + [s[n]] == s
  {
  }

  /** strtolower distributes over concatenation. */
  lemma LowerAppend(x: string, y: string)
    ensures Lower(x + y) == Lower(x) + Lower(y)
  {
  }

  // ------------------------------------------------------------------ case

  predicate IsUpperAscii(c: char) { 'A' <= c <= 'Z' }
  predicate IsLowerAscii(c: char) { 'a' <= c <= 'z' }
  predicate IsDigit(c: char) { '0' <= c <= '9' }
  predicate IsAsciiLetter(c: char) { IsUpperAscii(c) || IsLowerAscii(c) }

  function LowerChar(c: char): (r: char)
    ensures !IsUpperAscii(r)
    ensures IsUpperAscii(c) <==> r != c
  {
    if IsUpperAscii(c) then (c as int + 32) as char else c
  }

  function UpperChar(c: char): (r: char)
    ensures !IsLowerAscii(r)
    ensures IsLowerAscii(c) <==> r != c
  {
    if IsLowerAscii(c) then (c as int - 32) as char else c
  }

  /** strtolower: ASCII letters only, character by character. */
  function Lower(s: string): (r: string)
    ensures |r| == |s|
    ensures forall i :: 0 <= i < |s| ==> r[i] == LowerChar(s[i])
    decreases |s|
  {
    if s == [] then [] else [LowerChar(s[0])] + Lower(s[1..])
  }

  /** strtoupper: ASCII letters only, character by character. */
  function Upper(s: string): (r: string)
    ensures |r| == |s|
    ensures forall i :: 0 <= i < |s| ==> r[i] == UpperChar(s[i])
    decreases |s|
  {
    if s == [] then [] else [UpperChar(s[0])] + Upper(s[1..])
  }

  predicate NoUpper(s: string) { forall i :: 0 <= i < |s| ==> !IsUpperAscii(s[i]) }

  lemma LowerIsLower(s: string)
    ensures NoUpper(Lower(s))
    ensures Lower(Lower(s)) == Lower(s)
  {
  }

  /** strtolower of a string without upper-case letters is the string itself. */
  lemma LowerOfLower(s: string)
    requires NoUpper(s)
    ensures Lower(s) == s
  {
  }

  /** The length of the longest prefix of s made of characters satisfying p. */
  function RunLength(s: string, p: char -> bool): (n: nat)
    ensures n <= |s|
    ensures forall i :: 0 <= i < n ==> p(s[i])
    ensures n < |s| ==> !p(s[n])
    decreases |s|
  {
    if s != [] && p(s[0]) then 1 + RunLength(s[1..], p) else 0
  }

  // ------------------------------------------------------------------ trim

  /** The characters trim() strips by default. */
  const WHITESPACE: set<char> := {' ', '\t', '\n', '\r', '\0', 11 as char}

  /**
   * The blanks the validating filters (FILTER_VALIDATE_INT, FILTER_VALIDATE_BOOLEAN)
   * trim: space, tab, CR, LF and vertical tab, but not NUL, unlike trim().
   */
  const BRANCOS_FILTRO: set<char> := {' ', '\t', '\r', '\n', 11 as char}

  /** ltrim(s, cs). */
  function TrimLeft(s: string, cs: set<char>): (r: string)
    ensures |r| <= |s| && r == s[|s| - |r|..]
    ensures r == [] || r[0] !in cs
    ensures forall i :: 0 <= i < |s| - |r| ==> s[i] in cs
    decreases |s|
  {
    if |s| > 0 && s[0] in cs then TrimLeft(s[1..], cs) else s
  }

  /** rtrim(s, cs). */
  function TrimRight(s: string, cs: set<char>): (r: string)
    ensures |r| <= |s| && r == s[..|r|]
    ensures r == [] || r[|r| - 1] !in cs
    ensures forall i :: |r| <= i < |s| ==> s[i] in cs
    decreases |s|
  {
    if |s| > 0 && s[|s| - 1] in cs then TrimRight(s[..|s| - 1], cs) else s
  }

  /** trim(s, cs). */
  function Trim(s: string, cs: set<char>): string
  {
    TrimRight(TrimLeft(s, cs), cs)
  }

  /** The trimmed text is a slice of the input that neither starts nor ends with a stripped character. */
  lemma TrimSlice(s: string, cs: set<char>)
    ensures var r := Trim(s, cs);
      (r == [] || (r[0] !in cs && r[|r| - 1] !in cs)) &&
      exists i :: OccursAt(s, r, i)
  {
    var l := TrimLeft(s, cs);
    var r := TrimRight(l, cs);
    assert r == Trim(s, cs);
    var i := |s| - |l|;
    assert l == s[i..] && r == l[..|r|];
    if r != [] {
      assert r[0] == l[0];
    }
    assert s[i..i + |r|] == s[i..][..|r|];
    assert OccursAt(s, r, i);
  }

  /** trim is idempotent. */
  lemma TrimTwice(s: string, cs: set<char>)
    ensures Trim(Trim(s, cs), cs) == Trim(s, cs)
  {
  }

  // ------------------------------------------------------------------ decimals

  function DigitChar(d: int): (c: char)
    requires 0 <= d < 10
    ensures IsDigit(c)
  {
    ('0' as int + d) as char
  }

  predicate AllDigits(s: string) { forall i :: 0 <= i < |s| ==> IsDigit(s[i]) }

  /** The decimal rendering of a natural number, as PHP's string interpolation writes it. */
  function NatToString(n: nat): (r: string)
    ensures |r| >= 1 && AllDigits(r)
    decreases n
  {
    if n < 10 then [DigitChar(n)] else NatToString(n / 10) + [DigitChar(n % 10)]
  }

  function ParseNat(s: string): nat
    requires AllDigits(s)
    decreases |s|
  {
    if s == [] then 0 else ParseNat(s[..|s| - 1]) * 10 + (s[|s| - 1] as int - '0' as int)
  }

  lemma {:induction false} ParseNatToString(n: nat)
    ensures ParseNat(NatToString(n)) == n
    decreases n
  {
    if n >= 10 {
      ParseNatToString(n / 10);
      var s := NatToString(n);
      assert s[..|s| - 1] == NatToString(n / 10);
    }
  }

  /** Distinct numbers have distinct decimal renderings. */
  lemma NatToStringInjective(a: nat, b: nat)
    requires NatToString(a) == NatToString(b)
    ensures a == b
  {
    ParseNatToString(a);
    ParseNatToString(b);
  }

  // ------------------------------------------------------------------- UTF-8 bytes

  /** A byte string: PHP's strings are sequences of bytes, held here as characters below 256. */
  predicate Bytes(s: string)
  {
    forall i :: 0 <= i < |s| ==> s[i] as int < 256
  }

  predicate Ascii(s: string)
  {
    forall i :: 0 <= i < |s| ==> s[i] as int < 128
  }

  /** The UTF-8 encoding of one character (section 3 of RFC 3629). */
  function Utf8Char(c: char): (r: string)
    ensures 1 <= |r| <= 4 && Bytes(r)
    ensures c as int < 128 <==> r == [c]
    ensures |r| == 1 <==> c as int < 128
  {
    var v := c as int;
    if v < 0x80 then [c]
    else if v < 0x800 then [(0xC0 + v / 64) as char, (0x80 + v % 64) as char]
    else if v < 0x10000 then
      [(0xE0 + v / 4096) as char, (0x80 + (v / 64) % 64) as char, (0x80 + v % 64) as char]
    else
      [(0xF0 + v / 262144) as char, (0x80 + (v / 4096) % 64) as char,
       (0x80 + (v / 64) % 64) as char, (0x80 + v % 64) as char]
  }

  /** The UTF-8 bytes of a text: what strlen, substr and unpack see of a PHP source-file string. */
  function Utf8(s: string): (r: string)
    ensures Bytes(r) && |r| >= |s|
    ensures |r| == |s| <==> Ascii(s)
    decreases |s|
  {
    if s == [] then [] else Utf8Char(s[0]) + Utf8(s[1..])
  }

  /** Plain ASCII text is its own encoding. */
  lemma {:induction false} Utf8Ascii(s: string)
    requires Ascii(s)
    ensures Utf8(s) == s
    decreases |s|
  {
    if s != [] {
      Utf8Ascii(s[1..]);
      assert s == [s[0]] + s[1..];
    }
  }

  /** A text's first character is encoded first. */
  lemma Utf8Cons(c: char, s: string)
    ensures Utf8([c] + s) == Utf8Char(c) + Utf8(s)
  {
    assert ([c] + s)[0] == c && ([c] + s)[1..] == s;
  }

  /** Encoding distributes over concatenation. */
  lemma {:induction false} Utf8Concat(a: string, b: string)
    ensures Utf8(a + b) == Utf8(a) + Utf8(b)
    decreases |a|
  {
    if a != [] {
      var x, y, z := Utf8Char(a[0]), Utf8(a[1..]), Utf8(b);
      assert Utf8(a + b) == x + (y + z) by {
        assert a + b == [a[0]] + (a[1..] + b);
        Utf8Cons(a[0], a[1..] + b);
        Utf8Concat(a[1..], b);
      }
      assert Utf8(a) == x + y by {
        assert a == [a[0]] + a[1..];
        Utf8Cons(a[0], a[1..]);
      }
      assert x + (y + z) == (x + y) + z;
    } else {
      assert a + b == b;
    }
  }
}
