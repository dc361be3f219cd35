/** String operations the Python code relies on: ASCII lower-casing, substring
    tests (`in`), `str.strip()`, `str.join`, `str.replace`, code-point
    ordering of strings (`<=` on `str`), decimal rendering of integers, and
    the fixed-width zero-padded digits that `strftime` produces. */
module Text {

  /* ---------------------------------------------------------------------- */
  /* Characters                                                              */
  /* ---------------------------------------------------------------------- */

  /** Python's `str.isspace()`: the characters `str.strip()` removes. */
  predicate IsSpace(c: char) {
    c == ' ' || ('\t' <= c <= '\r') || ('\U{1C}' <= c <= '\U{1F}')
    || c == '\U{85}' || c == '\U{A0}' || c == '\U{1680}' || ('\U{2000}' <= c <= '\U{200A}')
    || c == '\U{2028}' || c == '\U{2029}' || c == '\U{202F}' || c == '\U{205F}' || c == '\U{3000}'
  }

  predicate AllSpace(s: string) {
    forall i :: 0 <= i < |s| ==> IsSpace(s[i])
  }

  /** ASCII lower-casing of one character. */
  function LowerChar(c: char): char {
    if 'A' <= c <= 'Z' then (c as int + 32) as char else c
  }

  /** `s.lower()`, restricted to ASCII letters. */
  function Lower(s: string): (r: string)
    ensures |r| == |s|
    ensures forall i :: 0 <= i < |s| ==> r[i] == LowerChar(s[i])
  {
    if |s| == 0 then "" else [LowerChar(s[0])] + Lower(s[1..])
  }

  lemma LowerConcat(a: string, b: string)
    ensures Lower(a + b) == Lower(a) + Lower(b)
  {
  }

  /* ---------------------------------------------------------------------- */
  /* Substrings                                                              */
  /* ---------------------------------------------------------------------- */

  /** `needle` occurs in `hay` starting at index `i`. */
  ghost predicate OccursAt(hay: string, needle: string, i: int) {
    0 <= i && i + |needle| <= |hay| && hay[i..i + |needle|] == needle
  }

  /** Python's `needle in hay`. */
  predicate Contains(hay: string, needle: string)
    decreases |hay|
  {
    needle <= hay || (|hay| > 0 && Contains(hay[1..], needle))
  }

  /** `Contains` is exactly "occurs at some index". */
  lemma {:induction false} ContainsIffOccurs(hay: string, needle: string)
    ensures Contains(hay, needle) <==> exists i :: OccursAt(hay, needle, i)
    decreases |hay|
  {
    if needle <= hay {
      assert OccursAt(hay, needle, 0);
    } else if |hay| == 0 {
      assert |needle| > 0;
    } else {
      ContainsIffOccurs(hay[1..], needle);
      if exists i :: OccursAt(hay[1..], needle, i) {
        var i :| OccursAt(hay[1..], needle, i);
        assert hay[1..][i..i + |needle|] == hay[i + 1..i + 1 + |needle|];
        assert OccursAt(hay, needle, i + 1);
      }
      assert !OccursAt(hay, needle, 0);
      if exists i :: OccursAt(hay, needle, i) {
        var i :| OccursAt(hay, needle, i);
        assert hay[1..][i - 1..i - 1 + |needle|] == hay[i..i + |needle|];
        assert OccursAt(hay[1..], needle, i - 1);
      }
    }
  }

  /** The middle of a concatenation is a substring of it. */
  lemma ContainsMiddle(a: string, b: string, c: string)
    ensures Contains(a + b + c, b)
  {
    assert (a + b + c)[|a|..|a| + |b|] == b;
    assert OccursAt(a + b + c, b, |a|);
    ContainsIffOccurs(a + b + c, b);
  }

  /** A substring of a part is a substring of the whole. */
  lemma ContainsWithin(a: string, b: string, c: string, needle: string)
    requires Contains(b, needle)
    ensures Contains(a + b + c, needle)
  {
    ContainsIffOccurs(b, needle);
    var i :| OccursAt(b, needle, i);
    assert (a + b + c)[|a| + i..|a| + i + |needle|] == b[i..i + |needle|];
    assert OccursAt(a + b + c, needle, |a| + i);
    ContainsIffOccurs(a + b + c, needle);
  }

  /** A substring of the left part is a substring of the whole. */
  lemma ContainsLeft(a: string, b: string, needle: string)
    requires Contains(a, needle)
    ensures Contains(a + b, needle)
  {
    ContainsWithin("", a, b, needle);
    assert "" + a + b == a + b;
  }

  /** A substring of the right part is a substring of the whole. */
  lemma ContainsRight(a: string, b: string, needle: string)
    requires Contains(b, needle)
    ensures Contains(a + b, needle)
  {
    ContainsWithin(a, b, "", needle);
    assert a + b + "" == a + b;
  }

  /** A substring of a substring is a substring. */
  lemma ContainsTransitive(x: string, y: string, z: string)
    requires Contains(x, y) && Contains(y, z)
    ensures Contains(x, z)
  {
    ContainsIffOccurs(x, y);
    var i :| OccursAt(x, y, i);
    assert x == x[..i] + y + x[i + |y|..];
    ContainsWithin(x[..i], y, x[i + |y|..], z);
  }

  /** Case-insensitive (ASCII) substring test: `needle.lower() in hay.lower()`. */
  predicate ContainsIgnoreCase(hay: string, needle: string) {
    Contains(Lower(hay), Lower(needle))
  }

  /* ---------------------------------------------------------------------- */
  /* str.strip()                                                             */
  /* ---------------------------------------------------------------------- */

  function StripLeft(s: string): (r: string)
    ensures |r| <= |s| && r == s[|s| - |r|..]
    ensures |r| == 0 || !IsSpace(r[0])
    ensures AllSpace(s[..|s| - |r|])
  {
    if |s| > 0 && IsSpace(s[0]) then StripLeft(s[1..]) else s
  }

  function StripRight(s: string): (r: string)
    ensures |r| <= |s| && r == s[..|r|]
    ensures |r| == 0 || !IsSpace(r[|r| - 1])
    ensures AllSpace(s[|r|..])
  {
    if |s| > 0 && IsSpace(s[|s| - 1]) then StripRight(s[..|s| - 1]) else s
  }

  /** Python's `s.strip()`: `s` without its leading and trailing whitespace.
      The result is a slice of `s`, starts and ends with a non-space, and
      everything cut off is whitespace. */
  function Strip(s: string): (r: string)
    ensures exists i :: 0 <= i <= |s| - |r| && r == s[i..i + |r|]
                        && AllSpace(s[..i]) && AllSpace(s[i + |r|..])
    ensures |r| == 0 || (!IsSpace(r[0]) && !IsSpace(r[|r| - 1]))
  {
    var l := StripLeft(s);
    var r := StripRight(l);
    TrimFrame(s, l, r);
    r
  }

  /** Cutting whitespace off the front of `s` and then off the back of what
      is left leaves a slice of `s` framed by whitespace. */
  lemma TrimFrame(s: string, l: string, r: string)
    requires |l| <= |s| && l == s[|s| - |l|..] && AllSpace(s[..|s| - |l|]) && (|l| == 0 || !IsSpace(l[0]))
    requires |r| <= |l| && r == l[..|r|] && AllSpace(l[|r|..]) && (|r| == 0 || !IsSpace(r[|r| - 1]))
    ensures exists i :: 0 <= i <= |s| - |r| && r == s[i..i + |r|]
                        && AllSpace(s[..i]) && AllSpace(s[i + |r|..])
    ensures |r| == 0 || (!IsSpace(r[0]) && !IsSpace(r[|r| - 1]))
  {
    var i := |s| - |l|;
    assert r == s[i..i + |r|] && s[i + |r|..] == l[|r|..];
    if |r| > 0 {
      assert r[0] == l[0];
    }
  }

  lemma {:induction false} StripLeftSpaces(w: string, s: string)
    requires AllSpace(w)
    ensures StripLeft(w + s) == StripLeft(s)
    decreases |w|
  {
    if |w| > 0 {
      assert (w + s)[1..] == w[1..] + s;
      StripLeftSpaces(w[1..], s);
    } else {
      assert w + s == s;
    }
  }

  lemma {:induction false} StripRightSpaces(s: string, w: string)
    requires AllSpace(w)
    ensures StripRight(s + w) == StripRight(s)
    decreases |w|
  {
    if |w| > 0 {
      assert (s + w)[..|s + w| - 1] == s + w[..|w| - 1];
      StripRightSpaces(s, w[..|w| - 1]);
    } else {
      assert s + w == s;
    }
  }

  lemma {:induction false} StripLeftAppend(s: string, w: string)
    requires !AllSpace(s)
    ensures StripLeft(s + w) == StripLeft(s) + w
    decreases |s|
  {
    assert |s| > 0;
    if IsSpace(s[0]) {
      assert (s + w)[1..] == s[1..] + w;
      StripLeftAppend(s[1..], w);
    }
  }

  lemma {:induction false} StripLeftAllSpace(s: string)
    requires AllSpace(s)
    ensures StripLeft(s) == ""
    decreases |s|
  {
    if |s| > 0 {
      StripLeftAllSpace(s[1..]);
    }
  }

  /** A string that starts with a non-space keeps its first character. */
  lemma StripKeepsFirst(s: string)
    requires |s| > 0 && !IsSpace(s[0])
    ensures |Strip(s)| > 0 && Strip(s)[0] == s[0]
  {
    var r := Strip(s);
    var i :| 0 <= i <= |s| - |r| && r == s[i..i + |r|] && AllSpace(s[..i]) && AllSpace(s[i + |r|..]);
    if i > 0 {
      assert s[..i][0] == s[0];
    }
  }

  /** A string without surrounding whitespace is its own strip. */
  lemma StripUnchanged(s: string)
    requires |s| > 0 && !IsSpace(s[0]) && !IsSpace(s[|s| - 1])
    ensures Strip(s) == s
  {
    assert StripLeft(s) == s;
    assert StripRight(s) == s;
  }

  /** Surrounding whitespace never changes the result of `Strip`. */
  lemma StripIgnoresSurroundingSpace(w1: string, s: string, w2: string)
    requires AllSpace(w1) && AllSpace(w2)
    ensures Strip(w1 + s + w2) == Strip(s)
  {
    assert w1 + s + w2 == w1 + (s + w2);
    StripLeftSpaces(w1, s + w2);
    if AllSpace(s) {
      assert AllSpace(s + w2);
      StripLeftAllSpace(s + w2);
      StripLeftAllSpace(s);
    } else {
      StripLeftAppend(s, w2);
      StripRightSpaces(StripLeft(s), w2);
    }
  }

  lemma LowerCharSpace(c: char)
    ensures IsSpace(LowerChar(c)) == IsSpace(c)
  {
  }

  lemma {:induction false} LowerStripLeft(s: string)
    ensures StripLeft(Lower(s)) == Lower(StripLeft(s))
    decreases |s|
  {
    if |s| > 0 {
      var t := Lower(s);
      LowerCharSpace(s[0]);
      assert t[1..] == Lower(s[1..]);
      LowerStripLeft(s[1..]);
      if IsSpace(s[0]) {
        assert StripLeft(t) == StripLeft(t[1..]);
      } else {
        assert StripLeft(t) == t;
      }
    }
  }

  lemma {:induction false} LowerStripRight(s: string)
    ensures StripRight(Lower(s)) == Lower(StripRight(s))
    decreases |s|
  {
    if |s| > 0 {
      var t := Lower(s);
      var p := s[..|s| - 1];
      LowerCharSpace(s[|s| - 1]);
      assert t[..|s| - 1] == Lower(p) by {
        LowerConcat(p, [s[|s| - 1]]);
        assert s == p + [s[|s| - 1]];
      }
      LowerStripRight(p);
      if IsSpace(s[|s| - 1]) {
        assert StripRight(t) == StripRight(t[..|t| - 1]);
      } else {
        assert StripRight(t) == t;
      }
    }
  }

  /** Lower-casing commutes with stripping (no ASCII letter is whitespace). */
  lemma StripLower(s: string)
    ensures Strip(Lower(s)) == Lower(Strip(s))
  {
    LowerStripLeft(s);
    LowerStripRight(StripLeft(s));
  }

  /* ---------------------------------------------------------------------- */
  /* str.join, str.replace, str.split                                        */
  /* ---------------------------------------------------------------------- */

  /** A concatenation of three strings taken apart again. */
  lemma Pieces(a: string, b: string, c: string)
    ensures var r := a + b + c;
      |r| == |a| + |b| + |c| && r[..|a|] == a && r[|a|..|a| + |b|] == b && r[|a| + |b|..] == c
  {
  }

  /** Dropping a prefix of the first part of a concatenation. */
  lemma DropConcat(a: string, b: string, n: nat)
    requires n <= |a|
    ensures (a + b)[n..] == a[n..] + b
  {
  }

  /** Dropping a prefix that ends inside the middle part. */
  lemma DropInto(a: string, b: string, c: string, n: nat)
    requires |a| <= n <= |a| + |b|
    ensures (a + b + c)[n..] == b[n - |a|..] + c
  {
  }

  /** `sep.join(parts)`. */
  function Join(sep: string, parts: seq<string>): string {
    if |parts| == 0 then ""
    else if |parts| == 1 then parts[0]
    else parts[0] + sep + Join(sep, parts[1..])
  }

  /** Every joined part is a substring of the joined string. */
  lemma {:induction false} JoinContainsPart(sep: string, parts: seq<string>, k: int)
    requires 0 <= k < |parts|
    ensures Contains(Join(sep, parts), parts[k])
    decreases |parts|
  {
    if |parts| == 1 {
      ContainsMiddle("", parts[0], "");
      assert "" + parts[0] + "" == parts[0];
    } else if k == 0 {
      ContainsMiddle("", parts[0], sep + Join(sep, parts[1..]));
      assert "" + parts[0] + (sep + Join(sep, parts[1..])) == Join(sep, parts);
    } else {
      JoinContainsPart(sep, parts[1..], k - 1);
      ContainsWithin(parts[0] + sep, Join(sep, parts[1..]), "", parts[k]);
      assert parts[0] + sep + Join(sep, parts[1..]) + "" == Join(sep, parts);
    }
  }

  /** Python's `s.replace(pat, "")` for a non-empty `pat`: every
      non-overlapping occurrence, scanning left to right, is removed. */
  function RemoveAll(s: string, pat: string): (r: string)
    requires |pat| > 0
    ensures |r| <= |s|
    decreases |s|
  {
    if |s| == 0 then ""
    else if pat <= s then RemoveAll(s[|pat|..], pat)
    else [s[0]] + RemoveAll(s[1..], pat)
  }

  /** A leading occurrence of the pattern is removed. */
  lemma RemoveAllLeading(pat: string, s: string)
    requires |pat| > 0
    ensures RemoveAll(pat + s, pat) == RemoveAll(s, pat)
  {
    assert pat <= pat + s;
    assert (pat + s)[|pat|..] == s;
  }

  /** A string shorter than the pattern is left as it is. */
  lemma {:induction false} RemoveAllShort(s: string, pat: string)
    requires 0 < |pat| && |s| < |pat|
    ensures RemoveAll(s, pat) == s
    decreases |s|
  {
    if |s| > 0 {
      RemoveAllShort(s[1..], pat);
    }
  }

  /** `s.split(" ")[-1] if " " in s else s`: the text after the last space.
      The result is a suffix of `s` that holds no space, and what precedes
      it (if anything) ends with a space. */
  function AfterLastSpace(s: string): (r: string)
    ensures |r| <= |s| && r == s[|s| - |r|..]
    ensures ' ' !in r
    ensures |r| < |s| ==> s[|s| - |r| - 1] == ' '
  {
    if |s| == 0 then ""
    else if s[|s| - 1] == ' ' then ""
    else
      var r := AfterLastSpace(s[..|s| - 1]);
      SuffixSnoc(s, |r|);
      r + [s[|s| - 1]]
  }

  /** A suffix of `s` minus its last character, with that character put
      back, is a suffix of `s`. */
  lemma SuffixSnoc(s: string, n: nat)
    requires n < |s|
    ensures s[..|s| - 1][|s| - 1 - n..] + [s[|s| - 1]] == s[|s| - 1 - n..]
  {
  }

  /** `s if len(s) <= n else s[:n] + "..."`. */
  function Truncate(s: string, n: nat): (r: string)
    ensures |s| <= n ==> r == s
    ensures |s| > n ==> |r| == n + 3 && r[..n] == s[..n] && r[n..] == "..."
  {
    if |s| <= n then s else s[..n] + "..."
  }

  /* ---------------------------------------------------------------------- */
  /* Ordering of strings                                                     */
  /* ---------------------------------------------------------------------- */

  /** Python's `a <= b` on `str`: lexicographic by code point, a proper
      prefix first. */
  predicate LexLe(a: string, b: string)
    decreases |a|
  {
    |a| == 0 || (|b| > 0 && (a[0] < b[0] || (a[0] == b[0] && LexLe(a[1..], b[1..]))))
  }

  /** Python's `a < b` on `str`. */
  predicate LexLt(a: string, b: string) {
    LexLe(a, b) && a != b
  }

  lemma {:induction false} LexLeReflexive(a: string)
    ensures LexLe(a, a)
    decreases |a|
  {
    if |a| > 0 {
      LexLeReflexive(a[1..]);
    }
  }

  lemma {:induction false} LexLeAntisymmetric(a: string, b: string)
    requires LexLe(a, b) && LexLe(b, a)
    ensures a == b
    decreases |a|
  {
    if |a| > 0 {
      LexLeAntisymmetric(a[1..], b[1..]);
      assert a == [a[0]] + a[1..] && b == [b[0]] + b[1..];
    }
  }

  lemma {:induction false} LexLeTransitive(a: string, b: string, c: string)
    requires LexLe(a, b) && LexLe(b, c)
    ensures LexLe(a, c)
    decreases |a|
  {
    if |a| > 0 && a[0] == b[0] && b[0] == c[0] {
      LexLeTransitive(a[1..], b[1..], c[1..]);
    }
  }

  lemma {:induction false} LexLeTotal(a: string, b: string)
    ensures LexLe(a, b) || LexLe(b, a)
    decreases |a|
  {
    if |a| > 0 && |b| > 0 && a[0] == b[0] {
      LexLeTotal(a[1..], b[1..]);
    }
  }

  /** Comparing two concatenations whose first parts have equal length: the
      first parts decide unless they are equal. */
  lemma {:induction false} LexLeConcat(p: string, q: string, p': string, q': string)
    requires |p| == |p'|
    ensures LexLe(p + q, p' + q') <==> (p != p' && LexLe(p, p')) || (p == p' && LexLe(q, q'))
    decreases |p|
  {
    if |p| == 0 {
      assert p + q == q && p' + q' == q';
    } else {
      assert (p + q)[0] == p[0] && (p' + q')[0] == p'[0];
      assert (p + q)[1..] == p[1..] + q && (p' + q')[1..] == p'[1..] + q';
      LexLeConcat(p[1..], q, p'[1..], q');
      if p[0] == p'[0] {
        assert p == p' <==> p[1..] == p'[1..] by {
          assert p == [p[0]] + p[1..] && p' == [p'[0]] + p'[1..];
        }
      }
    }
  }

  /* ---------------------------------------------------------------------- */
  /* Decimal digits                                                          */
  /* ---------------------------------------------------------------------- */

  predicate IsDigit(c: char) {
    '0' <= c <= '9'
  }

  predicate AllDigits(s: string) {
    forall i :: 0 <= i < |s| ==> IsDigit(s[i])
  }

  function Digit(d: int): (c: char)
    requires 0 <= d < 10
    ensures IsDigit(c)
  {
    ('0' as int + d) as char
  }

  function DigitValue(c: char): (d: int)
    requires IsDigit(c)
    ensures 0 <= d < 10 && Digit(d) == c
  {
    c as int - '0' as int
  }

  function Pow10(w: nat): (p: nat)
    ensures p >= 1
  {
    if w == 0 then 1 else 10 * Pow10(w - 1)
  }

  /** The value of a string of decimal digits. */
  function NumOf(s: string): (n: nat)
    requires AllDigits(s)
    ensures n < Pow10(|s|)
  {
    if |s| == 0 then 0 else NumOf(s[..|s| - 1]) * 10 + DigitValue(s[|s| - 1])
  }

  /** `n` written with exactly `w` digits, zero-padded on the left (the last
      `w` digits of `n`), as `strftime`'s `%m`, `%d`, `%H`, ... produce. */
  function Pad(n: nat, w: nat): (s: string)
    ensures |s| == w && AllDigits(s)
  {
    if w == 0 then "" else Pad(n / 10, w - 1) + [Digit(n % 10)]
  }

  /** Reading back a padded number gives the number. */
  lemma {:induction false} NumOfPad(n: nat, w: nat)
    requires n < Pow10(w)
    ensures NumOf(Pad(n, w)) == n
    decreases w
  {
    if w > 0 {
      NumOfPad(n / 10, w - 1);
      var s := Pad(n, w);
      assert s[..|s| - 1] == Pad(n / 10, w - 1);
    }
  }

  /** Padding the value of a digit string gives the string back. */
  lemma {:induction false} PadNumOf(s: string)
    requires AllDigits(s)
    ensures Pad(NumOf(s), |s|) == s
    decreases |s|
  {
    if |s| > 0 {
      var p := s[..|s| - 1];
      PadNumOf(p);
      var n := NumOf(s);
      assert n / 10 == NumOf(p) && n % 10 == DigitValue(s[|s| - 1]);
      assert s == p + [s[|s| - 1]];
    }
  }

  lemma PadInjective(x: nat, y: nat, w: nat)
    requires x < Pow10(w) && y < Pow10(w)
    ensures Pad(x, w) == Pad(y, w) <==> x == y
  {
    NumOfPad(x, w);
    NumOfPad(y, w);
  }

  /** For fixed-width zero-padded numbers, string order is numeric order. */
  lemma {:induction false} PadLexLe(x: nat, y: nat, w: nat)
    requires x < Pow10(w) && y < Pow10(w)
    ensures LexLe(Pad(x, w), Pad(y, w)) <==> x <= y
    decreases w
  {
    if w > 0 {
      var p, p' := Pad(x / 10, w - 1), Pad(y / 10, w - 1);
      var c, c' := [Digit(x % 10)], [Digit(y % 10)];
      PadLexLe(x / 10, y / 10, w - 1);
      PadInjective(x / 10, y / 10, w - 1);
      LexLeConcat(p, c, p', c');
      assert LexLe(c, c') <==> x % 10 <= y % 10;
      assert x == (x / 10) * 10 + x % 10 && y == (y / 10) * 10 + y % 10;
    }
  }

  /** `str(n)` for a natural number. */
  function NatToString(n: nat): (s: string)
    ensures |s| > 0 && AllDigits(s)
    ensures s[0] == '0' ==> n == 0
    decreases n
  {
    if n < 10 then [Digit(n)] else NatToString(n / 10) + [Digit(n % 10)]
  }

  /** `str(n)` reads back as `n`. */
  lemma {:induction false} NumOfNatToString(n: nat)
    ensures NumOf(NatToString(n)) == n
    decreases n
  {
    if n >= 10 {
      NumOfNatToString(n / 10);
      var s := NatToString(n);
      assert s[..|s| - 1] == NatToString(n / 10);
    }
  }

  /** `str(i)` for any integer. */
  function IntToString(i: int): (s: string)
    ensures |s| > 0
  {
    if i < 0 then "-" + NatToString(-i) else NatToString(i)
  }
}
