/** ASCII string primitives behind the normalisers: `trim`, `to_lowercase`,
    `replace`, and decimal digit strings. Rust's versions work on Unicode; the
    model restricts them to ASCII. */
module Text {

  /** Whitespace as Rust's `char::is_whitespace` classifies the ASCII range:
      horizontal tab, line feed, vertical tab, form feed, carriage return, space. */
  predicate IsSpace(c: char) {
    c == ' ' || 9 <= c as int <= 13
  }

  predicate AllSpace(s: string) {
    forall i :: 0 <= i < |s| ==> IsSpace(s[i])
  }

  /** Neither the first nor the last character is whitespace. */
  predicate NoSpaceAtEnds(s: string) {
    |s| > 0 ==> !IsSpace(s[0]) && !IsSpace(s[|s| - 1])
  }

  // ---------------------------------------------------------------- trimming

  /** How many whitespace characters `s` starts with. */
  function LeadingSpaces(s: string): (n: nat)
    ensures n <= |s|
    ensures forall k :: 0 <= k < n ==> IsSpace(s[k])
    ensures n < |s| ==> !IsSpace(s[n])
  {
    if |s| > 0 && IsSpace(s[0]) then 1 + LeadingSpaces(s[1..]) else 0
  }

  /** How many whitespace characters `s` ends with. */
  function TrailingSpaces(s: string): (n: nat)
    ensures n <= |s|
    ensures forall k :: |s| - n <= k < |s| ==> IsSpace(s[k])
    ensures n < |s| ==> !IsSpace(s[|s| - 1 - n])
  {
    if |s| > 0 && IsSpace(s[|s| - 1]) then 1 + TrailingSpaces(s[..|s| - 1]) else 0
  }

  /** `str::trim`: drops the leading and the trailing whitespace; what is left
      neither starts nor ends with whitespace (`TrimSplit` gives the rest). */
  function Trim(s: string): (r: string)
    ensures NoSpaceAtEnds(r)
  {
    var i := LeadingSpaces(s);
    var j := TrailingSpaces(s[i..]);
    assert i + j < |s| ==> s[|s| - j - 1] == s[i..][|s| - i - 1 - j];
    s[i..|s| - j]
  }

  /** `s` is some whitespace, then `Trim(s)`, then some whitespace. */
  lemma TrimSplit(s: string) returns (a: string, b: string)
    ensures AllSpace(a) && AllSpace(b) && s == a + Trim(s) + b
  {
    var i := LeadingSpaces(s);
    var j := TrailingSpaces(s[i..]);
    a, b := s[..i], s[|s| - j..];
    assert AllSpace(a) by {
      forall k | 0 <= k < i
        ensures IsSpace(a[k])
      {
        assert a[k] == s[k];
      }
    }
    assert AllSpace(b) by {
      forall k | 0 <= k < j
        ensures IsSpace(b[k])
      {
        assert b[k] == s[i..][|s| - i - j + k];
      }
    }
    assert s == a + s[i..|s| - j] + b;
  }

  /** The only way to cut `s` into whitespace, a part without whitespace at its
      ends, and whitespace: `trim` finds that part. */
  lemma TrimOf(a: string, r: string, b: string)
    requires AllSpace(a) && AllSpace(b) && NoSpaceAtEnds(r)
    ensures Trim(a + r + b) == r
  {
    var s := a + r + b;
    var i := LeadingSpaces(s);
    if r == [] {
      assert forall k :: 0 <= k < |s| ==> IsSpace(s[k]) by {
        assert forall k :: 0 <= k < |a| ==> s[k] == a[k];
        assert forall k :: |a| <= k < |s| ==> s[k] == b[k - |a|];
      }
      assert i == |s|;
    } else {
      assert s[|a|] == r[0];
      assert forall k :: 0 <= k < |a| ==> s[k] == a[k];
      assert i == |a|;
      var t := s[i..];
      assert t == r + b;
      var j := TrailingSpaces(t);
      assert t[|r| - 1] == r[|r| - 1];
      assert forall k :: |r| <= k < |t| ==> t[k] == b[k - |r|];
      assert j == |b|;
      assert s[i..|s| - j] == r;
    }
  }

  /** `trim` leaves nothing exactly when the text is all whitespace. */
  lemma TrimEmpty(s: string)
    ensures Trim(s) == [] <==> AllSpace(s)
  {
    var a, b := TrimSplit(s);
    if Trim(s) == [] {
      assert s == a + b;
      forall k | 0 <= k < |s|
        ensures IsSpace(s[k])
      {
        if k < |a| { assert s[k] == a[k]; } else { assert s[k] == b[k - |a|]; }
      }
    }
    if AllSpace(s) {
      assert s + [] + [] == s;
      TrimOf(s, [], []);
    }
  }

  /** Surrounding whitespace does not reach the result of `trim`. */
  lemma TrimPadded(a: string, s: string, b: string)
    requires AllSpace(a) && AllSpace(b)
    ensures Trim(a + s + b) == Trim(s)
  {
    var a', b' := TrimSplit(s);
    var r := Trim(s);
    Regroup(a, a', r, b', b);
    AllSpaceAppend(a, a');
    AllSpaceAppend(b', b);
    TrimOf(a + a', Trim(s), b' + b);
  }

  lemma Regroup(a: string, x: string, r: string, y: string, b: string)
    ensures a + (x + r + y) + b == (a + x) + r + (y + b)
  {
  }

  lemma AllSpaceAppend(x: string, y: string)
    requires AllSpace(x) && AllSpace(y)
    ensures AllSpace(x + y)
  {
    forall k | 0 <= k < |x + y|
      ensures IsSpace((x + y)[k])
    {
      if k < |x| { assert (x + y)[k] == x[k]; } else { assert (x + y)[k] == y[k - |x|]; }
    }
  }

  /** A string without whitespace at its ends is its own trim. */
  lemma TrimIdentity(s: string)
    requires NoSpaceAtEnds(s)
    ensures Trim(s) == s
  {
    assert [] + s + [] == s;
    TrimOf([], s, []);
  }

  // ------------------------------------------------------- character maps

  /** Applies `f` to every character: the shape of `to_lowercase` and of a
      one-character `replace`. */
  function MapChars(s: string, f: char -> char): (r: string)
    ensures |r| == |s| && forall i :: 0 <= i < |s| ==> r[i] == f(s[i])
  {
    seq(|s|, i requires 0 <= i < |s| => f(s[i]))
  }

  /** `f` sends whitespace to whitespace and nothing else to whitespace. */
  ghost predicate KeepsSpace(f: char -> char) {
    forall c :: IsSpace(f(c)) <==> IsSpace(c)
  }

  /** A character map that keeps whitespace commutes with `trim`. */
  lemma TrimMap(s: string, f: char -> char)
    requires KeepsSpace(f)
    ensures Trim(MapChars(s, f)) == MapChars(Trim(s), f)
  {
    var a, b := TrimSplit(s);
    var r := Trim(s);
    MapCharsAppend(a, r, f);
    MapCharsAppend(a + r, b, f);
    var ma, mr, mb := MapChars(a, f), MapChars(r, f), MapChars(b, f);
    assert AllSpace(ma) && AllSpace(mb) by {
      assert forall k :: 0 <= k < |a| ==> IsSpace(a[k]) && ma[k] == f(a[k]);
      assert forall k :: 0 <= k < |b| ==> IsSpace(b[k]) && mb[k] == f(b[k]);
    }
    assert NoSpaceAtEnds(mr) by {
      if |r| > 0 {
        assert mr[0] == f(r[0]) && mr[|r| - 1] == f(r[|r| - 1]);
      }
    }
    TrimOf(ma, mr, mb);
  }

  // ------------------------------------------------------------- lower case

  /** `char::to_lowercase` on ASCII letters; every other character is kept. */
  function LowerChar(c: char): char {
    if 'A' <= c <= 'Z' then (c as int + 32) as char else c
  }

  function Lower(s: string): (r: string)
    ensures |r| == |s|
  {
    MapChars(s, LowerChar)
  }

  /** A string with no upper-case ASCII letter. */
  predicate IsLower(s: string) {
    forall i :: 0 <= i < |s| ==> !('A' <= s[i] <= 'Z')
  }

  lemma LowerOfLower(s: string)
    requires IsLower(s)
    ensures Lower(s) == s
  {
    assert forall i :: 0 <= i < |s| ==> Lower(s)[i] == s[i];
  }

  lemma LowerIdempotent(s: string)
    ensures Lower(Lower(s)) == Lower(s)
  {
    assert forall i :: 0 <= i < |s| ==> Lower(Lower(s))[i] == Lower(s)[i];
  }

  /** Lower-casing keeps whitespace where it is, so it commutes with `trim`. */
  lemma TrimLower(s: string)
    ensures Trim(Lower(s)) == Lower(Trim(s))
  {
    TrimMap(s, LowerChar);
  }

  // ------------------------------------------------------------- replacing

  /** `str::replace`: every non-overlapping occurrence of `pat`, searched from
      the left, is replaced by `rep`. */
  function ReplaceAll(s: string, pat: string, rep: string): string
    requires |pat| > 0
    decreases |s|
  {
    if |s| < |pat| then s
    else if s[..|pat|] == pat then rep + ReplaceAll(s[|pat|..], pat, rep)
    else [s[0]] + ReplaceAll(s[1..], pat, rep)
  }

  /** With nothing to replace, `replace` gives its input back. */
  lemma {:induction false} ReplaceAllAbsent(s: string, pat: string, rep: string)
    requires |pat| > 0 && pat[0] !in s
    ensures ReplaceAll(s, pat, rep) == s
  {
    if |s| >= |pat| {
      assert s[..|pat|][0] == s[0];
      ReplaceAllAbsent(s[1..], pat, rep);
    }
  }

  /** A prefix holding no first character of `pat` is copied unchanged. */
  lemma {:induction false} ReplaceAllPrefix(a: string, b: string, pat: string, rep: string)
    requires |pat| > 0 && pat[0] !in a
    ensures ReplaceAll(a + b, pat, rep) == a + ReplaceAll(b, pat, rep)
  {
    if a != [] {
      var s := a + b;
      if |s| >= |pat| {
        assert s[..|pat|][0] == a[0];
        assert s[1..] == a[1..] + b;
        ReplaceAllPrefix(a[1..], b, pat, rep);
      }
    } else {
      assert a + b == b;
    }
  }

  /** The character map that turns `c` into `d` and keeps everything else. */
  function Subst(c: char, d: char): char -> char {
    x => if x == c then d else x
  }

  /** Replacing a one-character pattern by a one-character string substitutes
      that character everywhere. */
  lemma {:induction false} ReplaceAllChar(s: string, c: char, d: char)
    ensures ReplaceAll(s, [c], [d]) == MapChars(s, Subst(c, d))
  {
    if s != [] {
      assert MapChars(s, Subst(c, d)) == [Subst(c, d)(s[0])] + MapChars(s[1..], Subst(c, d));
      ReplaceAllChar(s[1..], c, d);
    }
  }

  lemma MapCharsAppend(a: string, b: string, f: char -> char)
    ensures MapChars(a + b, f) == MapChars(a, f) + MapChars(b, f)
  {
  }

  /** A character map that fixes the characters of `pat` and `rep`, and sends
      no other character into `pat`, commutes with replacing `pat` by `rep`. */
  lemma {:induction false} ReplaceAllMap(s: string, f: char -> char, pat: string, rep: string)
    requires |pat| > 0
    requires forall c :: c in pat + rep ==> f(c) == c
    requires forall c :: f(c) in pat ==> f(c) == c
    ensures ReplaceAll(MapChars(s, f), pat, rep) == MapChars(ReplaceAll(s, pat, rep), f)
    decreases |s|
  {
    var m := MapChars(s, f);
    if |s| >= |pat| {
      assert MapChars(rep, f) == rep by {
        assert forall i :: 0 <= i < |rep| ==> rep[i] in pat + rep;
      }
      if s[..|pat|] == pat {
        assert m[..|pat|] == pat by {
          assert forall i :: 0 <= i < |pat| ==> pat[i] in pat + rep;
        }
        assert m[|pat|..] == MapChars(s[|pat|..], f);
        ReplaceAllMap(s[|pat|..], f, pat, rep);
        MapCharsAppend(rep, ReplaceAll(s[|pat|..], pat, rep), f);
      } else {
        assert exists i :: 0 <= i < |pat| && s[..|pat|][i] != pat[i];
        var i :| 0 <= i < |pat| && s[i] != pat[i];
        assert pat[i] in pat;
        assert m[..|pat|][i] != pat[i];
        assert m[1..] == MapChars(s[1..], f);
        ReplaceAllMap(s[1..], f, pat, rep);
        MapCharsAppend([s[0]], ReplaceAll(s[1..], pat, rep), f);
      }
    }
  }

  // ----------------------------------------------------------------- digits

  predicate IsDigit(c: char) {
    '0' <= c <= '9'
  }

  predicate AllDigits(s: string) {
    forall i :: 0 <= i < |s| ==> IsDigit(s[i])
  }

  function DigitValue(c: char): nat
    requires IsDigit(c)
  {
    c as int - '0' as int
  }

  function DigitChar(d: nat): (c: char)
    requires d < 10
    ensures IsDigit(c) && DigitValue(c) == d
  {
    ('0' as int + d) as char
  }

  /** The number a decimal digit string denotes; the empty string denotes 0. */
  function DigitsValue(s: string): nat
    requires AllDigits(s)
  {
    if s == [] then 0 else DigitsValue(s[..|s| - 1]) * 10 + DigitValue(s[|s| - 1])
  }

  /** Rust's `{}` formatting of a non-negative integer: decimal digits with no
      leading zero, except for 0 itself. */
  function NatToString(n: nat): (r: string)
    ensures |r| > 0 && AllDigits(r)
    ensures r[0] == '0' ==> r == "0"
  {
    if n < 10 then [DigitChar(n)] else NatToString(n / 10) + [DigitChar(n % 10)]
  }

  /** Parsing the rendered digits gives the number back. */
  lemma {:induction false} NatToStringValue(n: nat)
    ensures DigitsValue(NatToString(n)) == n
  {
    if n >= 10 {
      var s := NatToString(n);
      assert s[..|s| - 1] == NatToString(n / 10);
      NatToStringValue(n / 10);
    }
  }

  /** Rendering is injective: distinct numbers have distinct renderings. */
  lemma NatToStringInjective(m: nat, n: nat)
    requires NatToString(m) == NatToString(n)
    ensures m == n
  {
    NatToStringValue(m);
    NatToStringValue(n);
  }
}
