/** String helpers with Python's meaning: `startswith`, `endswith`, `in`, `split`,
    `replace(c, "")`, `str(n)`, `zfill`, `lower`, `upper`, `strip` and `<` on `str`. */
module Text {

  predicate IsDigit(c: char) { '0' <= c <= '9' }

  predicate AllDigits(s: string) { forall i :: 0 <= i < |s| ==> IsDigit(s[i]) }

  function DigitValue(c: char): nat requires IsDigit(c) { (c as int) - ('0' as int) }

  function DigitChar(d: nat): (c: char)
    requires d < 10
    ensures IsDigit(c) && DigitValue(c) == d
  {
    (('0' as int) + d) as char
  }

  /** The integer a string of ASCII digits denotes (Python's `int(s)` on such a string). */
  function ParseNat(s: string): nat
    requires AllDigits(s)
  {
    if s == [] then 0 else 10 * ParseNat(s[..|s| - 1]) + DigitValue(s[|s| - 1])
  }

  /** Python's `str(n)` for a non-negative integer. */
  function NatToString(n: nat): (s: string)
    ensures AllDigits(s) && s != []
    ensures n >= 10 ==> s[0] != '0'
    decreases n
  {
    if n < 10 then [DigitChar(n)] else NatToString(n / 10) + [DigitChar(n % 10)]
  }

  lemma {:induction false} ParseNatToString(n: nat)
    ensures ParseNat(NatToString(n)) == n
    decreases n
  {
    if n >= 10 {
      var s := NatToString(n);
      assert s[..|s| - 1] == NatToString(n / 10);
      ParseNatToString(n / 10);
    }
  }

  /** `a + b` where `a` is made of `n` zeros. */
  function Zeros(n: nat): (s: string)
    ensures |s| == n && forall i :: 0 <= i < n ==> s[i] == '0'
  {
    if n == 0 then [] else Zeros(n - 1) + ['0']
  }

  /** Python's `s.zfill(width)` for a string without a leading sign. */
  function ZFill(s: string, width: nat): (r: string)
    ensures |s| >= width ==> r == s
    ensures |s| < width ==> |r| == width
    ensures |r| >= |s| && r[|r| - |s|..] == s
    ensures forall i :: 0 <= i < |r| - |s| ==> r[i] == '0'
  {
    if |s| >= width then s else Zeros(width - |s|) + s
  }

  lemma ZFillDigits(s: string, width: nat)
    requires AllDigits(s)
    ensures AllDigits(ZFill(s, width))
    ensures ParseNat(ZFill(s, width)) == ParseNat(s)
  {
    if |s| < width {
      ParseNatZeroPrefix(Zeros(width - |s|), s);
    }
  }

  lemma {:induction false} ParseNatZeroPrefix(z: string, s: string)
    requires forall i :: 0 <= i < |z| ==> z[i] == '0'
    requires AllDigits(s)
    ensures AllDigits(z + s) && ParseNat(z + s) == ParseNat(s)
    decreases |s|
  {
    if s == [] {
      assert z + s == z;
      ParseNatAllZeros(z);
    } else {
      assert (z + s)[..|z + s| - 1] == z + s[..|s| - 1];
      ParseNatZeroPrefix(z, s[..|s| - 1]);
    }
  }

  lemma {:induction false} ParseNatAllZeros(z: string)
    requires forall i :: 0 <= i < |z| ==> z[i] == '0'
    ensures AllDigits(z) && ParseNat(z) == 0
    decreases |z|
  {
    if z != [] {
      ParseNatAllZeros(z[..|z| - 1]);
    }
  }

  /** `str(n).zfill(2)`, the two-digit fields of a date or time (see Pad2IsZFill). */
  function Pad2(n: nat): (s: string)
    requires n < 100
    ensures |s| == 2 && AllDigits(s) && ParseNat(s) == n
  {
    var s := [DigitChar(n / 10), DigitChar(n % 10)];
    assert s[..1] == [DigitChar(n / 10)] && s[..1][..0] == [];
    assert ParseNat(s[..1]) == n / 10;
    s
  }

  lemma Pad2IsZFill(n: nat)
    requires n < 100
    ensures Pad2(n) == ZFill(NatToString(n), 2)
  {
  }

  /** Python's `s[i:j]` for non-negative bounds: both are clipped to the text. */
  function Slice(s: string, i: nat, j: nat): (r: string)
    ensures |r| <= |s|
    ensures i <= j <= |s| ==> r == s[i..j]
  {
    var a := if i < |s| then i else |s|;
    var b := if j < |s| then j else |s|;
    if a <= b then s[a..b] else []
  }

  predicate StartsWith(s: string, p: string) { |p| <= |s| && s[..|p|] == p }

  predicate EndsWith(s: string, p: string) { |p| <= |s| && s[|s| - |p|..] == p }

  /** Python's `p in s` for strings. */
  predicate Contains(s: string, p: string) {
    exists i {:trigger s[i..]} :: 0 <= i <= |s| - |p| && s[i..i + |p|] == p
  }

  /** Python's `s.replace(c, "")` for a one-character pattern. */
  function RemoveChar(s: string, c: char): (r: string)
    ensures c !in r
    ensures |r| <= |s|
    ensures forall x :: x != c ==> (x in r <==> x in s)
  {
    if s == [] then [] else (if s[0] == c then [] else [s[0]]) + RemoveChar(s[1..], c)
  }

  lemma {:induction false} RemoveCharAbsent(s: string, c: char)
    requires c !in s
    ensures RemoveChar(s, c) == s
  {
    if s != [] {
      RemoveCharAbsent(s[1..], c);
    }
  }

  /** Removing a character distributes over concatenation. */
  lemma {:induction false} RemoveCharConcat(a: string, b: string, c: char)
    ensures RemoveChar(a + b, c) == RemoveChar(a, c) + RemoveChar(b, c)
    decreases |a|
  {
    if a != [] {
      assert (a + b)[1..] == a[1..] + b;
      RemoveCharConcat(a[1..], b, c);
    } else {
      assert a + b == b;
    }
  }

  /** Index of the first `c` in `s`, if any. */
  function IndexOf(s: string, c: char): (r: int)
    ensures -1 <= r < |s|
    ensures r == -1 <==> c !in s
    ensures r >= 0 ==> s[r] == c && c !in s[..r]
  {
    if s == [] then -1
    else if s[0] == c then 0
    else
      var k := IndexOf(s[1..], c);
      assert s[1..][..k + 1] == s[1..k + 2] by { }
      if k == -1 then -1 else k + 1
  }

  /** Python's `s.split(c)` for a one-character separator. */
  function Split(s: string, c: char): (parts: seq<string>)
    ensures |parts| >= 1
    ensures forall k :: 0 <= k < |parts| ==> c !in parts[k]
    decreases |s|
  {
    var i := IndexOf(s, c);
    if i == -1 then [s] else [s[..i]] + Split(s[i + 1..], c)
  }

  /** `c.join(parts)`. */
  function Join(parts: seq<string>, c: char): string
    requires |parts| >= 1
  {
    if |parts| == 1 then parts[0] else parts[0] + [c] + Join(parts[1..], c)
  }

  /** Parts without the separator are read back from their join. */
  lemma {:induction false} SplitJoin(parts: seq<string>, c: char)
    requires |parts| >= 1 && forall i :: 0 <= i < |parts| ==> c !in parts[i]
    ensures Split(Join(parts, c), c) == parts
    decreases |parts|
  {
    if |parts| == 1 {
      assert IndexOf(parts[0], c) == -1;
    } else {
      var head, tail := parts[0], parts[1..];
      assert forall i :: 0 <= i < |tail| ==> c !in tail[i] by {
        forall i | 0 <= i < |tail| ensures c !in tail[i] {
          assert tail[i] == parts[i + 1];
        }
      }
      var rest := Join(tail, c);
      var s := head + [c] + rest;
      assert Join(parts, c) == s;
      assert IndexOf(s, c) == |head| by {
        assert s[..|head|] == head && s[|head|] == c;
        IndexOfPrefix(s, head, c);
      }
      assert s[..|head|] == head && s[|head| + 1..] == rest;
      SplitJoin(tail, c);
      assert parts == [head] + tail;
    }
  }

  lemma {:induction false} JoinSplit(s: string, c: char)
    ensures Join(Split(s, c), c) == s
    decreases |s|
  {
    var i := IndexOf(s, c);
    if i != -1 {
      var rest := Split(s[i + 1..], c);
      assert Join(Split(s, c), c) == s[..i] + [c] + Join(rest, c) by {
        var parts := [s[..i]] + rest;
        assert Split(s, c) == parts;
        assert parts[1..] == rest;
      }
      JoinSplit(s[i + 1..], c);
      assert s == s[..i] + [c] + s[i + 1..];
    }
  }

  /** Splitting a text that starts with `p + [c]`, where `p` has no `c`, gives `p` first and
      the text up to the next `c` second. */
  lemma SplitAfterPrefix(s: string, p: string, c: char)
    requires StartsWith(s, p + [c]) && c !in p
    ensures |Split(s, c)| >= 2
    ensures Split(s, c)[0] == p
    ensures var rest := s[|p| + 1..];
            var j := IndexOf(rest, c);
            Split(s, c)[1] == if j == -1 then rest else rest[..j]
  {
    assert s[..|p| + 1] == p + [c];
    assert forall k :: 0 <= k < |p| ==> s[k] == p[k];
    assert IndexOf(s, c) == |p| by {
      IndexOfPrefix(s, p, c);
    }
    assert s[..|p|] == p;
  }

  lemma {:induction false} IndexOfPrefix(s: string, p: string, c: char)
    requires |p| < |s| && s[..|p|] == p && s[|p|] == c && c !in p
    ensures IndexOf(s, c) == |p|
    decreases |p|
  {
    if p != [] {
      assert s[0] == p[0];
      assert s[1..][..|p| - 1] == p[1..];
      IndexOfPrefix(s[1..], p[1..], c);
    }
  }

  /** The last part of `a + [c] + b`, split at `c`, is `b` when `b` has no `c`: Python's
      `s.split(c)[-1]` is the text after the last separator. */
  lemma {:induction false} SplitLast(a: string, b: string, c: char)
    requires c !in b
    ensures var parts := Split(a + [c] + b, c); parts[|parts| - 1] == b
    decreases |a|
  {
    if c in a {
      var j := IndexOf(a, c);
      var tail := Split(a[j + 1..] + [c] + b, c);
      SplitLastStep(a, b, c, j);
      SplitLast(a[j + 1..], b, c);
      assert ([a[..j]] + tail)[|tail|] == tail[|tail| - 1];
    } else {
      SplitLastBase(a, b, c);
    }
  }

  lemma SplitLastStep(a: string, b: string, c: char, j: nat)
    requires j < |a| && a[j] == c && c !in a[..j]
    ensures Split(a + [c] + b, c) == [a[..j]] + Split(a[j + 1..] + [c] + b, c)
  {
    var s := a + [c] + b;
    assert s[..j] == a[..j];
    SplitAtFirst(s, j, c);
    assert s[j + 1..] == a[j + 1..] + [c] + b;
  }

  lemma SplitLastBase(a: string, b: string, c: char)
    requires c !in a && c !in b
    ensures Split(a + [c] + b, c) == [a, b]
  {
    var s := a + [c] + b;
    assert s[..|a|] == a;
    SplitAtFirst(s, |a|, c);
    assert s[|a| + 1..] == b;
    assert Split(b, c) == [b];
  }

  /** Splitting at the first separator. */
  lemma SplitAtFirst(s: string, j: nat, c: char)
    requires j < |s| && s[j] == c && c !in s[..j]
    ensures Split(s, c) == [s[..j]] + Split(s[j + 1..], c)
  {
    IndexOfPrefix(s, s[..j], c);
  }

  function LowerChar(c: char): char {
    if 'A' <= c <= 'Z' then ((c as int) + 32) as char else c
  }

  function UpperChar(c: char): char {
    if 'a' <= c <= 'z' then ((c as int) - 32) as char else c
  }

  /** `s.lower()` restricted to the ASCII letters. */
  function Lower(s: string): (r: string)
    ensures |r| == |s| && forall i :: 0 <= i < |s| ==> r[i] == LowerChar(s[i])
  {
    if s == [] then [] else [LowerChar(s[0])] + Lower(s[1..])
  }

  /** `s.upper()` restricted to the ASCII letters. */
  function Upper(s: string): (r: string)
    ensures |r| == |s| && forall i :: 0 <= i < |s| ==> r[i] == UpperChar(s[i])
  {
    if s == [] then [] else [UpperChar(s[0])] + Upper(s[1..])
  }

  /** The characters `str.strip()` removes: the ASCII and Latin-1 whitespace and the
      Unicode space separators. */
  predicate IsSpace(c: char) {
    c == ' ' || c == '\t' || c == '\n' || c == '\r' || c == '\U{B}' || c == '\U{C}'
    || ('\U{1C}' <= c <= '\U{1F}') || c == '\U{85}' || c == '\U{A0}' || c == '\U{1680}'
    || ('\U{2000}' <= c <= '\U{200A}') || c == '\U{2028}' || c == '\U{2029}' || c == '\U{202F}'
    || c == '\U{205F}' || c == '\U{3000}'
  }

  function StripLeft(s: string): (r: string)
    ensures |r| <= |s| && r == s[|s| - |r|..]
    ensures r == [] || !IsSpace(r[0])
    ensures forall i :: 0 <= i < |s| - |r| ==> IsSpace(s[i])
  {
    if s != [] && IsSpace(s[0]) then StripLeft(s[1..]) else s
  }

  function StripRight(s: string): (r: string)
    ensures |r| <= |s| && r == s[..|r|]
    ensures r == [] || !IsSpace(r[|r| - 1])
    ensures forall i :: |r| <= i < |s| ==> IsSpace(s[i])
  {
    if s != [] && IsSpace(s[|s| - 1]) then StripRight(s[..|s| - 1]) else s
  }

  /** Python's `s.strip()`. */
  function Strip(s: string): string { StripRight(StripLeft(s)) }

  lemma StripEmptyIffAllSpace(s: string)
    ensures Strip(s) == [] <==> forall i :: 0 <= i < |s| ==> IsSpace(s[i])
  {
    var l := StripLeft(s);
    if !forall i :: 0 <= i < |s| ==> IsSpace(s[i]) {
      var i :| 0 <= i < |s| && !IsSpace(s[i]);
      assert l != [];
      assert !IsSpace(l[0]);
    }
  }

  /** Python's `a < b` on strings: lexicographic by code point. */
  predicate StrLess(a: string, b: string)
    decreases |a|
  {
    if a == [] then b != []
    else if b == [] then false
    else if a[0] != b[0] then a[0] < b[0]
    else StrLess(a[1..], b[1..])
  }

  predicate StrLessEq(a: string, b: string) { a == b || StrLess(a, b) }

  lemma {:induction false} StrLessIrreflexive(a: string)
    ensures !StrLess(a, a)
    decreases |a|
  {
    if a != [] {
      StrLessIrreflexive(a[1..]);
    }
  }

  lemma {:induction false} StrLessTransitive(a: string, b: string, c: string)
    requires StrLess(a, b) && StrLess(b, c)
    ensures StrLess(a, c)
    decreases |a|
  {
    if a != [] && b != [] && c != [] && a[0] == b[0] && b[0] == c[0] {
      StrLessTransitive(a[1..], b[1..], c[1..]);
    }
  }

  lemma {:induction false} StrLessTotal(a: string, b: string)
    ensures a == b || StrLess(a, b) || StrLess(b, a)
    decreases |a|
  {
    if a != [] && b != [] && a[0] == b[0] {
      StrLessTotal(a[1..], b[1..]);
      if a[1..] == b[1..] {
        assert a == [a[0]] + a[1..] && b == [b[0]] + b[1..];
      }
    }
  }

  lemma {:induction false} StrLessAsymmetric(a: string, b: string)
    requires StrLess(a, b)
    ensures !StrLess(b, a)
    decreases |a|
  {
    if a != [] && b != [] && a[0] == b[0] {
      StrLessAsymmetric(a[1..], b[1..]);
    }
  }

  /** Two digit strings of equal length compare as the numbers they denote. */
  lemma {:induction false} StrLessDigits(a: string, b: string)
    requires |a| == |b| && AllDigits(a) && AllDigits(b)
    ensures StrLess(a, b) <==> ParseNat(a) < ParseNat(b)
    decreases |a|
  {
    if a != [] {
      ParseNatBound(a[1..]);
      ParseNatBound(b[1..]);
      ParseNatHead(a);
      ParseNatHead(b);
      if a[0] == b[0] {
        StrLessDigits(a[1..], b[1..]);
      } else if a[0] < b[0] {
        LeadingDigitDominates(DigitValue(a[0]), DigitValue(b[0]), Pow10(|a| - 1),
                              ParseNat(a[1..]), ParseNat(b[1..]));
      } else {
        LeadingDigitDominates(DigitValue(b[0]), DigitValue(a[0]), Pow10(|a| - 1),
                              ParseNat(b[1..]), ParseNat(a[1..]));
      }
    }
  }

  lemma LeadingDigitDominates(da: nat, db: nat, p: nat, ta: nat, tb: nat)
    requires da < db && ta < p && tb < p
    ensures da * p + ta < db * p + tb
  {
    assert (da + 1) * p <= db * p;
  }

  function Pow10(k: nat): (p: nat) ensures p >= 1 { if k == 0 then 1 else 10 * Pow10(k - 1) }

  lemma Pow10Pos(k: nat) ensures Pow10(k) >= 1 { }

  lemma {:induction false} ParseNatBound(s: string)
    requires AllDigits(s)
    ensures ParseNat(s) < Pow10(|s|)
    decreases |s|
  {
    if s != [] {
      ParseNatBound(s[..|s| - 1]);
    }
  }

  /** A number below `10^k` prints in at most `k` digits. */
  lemma {:induction false} NatToStringBound(n: nat, k: nat)
    requires k >= 1 && n < Pow10(k)
    ensures |NatToString(n)| <= k
    decreases n
  {
    if n >= 10 {
      assert k >= 2;
      assert Pow10(k) == 10 * Pow10(k - 1);
      assert n / 10 < Pow10(k - 1);
      NatToStringBound(n / 10, k - 1);
      assert NatToString(n) == NatToString(n / 10) + [DigitChar(n % 10)];
    }
  }

  /** Two digit strings of one length with one value are the same string. */
  lemma {:induction false} ParseNatUnique(a: string, b: string)
    requires AllDigits(a) && AllDigits(b) && |a| == |b| && ParseNat(a) == ParseNat(b)
    ensures a == b
    decreases |a|
  {
    if a != [] {
      var n := |a|;
      var a0, b0 := a[..n - 1], b[..n - 1];
      assert DigitValue(a[n - 1]) == DigitValue(b[n - 1]) && ParseNat(a0) == ParseNat(b0);
      ParseNatUnique(a0, b0);
      assert a == a0 + [a[n - 1]] && b == b0 + [b[n - 1]];
    }
  }

  /** The leading digit's weight: `int(s) == d * 10^(n-1) + int(s[1:])`. */
  lemma {:induction false} ParseNatHead(s: string)
    requires AllDigits(s) && s != []
    ensures ParseNat(s) == DigitValue(s[0]) * Pow10(|s| - 1) + ParseNat(s[1..])
    decreases |s|
  {
    if |s| > 1 {
      var t := s[..|s| - 1];
      var u := s[1..];
      ParseNatHead(t);
      assert ParseNat(u) == 10 * ParseNat(t[1..]) + DigitValue(s[|s| - 1]) by {
        assert t[1..] == u[..|u| - 1];
        assert u[|u| - 1] == s[|s| - 1];
      }
      assert ParseNat(s) == 10 * ParseNat(t) + DigitValue(s[|s| - 1]);
      assert t[0] == s[0];
      assert Pow10(|s| - 1) == 10 * Pow10(|s| - 2);
      Regroup(DigitValue(s[0]), Pow10(|s| - 2), ParseNat(t[1..]), DigitValue(s[|s| - 1]));
    }
  }

  lemma Regroup(a: int, p: int, b: int, d: int)
    ensures 10 * (a * p + b) + d == a * (10 * p) + (10 * b + d)
  {
  }

  /** Comparing two texts whose leading parts have one length compares the leading parts
      first and the rest only when they agree. */
  lemma {:induction false} StrLessConcat(a1: string, a2: string, b1: string, b2: string)
    requires |a1| == |b1|
    ensures StrLess(a1 + a2, b1 + b2) <==> StrLess(a1, b1) || (a1 == b1 && StrLess(a2, b2))
    decreases |a1|
  {
    if a1 == [] {
      assert a1 + a2 == a2 && b1 + b2 == b2;
    } else {
      assert (a1 + a2)[0] == a1[0] && (b1 + b2)[0] == b1[0];
      assert (a1 + a2)[1..] == a1[1..] + a2 && (b1 + b2)[1..] == b1[1..] + b2;
      StrLessConcat(a1[1..], a2, b1[1..], b2);
      assert a1 == [a1[0]] + a1[1..] && b1 == [b1[0]] + b1[1..];
    }
  }

  /** Digit texts of one length are equal exactly when their values are. */
  lemma DigitsEqual(a: string, b: string)
    requires AllDigits(a) && AllDigits(b) && |a| == |b|
    ensures a == b <==> ParseNat(a) == ParseNat(b)
  {
    if ParseNat(a) == ParseNat(b) {
      ParseNatUnique(a, b);
    }
  }
}
