/**
 * String helpers with Python's meaning: decimal digits and zero padding
 * (str(n), strftime's numeric fields), str.strip, str.lower on ASCII,
 * str.endswith, str.replace(c, ''), int(s) on a str, and the order
 * Python's `<` puts on strings.
 */
module Text {
  import opened Wrappers

  predicate IsDigit(c: char) { '0' <= c <= '9' }

  function DigitValue(c: char): (n: nat)
    requires IsDigit(c)
    ensures n < 10
  {
    c as int - '0' as int
  }

  function DigitChar(n: nat): (c: char)
    requires n < 10
    ensures IsDigit(c) && DigitValue(c) == n
  {
    ('0' as int + n) as char
  }

  predicate AllDigits(s: string) {
    forall i :: 0 <= i < |s| ==> IsDigit(s[i])
  }

  function Pow10(w: nat): (p: nat)
    ensures p >= 1
  {
    if w == 0 then 1 else 10 * Pow10(w - 1)
  }

  /** The number a string of decimal digits denotes, most significant digit first. */
  function DigitsValue(s: string): nat
    requires AllDigits(s)
  {
    if s == [] then 0 else DigitsValue(s[..|s| - 1]) * 10 + DigitValue(s[|s| - 1])
  }

  /** The last `w` decimal digits of `n`, zero-padded on the left (strftime's %Y, %m, %d, ...). */
  function Pad(n: nat, w: nat): (s: string)
    ensures |s| == w && AllDigits(s)
  {
    if w == 0 then "" else Pad(n / 10, w - 1) + [DigitChar(n % 10)]
  }

  /** Number of decimal digits Python's str(n) prints. */
  function NumDigits(n: nat): (w: nat)
    ensures 1 <= w && n < Pow10(w)
  {
    if n < 10 then 1 else 1 + NumDigits(n / 10)
  }

  /** Python's str(n) for a natural number. */
  function NatToString(n: nat): (s: string)
    ensures |s| >= 1 && AllDigits(s) && DigitsValue(s) == n
  {
    PadValue(n, NumDigits(n));
    Pad(n, NumDigits(n))
  }

  /** Python's str(i) (and f"{i}") for an int. */
  function IntToString(i: int): string {
    if i < 0 then "-" + NatToString(-i) else NatToString(i)
  }

  /** The characters Python's str.isspace accepts, which str.strip() removes. */
  predicate IsSpace(c: char) {
    || c == ' ' || ('\t' <= c <= '\r') || ('\U{1c}' <= c <= '\U{1f}')
    || c == '\U{85}' || c == '\U{a0}' || c == '\U{1680}' || ('\U{2000}' <= c <= '\U{200a}')
    || c == '\U{2028}' || c == '\U{2029}' || c == '\U{202f}' || c == '\U{205f}' || c == '\U{3000}'
  }

  function StripLeft(s: string): (r: string)
    ensures |r| <= |s| && r == s[|s| - |r|..]
    ensures forall k :: 0 <= k < |s| - |r| ==> IsSpace(s[k])
    ensures r == [] || !IsSpace(r[0])
  {
    if s != [] && IsSpace(s[0]) then
      var r := StripLeft(s[1..]);
      assert s[1..][|s| - 1 - |r|..] == s[|s| - |r|..];
      r
    else s
  }

  function StripRight(s: string): (r: string)
    ensures |r| <= |s| && r == s[..|r|]
    ensures forall k :: |r| <= k < |s| ==> IsSpace(s[k])
    ensures r == [] || !IsSpace(r[|r| - 1])
  {
    if s != [] && IsSpace(s[|s| - 1]) then StripRight(s[..|s| - 1]) else s
  }

  /** Python's str.strip(): the input without its leading and trailing whitespace. */
  function Strip(s: string): (r: string)
    ensures r == [] || (!IsSpace(r[0]) && !IsSpace(r[|r| - 1]))
  {
    StripRight(StripLeft(s))
  }

  /**
   * str.strip() removes whitespace and nothing else, and only at the ends: the result is
   * the slice s[i..j] of the input, with only whitespace outside it.
   */
  lemma StripRemovesOnlySpace(s: string) returns (i: nat, j: nat)
    ensures i <= j <= |s| && Strip(s) == s[i..j]
    ensures forall k :: 0 <= k < i ==> IsSpace(s[k])
    ensures forall k :: j <= k < |s| ==> IsSpace(s[k])
  {
    var left := StripLeft(s);
    var r := StripRight(left);
    i := |s| - |left|;
    j := i + |r|;
    SliceOfDrop(s, i, |r|);
    forall k | j <= k < |s|
      ensures IsSpace(s[k])
    {
      assert s[k] == left[k - i];
    }
  }

  /** str.strip() gives the empty string exactly when the input is all whitespace. */
  lemma StripEmpty(s: string)
    ensures Strip(s) == [] <==> forall k :: 0 <= k < |s| ==> IsSpace(s[k])
  {
    var left := StripLeft(s);
    var r := StripRight(left);
    var i := |s| - |left|;
    assert left == s[i..] && r == left[..|r|];
    if r == [] {
      forall k | i <= k < |s|
        ensures IsSpace(s[k])
      {
        assert s[k] == left[k - i];
      }
    } else {
      assert r[0] == s[i] && !IsSpace(r[0]);
    }
  }

  function LowerChar(c: char): char {
    if 'A' <= c <= 'Z' then (c as int + 32) as char else c
  }

  /** Python's str.lower() restricted to ASCII letters. */
  function Lower(s: string): (r: string)
    ensures |r| == |s|
    ensures forall i :: 0 <= i < |s| ==> r[i] == LowerChar(s[i])
  {
    if s == [] then [] else [LowerChar(s[0])] + Lower(s[1..])
  }

  predicate EndsWith(s: string, suffix: string) {
    |suffix| <= |s| && s[|s| - |suffix|..] == suffix
  }

  /** Python's s.replace(c, ''). */
  function RemoveAll(s: string, c: char): (r: string)
    ensures forall k :: 0 <= k < |r| ==> r[k] != c
    ensures (forall k :: 0 <= k < |s| ==> IsDigit(s[k]) || s[k] == c) ==> AllDigits(r)
    ensures (forall k :: 0 <= k < |s| ==> s[k] != c) ==> r == s
  {
    if s == [] then []
    else (if s[0] == c then [] else [s[0]]) + RemoveAll(s[1..], c)
  }

  /** Python's `a < b` on str: the first differing character decides, and a proper prefix is smaller. */
  predicate LexLess(a: string, b: string) {
    if a == [] then b != []
    else if b == [] then false
    else if a[0] != b[0] then a[0] < b[0]
    else LexLess(a[1..], b[1..])
  }

  /** Digits with single underscores between them, which Python's int() accepts as the body of a literal. */
  predicate IsDigitGroups(s: string) {
    && |s| > 0 && IsDigit(s[0]) && IsDigit(s[|s| - 1])
    && (forall i :: 0 <= i < |s| ==> IsDigit(s[i]) || s[i] == '_')
    && (forall i, j :: 0 <= i < |s| && 0 <= j < |s| && j == i + 1 ==> s[i] != '_' || s[j] != '_')
  }

  /** The unsigned body of an int() literal: digit groups, read with the underscores dropped. */
  function ParseUnsigned(body: string): Option<nat> {
    if IsDigitGroups(body) then Some(DigitsValue(RemoveAll(body, '_'))) else None
  }

  /** Python's int(s) for a str `s`: None stands for the ValueError it raises. */
  function ParseInt(s: string): Option<int> {
    var t := Strip(s);
    if |t| > 0 && t[0] == '-' then
      match ParseUnsigned(t[1..])
      case Some(n) => var v: int := 0 - n; Some(v)
      case None => None
    else
      match ParseUnsigned(if |t| > 0 && t[0] == '+' then t[1..] else t)
      case Some(n) => Some(n)
      case None => None
  }

  // ---------------------------------------------------------------- lemmas

  // Facts about sequences, proved apart from the string functions so that their
  // extensionality arguments do not run in the larger contexts that use them.

  lemma AppendAssoc(a: string, b: string, c: string)
    ensures a + (b + c) == (a + b) + c
  {
  }

  lemma DropHead(a: string, b: string)
    requires a != []
    ensures (a + b)[0] == a[0] && (a + b)[1..] == a[1..] + b
  {
  }

  lemma SliceOfDrop(s: string, i: nat, n: nat)
    requires i + n <= |s|
    ensures s[i..][..n] == s[i..i + n]
  {
  }

  /** A zero-padded field of width `w` denotes the number it was made from, when that number fits. */
  lemma {:induction false} PadValue(n: nat, w: nat)
    requires n < Pow10(w)
    ensures DigitsValue(Pad(n, w)) == n
  {
    if w > 0 {
      PadValue(n / 10, w - 1);
      var s := Pad(n, w);
      assert s[..w - 1] == Pad(n / 10, w - 1);
    }
  }

  lemma PadInjective(n: nat, m: nat, w: nat)
    requires n < Pow10(w) && m < Pow10(w)
    ensures Pad(n, w) == Pad(m, w) <==> n == m
  {
    PadValue(n, w);
    PadValue(m, w);
  }

  /** Zero-padded fields of one width compare as strings exactly as their numbers compare. */
  lemma {:induction false} PadOrder(n: nat, m: nat, w: nat)
    requires n < Pow10(w) && m < Pow10(w)
    ensures LexLess(Pad(n, w), Pad(m, w)) <==> n < m
  {
    if w > 0 {
      PadOrder(n / 10, m / 10, w - 1);
      PadInjective(n / 10, m / 10, w - 1);
      LexLessConcat(Pad(n / 10, w - 1), [DigitChar(n % 10)], Pad(m / 10, w - 1), [DigitChar(m % 10)]);
    }
  }

  /** Comparing two concatenations whose first parts have equal length compares the first parts, then the second. */
  lemma {:induction false} LexLessConcat(a1: string, a2: string, b1: string, b2: string)
    requires |a1| == |b1|
    ensures LexLess(a1 + a2, b1 + b2) <==> LexLess(a1, b1) || (a1 == b1 && LexLess(a2, b2))
  {
    if a1 == [] {
      assert a1 + a2 == a2 && b1 + b2 == b2;
    } else {
      assert (a1 + a2)[0] == a1[0] && (a1 + a2)[1..] == a1[1..] + a2;
      assert (b1 + b2)[0] == b1[0] && (b1 + b2)[1..] == b1[1..] + b2;
      LexLessConcat(a1[1..], a2, b1[1..], b2);
      if a1[0] == b1[0] {
        assert a1 == b1 <==> a1[1..] == b1[1..] by {
          if a1[1..] == b1[1..] { assert a1 == [a1[0]] + a1[1..] && b1 == [b1[0]] + b1[1..]; }
        }
      }
    }
  }

  lemma LexLessIrreflexive(a: string)
    ensures !LexLess(a, a)
  {
  }

  /** s.replace(c, '') leaves a string without `c` unchanged. */
  lemma {:induction false} RemoveAllAbsent(s: string, c: char)
    requires forall k :: 0 <= k < |s| ==> s[k] != c
    ensures RemoveAll(s, c) == s
  {
    if s != [] {
      RemoveAllAbsent(s[1..], c);
      assert [s[0]] + s[1..] == s;
    }
  }

  /** Removing `c` from a concatenation removes it from each part: the other characters keep their order. */
  lemma {:induction false} RemoveAllConcat(a: string, b: string, c: char)
    ensures RemoveAll(a + b, c) == RemoveAll(a, c) + RemoveAll(b, c)
  {
    if a == [] {
      assert a + b == b;
    } else {
      DropHead(a, b);
      RemoveAllConcat(a[1..], b, c);
      var head := if a[0] == c then [] else [a[0]];
      AppendAssoc(head, RemoveAll(a[1..], c), RemoveAll(b, c));
    }
  }

  /** s.replace(c, '') removes every `c` and keeps every other character as often as it occurs. */
  lemma {:induction false} RemoveAllCounts(s: string, c: char)
    ensures multiset(RemoveAll(s, c)) == multiset(s)[c := 0]
  {
    if s != [] {
      RemoveAllCounts(s[1..], c);
      assert s == [s[0]] + s[1..];
      assert multiset(s) == multiset([s[0]]) + multiset(s[1..]);
    }
  }

  /** s.replace(c, '') on `s` followed by one `c` gives back `s` when `s` holds no `c`. */
  lemma {:induction false} RemoveTrailing(s: string, c: char)
    requires forall k :: 0 <= k < |s| ==> s[k] != c
    ensures RemoveAll(s + [c], c) == s
  {
    if s == [] {
      assert [c][1..] == [];
    } else {
      assert (s + [c])[0] == s[0];
      assert (s + [c])[1..] == s[1..] + [c];
      RemoveTrailing(s[1..], c);
      assert [s[0]] + s[1..] == s;
    }
  }

  /** A string that neither starts nor ends with whitespace is left alone by str.strip(). */
  lemma StripUnchanged(s: string)
    requires s != [] && !IsSpace(s[0]) && !IsSpace(s[|s| - 1])
    ensures Strip(s) == s
  {
    assert StripLeft(s) == s;
  }

  lemma ParseUnsignedDigits(s: string)
    requires s != [] && AllDigits(s)
    ensures ParseUnsigned(s) == Some(DigitsValue(s))
  {
    assert IsDigitGroups(s);
    RemoveAllAbsent(s, '_');
  }

  /** int() reads a plain string of decimal digits as the number it denotes. */
  lemma ParseAllDigits(s: string)
    requires s != [] && AllDigits(s)
    ensures ParseInt(s) == Some(DigitsValue(s))
  {
    assert IsDigit(s[0]) && IsDigit(s[|s| - 1]);
    StripUnchanged(s);
    assert s[0] != '-' && s[0] != '+';
    ParseUnsignedDigits(s);
  }

  /** What Python's str(n) prints is read back by int(). */
  lemma ParseNatToString(n: nat)
    ensures ParseInt(NatToString(n)) == Some(n)
  {
    ParseAllDigits(NatToString(n));
  }

  /** int() reads a minus sign followed by decimal digits as the negated number. */
  lemma ParseNegatedDigits(s: string)
    requires |s| > 1 && s[0] == '-' && AllDigits(s[1..])
    ensures ParseInt(s) == Some(0 - DigitsValue(s[1..]))
  {
    assert s[|s| - 1] == s[1..][|s| - 2];
    StripUnchanged(s);
    ParseUnsignedDigits(s[1..]);
    ParseMinus(s, DigitsValue(s[1..]));
  }

  /** int() of a text that carries no surrounding whitespace and starts with a minus sign. */
  lemma ParseMinus(t: string, n: nat)
    requires Strip(t) == t && t != [] && t[0] == '-' && ParseUnsigned(t[1..]) == Some(n)
    ensures ParseInt(t) == Some(0 - n)
  {
  }

  lemma ParseNegativeToString(i: int)
    requires i < 0
    ensures ParseInt(IntToString(i)) == Some(i)
  {
    var d := NatToString(-i);
    var s := IntToString(i);
    assert s[0] == '-' && s[1..] == d by {
      assert s == "-" + d;
      DropHead("-", d);
      assert "-"[1..] == [];
    }
    ParseNegatedDigits(s);
  }

  /** int(str(i)) == i for every int: the round trip of the rain-probability text. */
  lemma {:induction false} ParseIntToString(i: int)
    ensures ParseInt(IntToString(i)) == Some(i)
  {
    if i < 0 {
      ParseNegativeToString(i);
    } else {
      ParseNatToString(i);
    }
  }
}
