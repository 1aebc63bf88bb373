/** String helpers that stand for the Python built-ins the core relies on:
    `str.strip`, `str.lower`, the `in` substring test, `str.split`, `int()`
    on a period component and decimal formatting of integers. Only ASCII
    whitespace and ASCII letters are modelled. */
module Text {
  import opened Wrappers

  /** The ASCII characters Python's `str.isspace` accepts: space, tab, the
      line breaks, vertical tab, form feed and the separators 0x1C-0x1F. */
  predicate IsSpace(c: char) {
    c == ' ' || c == '\t' || c == '\n' || c == '\r' || c == '\U{000B}' || c == '\U{000C}' ||
    '\U{001C}' <= c <= '\U{001F}'
  }

  /** `s.lstrip()`. */
  function TrimLeft(s: string): (r: string)
    ensures |r| <= |s|
  {
    if s != [] && IsSpace(s[0]) then TrimLeft(s[1..]) else s
  }

  /** `s.rstrip()`. */
  function TrimRight(s: string): (r: string)
    ensures |r| <= |s|
  {
    if s != [] && IsSpace(s[|s| - 1]) then TrimRight(s[..|s| - 1]) else s
  }

  /** `s.strip()`. */
  function Strip(s: string): (r: string)
    ensures |r| <= |s|
  {
    TrimRight(TrimLeft(s))
  }

  predicate AllSpace(s: string) {
    forall i :: 0 <= i < |s| ==> IsSpace(s[i])
  }

  /** `lstrip` drops a whitespace prefix and stops at the first other character. */
  lemma {:induction false} TrimLeftShape(s: string)
    ensures var r := TrimLeft(s);
            s == s[..|s| - |r|] + r && AllSpace(s[..|s| - |r|]) && (r == [] || !IsSpace(r[0]))
  {
    if s != [] && IsSpace(s[0]) {
      TrimLeftShape(s[1..]);
      var r := TrimLeft(s);
      assert s[..|s| - |r|] == [s[0]] + s[1..][..|s| - 1 - |r|];
    }
  }

  /** `rstrip` drops a whitespace suffix and stops at the last other character. */
  lemma {:induction false} TrimRightShape(s: string)
    ensures var r := TrimRight(s);
            s == r + s[|r|..] && AllSpace(s[|r|..]) && (r == [] || !IsSpace(r[|r| - 1]))
  {
    if s != [] && IsSpace(s[|s| - 1]) {
      var front := s[..|s| - 1];
      TrimRightShape(front);
      var r := TrimRight(s);
      assert r == TrimRight(front);
      var tail := front[|r|..];
      assert front == r + tail;
      assert s == front + [s[|s| - 1]];
      assert s[|r|..] == tail + [s[|s| - 1]];
      forall i | 0 <= i < |s| - |r|
        ensures IsSpace(s[|r|..][i])
      {
        if i < |tail| {
          assert s[|r|..][i] == tail[i];
        }
      }
    }
  }

  /** `s.strip()` removes whitespace from both ends and nothing else: `s` is
      whitespace, then the result, then whitespace, and the result neither
      starts nor ends with whitespace. */
  lemma StripShape(s: string)
    ensures var r := Strip(s);
            exists a, b :: s == a + r + b && AllSpace(a) && AllSpace(b)
    ensures Strip(s) == [] || (!IsSpace(Strip(s)[0]) && !IsSpace(Strip(s)[|Strip(s)| - 1]))
  {
    TrimLeftShape(s);
    var l := TrimLeft(s);
    TrimRightShape(l);
    var r := TrimRight(l);
    var a, b := s[..|s| - |l|], l[|r|..];
    assert s == a + r + b;
    if r != [] {
      assert l[0] == r[0];
    }
  }

  function LowerChar(c: char): char {
    if 'A' <= c <= 'Z' then (c as int + 32) as char else c
  }

  /** `s.lower()` on ASCII letters. */
  function Lower(s: string): (r: string)
    ensures |r| == |s|
  {
    if s == [] then [] else [LowerChar(s[0])] + Lower(s[1..])
  }

  /** `needle` occurs in `hay` starting at position `i`. */
  predicate OccursAt(hay: string, needle: string, i: int) {
    0 <= i && i + |needle| <= |hay| && hay[i..i + |needle|] == needle
  }

  /** Python's `needle in hay` on strings. */
  predicate Contains(hay: string, needle: string) {
    exists i | 0 <= i <= |hay| - |needle| :: OccursAt(hay, needle, i)
  }


  lemma ContainsExtend(a: string, m: string, b: string, needle: string)
    requires Contains(m, needle)
    ensures Contains(a + m + b, needle)
  {
    var i :| 0 <= i <= |m| - |needle| && OccursAt(m, needle, i);
    var s := a + m + b;
    assert s[|a| + i..|a| + i + |needle|] == m[i..i + |needle|];
    assert OccursAt(s, needle, |a| + i);
  }

  /** A needle is never found in a shorter string. */
  lemma ContainsShorter(hay: string, needle: string)
    requires |hay| < |needle|
    ensures !Contains(hay, needle)
  {
  }

  /** A needle whose first character is absent from the possible starting
      positions of `hay` does not occur in it. */
  lemma NotContainsByFirst(hay: string, needle: string)
    requires |needle| >= 1
    requires forall p | 0 <= p <= |hay| - |needle| :: hay[p] != needle[0]
    ensures !Contains(hay, needle)
  {
    forall p | 0 <= p <= |hay| - |needle| ensures !OccursAt(hay, needle, p) {
      assert hay[p..p + |needle|][0] == hay[p];
    }
  }

  /** An occurrence of a needle that cannot cover the character `c` lies on one
      side of it. */
  lemma ContainsAround(x: string, c: char, y: string, needle: string)
    requires c !in needle
    requires Contains(x + [c] + y, needle)
    ensures Contains(x, needle) || Contains(y, needle)
  {
    var s := x + [c] + y;
    var i :| 0 <= i <= |s| - |needle| && OccursAt(s, needle, i);
    assert forall m :: i <= m < i + |needle| ==> s[m] == needle[m - i];
    assert s[|x|] == c;
    assert !(i <= |x| < i + |needle|);
    if i + |needle| <= |x| {
      assert s[i..i + |needle|] == x[i..i + |needle|];
      assert OccursAt(x, needle, i);
    } else {
      var j := i - |x| - 1;
      assert s[i..i + |needle|] == y[j..j + |needle|];
      assert OccursAt(y, needle, j);
    }
  }

  /** The same for a block of characters none of which the needle holds. */
  lemma {:induction false} ContainsAroundBlock(x: string, p: string, y: string, needle: string)
    requires needle != [] && p != []
    requires forall i :: 0 <= i < |p| ==> p[i] !in needle
    requires Contains(x + p + y, needle)
    ensures Contains(x, needle) || Contains(y, needle)
    decreases |p|
  {
    assert x + p + y == x + [p[0]] + (p[1..] + y);
    ContainsAround(x, p[0], p[1..] + y, needle);
    if !Contains(x, needle) {
      if p[1..] == [] {
        assert p[1..] + y == y;
      } else {
        assert p[1..] + y == [] + p[1..] + y;
        ContainsAroundBlock([], p[1..], y, needle);
        ContainsShorter([], needle);
      }
    }
  }

  /** Around such a block, the needle occurs in the whole exactly when it
      occurs on one side. */
  lemma ContainsAcross(x: string, p: string, y: string, needle: string)
    requires needle != [] && p != []
    requires forall i :: 0 <= i < |p| ==> p[i] !in needle
    ensures Contains(x + p + y, needle) <==> Contains(x, needle) || Contains(y, needle)
  {
    if Contains(x + p + y, needle) {
      ContainsAroundBlock(x, p, y, needle);
    }
    if Contains(x, needle) {
      ContainsExtend([], x, p + y, needle);
      assert [] + x + (p + y) == x + p + y;
    }
    if Contains(y, needle) {
      ContainsExtend(x + p, y, [], needle);
      assert x + p + y + [] == x + p + y;
    }
  }

  /** `s.split(sep)`: the pieces between separators, always at least one. */
  function Split(s: string, sep: char): (parts: seq<string>)
    ensures |parts| >= 1
  {
    if s == [] then [""]
    else
      var rest := Split(s[1..], sep);
      if s[0] == sep then [""] + rest else [[s[0]] + rest[0]] + rest[1..]
  }

  lemma {:induction false} SplitWithout(s: string, sep: char)
    requires sep !in s
    ensures Split(s, sep) == [s]
  {
    if s != [] {
      SplitWithout(s[1..], sep);
      assert [s[0]] + s[1..] == s;
    }
  }

  /** Splitting `a + sep + b` gives back `a` and `b` when neither holds `sep`. */
  lemma {:induction false} SplitJoin(a: string, sep: char, b: string)
    requires sep !in a && sep !in b
    ensures Split(a + [sep] + b, sep) == [a, b]
  {
    if a == [] {
      assert a + [sep] + b == [sep] + b;
      assert ([sep] + b)[1..] == b;
      SplitWithout(b, sep);
    } else {
      SplitJoin(a[1..], sep, b);
      assert (a + [sep] + b)[1..] == a[1..] + [sep] + b;
      assert [a[0]] + a[1..] == a;
    }
  }

  /** A first piece free of `sep` comes off the front of the split. */
  lemma {:induction false} SplitAfter(a: string, sep: char, b: string)
    requires sep !in a
    ensures Split(a + [sep] + b, sep) == [a] + Split(b, sep)
  {
    if a == [] {
      assert a + [sep] + b == [sep] + b;
      assert ([sep] + b)[1..] == b;
    } else {
      SplitAfter(a[1..], sep, b);
      assert (a + [sep] + b)[1..] == a[1..] + [sep] + b;
      assert [a[0]] + a[1..] == a;
    }
  }

  predicate IsDigit(c: char) { '0' <= c <= '9' }

  function DigitChar(d: nat): char
    requires d < 10
  {
    ('0' as int + d) as char
  }

  function DigitValue(c: char): nat
    requires IsDigit(c)
  {
    c as int - '0' as int
  }

  /** The value of a string of decimal digits. */
  function DigitsValue(s: string): nat
    requires forall i :: 0 <= i < |s| ==> IsDigit(s[i])
  {
    if s == [] then 0 else DigitsValue(s[..|s| - 1]) * 10 + DigitValue(s[|s| - 1])
  }

  /** `str(n)` / `f"{n}"` for a non-negative integer. */
  function NatToString(n: nat): (s: string)
    ensures |s| >= 1
    ensures forall i :: 0 <= i < |s| ==> IsDigit(s[i])
  {
    if n < 10 then [DigitChar(n)] else NatToString(n / 10) + [DigitChar(n % 10)]
  }

  lemma {:induction false} NatToStringValue(n: nat)
    ensures DigitsValue(NatToString(n)) == n
  {
    if n >= 10 {
      NatToStringValue(n / 10);
      var s := NatToString(n);
      assert s[..|s| - 1] == NatToString(n / 10);
    }
  }

  /** `f"{n:02d}"`: at least two digits, zero-padded. */
  function Pad2(n: nat): (s: string)
    ensures |s| >= 2
    ensures forall i :: 0 <= i < |s| ==> IsDigit(s[i])
  {
    if n < 10 then ['0', DigitChar(n)] else NatToString(n)
  }

  lemma Pad2Value(n: nat)
    ensures DigitsValue(Pad2(n)) == n
  {
    NatToStringValue(n);
    if n < 10 {
      assert Pad2(n)[..1] == "0";
    }
  }

  /** `int(s)` for the inputs a period component can hold (it never contains
      `-`): optional surrounding whitespace, an optional `+`, then one or more
      decimal digits. `None` is the `ValueError` that `int` raises. */
  function ParseNat(s: string): (r: Option<nat>)
    ensures r.Some? ==> |Strip(s)| >= 1
  {
    var t := Strip(s);
    var digits := if t != [] && t[0] == '+' then t[1..] else t;
    if digits != [] && forall i :: 0 <= i < |digits| ==> IsDigit(digits[i])
    then Some(DigitsValue(digits))
    else None
  }

  /** A non-empty string of digits is read by `int` as its decimal value. */
  lemma ParseDigits(s: string)
    requires s != [] && forall i :: 0 <= i < |s| ==> IsDigit(s[i])
    ensures ParseNat(s) == Some(DigitsValue(s))
  {
    assert !IsSpace(s[0]) && !IsSpace(s[|s| - 1]) by { assert IsDigit(s[0]) && IsDigit(s[|s| - 1]); }
    assert TrimLeft(s) == s;
    assert TrimRight(s) == s;
  }

  /** Formatting a number and reading it back with `int` gives the number. */
  lemma ParseNatOfString(n: nat)
    ensures ParseNat(NatToString(n)) == Some(n)
  {
    ParseDigits(NatToString(n));
    NatToStringValue(n);
  }

  /** The same for the zero-padded form. */
  lemma ParseNatOfPad2(n: nat)
    ensures ParseNat(Pad2(n)) == Some(n)
  {
    ParseDigits(Pad2(n));
    Pad2Value(n);
  }
}
