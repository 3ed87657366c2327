/**
 * Text helpers shared by the hub, the attendance reconciler and the report:
 * the subset of Python's `str` methods the program relies on
 * (`strip`, `isspace`, `lower`, `in`, `join`) written over `seq<char>`.
 */
module Strings {

  /** Python's notion of a whitespace character (`str.isspace` / `str.strip()`). */
  predicate IsSpaceChar(c: char) {
    var n := c as int;
    (9 <= n <= 13) || (28 <= n <= 32) || n == 0x85 || n == 0xA0 || n == 0x1680
    || (0x2000 <= n <= 0x200A) || n == 0x2028 || n == 0x2029 || n == 0x202F
    || n == 0x205F || n == 0x3000
  }

  /** Every character of `s` is whitespace (true of the empty string). */
  predicate AllSpace(s: string) {
    forall i :: 0 <= i < |s| ==> IsSpaceChar(s[i])
  }

  /** Python's `s.isspace()`: non-empty and made only of whitespace. */
  predicate IsSpace(s: string) {
    |s| > 0 && AllSpace(s)
  }

  /** `s.lstrip()`: drops the leading whitespace and keeps the rest as it is. */
  function TrimLeft(s: string): (r: string)
    ensures |r| <= |s|
  {
    if |s| > 0 && IsSpaceChar(s[0]) then TrimLeft(s[1..]) else s
  }

  lemma {:induction false} TrimLeftSpec(s: string)
    ensures var r := TrimLeft(s);
            r == s[|s| - |r|..] && AllSpace(s[..|s| - |r|])
            && (r == [] || !IsSpaceChar(r[0]))
            && (r == [] <==> AllSpace(s))
  {
    if |s| > 0 && IsSpaceChar(s[0]) {
      TrimLeftSpec(s[1..]);
    }
  }

  /** `s.rstrip()`: drops the trailing whitespace and keeps the rest as it is. */
  function TrimRight(s: string): (r: string)
    ensures |r| <= |s|
  {
    if |s| > 0 && IsSpaceChar(s[|s| - 1]) then TrimRight(s[..|s| - 1]) else s
  }

  lemma {:induction false} TrimRightSpec(s: string)
    ensures var r := TrimRight(s);
            r == s[..|r|] && AllSpace(s[|r|..])
            && (r == [] || !IsSpaceChar(r[|r| - 1]))
            && (r == [] <==> AllSpace(s))
  {
    if |s| > 0 && IsSpaceChar(s[|s| - 1]) {
      TrimRightSpec(s[..|s| - 1]);
    }
  }

  /** `s.strip()`. */
  function Strip(s: string): (r: string)
    ensures |r| <= |s|
  {
    TrimRight(TrimLeft(s))
  }

  /** What stripping does: neither end of the result is whitespace, the result
      is empty exactly when `s` is all whitespace, and a string whose ends are
      not whitespace is left as it is. */
  lemma StripSpec(s: string)
    ensures var r := Strip(s);
            (r == [] || (!IsSpaceChar(r[0]) && !IsSpaceChar(r[|r| - 1])))
            && (r == [] <==> AllSpace(s))
            && (s == [] || (!IsSpaceChar(s[0]) && !IsSpaceChar(s[|s| - 1])) ==> r == s)
  {
    var l := TrimLeft(s);
    TrimLeftSpec(s);
    TrimRightSpec(l);
    var r := TrimRight(l);
    assert r != [] ==> r[0] == l[0];
  }

  /** ASCII case mapping of one character (Python's `lower` on ASCII). */
  function LowerChar(c: char): char {
    if 'A' <= c <= 'Z' then (c as int + 32) as char else c
  }

  /** `s.lower()`, restricted to ASCII letters. */
  function Lower(s: string): (r: string)
    ensures |r| == |s|
  {
    if s == [] then [] else [LowerChar(s[0])] + Lower(s[1..])
  }

  /** Lower-casing maps each character on its own. */
  lemma {:induction false} LowerAt(s: string)
    ensures forall i :: 0 <= i < |s| ==> Lower(s)[i] == LowerChar(s[i])
  {
    if s != [] {
      LowerAt(s[1..]);
    }
  }

  /** `pat` occurs in `s` starting at position 0. */
  predicate IsPrefix(pat: string, s: string) {
    |pat| <= |s| && s[..|pat|] == pat
  }

  /** Python's `pat in s`. */
  predicate Contains(s: string, pat: string)
    decreases |s|
  {
    IsPrefix(pat, s) || (|s| > 0 && Contains(s[1..], pat))
  }

  /** `Contains` finds exactly the positions where `pat` occurs. */
  lemma {:induction false} ContainsIff(s: string, pat: string)
    ensures Contains(s, pat) <==> exists k :: 0 <= k <= |s| - |pat| && IsPrefix(pat, s[k..])
    decreases |s|
  {
    if IsPrefix(pat, s) {
      assert s[0..] == s;
    } else if |s| > 0 {
      ContainsIff(s[1..], pat);
      if Contains(s[1..], pat) {
        var k :| 0 <= k <= |s| - 1 - |pat| && IsPrefix(pat, s[1..][k..]);
        assert s[1..][k..] == s[k + 1..];
      }
      if exists k :: 0 <= k <= |s| - |pat| && IsPrefix(pat, s[k..]) {
        var k :| 0 <= k <= |s| - |pat| && IsPrefix(pat, s[k..]);
        assert k != 0 by { assert s[0..] == s; }
        assert s[1..][k - 1..] == s[k..];
      }
    }
  }

  /** Python's `sep.join(parts)`. */
  function Join(parts: seq<string>, sep: string): (r: string)
    ensures parts == [] ==> r == []
    ensures |parts| == 1 ==> r == parts[0]
  {
    if parts == [] then []
    else if |parts| == 1 then parts[0]
    else parts[0] + sep + Join(parts[1..], sep)
  }

  /** Decimal digits of a natural number, as Python's `str(n)` writes it. */
  function NatToString(n: nat): (r: string)
    ensures |r| > 0
    ensures forall i :: 0 <= i < |r| ==> '0' <= r[i] <= '9'
    decreases n
  {
    if n < 10 then [Digit(n)] else NatToString(n / 10) + [Digit(n % 10)]
  }

  /** Joining two non-empty runs of parts puts one separator between them:
      every pair of neighbouring parts is separated by exactly one `sep`. */
  lemma {:induction false} JoinAppend(parts: seq<string>, more: seq<string>, sep: string)
    requires parts != [] && more != []
    ensures Join(parts + more, sep) == Join(parts, sep) + sep + Join(more, sep)
    decreases |parts|
  {
    var all := parts + more;
    assert all[0] == parts[0];
    if |parts| == 1 {
      assert all[1..] == more;
    } else {
      assert all[1..] == parts[1..] + more;
      JoinAppend(parts[1..], more, sep);
      var rest, tail := Join(parts[1..], sep), Join(more, sep);
      assert Join(all, sep) == parts[0] + sep + (rest + sep + tail);
      assert Join(parts, sep) == parts[0] + sep + rest;
    }
  }

  /** The length of a join: every part, plus one separator between each two. */
  lemma {:induction false} JoinLength(parts: seq<string>, sep: string)
    requires parts != []
    ensures |Join(parts, sep)| == TotalLength(parts) + (|parts| - 1) * |sep|
    decreases |parts|
  {
    if |parts| > 1 {
      JoinLength(parts[1..], sep);
      assert parts == [parts[0]] + parts[1..];
      TotalLengthFront(parts);
    }
  }

  /** The summed length of the parts. */
  function TotalLength(parts: seq<string>): nat {
    if parts == [] then 0 else TotalLength(parts[..|parts| - 1]) + |parts[|parts| - 1]|
  }

  lemma {:induction false} TotalLengthFront(parts: seq<string>)
    requires parts != []
    ensures TotalLength(parts) == |parts[0]| + TotalLength(parts[1..])
    decreases |parts|
  {
    if |parts| > 1 {
      var init := parts[..|parts| - 1];
      TotalLengthFront(init);
      assert init[1..] == parts[1..][..|parts[1..]| - 1];
    }
  }

  /** The number a string of decimal digits spells, most significant first. */
  function DigitsValue(s: string): nat
    requires forall i :: 0 <= i < |s| ==> '0' <= s[i] <= '9'
  {
    if s == [] then 0 else DigitsValue(s[..|s| - 1]) * 10 + (s[|s| - 1] as int - '0' as int)
  }

  /** `str(n)` spells n: reading its digits back gives n, and it has no
      leading zero. */
  lemma {:induction false} NatToStringValue(n: nat)
    ensures DigitsValue(NatToString(n)) == n
    ensures n > 0 ==> NatToString(n)[0] != '0'
    decreases n
  {
    if n >= 10 {
      var p := NatToString(n / 10);
      NatToStringValue(n / 10);
      assert (p + [Digit(n % 10)])[..|p|] == p;
    } else {
      assert [Digit(n)][..0] == [];
    }
  }

  function Digit(d: nat): (c: char)
    requires d < 10
    ensures '0' <= c <= '9'
  {
    ('0' as int + d) as char
  }
}
