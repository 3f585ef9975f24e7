/** The handful of .NET string operations the services rely on, written out
    over `seq<char>`: ordinal substring search, ASCII lower-casing, decimal
    rendering and parsing of integers, splitting into fields, trimming and
    replacing. */
module Strings {
  import opened Common

  // ---------------------------------------------------------------------
  // Substrings (ordinal comparison, as `string.Contains` in .NET)
  // ---------------------------------------------------------------------

  predicate IsPrefix(p: string, s: string) {
    |p| <= |s| && s[..|p|] == p
  }

  lemma PrefixOfAppend(p: string, s: string)
    ensures IsPrefix(p, p + s)
  {
    assert (p + s)[..|p|] == p;
  }

  /** `p` occurs in `s` starting at index `i`. */
  predicate OccursAt(s: string, p: string, i: int) {
    0 <= i && i + |p| <= |s| && s[i..i + |p|] == p
  }

  predicate Contains(s: string, p: string) {
    exists i | 0 <= i <= |s| - |p| :: OccursAt(s, p, i)
  }

  /** What contains `p + q` contains `p`. */
  lemma ContainsShorter(s: string, p: string, q: string)
    requires Contains(s, p + q)
    ensures Contains(s, p)
  {
    var i :| 0 <= i <= |s| - |p + q| && OccursAt(s, p + q, i);
    assert s[i..i + |p|] == s[i..i + |p + q|][..|p|] == (p + q)[..|p|] == p;
    assert OccursAt(s, p, i);
  }

  lemma ContainsMiddle(a: string, p: string, b: string)
    ensures Contains(a + p + b, p)
  {
    var s := a + p + b;
    assert s[|a|..|a| + |p|] == p;
    assert OccursAt(s, p, |a|);
  }

  // ---------------------------------------------------------------------
  // Lower-casing
  // ---------------------------------------------------------------------

  function LowerChar(c: char): (r: char)
    ensures 'A' <= c <= 'Z' ==> 'a' <= r <= 'z'
    ensures !('A' <= c <= 'Z') ==> r == c
  {
    if 'A' <= c <= 'Z' then (c as int + 32) as char else c
  }

  /** `ToLower` restricted to ASCII letters. */
  function ToLower(s: string): (r: string)
    ensures |r| == |s|
    ensures forall i :: 0 <= i < |s| ==> r[i] == LowerChar(s[i])
  {
    seq(|s|, i requires 0 <= i < |s| => LowerChar(s[i]))
  }

  // ---------------------------------------------------------------------
  // Decimal rendering and parsing of integers
  // ---------------------------------------------------------------------

  predicate IsDigit(c: char) {
    '0' <= c <= '9'
  }

  function DigitChar(d: nat): (c: char)
    requires d < 10
    ensures IsDigit(c)
  {
    ('0' as int + d) as char
  }

  function DigitValue(c: char): (d: nat)
    requires IsDigit(c)
    ensures d < 10
  {
    c as int - '0' as int
  }

  /** The decimal rendering of a natural number, without leading zeros. */
  function NatToString(n: nat): (r: string)
    ensures |r| > 0
    ensures forall i :: 0 <= i < |r| ==> IsDigit(r[i])
    decreases n
  {
    if n < 10 then [DigitChar(n)]
    else NatToString(n / 10) + [DigitChar(n % 10)]
  }

  /** `int.ToString()` under the invariant culture. */
  function IntToString(n: int): string {
    if n < 0 then "-" + NatToString(-n) else NatToString(n)
  }

  /** The rendering of `10 * n + d` is that of `n` followed by the digit `d`. */
  lemma AppendDigitRendering(n: nat, d: nat)
    requires n > 0 && d < 10
    ensures IntToString(10 * n + d) == IntToString(n) + [DigitChar(d)]
  {
    var m := 10 * n + d;
    assert m / 10 == n && m % 10 == d;
  }

  predicate AllDigits(s: string) {
    forall i :: 0 <= i < |s| ==> IsDigit(s[i])
  }

  /** The value of a string of decimal digits. */
  function DigitsValue(s: string): nat
    requires AllDigits(s)
    decreases |s|
  {
    if s == [] then 0
    else DigitsValue(s[..|s| - 1]) * 10 + DigitValue(s[|s| - 1])
  }

  lemma {:induction false} DigitsValueOfNatToString(n: nat)
    ensures AllDigits(NatToString(n)) && DigitsValue(NatToString(n)) == n
    decreases n
  {
    var r := NatToString(n);
    if n < 10 {
      assert r[..|r| - 1] == [];
    } else {
      DigitsValueOfNatToString(n / 10);
      assert r[..|r| - 1] == NatToString(n / 10);
    }
  }

  const Int32Min: int := -0x8000_0000
  const Int32Max: int := 0x7FFF_FFFF

  /** The sign and digits `int.TryParse` accepts once the surrounding white
      space is gone: an optional sign followed by at least one decimal digit,
      within the 32-bit range. */
  function ParseSignedDigits(s: string): (r: Option<int>)
    ensures r.Some? ==> Int32Min <= r.value <= Int32Max
  {
    var negative := |s| > 0 && s[0] == '-';
    var body := if |s| > 0 && (s[0] == '-' || s[0] == '+') then s[1..] else s;
    if |body| == 0 || !AllDigits(body) then None
    else
      var magnitude: int := DigitsValue(body);
      var v := if negative then -magnitude else magnitude;
      if Int32Min <= v <= Int32Max then Some(v) else None
  }

  /** The white space `NumberStyles.Integer` lets stand before and after a
      number: U+0009 to U+000D and the space, and no other. */
  predicate IsNumberWhite(c: char) {
    ('\U{0009}' <= c <= '\U{000D}') || c == ' '
  }

  function DropLeadingNumberWhite(s: string): (r: string)
    ensures |r| <= |s| && r == s[|s| - |r|..]
    ensures r != [] ==> !IsNumberWhite(r[0])
    ensures forall i :: 0 <= i < |s| - |r| ==> IsNumberWhite(s[i])
    decreases |s|
  {
    if s != [] && IsNumberWhite(s[0]) then DropLeadingNumberWhite(s[1..]) else s
  }

  function DropTrailing(s: string, c: char): (r: string)
    ensures |r| <= |s| && r == s[..|r|]
    ensures r != [] ==> r[|r| - 1] != c
    ensures forall i :: |r| <= i < |s| ==> s[i] == c
    decreases |s|
  {
    if s != [] && s[|s| - 1] == c then DropTrailing(s[..|s| - 1], c) else s
  }

  function DropTrailingNumberWhite(s: string): (r: string)
    ensures |r| <= |s| && r == s[..|r|]
    ensures r != [] ==> !IsNumberWhite(r[|r| - 1])
    ensures forall i :: |r| <= i < |s| ==> IsNumberWhite(s[i])
    decreases |s|
  {
    if s != [] && IsNumberWhite(s[|s| - 1]) then DropTrailingNumberWhite(s[..|s| - 1]) else s
  }

  /** What is left of a token for the sign and digits: .NET skips leading
      white space, and after the number trailing white space and then
      trailing NUL characters. */
  function NumberCore(s: string): string {
    DropLeadingNumberWhite(DropTrailingNumberWhite(DropTrailing(s, '\0')))
  }

  /** `int.TryParse(s, out v)` with the default `NumberStyles.Integer`. */
  function TryParseInt32(s: string): (r: Option<int>)
    ensures r.Some? ==> Int32Min <= r.value <= Int32Max
  {
    ParseSignedDigits(NumberCore(s))
  }

  /** The rendering starts with a sign or a digit, ends with a digit, and
      its sign and digits read back as the number. */
  lemma RenderedDigits(n: int)
    requires Int32Min <= n <= Int32Max
    ensures var r := IntToString(n); r != [] && IsDigit(r[|r| - 1]) && (r[0] == '-' || IsDigit(r[0]))
    ensures ParseSignedDigits(IntToString(n)) == Some(n)
  {
    var r := IntToString(n);
    if n < 0 {
      var m: nat := -n;
      DigitsValueOfNatToString(m);
      assert r == "-" + NatToString(m);
      assert r[0] == '-' && r[1..] == NatToString(m);
      assert r[|r| - 1] == NatToString(m)[|NatToString(m)| - 1];
    } else {
      DigitsValueOfNatToString(n);
      assert IsDigit(r[0]);
    }
  }

  /** Parsing inverts rendering on the 32-bit range. */
  lemma ParseRendered(n: int)
    requires Int32Min <= n <= Int32Max
    ensures TryParseInt32(IntToString(n)) == Some(n)
  {
    var r := IntToString(n);
    RenderedDigits(n);
    assert DropTrailing(r, '\0') == r;
    assert DropTrailingNumberWhite(r) == r;
    assert DropLeadingNumberWhite(r) == r;
  }

  /** The same with any white space `int.TryParse` skips around the digits:
      a tab or a carriage return that a split on spaces alone leaves on a
      token, say. */
  lemma ParseIgnoresNumberWhite(lead: string, n: int, trail: string)
    requires Int32Min <= n <= Int32Max
    requires forall i :: 0 <= i < |lead| ==> IsNumberWhite(lead[i])
    requires forall i :: 0 <= i < |trail| ==> IsNumberWhite(trail[i])
    ensures TryParseInt32(lead + IntToString(n) + trail) == Some(n)
  {
    RenderedDigits(n);
    CoreOfPadded(lead, IntToString(n), trail);
  }

  /** Padding a token that starts and ends with a non-blank, and ends with no
      NUL, leaves that token as the number's core. */
  lemma CoreOfPadded(lead: string, r: string, trail: string)
    requires r != [] && !IsNumberWhite(r[0]) && !IsNumberWhite(r[|r| - 1]) && r[|r| - 1] != '\0'
    requires forall i :: 0 <= i < |lead| ==> IsNumberWhite(lead[i])
    requires forall i :: 0 <= i < |trail| ==> IsNumberWhite(trail[i])
    ensures NumberCore(lead + r + trail) == r
  {
    var u := lead + r;
    var s := u + trail;
    assert u[|u| - 1] == r[|r| - 1];
    assert s[|s| - 1] != '\0' by {
      if trail != [] {
        assert s[|s| - 1] == trail[|trail| - 1];
      } else {
        assert s == u;
      }
    }
    assert DropTrailing(s, '\0') == s;
    DropTrailingWhiteOf(u, trail);
    DropLeadingWhiteOf(lead, r);
  }

  lemma {:induction false} DropTrailingWhiteOf(r: string, w: string)
    requires r != [] && !IsNumberWhite(r[|r| - 1])
    requires forall i :: 0 <= i < |w| ==> IsNumberWhite(w[i])
    ensures DropTrailingNumberWhite(r + w) == r
    decreases |w|
  {
    if w == [] {
      assert r + w == r;
    } else {
      var w' := w[..|w| - 1];
      var s := r + w;
      assert IsNumberWhite(s[|s| - 1]);
      assert s[..|s| - 1] == r + w';
      DropTrailingWhiteOf(r, w');
    }
  }

  lemma {:induction false} DropLeadingWhiteOf(w: string, r: string)
    requires r != [] && !IsNumberWhite(r[0])
    requires forall i :: 0 <= i < |w| ==> IsNumberWhite(w[i])
    ensures DropLeadingNumberWhite(w + r) == r
    decreases |w|
  {
    if w == [] {
      assert w + r == r;
    } else {
      var s := w + r;
      assert IsNumberWhite(s[0]);
      assert s[1..] == w[1..] + r;
      DropLeadingWhiteOf(w[1..], r);
    }
  }

  // ---------------------------------------------------------------------
  // Splitting into fields (`Split(separators, RemoveEmptyEntries)`)
  // ---------------------------------------------------------------------

  /** The number of leading characters of `s` that are not separators. */
  function FieldLength(s: string, seps: set<char>): (k: nat)
    ensures k <= |s|
    ensures forall i :: 0 <= i < k ==> s[i] !in seps
    ensures k < |s| ==> s[k] in seps
    decreases |s|
  {
    if s == [] || s[0] in seps then 0 else 1 + FieldLength(s[1..], seps)
  }

  /** The maximal runs of non-separator characters of `s`, in order. */
  function Fields(s: string, seps: set<char>): seq<string>
    decreases |s|
  {
    if s == [] then []
    else if s[0] in seps then Fields(s[1..], seps)
    else
      var k := FieldLength(s, seps);
      [s[..k]] + Fields(s[k..], seps)
  }

  /** The text before the first occurrence of `c`, or all of `s`
      (element 0 of `s.Split(c)`). */
  function BeforeChar(s: string, c: char): (r: string)
    ensures IsPrefix(r, s)
    ensures c !in r
    ensures |r| < |s| ==> s[|r|] == c
    decreases |s|
  {
    if s == [] then []
    else if s[0] == c then []
    else [s[0]] + BeforeChar(s[1..], c)
  }

  // ---------------------------------------------------------------------
  // White space and trimming (`char.IsWhiteSpace`, `Trim`, `IsNullOrWhiteSpace`)
  // ---------------------------------------------------------------------

  /** `char.IsWhiteSpace`: the Unicode separators and the control
      characters U+0009 to U+000D and U+0085. */
  predicate IsWhiteSpace(c: char) {
    ('\U{0009}' <= c <= '\U{000D}') || c == ' ' || c == '\U{0085}' || c == '\U{00A0}'
    || c == '\U{1680}' || ('\U{2000}' <= c <= '\U{200A}') || c == '\U{2028}' || c == '\U{2029}'
    || c == '\U{202F}' || c == '\U{205F}' || c == '\U{3000}'
  }

  predicate IsWhiteSpaceOnly(s: string) {
    forall i :: 0 <= i < |s| ==> IsWhiteSpace(s[i])
  }

  function TrimStart(s: string): (r: string)
    ensures |r| <= |s| && r == s[|s| - |r|..]
    ensures r != [] ==> !IsWhiteSpace(r[0])
    ensures forall i :: 0 <= i < |s| - |r| ==> IsWhiteSpace(s[i])
    decreases |s|
  {
    if s != [] && IsWhiteSpace(s[0]) then TrimStart(s[1..]) else s
  }

  function TrimEnd(s: string): (r: string)
    ensures |r| <= |s| && r == s[..|r|]
    ensures r != [] ==> !IsWhiteSpace(r[|r| - 1])
    ensures forall i :: |r| <= i < |s| ==> IsWhiteSpace(s[i])
    decreases |s|
  {
    if s != [] && IsWhiteSpace(s[|s| - 1]) then TrimEnd(s[..|s| - 1]) else s
  }

  function Trim(s: string): string {
    TrimEnd(TrimStart(s))
  }

  /** Trimming keeps a contiguous part of `s` and removes only white space
      around it, so the result is empty exactly when `s` is all white space. */
  lemma TrimIsCore(s: string)
    ensures var r := Trim(s); |r| <= |s| && (r != [] ==> !IsWhiteSpace(r[0]) && !IsWhiteSpace(r[|r| - 1]))
    ensures Trim(s) == [] <==> IsWhiteSpaceOnly(s)
  {
    var t := TrimStart(s);
    var r := TrimEnd(t);
    if r != [] {
      assert r[0] == t[0];
      assert !IsWhiteSpaceOnly(s) by {
        assert s[|s| - |t|] == t[0];
      }
    } else {
      // What `TrimStart` leaves begins with a non-blank, which `TrimEnd`
      // would keep, so nothing was left.
      assert t == [] by {
        if t != [] {
          assert false;
        }
      }
    }
  }

  // ---------------------------------------------------------------------
  // Replacing (`s.Replace(p, "")`: one left-to-right pass, no overlaps)
  // ---------------------------------------------------------------------

  function RemoveAll(s: string, p: string): (r: string)
    requires |p| > 0
    ensures |r| <= |s|
    decreases |s|
  {
    if s == [] then []
    else if IsPrefix(p, s) then RemoveAll(s[|p|..], p)
    else [s[0]] + RemoveAll(s[1..], p)
  }

  /** A string in which `p` does not occur is left as it is. */
  lemma {:induction false} RemoveAllAbsent(s: string, p: string)
    requires |p| > 0 && !Contains(s, p)
    ensures RemoveAll(s, p) == s
    decreases |s|
  {
    if s != [] {
      assert !IsPrefix(p, s) by {
        if IsPrefix(p, s) {
          assert OccursAt(s, p, 0);
        }
      }
      assert !Contains(s[1..], p) by {
        if Contains(s[1..], p) {
          var i :| 0 <= i <= |s[1..]| - |p| && OccursAt(s[1..], p, i);
          assert s[i + 1..i + 1 + |p|] == s[1..][i..i + |p|];
          assert OccursAt(s, p, i + 1);
        }
      }
      RemoveAllAbsent(s[1..], p);
    }
  }
}
