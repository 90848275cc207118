/**
 * The few Python string built-ins the bot relies on, over `string` (= seq<char>):
 * `str.split(sep)`, `str.split(sep, 1)`, `sep.join(parts)`, `str.strip()`,
 * `str.isdigit()`, `str(n)`, `f"{n:02d}"` and `int(s)`.
 * `int(s)` is a plain decimal parse: surrounding whitespace, an optional sign,
 * then ASCII digits.
 */
module Strings {
  import opened Wrappers

  // ---------------------------------------------------------------- whitespace

  /** The characters for which Python's `str.isspace()` holds. */
  predicate IsSpace(c: char) {
    c == ' ' || ('\t' <= c <= '\r') || ('\U{1C}' <= c <= '\U{1F}')
    || c == '\U{85}' || c == '\U{A0}' || c == '\U{1680}'
    || ('\U{2000}' <= c <= '\U{200A}') || c == '\U{2028}' || c == '\U{2029}'
    || c == '\U{202F}' || c == '\U{205F}' || c == '\U{3000}'
  }

  predicate AllSpace(s: string) {
    forall i :: 0 <= i < |s| ==> IsSpace(s[i])
  }

  function TrimLeft(s: string): (r: string)
    ensures |r| <= |s| && r == s[|s| - |r|..]
    ensures r != [] ==> !IsSpace(r[0])
  {
    if |s| > 0 && IsSpace(s[0]) then
      var r := TrimLeft(s[1..]);
      assert s[1..][|s| - 1 - |r|..] == s[|s| - |r|..];
      r
    else s
  }

  function TrimRight(s: string): (r: string)
    ensures |r| <= |s| && r == s[..|r|]
    ensures r != [] ==> !IsSpace(r[|r| - 1])
  {
    if |s| > 0 && IsSpace(s[|s| - 1]) then
      var r := TrimRight(s[..|s| - 1]);
      assert s[..|s| - 1][..|r|] == s[..|r|];
      r
    else s
  }

  /** What `TrimLeft` cuts off is whitespace. */
  lemma {:induction false} TrimLeftCutsSpace(s: string)
    ensures AllSpace(s[..|s| - |TrimLeft(s)|])
  {
    if |s| > 0 && IsSpace(s[0]) {
      var k := |s| - |TrimLeft(s[1..])|;
      TrimLeftCutsSpace(s[1..]);
      forall i | 0 <= i < k
        ensures IsSpace(s[..k][i])
      {
        if i > 0 {
          assert s[..k][i] == s[1..][..k - 1][i - 1];
        }
      }
    }
  }

  /** What `TrimRight` cuts off is whitespace. */
  lemma {:induction false} TrimRightCutsSpace(s: string)
    ensures AllSpace(s[|TrimRight(s)|..])
  {
    if |s| > 0 && IsSpace(s[|s| - 1]) {
      var k := |TrimRight(s[..|s| - 1])|;
      TrimRightCutsSpace(s[..|s| - 1]);
      forall i | 0 <= i < |s| - k
        ensures IsSpace(s[k..][i])
      {
        if i < |s| - k - 1 {
          assert s[k..][i] == s[..|s| - 1][k..][i];
        }
      }
    }
  }

  /** `s.strip()`: whitespace cut from both ends; see `StripCutsOnlySpace`. */
  function Strip(s: string): (r: string)
    ensures |r| <= |s|
    ensures r != [] ==> !IsSpace(r[0]) && !IsSpace(r[|r| - 1])
  {
    TrimRight(TrimLeft(s))
  }

  /**
   * `strip()` keeps a contiguous slice of `s`: after a whitespace prefix of
   * `s`, a prefix of the rest, followed by whitespace only.
   */
  lemma StripCutsOnlySpace(s: string)
    ensures var i := |s| - |TrimLeft(s)|;
            var r := Strip(s);
            && AllSpace(s[..i])
            && |r| <= |s[i..]| && r == s[i..][..|r|]
            && AllSpace(s[i..][|r|..])
  {
    var l := TrimLeft(s);
    assert Strip(s) == TrimRight(l);
    TrimLeftCutsSpace(s);
    TrimRightCutsSpace(l);
  }

  /** A whitespace prefix is all that `TrimLeft` removes. */
  lemma {:induction false} TrimLeftSpace(l: string, t: string)
    requires AllSpace(l)
    requires t == [] || !IsSpace(t[0])
    ensures TrimLeft(l + t) == t
  {
    if |l| == 0 {
      assert l + t == t;
    } else {
      assert (l + t)[0] == l[0];
      assert (l + t)[1..] == l[1..] + t;
      TrimLeftSpace(l[1..], t);
    }
  }

  /** A whitespace suffix is all that `TrimRight` removes. */
  lemma {:induction false} TrimRightSpace(t: string, r: string)
    requires AllSpace(r)
    requires t == [] || !IsSpace(t[|t| - 1])
    ensures TrimRight(t + r) == t
  {
    if |r| == 0 {
      assert t + r == t;
    } else {
      var s := t + r;
      assert s[|s| - 1] == r[|r| - 1];
      assert s[..|s| - 1] == t + r[..|r| - 1];
      TrimRightSpace(t, r[..|r| - 1]);
    }
  }

  /** Whitespace around already stripped text is exactly what `strip()` removes. */
  lemma StripPadded(l: string, x: string, r: string)
    requires AllSpace(l) && AllSpace(r)
    requires x == [] || (!IsSpace(x[0]) && !IsSpace(x[|x| - 1]))
    ensures Strip(l + x + r) == x
  {
    if x == [] {
      assert l + x + r == (l + r) + [];
      assert AllSpace(l + r);
      TrimLeftSpace(l + r, []);
      assert TrimRight([]) == [];
    } else {
      assert l + x + r == l + (x + r);
      TrimLeftSpace(l, x + r);
      TrimRightSpace(x, r);
    }
  }

  lemma NotSpace(c: char)
    requires IsDigit(c) || c == '-'
    ensures !IsSpace(c)
  {
  }

  /** A string without whitespace at either end is its own `strip()`. */
  lemma StripUnchanged(s: string)
    requires s == [] || (!IsSpace(s[0]) && !IsSpace(s[|s| - 1]))
    ensures Strip(s) == s
  {
    assert TrimLeft(s) == s;
    assert TrimRight(s) == s;
  }

  /** Text of digits and a leading minus sign is its own `strip()`. */
  lemma StripNumeral(s: string)
    requires |s| > 0
    requires forall i :: 0 <= i < |s| ==> IsDigit(s[i]) || (i == 0 && s[i] == '-')
    ensures Strip(s) == s
  {
    NotSpace(s[0]);
    NotSpace(s[|s| - 1]);
    StripUnchanged(s);
  }

  lemma StripIdempotent(s: string)
    ensures Strip(Strip(s)) == Strip(s)
  {
    StripUnchanged(Strip(s));
  }

  // ------------------------------------------------------------------- digits

  predicate IsDigit(c: char) { '0' <= c <= '9' }

  predicate AllDigits(s: string) { forall i :: 0 <= i < |s| ==> IsDigit(s[i]) }

  /** `s.isdigit()` (ASCII digits): non-empty and digits only. */
  predicate IsDigits(s: string) { |s| > 0 && AllDigits(s) }

  function DigitChar(d: nat): (c: char)
    requires d < 10
    ensures IsDigit(c) && DigitValue(c) == d
  {
    (('0' as int) + d) as char
  }

  function DigitValue(c: char): (d: nat)
    requires IsDigit(c)
    ensures d < 10
  {
    (c as int) - ('0' as int)
  }

  /** The value of a run of decimal digits, most significant first. */
  function DigitsValue(s: string): nat
    requires AllDigits(s)
  {
    if |s| == 0 then 0 else 10 * DigitsValue(s[..|s| - 1]) + DigitValue(s[|s| - 1])
  }

  /** `str(n)` for a natural number: the shortest decimal digit string. */
  function NatToString(n: nat): (s: string)
    ensures IsDigits(s)
    ensures |s| > 1 ==> s[0] != '0'
  {
    if n < 10 then [DigitChar(n)] else NatToString(n / 10) + [DigitChar(n % 10)]
  }

  /** `str(n)` for any integer. */
  function IntToString(n: int): (s: string)
    ensures |s| > 0
    ensures forall i :: 0 <= i < |s| ==> IsDigit(s[i]) || (i == 0 && s[i] == '-')
  {
    if n < 0 then "-" + NatToString(-n) else NatToString(n)
  }

  /** What `int(s)` accepts once whitespace is stripped: an optional sign and digits. */
  predicate IsIntLiteral(s: string) {
    IsDigits(s) || (|s| > 1 && (s[0] == '-' || s[0] == '+') && IsDigits(s[1..]))
  }

  /** Decimal integer parse of an already stripped string. */
  function ParseInt(s: string): (r: Option<int>)
    ensures r.Some? <==> IsIntLiteral(s)
    ensures r.Some? && IsDigits(s) ==> r.value >= 0
  {
    if IsDigits(s) then Some(DigitsValue(s))
    else if |s| > 1 && s[0] == '-' && IsDigits(s[1..]) then Some(-(DigitsValue(s[1..]) as int))
    else if |s| > 1 && s[0] == '+' && IsDigits(s[1..]) then Some(DigitsValue(s[1..]))
    else None
  }

  /** Python's `int(s)`: `None` stands for the ValueError it raises. */
  function PyInt(s: string): (r: Option<int>)
    ensures r.Some? <==> IsIntLiteral(Strip(s))
  {
    ParseInt(Strip(s))
  }

  lemma {:induction false} DigitsValueOfNatToString(n: nat)
    ensures DigitsValue(NatToString(n)) == n
  {
    if n >= 10 {
      var s := NatToString(n);
      assert s[..|s| - 1] == NatToString(n / 10);
      DigitsValueOfNatToString(n / 10);
    }
  }

  lemma ParseIntOfIntToString(n: int)
    ensures ParseInt(IntToString(n)) == Some(n)
  {
    var s := IntToString(n);
    if n < 0 {
      assert s[1..] == NatToString(-n);
      assert !IsDigit(s[0]);
      DigitsValueOfNatToString(-n);
    } else {
      DigitsValueOfNatToString(n);
    }
  }

  /** `int(str(n)) == n`. */
  lemma IntToStringRoundTrip(n: int)
    ensures ParseInt(IntToString(n)) == Some(n)
    ensures PyInt(IntToString(n)) == Some(n)
  {
    ParseIntOfIntToString(n);
    StripNumeral(IntToString(n));
  }

  /** `str` never yields the same text for two numbers. */
  lemma IntToStringInjective(a: int, b: int)
    requires IntToString(a) == IntToString(b)
    ensures a == b
  {
    IntToStringRoundTrip(a);
    IntToStringRoundTrip(b);
  }

  /** `f"{n:02d}"`: at least two characters, zero-padded on the left. */
  function Pad2(n: int): (s: string)
    ensures 0 <= n < 10 ==> |s| == 2 && s[0] == '0'
    ensures n >= 0 ==> AllDigits(s)
  {
    if 0 <= n < 10 then "0" + NatToString(n) else IntToString(n)
  }

  lemma ParseIntOfPad2(n: int)
    ensures ParseInt(Pad2(n)) == Some(n)
  {
    var s := Pad2(n);
    if 0 <= n < 10 {
      assert s == ['0', DigitChar(n)];
      assert s[..1] == ['0'];
      assert DigitsValue(['0']) == 0 by {
        assert ['0'][..0] == [];
      }
      assert DigitsValue(s) == 10 * DigitsValue(s[..1]) + DigitValue(s[1]);
    } else {
      ParseIntOfIntToString(n);
    }
  }

  /** `int(f"{n:02d}") == n`. */
  lemma Pad2RoundTrip(n: int)
    ensures ParseInt(Pad2(n)) == Some(n)
    ensures PyInt(Pad2(n)) == Some(n)
  {
    ParseIntOfPad2(n);
    var s := Pad2(n);
    assert forall i :: 0 <= i < |s| ==> IsDigit(s[i]) || (i == 0 && s[i] == '-');
    StripNumeral(s);
  }

  // ----------------------------------------------------------- split and join

  /** `s.split(c)` with an explicit one-character separator. */
  function Split(s: string, c: char): (parts: seq<string>)
    ensures |parts| >= 1
    ensures forall i :: 0 <= i < |parts| ==> c !in parts[i]
  {
    if |s| == 0 then [""]
    else
      var rest := Split(s[1..], c);
      if s[0] == c then [""] + rest else [[s[0]] + rest[0]] + rest[1..]
  }

  /** `sep.join(parts)`. */
  function Join(parts: seq<string>, sep: string): string {
    if |parts| == 0 then ""
    else if |parts| == 1 then parts[0]
    else parts[0] + sep + Join(parts[1..], sep)
  }

  /** `s.split(c, 1)` unpacked into exactly two names: fails when `c` does not occur. */
  function SplitOnce(s: string, c: char): (r: Option<(string, string)>)
    ensures r.None? <==> c !in s
    ensures r.Some? ==> s == r.value.0 + [c] + r.value.1 && c !in r.value.0
  {
    if c !in s then None
    else
      var i := FirstIndex(s, c);
      assert s == s[..i] + [c] + s[i + 1..];
      Some((s[..i], s[i + 1..]))
  }

  function FirstIndex(s: string, c: char): (i: nat)
    requires c in s
    ensures i < |s| && s[i] == c && c !in s[..i]
  {
    if s[0] == c then 0
    else
      var j := FirstIndex(s[1..], c);
      assert s[..j + 1] == [s[0]] + s[1..][..j];
      j + 1
  }

  /** Unpacking `s.split(c, 1)` cuts at the first `c`. */
  lemma SplitOnceAt(x: string, c: char, y: string)
    requires c !in x
    ensures SplitOnce(x + [c] + y, c) == Some((x, y))
  {
    var s := x + [c] + y;
    assert s[|x|] == c;
    var i := FirstIndex(s, c);
    assert s[..|x|] == x;
    assert s[i + 1..] == y;
  }

  lemma {:induction false} SplitWithoutSeparator(p: string, c: char)
    requires c !in p
    ensures Split(p, c) == [p]
  {
    if |p| > 0 {
      SplitWithoutSeparator(p[1..], c);
      assert [p[0]] + p[1..] == p;
    }
  }

  /** A separator-free prefix becomes the head of the first part. */
  lemma {:induction false} SplitAfterPrefix(p: string, t: string, c: char)
    requires c !in p
    ensures Split(p + t, c) == [p + Split(t, c)[0]] + Split(t, c)[1..]
  {
    if |p| > 0 {
      assert (p + t)[1..] == p[1..] + t;
      SplitAfterPrefix(p[1..], t, c);
      assert [p[0]] + (p[1..] + Split(t, c)[0]) == p + Split(t, c)[0];
    } else {
      assert p + t == t;
      assert [Split(t, c)[0]] + Split(t, c)[1..] == Split(t, c);
      assert p + Split(t, c)[0] == Split(t, c)[0];
    }
  }

  /** Splitting at a separator-free head: the head is the first part. */
  lemma SplitCons(x: string, c: char, y: string)
    requires c !in x
    ensures Split(x + [c] + y, c) == [x] + Split(y, c)
  {
    assert x + [c] + y == x + ([c] + y);
    SplitAfterPrefix(x, [c] + y, c);
    assert ([c] + y)[1..] == y;
    assert x + "" == x;
  }

  /** `sep.join(parts).split(sep) == parts` when no part holds the separator. */
  lemma {:induction false} SplitJoin(parts: seq<string>, c: char)
    requires |parts| >= 1
    requires forall i :: 0 <= i < |parts| ==> c !in parts[i]
    ensures Split(Join(parts, [c]), c) == parts
  {
    if |parts| == 1 {
      SplitWithoutSeparator(parts[0], c);
    } else {
      var rest := Join(parts[1..], [c]);
      SplitJoin(parts[1..], c);
      assert Join(parts, [c]) == parts[0] + ([c] + rest);
      SplitAfterPrefix(parts[0], [c] + rest, c);
      assert ([c] + rest)[1..] == rest;
      assert Split([c] + rest, c) == [""] + parts[1..];
      assert parts[0] + "" == parts[0];
    }
  }

  /** `SplitJoin` for a head part and the parts after it. */
  lemma SplitJoinCons(head: string, rest: seq<string>, c: char)
    requires c !in head
    requires forall i :: 0 <= i < |rest| ==> c !in rest[i]
    ensures Split(Join([head] + rest, [c]), c) == [head] + rest
  {
    var parts := [head] + rest;
    forall i | 0 <= i < |parts|
      ensures c !in parts[i]
    {
      if i > 0 {
        assert parts[i] == rest[i - 1];
      }
    }
    SplitJoin(parts, c);
  }

  lemma JoinConsHead(x: string, y: string, ys: seq<string>, sep: string)
    ensures Join([x + y] + ys, sep) == x + Join([y] + ys, sep)
  {
    assert ([x + y] + ys)[1..] == ys;
    assert ([y] + ys)[1..] == ys;
  }

  /** `sep.join(s.split(sep)) == s`: splitting loses nothing. */
  lemma {:induction false} JoinSplit(s: string, c: char)
    ensures Join(Split(s, c), [c]) == s
  {
    if |s| > 0 {
      var rest := Split(s[1..], c);
      JoinSplit(s[1..], c);
      if s[0] == c {
        assert ([""] + rest)[1..] == rest;
        assert Join([""] + rest, [c]) == "" + [c] + Join(rest, [c]);
      } else {
        assert [rest[0]] + rest[1..] == rest;
        JoinConsHead([s[0]], rest[0], rest[1..], [c]);
      }
      assert s == [s[0]] + s[1..];
    }
  }

  lemma HeadTail<T>(s: seq<T>)
    requires |s| > 0
    ensures [s[0]] + s[1..] == s
  {
  }

  /** `str(d) for d in xs`. */
  function IntStrings(xs: seq<int>): (r: seq<string>)
    ensures |r| == |xs|
    ensures forall i :: 0 <= i < |xs| ==> r[i] == IntToString(xs[i])
  {
    seq(|xs|, i requires 0 <= i < |xs| => IntToString(xs[i]))
  }

  /** `str(n)` holds only digits and a leading minus sign. */
  lemma IntToStringAvoids(n: int, c: char)
    requires !IsDigit(c) && c != '-'
    ensures c !in IntToString(n)
  {
  }
}
