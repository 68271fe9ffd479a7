/** The string operations the program borrows from Python: `str.replace`, `str.count`,
    `str.split`, `str.join`, `str(int)`, `int(str)` and the `{:02d}` format. */
module Strings {
  import opened Wrappers

  /** `s.replace(pat, val)`: every non-overlapping occurrence, scanned left to right. */
  function Replace(s: string, pat: string, val: string): string
    requires |pat| > 0
    decreases |s|
  {
    if |s| < |pat| then s
    else if pat <= s then val + Replace(s[|pat|..], pat, val)
    else [s[0]] + Replace(s[1..], pat, val)
  }

  /** A prefix free of the pattern's first character passes through `Replace` untouched. */
  lemma {:induction false} ReplaceSkips(t: string, r: string, pat: string, val: string)
    requires |pat| > 0 && pat[0] !in t
    ensures Replace(t + r, pat, val) == t + Replace(r, pat, val)
  {
    if t == [] {
      assert t + r == r;
    } else {
      var s := t + r;
      assert s[0] == t[0] != pat[0];
      assert !(pat <= s);
      assert s[1..] == t[1..] + r;
      if |s| < |pat| {
        assert Replace(r, pat, val) == r;
      } else {
        ReplaceSkips(t[1..], r, pat, val);
        assert Replace(s, pat, val) == [t[0]] + (t[1..] + Replace(r, pat, val));
        assert [t[0]] + t[1..] == t;
      }
    }
  }

  /** A string without the pattern's first character is left unchanged. */
  lemma ReplaceAbsent(s: string, pat: string, val: string)
    requires |pat| > 0 && pat[0] !in s
    ensures Replace(s, pat, val) == s
  {
    ReplaceSkips(s, [], pat, val);
    assert s + [] == s;
  }

  /** `pat not in s`: no position of `s` starts an occurrence of the pattern. */
  predicate Free(s: string, pat: string)
  {
    forall i :: 0 <= i <= |s| ==> !(pat <= s[i..])
  }

  /** A string without the pattern's first character holds no occurrence of it. */
  lemma AbsentIsFree(s: string, pat: string)
    requires |pat| > 0 && pat[0] !in s
    ensures Free(s, pat)
  {
    forall i | 0 <= i <= |s| ensures !(pat <= s[i..]) {
      if i < |s| {
        assert s[i..][0] == s[i];
      }
    }
  }

  /** A string that holds no occurrence of the pattern is left unchanged. */
  lemma {:induction false} ReplaceFree(s: string, pat: string, val: string)
    requires |pat| > 0 && Free(s, pat)
    ensures Replace(s, pat, val) == s
    decreases |s|
  {
    if |s| >= |pat| {
      assert s[0..] == s;
      assert Free(s[1..], pat) by {
        forall i | 0 <= i <= |s[1..]| ensures !(pat <= s[1..][i..]) {
          assert s[1..][i..] == s[i + 1..];
        }
      }
      ReplaceFree(s[1..], pat, val);
      assert [s[0]] + s[1..] == s;
    }
  }

  /** Putting a prefix free of the pattern's first character in front keeps a string free of
      the pattern. */
  lemma FreeBehind(t: string, r: string, pat: string)
    requires |pat| > 0 && pat[0] !in t && Free(r, pat)
    ensures Free(t + r, pat)
  {
    var s := t + r;
    forall i | 0 <= i <= |s| ensures !(pat <= s[i..]) {
      if i < |t| {
        assert s[i..][0] == t[i];
      } else {
        assert s[i..] == r[i - |t|..];
      }
    }
  }

  /** Replacing one character by another maps every position on its own. */
  lemma {:induction false} ReplaceChar(s: string, c: char, d: char)
    ensures |Replace(s, [c], [d])| == |s|
    ensures forall i :: 0 <= i < |s| ==> Replace(s, [c], [d])[i] == if s[i] == c then d else s[i]
    decreases |s|
  {
    if s != [] {
      ReplaceChar(s[1..], c, d);
      var r := Replace(s[1..], [c], [d]);
      assert [c] <= s <==> s[0] == c;
      assert Replace(s, [c], [d]) == [if s[0] == c then d else s[0]] + r;
    }
  }

  /** `s.replace(pat, val)` for any pattern: an empty pattern puts `val` before every character
      and at the end. */
  function PyReplace(s: string, pat: string, val: string): string
  {
    if pat == [] then Interleave(s, val) else Replace(s, pat, val)
  }

  function Interleave(s: string, val: string): string
  {
    if s == [] then val else val + [s[0]] + Interleave(s[1..], val)
  }

  /** Replacing a whole non-empty string by a value gives the value. */
  lemma PyReplaceWhole(s: string, val: string)
    requires s != []
    ensures PyReplace(s, s, val) == val
  {
    assert s <= s;
    assert s[|s|..] == [];
    assert Replace(s, s, val) == val + Replace([], s, val);
  }

  /** `s.count(c)` for a one-character `c`. */
  function CountChar(s: string, c: char): (n: nat)
    ensures n <= |s|
    ensures n == 0 <==> c !in s
  {
    if s == [] then 0 else (if s[0] == c then 1 else 0) + CountChar(s[1..], c)
  }

  lemma {:induction false} CountCharAppend(a: string, b: string, c: char)
    ensures CountChar(a + b, c) == CountChar(a, c) + CountChar(b, c)
  {
    if a == [] {
      assert a + b == b;
    } else {
      assert (a + b)[0] == a[0];
      assert (a + b)[1..] == a[1..] + b;
      CountCharAppend(a[1..], b, c);
    }
  }

  /** `sep.join(parts)`. */
  function Join(sep: string, parts: seq<string>): string
  {
    if parts == [] then ""
    else if |parts| == 1 then parts[0]
    else parts[0] + sep + Join(sep, parts[1..])
  }

  /** `s.split(c)` for a one-character separator: always at least one piece. */
  function Split(s: string, c: char): (pieces: seq<string>)
    ensures |pieces| >= 1
    ensures forall i :: 0 <= i < |pieces| ==> c !in pieces[i]
  {
    if s == [] then [""]
    else
      var rest := Split(s[1..], c);
      if s[0] == c then [""] + rest
      else [[s[0]] + rest[0]] + rest[1..]
  }

  lemma {:induction false} SplitFree(a: string, c: char)
    requires c !in a
    ensures Split(a, c) == [a]
  {
    if a != [] {
      SplitFree(a[1..], c);
      assert [a[0]] + a[1..] == a;
    }
  }

  /** Splitting at the first separator peels off the text before it. */
  lemma {:induction false} SplitFirst(a: string, b: string, c: char)
    requires c !in a
    ensures Split(a + [c] + b, c) == [a] + Split(b, c)
  {
    if a == [] {
      assert a + [c] + b == [c] + b;
      assert ([c] + b)[1..] == b;
    } else {
      assert (a + [c] + b)[1..] == a[1..] + [c] + b;
      SplitFirst(a[1..], b, c);
      assert [a[0]] + a[1..] == a;
    }
  }

  /** The reversal of a sequence. */
  function Reverse<T>(s: seq<T>): (r: seq<T>)
    ensures |r| == |s|
    ensures forall i :: 0 <= i < |s| ==> r[i] == s[|s| - 1 - i]
  {
    if s == [] then [] else Reverse(s[1..]) + [s[0]]
  }

  // ---- integer arithmetic ----

  /** The Euclidean quotient and remainder by a positive divisor. */
  lemma DivMod(a: int, b: int)
    requires b > 0
    ensures a == (a / b) * b + a % b && 0 <= a % b < b
    ensures a >= 0 ==> a / b >= 0
  {
  }

  /** Python's `a // b`: the floor of the quotient, for either sign of `b`. */
  function FloorDiv(a: int, b: int): (q: int)
    requires b != 0
    ensures b > 0 ==> q * b <= a < q * b + b
    ensures b < 0 ==> q * b >= a > q * b + b
  {
    if b > 0 then
      DivMod(a, b);
      a / b
    else
      DivMod(-a, -b);
      (-a) / (-b)
  }

  // ---- decimal numbers ----

  function DigitChar(d: nat): char
    requires d < 10
  {
    (48 + d) as char
  }

  predicate IsDigit(c: char) { '0' <= c <= '9' }

  predicate IsDigits(s: string)
  {
    |s| > 0 && forall i :: 0 <= i < |s| ==> IsDigit(s[i])
  }

  /** The value of a run of decimal digits, most significant first (a character that is not
      a digit counts as 0; callers check the digits first). */
  function DigitsValue(s: string): nat
  {
    if s == [] then 0
    else DigitsValue(s[..|s| - 1]) * 10 + (if IsDigit(s[|s| - 1]) then s[|s| - 1] as int - 48 else 0)
  }

  /** `str(n)` for a non-negative integer. */
  function NatToString(n: nat): string
    decreases n
  {
    if n < 10 then [DigitChar(n)] else NatToString(n / 10) + [DigitChar(n % 10)]
  }

  /** `int(s)` restricted to plain digit strings. */
  function ParseNat(s: string): Option<nat>
  {
    if IsDigits(s) then Some(DigitsValue(s)) else None
  }

  /** Printing a number and reading it back gives the number. */
  lemma {:induction false} NatToStringRoundTrip(n: nat)
    ensures IsDigits(NatToString(n))
    ensures ParseNat(NatToString(n)) == Some(n)
    decreases n
  {
    if n < 10 {
      var s := [DigitChar(n)];
      assert s[..0] == [];
      assert DigitsValue(s) == n;
    } else {
      NatToStringRoundTrip(n / 10);
      var x := NatToString(n / 10);
      var s := x + [DigitChar(n % 10)];
      assert s[..|s| - 1] == x;
      assert forall i :: 0 <= i < |s| ==> IsDigit(s[i]);
      assert DigitsValue(s) == DigitsValue(x) * 10 + n % 10;
    }
  }

  /** `str(i)` for any integer. */
  function IntToString(i: int): string
  {
    if i < 0 then "-" + NatToString(-i) else NatToString(i)
  }

  /** The ASCII characters `str.isspace()` accepts: tab to carriage return, the four
      separators `\x1c` to `\x1f`, and the space. */
  predicate IsSpace(c: char)
  {
    (9 <= c as int <= 13) || (28 <= c as int <= 32)
  }

  function TrimStart(s: string): (r: string)
    ensures r == [] || !IsSpace(r[0])
    decreases |s|
  {
    if s != [] && IsSpace(s[0]) then TrimStart(s[1..]) else s
  }

  function TrimEnd(s: string): (r: string)
    ensures r == [] || !IsSpace(r[|r| - 1])
    decreases |s|
  {
    if s != [] && IsSpace(s[|s| - 1]) then TrimEnd(s[..|s| - 1]) else s
  }

  /** `s.strip()`. */
  function Strip(s: string): string
  {
    TrimEnd(TrimStart(s))
  }

  /** Decimal digits that single underscores may separate, as `int()` admits: a digit first,
      then either nothing, or a grouped numeral with or without one underscore in front. */
  predicate IsGrouped(s: string)
    decreases |s|
  {
    |s| > 0 && IsDigit(s[0]) &&
    (|s| == 1 || (if s[1] == '_' then IsGrouped(s[2..]) else IsGrouped(s[1..])))
  }

  /** The digits of a grouped numeral, without its underscores. */
  function Ungroup(s: string): string
    decreases |s|
  {
    if s == [] then []
    else (if s[0] == '_' then [] else [s[0]]) + Ungroup(s[1..])
  }

  /** `int(s)` on ASCII text: surrounding whitespace, then a numeral. */
  function ParseInt(s: string): Option<int>
  {
    ParseNumeral(Strip(s))
  }

  /** An optional sign, then decimal digits that single underscores may separate. */
  function ParseNumeral(t: string): Option<int>
  {
    var signed := |t| > 0 && (t[0] == '-' || t[0] == '+');
    var body := if signed then t[1..] else t;
    if !IsGrouped(body) then None
    else
      var n := DigitsValue(Ungroup(body));
      Some(if signed && t[0] == '-' then -(n as int) else n as int)
  }

  /** Plain digits are a grouped numeral with nothing to remove. */
  lemma {:induction false} DigitsGrouped(s: string)
    requires IsDigits(s)
    ensures IsGrouped(s) && Ungroup(s) == s
    decreases |s|
  {
    if |s| == 1 {
      assert Ungroup(s) == [s[0]] + Ungroup([]);
    } else {
      DigitsGrouped(s[1..]);
      assert s[1] != '_';
      assert [s[0]] + s[1..] == s;
    }
  }

  /** Removing underscores distributes over concatenation. */
  lemma {:induction false} UngroupAppend(a: string, b: string)
    ensures Ungroup(a + b) == Ungroup(a) + Ungroup(b)
    decreases |a|
  {
    if a != [] {
      assert (a + b)[0] == a[0] && (a + b)[1..] == a[1..] + b;
      UngroupAppend(a[1..], b);
    } else {
      assert a + b == b;
    }
  }

  /** Text that starts and ends with something other than whitespace is its own strip. */
  lemma StripTight(x: string)
    requires x == [] || (!IsSpace(x[0]) && !IsSpace(x[|x| - 1]))
    ensures Strip(x) == x
  {
  }

  /** Whitespace around text that starts and ends with something else is stripped. */
  lemma {:induction false} StripPadded(ws1: string, x: string, ws2: string)
    requires forall i :: 0 <= i < |ws1| ==> IsSpace(ws1[i])
    requires forall i :: 0 <= i < |ws2| ==> IsSpace(ws2[i])
    requires x != [] && !IsSpace(x[0]) && !IsSpace(x[|x| - 1])
    ensures Strip(ws1 + x + ws2) == x
  {
    assert ws1 + x + ws2 == ws1 + (x + ws2) && (x + ws2)[0] == x[0];
    TrimStartSpaces(ws1, x + ws2);
    TrimEndSpaces(x, ws2);
  }

  lemma {:induction false} TrimStartSpaces(ws: string, x: string)
    requires forall i :: 0 <= i < |ws| ==> IsSpace(ws[i])
    requires x != [] && !IsSpace(x[0])
    ensures TrimStart(ws + x) == x
    decreases |ws|
  {
    if ws != [] {
      assert (ws + x)[1..] == ws[1..] + x;
      TrimStartSpaces(ws[1..], x);
    } else {
      assert ws + x == x;
    }
  }

  lemma {:induction false} TrimEndSpaces(x: string, ws: string)
    requires forall i :: 0 <= i < |ws| ==> IsSpace(ws[i])
    requires x != [] && !IsSpace(x[|x| - 1])
    ensures TrimEnd(x + ws) == x
    decreases |ws|
  {
    if ws != [] {
      var n := |ws| - 1;
      assert (x + ws)[..|x + ws| - 1] == x + ws[..n];
      TrimEndSpaces(x, ws[..n]);
    } else {
      assert x + ws == x;
    }
  }

  /** `int(str(i)) == i`, whatever whitespace surrounds the numeral. */
  lemma IntToStringRoundTrip(i: int)
    ensures ParseInt(IntToString(i)) == Some(i)
  {
    ParseIntPadded("", i, "");
    assert "" + IntToString(i) + "" == IntToString(i);
  }

  /** Surrounding whitespace does not change what `int` reads. */
  lemma ParseIntPadded(ws1: string, i: int, ws2: string)
    requires forall k :: 0 <= k < |ws1| ==> IsSpace(ws1[k])
    requires forall k :: 0 <= k < |ws2| ==> IsSpace(ws2[k])
    ensures ParseInt(ws1 + IntToString(i) + ws2) == Some(i)
  {
    var n: nat := if i < 0 then -i else i;
    NatToStringRoundTrip(n);
    var d := NatToString(n);
    var x := IntToString(i);
    assert x[|x| - 1] == d[|d| - 1];
    StripPadded(ws1, x, ws2);
    NumeralOfInt(i);
  }

  /** The numeral `str(i)` reads back as `i`. */
  lemma NumeralOfInt(i: int)
    ensures ParseNumeral(IntToString(i)) == Some(i)
  {
    var n: nat := if i < 0 then -i else i;
    NatToStringRoundTrip(n);
    DigitsGrouped(NatToString(n));
    NumeralGrouped(NatToString(n));
  }

  /** A grouped numeral reads as its digits, and with a `-` in front as their negation. */
  lemma NumeralGrouped(d: string)
    requires IsGrouped(d)
    ensures ParseNumeral(d) == Some(DigitsValue(Ungroup(d)) as int)
    ensures ParseNumeral("-" + d) == Some(-(DigitsValue(Ungroup(d)) as int))
  {
    assert ("-" + d)[1..] == d;
  }

  /** A single underscore between two runs of digits is ignored. */
  lemma ParseIntUnderscore(a: string, b: string)
    requires IsDigits(a) && IsDigits(b)
    ensures ParseInt(a + "_" + b) == Some(DigitsValue(a + b))
  {
    var s := a + "_" + b;
    assert Ungroup(s) == a + b by {
      DigitsGrouped(a);
      DigitsGrouped(b);
      UngroupAppend(a + "_", b);
      UngroupAppend(a, "_");
      assert Ungroup("_") == [];
    }
    UnderscoreGrouped(a, b);
    assert s[0] == a[0] && s[|s| - 1] == b[|b| - 1];
    StripTight(s);
    NumeralGrouped(s);
  }

  /** Two runs of digits joined by one underscore form a grouped numeral. */
  lemma {:induction false} UnderscoreGrouped(a: string, b: string)
    requires IsDigits(a) && IsDigits(b)
    ensures IsGrouped(a + "_" + b)
    decreases |a|
  {
    var s := a + "_" + b;
    if |a| == 1 {
      assert s[1] == '_' && s[2..] == b;
      DigitsGrouped(b);
    } else {
      UnderscoreGrouped(a[1..], b);
      assert s[1] == a[1] && s[1..] == a[1..] + "_" + b;
    }
  }

  /** The `{:02d}` format of a non-negative integer: at least two digits, zero-padded. */
  function Pad2(n: nat): (r: string)
  {
    if n < 10 then "0" + NatToString(n) else NatToString(n)
  }

  lemma Pad2RoundTrip(n: nat)
    ensures IsDigits(Pad2(n)) && |Pad2(n)| >= 2
    ensures ParseNat(Pad2(n)) == Some(n)
  {
    NatToStringRoundTrip(n);
    if n < 10 {
      var s := "0" + NatToString(n);
      assert s == ['0', DigitChar(n)];
      assert s[..1] == "0";
      assert DigitsValue(s[..1]) == 0;
    } else {
      assert NatToString(n) == NatToString(n / 10) + [DigitChar(n % 10)];
    }
  }
}
