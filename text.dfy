/** Character and string helpers with the meaning Python's str gives them (ASCII subset). */
module Text {
  import opened Wrappers

  /** The ASCII decimal digits; the other Unicode decimal digits that \d and int() accept are
      not modelled. */
  predicate IsDigit(c: char) { '0' <= c <= '9' }

  /** The characters str.isspace() accepts, which str.strip() removes and the regex class \s
      matches: the controls \t to \r, the separators U+001C to U+001F, the space, and the
      Unicode spaces and line separators. */
  predicate IsSpace(c: char) {
    || ('\t' <= c <= '\r')
    || ('\U{1C}' <= c <= ' ')
    || c == '\U{85}' || c == '\U{A0}' || c == '\U{1680}'
    || ('\U{2000}' <= c <= '\U{200A}')
    || c == '\U{2028}' || c == '\U{2029}' || c == '\U{202F}' || c == '\U{205F}' || c == '\U{3000}'
  }

  predicate AllDigits(s: string) { forall i :: 0 <= i < |s| ==> IsDigit(s[i]) }

  /** The value of a run of decimal digits, most significant first (leading zeros allowed). */
  function DigitsValue(s: string): nat
    requires AllDigits(s)
    decreases |s|
  {
    if s == [] then 0 else 10 * DigitsValue(s[..|s| - 1]) + (s[|s| - 1] as int - '0' as int)
  }

  function DigitChar(d: nat): (c: char)
    requires d < 10
    ensures IsDigit(c) && c as int - '0' as int == d
  {
    ('0' as int + d) as char
  }

  /** Decimal rendering of a natural number, as Python's str(int) prints it. */
  function NatToString(n: nat): (s: string)
    ensures s != [] && AllDigits(s)
    ensures DigitsValue(s) == n
    ensures n >= 10 ==> s[0] != '0'
  {
    if n < 10 then [DigitChar(n)]
    else
      var p := NatToString(n / 10);
      var s := p + [DigitChar(n % 10)];
      assert s[..|s| - 1] == p;
      s
  }

  /** Decimal rendering of an integer, with a leading '-' when negative. */
  function IntToString(i: int): (s: string)
    ensures s != [] && (i >= 0 <==> s[0] != '-')
    ensures i >= 0 ==> s == NatToString(i)
    ensures i < 0 ==> s == "-" + NatToString(-i)
  {
    if i < 0 then "-" + NatToString(-i) else NatToString(i)
  }

  function Pow10(n: nat): (p: nat)
    ensures p >= 1
  {
    if n == 0 then 1 else 10 * Pow10(n - 1)
  }

  /** Python's int(x) for a float x: truncation toward zero. */
  function Trunc(x: real): (i: int)
    ensures x >= 0.0 ==> i as real <= x < i as real + 1.0
    ensures x < 0.0 ==> i as real - 1.0 < x <= i as real
  {
    if x >= 0.0 then x.Floor else -((-x).Floor)
  }

  /** The longest prefix of s made of digits. */
  function TakeDigits(s: string): (d: string)
    ensures |d| <= |s| && d == s[..|d|] && AllDigits(d)
    ensures |d| == |s| || !IsDigit(s[|d|])
  {
    if s != [] && IsDigit(s[0]) then [s[0]] + TakeDigits(s[1..]) else []
  }

  /** Index of the first character that is not whitespace (|s| when there is none). */
  function StripStart(s: string): (k: nat)
    ensures k <= |s|
    ensures forall i :: 0 <= i < k ==> IsSpace(s[i])
    ensures k == |s| || !IsSpace(s[k])
  {
    if s != [] && IsSpace(s[0]) then 1 + StripStart(s[1..]) else 0
  }

  /** Index just past the last character that is not whitespace (0 when there is none). */
  function StripEnd(s: string): (k: nat)
    ensures k <= |s|
    ensures forall i :: k <= i < |s| ==> IsSpace(s[i])
    ensures k == 0 || !IsSpace(s[k - 1])
  {
    if s != [] && IsSpace(s[|s| - 1]) then StripEnd(s[..|s| - 1]) else |s|
  }

  lemma StripBoundsOrdered(s: string)
    ensures StripStart(s) <= StripEnd(s) || (StripStart(s) == |s| && StripEnd(s) == 0)
  {
  }

  /** Python's str.lstrip(). */
  function StripLeft(s: string): (r: string)
    ensures |r| <= |s|
  {
    if s != [] && IsSpace(s[0]) then StripLeft(s[1..]) else s
  }

  /** Python's str.rstrip(). */
  function StripRight(s: string): (r: string)
    ensures |r| <= |s|
  {
    if s != [] && IsSpace(s[|s| - 1]) then StripRight(s[..|s| - 1]) else s
  }

  /** Python's str.strip(): the text without leading and trailing whitespace. */
  function Strip(s: string): (r: string)
    ensures |r| <= |s|
    ensures r == [] || (!IsSpace(r[0]) && !IsSpace(r[|r| - 1]))
  {
    var t := StripRight(s);
    StripRightAt(s);
    StripLeftAt(t);
    StripLeft(t)
  }

  lemma {:induction false} StripLeftAt(s: string)
    ensures StripLeft(s) == s[StripStart(s)..]
  {
    if s != [] && IsSpace(s[0]) {
      StripLeftAt(s[1..]);
    }
  }

  lemma {:induction false} StripRightAt(s: string)
    ensures StripRight(s) == s[..StripEnd(s)]
  {
    if s != [] && IsSpace(s[|s| - 1]) {
      StripRightAt(s[..|s| - 1]);
    }
  }

  /** Cutting s at b leaves its leading whitespace as it was, up to the cut. */
  lemma {:induction false} StripStartPrefix(s: string, b: nat)
    requires b <= |s|
    ensures StripStart(s[..b]) == if StripStart(s) < b then StripStart(s) else b
  {
    if s != [] && b > 0 && IsSpace(s[0]) {
      StripStartPrefix(s[1..], b - 1);
      assert s[1..][..b - 1] == s[..b][1..];
    }
  }

  /** Strip(s) is the slice between the first and past the last non-whitespace character. */
  lemma StripIndices(s: string)
    ensures Strip(s) == if StripStart(s) < StripEnd(s) then s[StripStart(s)..StripEnd(s)] else []
  {
    var b := StripEnd(s);
    StripRightAt(s);
    StripLeftAt(s[..b]);
    StripStartPrefix(s, b);
    StripBoundsOrdered(s);
  }

  /** A string with no whitespace at either end is its own strip. */
  lemma StripUnchanged(s: string)
    requires s == [] || (!IsSpace(s[0]) && !IsSpace(s[|s| - 1]))
    ensures Strip(s) == s
  {
    if s != [] {
      assert StripStart(s) == 0;
      assert StripEnd(s) == |s|;
    }
    StripIndices(s);
  }

  lemma StripIdempotent(s: string)
    ensures Strip(Strip(s)) == Strip(s)
  {
    StripUnchanged(Strip(s));
  }

  /** Every character of s that is not whitespace lies inside Strip(s), at the same offset. */
  lemma StripKeeps(s: string, k: nat)
    requires k < |s| && !IsSpace(s[k])
    ensures StripStart(s) <= k < StripEnd(s)
    ensures Strip(s) == s[StripStart(s)..StripEnd(s)]
  {
    StripIndices(s);
  }

  /** Each character of the strip sits in s, shifted by the leading whitespace. */
  lemma StripAt(s: string, i: nat)
    requires i < |Strip(s)|
    ensures StripStart(s) + i < |s| && Strip(s)[i] == s[StripStart(s) + i]
  {
    StripIndices(s);
  }

  /** A non-whitespace character of s survives the strip, shifted by the leading whitespace. */
  lemma StripFrom(s: string, k: nat)
    requires k < |s| && !IsSpace(s[k])
    ensures StripStart(s) <= k && k - StripStart(s) < |Strip(s)| && Strip(s)[k - StripStart(s)] == s[k]
  {
    StripKeeps(s, k);
  }

  predicate StartsWith(s: string, prefix: string) {
    |prefix| <= |s| && s[..|prefix|] == prefix
  }

  /** Python's `sub in s` for strings. */
  predicate Contains(s: string, sub: string)
    decreases |s|
  {
    StartsWith(s, sub) || (s != [] && Contains(s[1..], sub))
  }

  lemma {:induction false} ContainsWitness(s: string, sub: string) returns (i: nat)
    requires Contains(s, sub)
    ensures i + |sub| <= |s| && s[i..i + |sub|] == sub
    decreases |s|
  {
    if StartsWith(s, sub) {
      i := 0;
    } else {
      var j := ContainsWitness(s[1..], sub);
      i := j + 1;
      assert s[1..][j..j + |sub|] == s[i..i + |sub|];
    }
  }

  lemma {:induction false} ContainsAt(s: string, sub: string, i: nat)
    requires i + |sub| <= |s| && s[i..i + |sub|] == sub
    ensures Contains(s, sub)
    decreases i
  {
    if i > 0 {
      assert s[1..][i - 1..i - 1 + |sub|] == sub;
      ContainsAt(s[1..], sub, i - 1);
    }
  }

  /** Containment of substrings is transitive. */
  lemma ContainsTransitive(s: string, mid: string, sub: string)
    requires Contains(s, mid) && Contains(mid, sub)
    ensures Contains(s, sub)
  {
    var i := ContainsWitness(s, mid);
    var j := ContainsWitness(mid, sub);
    forall k | 0 <= k < |sub|
      ensures s[i + j..i + j + |sub|][k] == sub[k]
    {
      assert mid[j..j + |sub|][k] == mid[j + k];
      assert s[i..i + |mid|][j + k] == s[i + j + k];
    }
    ContainsAt(s, sub, i + j);
  }

  /** Containing a one-character string is membership of that character. */
  lemma ContainsChar(s: string, c: char)
    ensures Contains(s, [c]) <==> c in s
  {
    if Contains(s, [c]) {
      var i := ContainsWitness(s, [c]);
      assert s[i] == c;
    }
    if c in s {
      var i :| 0 <= i < |s| && s[i] == c;
      assert s[i..i + 1] == [c];
      ContainsAt(s, [c], i);
    }
  }

  function LowerChar(c: char): char {
    if 'A' <= c <= 'Z' then (c as int + 32) as char else c
  }

  /** Python's str.lower() on ASCII letters. */
  function Lower(s: string): (r: string)
    ensures |r| == |s|
  {
    if s == [] then [] else Lower(s[..|s| - 1]) + [LowerChar(s[|s| - 1])]
  }

  /** Lowering works character by character. */
  lemma {:induction false} LowerAt(s: string, i: nat)
    requires i < |s|
    ensures Lower(s)[i] == LowerChar(s[i])
  {
    if i < |s| - 1 {
      LowerAt(s[..|s| - 1], i);
    }
  }

  /** Python's s.split(sep) for a one-character separator: always at least one part. */
  function Split(s: string, sep: char): (parts: seq<string>)
    ensures |parts| >= 1
    decreases |s|
  {
    if s == [] then [[]]
    else
      var rest := Split(s[1..], sep);
      if s[0] == sep then [[]] + rest
      else [[s[0]] + rest[0]] + rest[1..]
  }

  /** No part of a split holds the separator. */
  lemma {:induction false} SplitPartsFree(s: string, sep: char)
    ensures forall i :: 0 <= i < |Split(s, sep)| ==> sep !in Split(s, sep)[i]
    decreases |s|
  {
    if s != [] {
      SplitPartsFree(s[1..], sep);
      var rest := Split(s[1..], sep);
      if s[0] != sep {
        assert sep !in rest[0];
        assert sep !in [s[0]] + rest[0];
        forall i | 0 <= i < |Split(s, sep)|
          ensures sep !in Split(s, sep)[i]
        {
          if i > 0 {
            assert Split(s, sep)[i] == rest[i];
          }
        }
      }
    }
  }

  /** Python's sep.join(parts). */
  function Join(parts: seq<string>, sep: string): string
  {
    if parts == [] then []
    else if |parts| == 1 then parts[0]
    else parts[0] + sep + Join(parts[1..], sep)
  }

  /** Splitting and joining back with the same separator gives the original text. */
  lemma {:induction false} JoinSplit(s: string, sep: char)
    ensures Join(Split(s, sep), [sep]) == s
    decreases |s|
  {
    if s != [] {
      JoinSplit(s[1..], sep);
      var rest := Split(s[1..], sep);
      if s[0] == sep {
        assert Split(s, sep) == [[]] + rest;
        assert s == [sep] + s[1..];
      } else {
        var parts := Split(s, sep);
        assert parts == [[s[0]] + rest[0]] + rest[1..];
        if |rest| == 1 {
          assert parts == [[s[0]] + rest[0]];
          assert Join(rest, [sep]) == rest[0];
        } else {
          assert parts[1..] == rest[1..];
          calc {
            Join(parts, [sep]);
            parts[0] + [sep] + Join(parts[1..], [sep]);
            ([s[0]] + rest[0]) + [sep] + Join(rest[1..], [sep]);
            [s[0]] + (rest[0] + [sep] + Join(rest[1..], [sep]));
            [s[0]] + Join(rest, [sep]);
            [s[0]] + s[1..];
            s;
          }
        }
      }
    }
  }

  /** A text without the separator splits into itself alone. */
  lemma {:induction false} SplitNoSeparator(s: string, sep: char)
    requires sep !in s
    ensures Split(s, sep) == [s]
    decreases |s|
  {
    if s != [] {
      SplitNoSeparator(s[1..], sep);
      assert [s[0]] + s[1..] == s;
    }
  }

  /** Splitting a + sep + b gives a followed by the parts of b. */
  lemma {:induction false} SplitAfterPart(a: string, b: string, sep: char)
    requires sep !in a
    ensures Split(a + [sep] + b, sep) == [a] + Split(b, sep)
    decreases |a|
  {
    var s := a + [sep] + b;
    if a == [] {
      assert s[1..] == b;
    } else {
      assert s[1..] == a[1..] + [sep] + b;
      SplitAfterPart(a[1..], b, sep);
      assert [a[0]] + a[1..] == a;
    }
  }

  /** Joining parts that do not hold the separator and splitting again gives the parts back. */
  lemma {:induction false} SplitJoin(parts: seq<string>, sep: char)
    requires parts != []
    requires forall i :: 0 <= i < |parts| ==> sep !in parts[i]
    ensures Split(Join(parts, [sep]), sep) == parts
    decreases |parts|
  {
    if |parts| == 1 {
      SplitNoSeparator(parts[0], sep);
    } else {
      SplitJoin(parts[1..], sep);
      SplitAfterPart(parts[0], Join(parts[1..], [sep]), sep);
      assert [parts[0]] + parts[1..] == parts;
    }
  }

  /** Python's s.rstrip(c) for one character c. */
  function TrimRightChar(s: string, c: char): (r: string)
    ensures |r| <= |s| && r == s[..|r|]
    ensures r == [] || r[|r| - 1] != c
    ensures forall i :: |r| <= i < |s| ==> s[i] == c
  {
    if s != [] && s[|s| - 1] == c then TrimRightChar(s[..|s| - 1], c) else s
  }

  /** Python's int(text) for a decimal literal: surrounding whitespace, an optional sign, digits. */
  function ParseInt(s: string): (r: Option<int>)
    ensures r.Some? ==> exists i :: 0 <= i < |s| && IsDigit(s[i])
  {
    var t := Strip(s);
    if t != [] && (t[0] == '-' || t[0] == '+') then
      var d := t[1..];
      if d != [] && AllDigits(d) then
        StripAt(s, 1);
        assert IsDigit(t[1]) by { assert t[1] == d[0]; }
        assert IsDigit(s[StripStart(s) + 1]);
        var v: int := DigitsValue(d);
        Some(if t[0] == '-' then -v else v)
      else None
    else if t != [] && AllDigits(t) then
      StripAt(s, 0);
      assert IsDigit(s[StripStart(s)]);
      Some(DigitsValue(t))
    else None
  }

  /** A digit string, read by int(), gives its value. */
  lemma ParseIntDigits(d: string)
    requires d != [] && AllDigits(d)
    ensures ParseInt(d) == Some(DigitsValue(d) as int)
  {
    StripUnchanged(d);
  }

  /** The decimal rendering of an integer holds only digits and a leading minus sign. */
  lemma IntToStringChars(i: int)
    ensures forall k :: 0 <= k < |IntToString(i)| ==> IsDigit(IntToString(i)[k]) || (k == 0 && IntToString(i)[k] == '-')
  {
    if i < 0 {
      var d := NatToString(-i);
      forall k | 1 <= k < |IntToString(i)|
        ensures IsDigit(IntToString(i)[k])
      {
        assert IntToString(i)[k] == d[k - 1];
      }
    }
  }

  /** int() reads back what str() printed. */
  lemma ParseIntToString(i: int)
    ensures ParseInt(IntToString(i)) == Some(i)
  {
    var s := IntToString(i);
    var d := NatToString(if i < 0 then -i else i);
    if i < 0 {
      assert s[|s| - 1] == d[|d| - 1];
      StripUnchanged(s);
      assert s[1..] == d;
    } else {
      ParseIntDigits(d);
    }
  }

  /** An unsigned decimal: digits, optionally a point and more digits (at least one digit in all). */
  function UnsignedDecimal(u: string): Option<real>
  {
    var ip := TakeDigits(u);
    var rest := u[|ip|..];
    if rest == [] then
      if ip == [] then None else Some(DigitsValue(ip) as real)
    else if rest[0] != '.' then None
    else
      var fp := rest[1..];
      if !AllDigits(fp) || (ip == [] && fp == []) then None
      else Some(DigitsValue(ip) as real + DigitsValue(fp) as real / Pow10(|fp|) as real)
  }

  /** Python's float(text) for plain decimal literals: whitespace, an optional sign, an unsigned decimal. */
  function ParseFloat(s: string): Option<real>
  {
    var t := Strip(s);
    var u := if t != [] && (t[0] == '-' || t[0] == '+') then t[1..] else t;
    var v := UnsignedDecimal(u);
    if v.None? then None
    else Some(if t != [] && t[0] == '-' then -v.value else v.value)
  }

  lemma UnsignedDecimalRejects(u: string, c: char)
    requires c in u && !IsDigit(c) && c != '.'
    ensures UnsignedDecimal(u).None?
  {
    var ip := TakeDigits(u);
    var rest := u[|ip|..];
    var i :| 0 <= i < |u| && u[i] == c;
    assert i >= |ip|;
    assert rest[i - |ip|] == c;
    if rest != [] && rest[0] == '.' {
      assert i - |ip| >= 1;
      assert rest[1..][i - |ip| - 1] == c;
    }
  }

  /** float() refuses any text holding a character that is neither a digit, a sign, a point nor whitespace. */
  lemma ParseFloatRejects(s: string, c: char)
    requires c in s && !IsDigit(c) && c != '.' && c != '-' && c != '+' && !IsSpace(c)
    ensures ParseFloat(s).None?
  {
    var i :| 0 <= i < |s| && s[i] == c;
    StripKeeps(s, i);
    var t := Strip(s);
    var a := StripStart(s);
    assert t[i - a] == c;
    if t != [] && (t[0] == '-' || t[0] == '+') {
      assert i - a >= 1;
      assert t[1..][i - a - 1] == c;
      UnsignedDecimalRejects(t[1..], c);
    } else {
      UnsignedDecimalRejects(t, c);
    }
  }
}
