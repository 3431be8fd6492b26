/**
 * The JavaScript string operations the dashboard relies on, on `seq<char>`:
 * `startsWith`, `includes`, `split` on one character, `trim`, `replace` with a
 * global pattern, decimal rendering of numbers and `parseInt`.
 */
module Text {
  import opened Wrappers

  /** `s.startsWith(p)` */
  predicate StartsWith(s: string, p: string) {
    |p| <= |s| && s[..|p|] == p
  }

  /** `p` occurs in `s` at index `i`. */
  ghost predicate OccursAt(s: string, p: string, i: int) {
    0 <= i && i + |p| <= |s| && s[i..i + |p|] == p
  }

  /** `p` occurs nowhere in `s`. */
  ghost predicate Free(s: string, p: string) {
    forall i :: !OccursAt(s, p, i)
  }

  /** `s.includes(p)`: case-sensitive containment. */
  function Includes(s: string, p: string): bool
    decreases |s|
  {
    StartsWith(s, p) || (|s| > 0 && Includes(s[1..], p))
  }

  /** `Includes` is exactly "some occurrence exists". */
  lemma {:induction false} IncludesIffOccurs(s: string, p: string)
    ensures Includes(s, p) <==> exists i :: OccursAt(s, p, i)
    decreases |s|
  {
    if |s| == 0 {
      if exists i :: OccursAt(s, p, i) {
        var i :| OccursAt(s, p, i);
        assert |p| == 0 && s[..|p|] == p;
      }
      if p == [] {
        assert OccursAt(s, p, 0);
      }
    } else {
      IncludesIffOccurs(s[1..], p);
      if Includes(s[1..], p) {
        var i :| OccursAt(s[1..], p, i);
        assert s[i + 1..i + 1 + |p|] == s[1..][i..i + |p|];
        assert OccursAt(s, p, i + 1);
      }
      if StartsWith(s, p) {
        assert OccursAt(s, p, 0);
      }
      if exists i :: OccursAt(s, p, i) {
        var i :| OccursAt(s, p, i);
        if i == 0 {
          assert StartsWith(s, p);
        } else {
          assert s[1..][i - 1..i - 1 + |p|] == s[i..i + |p|];
          assert OccursAt(s[1..], p, i - 1);
        }
      }
    }
  }

  // ---------------------------------------------------------------------------
  // split / join

  /** `s.split(sep)` for a one-character separator: no quoting, every `sep` splits. */
  function Split(s: string, sep: char): (parts: seq<string>)
    ensures |parts| >= 1
    decreases |s|
  {
    if |s| == 0 then [""]
    else
      var rest := Split(s[1..], sep);
      if s[0] == sep then [""] + rest
      else [[s[0]] + rest[0]] + rest[1..]
  }

  /** `parts.join(sep)` */
  function Join(parts: seq<string>, sep: char): string
    requires |parts| >= 1
  {
    if |parts| == 1 then parts[0] else parts[0] + [sep] + Join(parts[1..], sep)
  }

  /** Number of occurrences of `c` in `s`. */
  function CountChar(s: string, c: char): nat {
    if |s| == 0 then 0 else (if s[0] == c then 1 else 0) + CountChar(s[1..], c)
  }

  /** Splitting loses nothing: joining the parts with the separator gives `s` back. */
  lemma {:induction false} JoinSplit(s: string, sep: char)
    ensures Join(Split(s, sep), sep) == s
    decreases |s|
  {
    if |s| > 0 {
      var rest := Split(s[1..], sep);
      JoinSplit(s[1..], sep);
      if s[0] != sep {
        var parts := [[s[0]] + rest[0]] + rest[1..];
        if |rest| > 1 {
          assert parts[1..] == rest[1..];
          assert Join(rest, sep) == rest[0] + [sep] + Join(rest[1..], sep);
        }
      } else {
        assert ([""] + rest)[1..] == rest;
      }
    }
  }

  /** No part contains the separator, and there is one part more than separators. */
  lemma {:induction false} SplitParts(s: string, sep: char)
    ensures |Split(s, sep)| == CountChar(s, sep) + 1
    ensures forall k :: 0 <= k < |Split(s, sep)| ==> sep !in Split(s, sep)[k]
    decreases |s|
  {
    if |s| > 0 {
      SplitParts(s[1..], sep);
      var rest := Split(s[1..], sep);
      if s[0] != sep {
        var parts := Split(s, sep);
        assert parts == [[s[0]] + rest[0]] + rest[1..];
        forall k | 0 <= k < |parts| ensures sep !in parts[k] {
          if k == 0 {
            assert sep !in rest[0];
          } else {
            assert parts[k] == rest[k];
          }
        }
      }
    }
  }

  /** Text without the separator splits into itself alone. */
  lemma {:induction false} SplitFree(a: string, sep: char)
    requires sep !in a
    ensures Split(a, sep) == [a]
    decreases |a|
  {
    if |a| > 0 {
      SplitFree(a[1..], sep);
      assert [a[0]] + a[1..] == a;
    }
  }

  /** A separator after separator-free text ends the first part there. */
  lemma {:induction false} SplitAtFirst(a: string, b: string, sep: char)
    requires sep !in a
    ensures Split(a + [sep] + b, sep) == [a] + Split(b, sep)
    decreases |a|
  {
    var s := a + [sep] + b;
    if |a| == 0 {
      assert s[1..] == b;
    } else {
      SplitAtFirst(a[1..], b, sep);
      assert s[1..] == a[1..] + [sep] + b;
      assert [a[0]] + a[1..] == a;
    }
  }

  /** Joining separator-free parts and splitting again gives the parts back. */
  lemma {:induction false} SplitJoin(parts: seq<string>, sep: char)
    requires |parts| >= 1
    requires forall k :: 0 <= k < |parts| ==> sep !in parts[k]
    ensures Split(Join(parts, sep), sep) == parts
    decreases |parts|
  {
    if |parts| == 1 {
      SplitFree(parts[0], sep);
    } else {
      SplitJoin(parts[1..], sep);
      SplitAtFirst(parts[0], Join(parts[1..], sep), sep);
      assert [parts[0]] + parts[1..] == parts;
    }
  }

  // ---------------------------------------------------------------------------
  // whitespace and trim

  /** ECMAScript WhiteSpace or LineTerminator, the characters `trim` removes. */
  predicate IsJsSpace(c: char) {
    c == '\t' || c == '\n' || c == '\U{000B}' || c == '\U{000C}' || c == '\r' || c == ' '
    || c == '\U{00A0}' || c == '\U{1680}' || ('\U{2000}' <= c <= '\U{200A}')
    || c == '\U{2028}' || c == '\U{2029}' || c == '\U{202F}' || c == '\U{205F}'
    || c == '\U{3000}' || c == '\U{FEFF}'
  }

  /** `s.trimStart()` */
  function TrimStart(s: string): string {
    if |s| > 0 && IsJsSpace(s[0]) then TrimStart(s[1..]) else s
  }

  /** `s.trimEnd()` */
  function TrimEnd(s: string): string {
    if |s| > 0 && IsJsSpace(s[|s| - 1]) then TrimEnd(s[..|s| - 1]) else s
  }

  /** `s.trim()` */
  function Trim(s: string): string {
    TrimEnd(TrimStart(s))
  }

  /** A string trims to '' exactly when it consists of whitespace only. */
  lemma {:induction false} TrimEmptyIffBlank(s: string)
    ensures Trim(s) == "" <==> forall i :: 0 <= i < |s| ==> IsJsSpace(s[i])
    decreases |s|
  {
    if |s| > 0 {
      if IsJsSpace(s[0]) {
        TrimEmptyIffBlank(s[1..]);
        assert forall i :: 1 <= i < |s| ==> s[i] == s[1..][i - 1];
      } else {
        TrimEndKeepsNonSpace(s);
      }
    }
  }

  /** `trimEnd` keeps a string whose first character is not whitespace non-empty. */
  lemma {:induction false} TrimEndKeepsNonSpace(s: string)
    requires |s| > 0 && !IsJsSpace(s[0])
    ensures TrimEnd(s) != ""
    decreases |s|
  {
    if IsJsSpace(s[|s| - 1]) {
      TrimEndKeepsNonSpace(s[..|s| - 1]);
    }
  }

  // ---------------------------------------------------------------------------
  // replace

  /** `s.replace(/p/g, r)`: left-to-right, non-overlapping replacement of every `p`. */
  function ReplaceAll(s: string, p: string, r: string): string
    requires |p| > 0
    decreases |s|
  {
    if |s| < |p| then s
    else if s[..|p|] == p then r + ReplaceAll(s[|p|..], p, r)
    else [s[0]] + ReplaceAll(s[1..], p, r)
  }

  /** `s.replace(/c/g, '')` for one character. */
  function RemoveChar(s: string, c: char): (t: string)
    ensures c !in t
    ensures |t| == |s| - CountChar(s, c)
  {
    if |s| == 0 then "" else (if s[0] == c then "" else [s[0]]) + RemoveChar(s[1..], c)
  }

  /** An occurrence past the end of `a` in `a + b` is an occurrence in `b`. */
  lemma OccursPastPrefix(a: string, b: string, p: string, i: int)
    requires i >= |a|
    ensures OccursAt(a + b, p, i) <==> OccursAt(b, p, i - |a|)
  {
    if i + |p| <= |a| + |b| {
      assert (a + b)[i..i + |p|] == b[i - |a|..i - |a| + |p|];
    }
  }

  /** A suffix of a string free of `q` is free of `q`. */
  lemma FreeSuffix(s: string, q: string, k: nat)
    requires k <= |s| && Free(s, q)
    ensures Free(s[k..], q)
  {
    assert s == s[..k] + s[k..];
    forall i ensures !OccursAt(s[k..], q, i) {
      if i >= 0 {
        OccursPastPrefix(s[..k], s[k..], q, i + k);
      }
    }
  }

  /** Where `p` does not occur, replacing it changes nothing. */
  lemma {:induction false} ReplaceAllFree(s: string, p: string, r: string)
    requires |p| > 0 && Free(s, p)
    ensures ReplaceAll(s, p, r) == s
    decreases |s|
  {
    if |s| >= |p| {
      assert !OccursAt(s, p, 0);
      FreeSuffix(s, p, 1);
      ReplaceAllFree(s[1..], p, r);
    }
  }

  /** A non-empty replacement keeps a non-empty string non-empty. */
  lemma ReplaceAllNonEmpty(s: string, p: string, r: string)
    requires |p| > 0 && |r| > 0 && |s| > 0
    ensures |ReplaceAll(s, p, r)| > 0
  {
  }

  /**
   * When `ReplaceAll(t, p, r)` starts with `q` and `q` does not contain the
   * first character of `r`, no replacement happened inside that prefix: `t`
   * itself starts with `q`.
   */
  lemma {:induction false} ReplacePrefixCopied(t: string, p: string, r: string, q: string)
    requires |p| > 0 && |r| > 0 && r[0] !in q
    ensures StartsWith(ReplaceAll(t, p, r), q) ==> StartsWith(t, q)
    decreases |t|
  {
    var out := ReplaceAll(t, p, r);
    if |t| < |p| {
    } else if t[..|p|] == p {
      assert |q| > 0 && |q| <= |out| ==> out[..|q|][0] == r[0];
    } else if |q| > 0 {
      var tail := ReplaceAll(t[1..], p, r);
      assert r[0] !in q[1..];
      ReplacePrefixCopied(t[1..], p, r, q[1..]);
      if |q| <= |out| {
        assert out[..|q|] == [t[0]] + tail[..|q| - 1];
      }
      if |q| <= |t| {
        assert t[..|q|] == [t[0]] + t[1..][..|q| - 1];
      }
      assert q == [q[0]] + q[1..];
    }
  }

  /**
   * Replacing every `p` by `r` leaves no `p` behind, provided that `p[0]` occurs
   * nowhere else in `p`, that `r` starts with `p[0]` and has it nowhere else, and
   * that `r` and `p` differ at some position `j` that both have.
   */
  lemma {:induction false} ReplaceAllRemoves(s: string, p: string, r: string, j: nat)
    requires |p| > 0 && |r| > 0
    requires forall k :: 1 <= k < |p| ==> p[k] != p[0]
    requires r[0] == p[0] && forall k :: 1 <= k < |r| ==> r[k] != p[0]
    requires j < |p| && j < |r| && r[j] != p[j]
    ensures Free(ReplaceAll(s, p, r), p)
    decreases |s|
  {
    var out := ReplaceAll(s, p, r);
    if |s| < |p| {
    } else if s[..|p|] == p {
      var tail := ReplaceAll(s[|p|..], p, r);
      ReplaceAllRemoves(s[|p|..], p, r, j);
      assert out == r + tail;
      forall i ensures !OccursAt(out, p, i) {
        if i >= |r| {
          OccursPastPrefix(r, tail, p, i);
        } else if 0 < i && i + |p| <= |out| {
          assert out[i..i + |p|][0] == r[i];
        } else if i == 0 && |p| <= |out| {
          assert out[..|p|][j] == r[j];
        }
      }
    } else {
      var tail := ReplaceAll(s[1..], p, r);
      ReplaceAllRemoves(s[1..], p, r, j);
      assert out == [s[0]] + tail;
      assert r[0] !in p[1..];
      ReplacePrefixCopied(s[1..], p, r, p[1..]);
      forall i ensures !OccursAt(out, p, i) {
        if i >= 1 {
          OccursPastPrefix([s[0]], tail, p, i);
        } else if i == 0 && |p| <= |out| {
          assert out[..|p|] == [s[0]] + tail[..|p| - 1];
          assert s[..|p|] == [s[0]] + s[1..][..|p| - 1];
          assert p == [p[0]] + p[1..];
        }
      }
    }
  }

  /**
   * Replacing `p` by `r` creates no occurrence of `q` when `q` does not start
   * with a character of `r` and `r` does not start with a character of `q`.
   */
  lemma {:induction false} ReplaceAllKeepsFree(s: string, p: string, r: string, q: string)
    requires |p| > 0 && |r| > 0 && |q| > 0
    requires Free(s, q)
    requires q[0] !in r && r[0] !in q
    ensures Free(ReplaceAll(s, p, r), q)
    decreases |s|
  {
    var out := ReplaceAll(s, p, r);
    if |s| < |p| {
    } else if s[..|p|] == p {
      var tail := ReplaceAll(s[|p|..], p, r);
      FreeSuffix(s, q, |p|);
      ReplaceAllKeepsFree(s[|p|..], p, r, q);
      assert out == r + tail;
      forall i ensures !OccursAt(out, q, i) {
        if i >= |r| {
          OccursPastPrefix(r, tail, q, i);
        } else if 0 <= i && i + |q| <= |out| {
          assert out[i..i + |q|][0] == r[i];
        }
      }
    } else {
      var tail := ReplaceAll(s[1..], p, r);
      FreeSuffix(s, q, 1);
      ReplaceAllKeepsFree(s[1..], p, r, q);
      assert out == [s[0]] + tail;
      assert r[0] !in q[1..];
      ReplacePrefixCopied(s[1..], p, r, q[1..]);
      assert !OccursAt(s, q, 0);
      forall i ensures !OccursAt(out, q, i) {
        if i >= 1 {
          OccursPastPrefix([s[0]], tail, q, i);
        } else if i == 0 && |q| <= |out| {
          assert out[..|q|] == [s[0]] + tail[..|q| - 1];
          if |q| <= |s| {
            assert s[..|q|] == [s[0]] + s[1..][..|q| - 1];
          }
          assert q == [q[0]] + q[1..];
        }
      }
    }
  }

  // ---------------------------------------------------------------------------
  // numbers as text

  /** The decimal digit character for `d`. */
  function DigitChar(d: nat): char
    requires d < 10
  {
    "0123456789"[d]
  }

  /** `String(n)` for a non-negative integer. */
  function NatToString(n: nat): (s: string)
    ensures |s| >= 1
    ensures forall i :: 0 <= i < |s| ==> '0' <= s[i] <= '9'
    ensures |s| > 1 ==> s[0] != '0'
  {
    if n < 10 then [DigitChar(n)] else NatToString(n / 10) + [DigitChar(n % 10)]
  }

  /** `String(i)` for any integer. */
  function IntToString(i: int): (s: string)
    ensures i >= 0 ==> s == NatToString(i)
  {
    if i < 0 then "-" + NatToString(-i) else NatToString(i)
  }

  /** The value of a digit character in `radix` (10 or 16), if it is one. */
  function DigitValue(c: char, radix: nat): Option<nat> {
    if '0' <= c <= '9' && (c as int) - ('0' as int) < radix then Some((c as int) - ('0' as int))
    else if radix == 16 && 'a' <= c <= 'f' then Some((c as int) - ('a' as int) + 10)
    else if radix == 16 && 'A' <= c <= 'F' then Some((c as int) - ('A' as int) + 10)
    else None
  }

  /** Length of the longest prefix of `s` made of digits in `radix`. */
  function DigitRun(s: string, radix: nat): (n: nat)
    ensures n <= |s|
  {
    if |s| > 0 && DigitValue(s[0], radix).Some? then 1 + DigitRun(s[1..], radix) else 0
  }

  /** The value of a run of digits, most significant first. */
  function DigitsValue(s: string, radix: nat): nat
    requires forall i :: 0 <= i < |s| ==> DigitValue(s[i], radix).Some?
  {
    if |s| == 0 then 0
    else DigitsValue(s[..|s| - 1], radix) * radix + DigitValue(s[|s| - 1], radix).value
  }

  /**
   * `parseInt(s)` without a radix argument: leading whitespace is skipped, one
   * sign is read, a `0x`/`0X` prefix selects base 16, and the longest run of
   * digits is read; `None` stands for `NaN` (no digit at all).
   */
  function ParseInt(s: string): Option<int> {
    var t := TrimStart(s);
    if |t| > 0 && t[0] == '-' then
      match ParseUnsigned(t[1..])
      case None => None
      case Some(m) => Some(0 - m)
    else if |t| > 0 && t[0] == '+' then ParseUnsigned(t[1..])
    else ParseUnsigned(t)
  }

  /** The digits after the sign: hexadecimal after `0x`/`0X`, decimal otherwise. */
  function ParseUnsigned(u: string): Option<nat> {
    var hex := |u| >= 2 && u[0] == '0' && (u[1] == 'x' || u[1] == 'X');
    var radix := if hex then 16 else 10;
    var v := if hex then u[2..] else u;
    var n := DigitRun(v, radix);
    DigitRunAllDigits(v, radix);
    if n == 0 then None else Some(DigitsValue(v[..n], radix))
  }

  lemma DigitRunAllDigits(s: string, radix: nat)
    ensures forall i :: 0 <= i < DigitRun(s, radix) ==> DigitValue(s[i], radix).Some?
  {
    if |s| > 0 && DigitValue(s[0], radix).Some? {
      DigitRunAllDigits(s[1..], radix);
      assert forall i :: 1 <= i < DigitRun(s, radix) ==> s[i] == s[1..][i - 1];
    }
  }

  /** `parseInt(x) || 0`: a missing value or `NaN` reads as 0. */
  function ParseIntOrZero(s: Option<string>): int {
    match s
    case None => 0
    case Some(t) => ParseInt(t).GetOr(0)
  }

  /** A number rendered in decimal reads back as itself. */
  lemma ParseIntNatToString(n: nat)
    ensures ParseInt(NatToString(n)) == Some(n)
  {
    var s := NatToString(n);
    assert !IsJsSpace(s[0]);
    assert TrimStart(s) == s;
    ParseUnsignedDecimal(s);
    DigitsValueNatToString(n);
  }

  /** A non-empty run of decimal digits is read whole. */
  lemma ParseUnsignedDecimal(s: string)
    requires |s| >= 1 && forall i :: 0 <= i < |s| ==> '0' <= s[i] <= '9'
    ensures ParseUnsigned(s) == Some(DigitsValue(s, 10))
  {
    DecimalRunIsWhole(s);
    assert s[..|s|] == s;
  }

  lemma {:induction false} DecimalRunIsWhole(s: string)
    requires forall i :: 0 <= i < |s| ==> '0' <= s[i] <= '9'
    ensures DigitRun(s, 10) == |s|
    decreases |s|
  {
    if |s| > 0 {
      DecimalRunIsWhole(s[1..]);
    }
  }

  lemma {:induction false} DigitsValueNatToString(n: nat)
    ensures DigitsValue(NatToString(n), 10) == n
  {
    var s := NatToString(n);
    if n < 10 {
      assert s[..0] == [];
    } else {
      DigitsValueNatToString(n / 10);
      assert s[..|s| - 1] == NatToString(n / 10);
    }
  }
}
