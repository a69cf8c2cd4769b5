/**
 * The handful of Python `str` operations the scripts rely on, written out with
 * Python's semantics: `in`, `startswith`, `find`, `strip()`, `replace(p, "")`,
 * `split('\n')`, `'\n'.join`, slicing `[:n]`, `count` and `f"{n}"` for integers.
 * Strings are sequences of Unicode scalar values. Python strings are sequences
 * of code points, so lengths agree with Python's `len` for every string without
 * lone surrogates, which a Dafny `char` cannot hold.
 */
module Str {

  /** Python's `str.isspace()` for one character: the characters `strip()` removes. */
  predicate IsSpace(c: char) {
    || c == ' ' || c == '\t' || c == '\n' || c == '\r' || c == '\U{B}' || c == '\U{C}'
    || ('\U{1C}' <= c <= '\U{1F}') || c == '\U{85}' || c == '\U{A0}' || c == '\U{1680}'
    || ('\U{2000}' <= c <= '\U{200A}') || c == '\U{2028}' || c == '\U{2029}'
    || c == '\U{202F}' || c == '\U{205F}' || c == '\U{3000}'
  }

  /** `p` occurs in `s` starting at index `k`. */
  predicate OccursAt(s: string, p: string, k: int) {
    0 <= k && k + |p| <= |s| && s[k..k + |p|] == p
  }

  /** Python `p in s`. */
  predicate Contains(s: string, p: string) {
    exists k | 0 <= k <= |s| - |p| :: OccursAt(s, p, k)
  }

  /** Python `s.startswith(p)`. */
  predicate StartsWith(s: string, p: string) {
    |p| <= |s| && s[..|p|] == p
  }

  /** Python `s.find(p, from)`: the first index at or after `from` where `p` occurs, or -1. */
  function Find(s: string, p: string, from: nat): (r: int)
    ensures r == -1 || (from <= r && OccursAt(s, p, r))
    ensures r == -1 ==> forall k :: from <= k ==> !OccursAt(s, p, k)
    ensures r != -1 ==> forall k :: from <= k < r ==> !OccursAt(s, p, k)
    decreases |s| - from
  {
    if from + |p| > |s| then -1
    else if s[from..from + |p|] == p then from
    else Find(s, p, from + 1)
  }

  /** `Find` from the start reports an occurrence exactly when `p in s`. */
  lemma FindContains(s: string, p: string)
    ensures Find(s, p, 0) != -1 <==> Contains(s, p)
  {
    var r := Find(s, p, 0);
    if r != -1 {
      assert OccursAt(s, p, r);
    }
  }

  /** Number of leading characters `strip()` removes. */
  function LeadingSpaces(s: string): (n: nat)
    ensures n <= |s|
    ensures forall k :: 0 <= k < n ==> IsSpace(s[k])
    ensures n < |s| ==> !IsSpace(s[n])
  {
    if s == [] || !IsSpace(s[0]) then 0 else 1 + LeadingSpaces(s[1..])
  }

  /** Number of trailing characters `strip()` removes. */
  function TrailingSpaces(s: string): (n: nat)
    ensures n <= |s|
    ensures forall k :: |s| - n <= k < |s| ==> IsSpace(s[k])
    ensures n < |s| ==> !IsSpace(s[|s| - 1 - n])
  {
    if s == [] || !IsSpace(s[|s| - 1]) then 0 else 1 + TrailingSpaces(s[..|s| - 1])
  }

  /** Python `s.strip()`: `s` without its leading and trailing whitespace. */
  function Strip(s: string): (r: string)
    ensures |r| <= |s|
  {
    var t := s[LeadingSpaces(s)..];
    t[..|t| - TrailingSpaces(t)]
  }

  /** The stripped text neither starts nor ends with whitespace, and is empty only for blank text. */
  lemma StripTrims(s: string)
    ensures var r := Strip(s);
      && (r == [] || (!IsSpace(r[0]) && !IsSpace(r[|r| - 1])))
      && (r == [] <==> forall k :: 0 <= k < |s| ==> IsSpace(s[k]))
  {
  }

  /** `strip()` keeps a contiguous run of the text, starting after the leading whitespace. */
  lemma StripIsSlice(s: string)
    ensures LeadingSpaces(s) + |Strip(s)| <= |s|
    ensures s[LeadingSpaces(s)..LeadingSpaces(s) + |Strip(s)|] == Strip(s)
  {
    var a := LeadingSpaces(s);
    var t := s[a..];
    PrefixOfSuffix(s, a, |t| - TrailingSpaces(t));
  }

  /** A prefix of a suffix is a middle slice. */
  lemma PrefixOfSuffix<T>(s: seq<T>, a: nat, c: nat)
    requires a <= |s| && c <= |s| - a
    ensures s[a..][..c] == s[a..a + c]
  {
  }

  /** `Strip` is characterised by its result: a middle slice with only whitespace around it. */
  lemma StripIsCore(s: string, i: nat, j: nat)
    requires i <= j <= |s|
    requires forall k :: 0 <= k < i ==> IsSpace(s[k])
    requires forall k :: j <= k < |s| ==> IsSpace(s[k])
    requires i < j && !IsSpace(s[i]) && !IsSpace(s[j - 1])
    ensures Strip(s) == s[i..j]
  {
    LeadingSpacesIs(s, i);
    TrailingSpacesOfSuffix(s, i, j);
    assert s[i..][..j - i] == s[i..j];
  }

  lemma TrailingSpacesOfSuffix(s: string, i: nat, j: nat)
    requires i < j <= |s| && !IsSpace(s[j - 1])
    requires forall k :: j <= k < |s| ==> IsSpace(s[k])
    ensures TrailingSpaces(s[i..]) == |s| - j
  {
    var t := s[i..];
    assert t[j - i - 1] == s[j - 1];
    assert forall k :: j - i <= k < |t| ==> t[k] == s[k + i];
    TrailingSpacesIs(t, |s| - j);
  }

  /** A run of whitespace ending at a non-whitespace character is what `strip` removes in front. */
  lemma {:induction false} LeadingSpacesIs(s: string, i: nat)
    requires i < |s| && !IsSpace(s[i])
    requires forall k :: 0 <= k < i ==> IsSpace(s[k])
    ensures LeadingSpaces(s) == i
  {
    if i > 0 {
      assert IsSpace(s[0]);
      assert forall k :: 0 <= k < i - 1 ==> s[1..][k] == s[k + 1];
      LeadingSpacesIs(s[1..], i - 1);
    }
  }

  /** A run of whitespace after a non-whitespace character is what `strip` removes behind. */
  lemma {:induction false} TrailingSpacesIs(t: string, n: nat)
    requires n < |t| && !IsSpace(t[|t| - 1 - n])
    requires forall k :: |t| - n <= k < |t| ==> IsSpace(t[k])
    ensures TrailingSpaces(t) == n
  {
    if n > 0 {
      assert IsSpace(t[|t| - 1]);
      var u := t[..|t| - 1];
      assert forall k :: 0 <= k < |u| ==> u[k] == t[k];
      TrailingSpacesIs(u, n - 1);
    }
  }

  /** Stripping twice is stripping once. */
  lemma StripIdempotent(s: string)
    ensures Strip(Strip(s)) == Strip(s)
  {
    var r := Strip(s);
    StripTrims(s);
    if r != [] {
      StripIsCore(r, 0, |r|);
    }
  }

  /** Stripping removes only whitespace: any other character survives it. */
  lemma StripKeepsNonSpace(s: string, c: char)
    requires !IsSpace(c)
    ensures c in Strip(s) <==> c in s
  {
    var a := LeadingSpaces(s);
    var t := s[a..];
    var b := TrailingSpaces(t);
    assert Strip(s) == t[..|t| - b];
    if c in s {
      var k :| 0 <= k < |s| && s[k] == c;
      assert a <= k;
      assert t[k - a] == c;
      assert k - a < |t| - b;
      assert t[..|t| - b][k - a] == c;
    }
    if c in Strip(s) {
      var k :| 0 <= k < |Strip(s)| && Strip(s)[k] == c;
      assert s[a + k] == c;
    }
  }

  /** A one-character text occurs exactly when the character does. */
  lemma ContainsChar(s: string, c: char)
    ensures Contains(s, [c]) <==> c in s
  {
    if c in s {
      var k :| 0 <= k < |s| && s[k] == c;
      assert s[k..k + 1] == [c];
      assert OccursAt(s, [c], k);
    }
    if Contains(s, [c]) {
      var k :| 0 <= k <= |s| - 1 && OccursAt(s, [c], k);
      assert s[k] == s[k..k + 1][0];
    }
  }

  /** A two-character text occurs exactly when its characters stand side by side somewhere. */
  lemma ContainsPair(s: string, a: char, b: char)
    ensures Contains(s, [a, b]) <==> exists k :: 0 <= k < |s| - 1 && s[k] == a && s[k + 1] == b
  {
    if exists k :: 0 <= k < |s| - 1 && s[k] == a && s[k + 1] == b {
      var k :| 0 <= k < |s| - 1 && s[k] == a && s[k + 1] == b;
      assert s[k..k + 2] == [a, b];
      assert OccursAt(s, [a, b], k);
    }
    if Contains(s, [a, b]) {
      var k :| 0 <= k <= |s| - 2 && OccursAt(s, [a, b], k);
      assert s[k] == s[k..k + 2][0] && s[k + 1] == s[k..k + 2][1];
    }
  }

  /** A text occurs in any concatenation that has it as a middle part. */
  lemma ContainsMiddle(a: string, b: string, c: string)
    ensures Contains(a + b + c, b)
  {
    assert (a + b + c)[|a|..|a| + |b|] == b;
    assert OccursAt(a + b + c, b, |a|);
  }

  /** Python `s.replace(p, "")`: every non-overlapping occurrence of `p`, left to right, removed. */
  function RemoveAll(s: string, p: string): (r: string)
    requires p != []
    ensures |r| <= |s|
    decreases |s|
  {
    if |s| < |p| then s
    else if s[..|p|] == p then RemoveAll(s[|p|..], p)
    else [s[0]] + RemoveAll(s[1..], p)
  }

  /** A string in which the marker does not occur is left as it is by `replace`. */
  lemma {:induction false} RemoveAllAbsent(s: string, p: string)
    requires p != []
    requires !Contains(s, p)
    ensures RemoveAll(s, p) == s
    decreases |s|
  {
    if |s| >= |p| {
      assert !OccursAt(s, p, 0);
      assert s[..|p|] != p;
      assert !Contains(s[1..], p) by {
        forall k | 0 <= k <= |s[1..]| - |p| ensures !OccursAt(s[1..], p, k) {
          assert !OccursAt(s, p, k + 1);
          assert s[1..][k..k + |p|] == s[k + 1..k + 1 + |p|];
        }
      }
      RemoveAllAbsent(s[1..], p);
      assert s == [s[0]] + s[1..];
    }
  }

  /**
   * `replace` removes the leftmost occurrence first: everything before it is
   * kept as it is, and the scan resumes right after it.
   */
  lemma {:induction false} RemoveAllFirst(s: string, p: string, k: nat)
    requires p != [] && OccursAt(s, p, k)
    requires forall j :: 0 <= j < k ==> !OccursAt(s, p, j)
    ensures RemoveAll(s, p) == s[..k] + RemoveAll(s[k + |p|..], p)
    decreases k
  {
    if k == 0 {
      assert s[..|p|] == p;
    } else {
      var t := s[1..];
      RemoveAllSkip(s, p);
      FirstOccurrenceShifts(s, p, k);
      RemoveAllFirst(t, p, k - 1);
      assert t[k - 1 + |p|..] == s[k + |p|..];
      KeepPrefix(s, k, RemoveAll(s, p), RemoveAll(t, p), RemoveAll(s[k + |p|..], p));
    }
  }

  /** Keeping the first character ahead of a kept prefix of the rest keeps the longer prefix. */
  lemma KeepPrefix<T>(s: seq<T>, k: nat, r: seq<T>, tail: seq<T>, rest: seq<T>)
    requires 0 < k <= |s|
    requires r == [s[0]] + tail && tail == s[1..][..k - 1] + rest
    ensures r == s[..k] + rest
  {
    assert [s[0]] + s[1..][..k - 1] == s[..k];
  }

  /** Where the marker does not start the text, `replace` keeps the first character. */
  lemma RemoveAllSkip(s: string, p: string)
    requires p != [] && |s| >= |p| && !OccursAt(s, p, 0)
    ensures RemoveAll(s, p) == [s[0]] + RemoveAll(s[1..], p)
  {
    assert s[..|p|] != p;
  }

  /** Dropping a first character that starts no occurrence moves the leftmost occurrence one place to the left. */
  lemma FirstOccurrenceShifts(s: string, p: string, k: nat)
    requires 0 < k && OccursAt(s, p, k)
    requires forall j :: 0 <= j < k ==> !OccursAt(s, p, j)
    ensures OccursAt(s[1..], p, k - 1)
    ensures forall j :: 0 <= j < k - 1 ==> !OccursAt(s[1..], p, j)
  {
    var t := s[1..];
    assert t[k - 1..k - 1 + |p|] == s[k..k + |p|];
    forall j | 0 <= j < k - 1 ensures !OccursAt(t, p, j) {
      assert !OccursAt(s, p, j + 1);
      if j + |p| <= |t| {
        assert t[j..j + |p|] == s[j + 1..j + 1 + |p|];
      }
    }
  }

  /** Python `s.split('\n')`: the pieces between newlines, always at least one. */
  function Split(s: string): (r: seq<string>)
    ensures |r| >= 1
    ensures forall i :: 0 <= i < |r| ==> '\n' !in r[i]
  {
    if s == [] then [[]]
    else
      var rest := Split(s[1..]);
      if s[0] == '\n' then [[]] + rest
      else [[s[0]] + rest[0]] + rest[1..]
  }

  /** Python `'\n'.join(parts)`. */
  function Join(parts: seq<string>): (r: string)
    ensures parts == [] ==> r == []
    ensures |parts| == 1 ==> r == parts[0]
  {
    if parts == [] then []
    else if |parts| == 1 then parts[0]
    else parts[0] + "\n" + Join(parts[1..])
  }

  /** Python `s.count(c)` for one character. */
  function CountChar(s: string, c: char): (n: nat)
    ensures n <= |s|
    ensures n == 0 <==> c !in s
  {
    if s == [] then 0 else (if s[0] == c then 1 else 0) + CountChar(s[1..], c)
  }

  /** Joining the pieces of a split gives back the original text. */
  lemma {:induction false} JoinSplit(s: string)
    ensures Join(Split(s)) == s
  {
    if s != [] {
      var rest := Split(s[1..]);
      JoinSplit(s[1..]);
      if s[0] == '\n' {
        assert Split(s) == [[]] + rest;
        assert Join(Split(s)) == [] + "\n" + Join(rest);
      } else {
        var r := Split(s);
        assert r == [[s[0]] + rest[0]] + rest[1..];
        if |rest| == 1 {
          assert Join(r) == [s[0]] + rest[0];
        } else {
          assert r[1..] == rest[1..];
          assert Join(rest) == rest[0] + "\n" + Join(rest[1..]);
          assert Join(r) == ([s[0]] + rest[0]) + "\n" + Join(rest[1..]);
        }
      }
      assert s == [s[0]] + s[1..];
    }
  }

  /** `split('\n')` produces one piece more than there are newlines. */
  lemma {:induction false} SplitCount(s: string)
    ensures |Split(s)| == CountChar(s, '\n') + 1
  {
    if s != [] {
      SplitCount(s[1..]);
    }
  }

  /** Splitting a join of newline-free pieces gives back the pieces. */
  lemma {:induction false} SplitJoin(parts: seq<string>)
    requires parts != []
    requires forall i :: 0 <= i < |parts| ==> '\n' !in parts[i]
    ensures Split(Join(parts)) == parts
    decreases |parts|, |parts[0]|
  {
    var p := parts[0];
    if p == [] {
      if |parts| > 1 {
        SplitJoin(parts[1..]);
        assert Join(parts) == "\n" + Join(parts[1..]);
        assert Join(parts)[1..] == Join(parts[1..]);
        assert parts == [[]] + parts[1..];
      }
    } else {
      var parts' := [p[1..]] + parts[1..];
      assert forall i :: 0 <= i < |parts'| ==> '\n' !in parts'[i] by {
        assert forall c :: c in p[1..] ==> c in p;
      }
      SplitJoin(parts');
      var s := Join(parts);
      if |parts| == 1 {
        assert s == p;
      } else {
        assert parts'[1..] == parts[1..];
        assert s == p + "\n" + Join(parts[1..]);
        assert Join(parts') == p[1..] + "\n" + Join(parts[1..]);
      }
      assert s[1..] == Join(parts');
      assert s[0] == p[0] && p[0] != '\n';
      assert Split(s) == [[p[0]] + p[1..]] + parts[1..];
      assert p == [p[0]] + p[1..];
    }
  }

  /** A character other than newline occurs in the text exactly when it occurs in one of its lines. */
  lemma {:induction false} CharInSplit(s: string, c: char)
    requires c != '\n'
    ensures c in s <==> exists i :: 0 <= i < |Split(s)| && c in Split(s)[i]
  {
    if s != [] {
      CharInSplit(s[1..], c);
      var rest := Split(s[1..]);
      var r := Split(s);
      if s[0] == '\n' {
        assert r == [[]] + rest;
        assert forall i :: 0 <= i < |rest| ==> r[i + 1] == rest[i];
      } else {
        assert r == [[s[0]] + rest[0]] + rest[1..];
        assert forall i :: 1 <= i < |rest| ==> r[i] == rest[i];
        if c in s {
          assert c in r[0] || c in s[1..];
        }
      }
      assert s == [s[0]] + s[1..];
    }
  }

  /** The same fact read the other way: the text lacks the character exactly when every line lacks it. */
  lemma NoCharInSplit(s: string, c: char)
    requires c != '\n'
    ensures c !in s <==> forall i :: 0 <= i < |Split(s)| ==> c !in Split(s)[i]
  {
    CharInSplit(s, c);
    if c in s {
      var i :| 0 <= i < |Split(s)| && c in Split(s)[i];
    }
  }

  /** Python `s[:n]`. */
  function Prefix(s: string, n: nat): (r: string)
    ensures |r| == if n <= |s| then n else |s|
    ensures StartsWith(s, r)
  {
    if n <= |s| then s[..n] else s
  }

  /** The decimal digit character for `d`. */
  function Digit(d: nat): (c: char)
    requires d < 10
    ensures '0' <= c <= '9'
  {
    "0123456789"[d]
  }

  /** The value of a decimal digit character. */
  function DigitValue(c: char): (d: nat)
    requires '0' <= c <= '9'
    ensures d < 10
  {
    (c as int) - ('0' as int)
  }

  predicate AllDigits(s: string) {
    forall i :: 0 <= i < |s| ==> '0' <= s[i] <= '9'
  }

  /** Python `f"{n}"` for a non-negative integer: its decimal digits, without leading zeros. */
  function NatToString(n: nat): (r: string)
    ensures |r| >= 1 && AllDigits(r)
    ensures |r| > 1 ==> r[0] != '0'
  {
    if n < 10 then [Digit(n)] else NatToString(n / 10) + [Digit(n % 10)]
  }

  /** Python `f"{i}"` for any integer. */
  function IntToString(i: int): (r: string)
    ensures i < 0 <==> StartsWith(r, "-")
  {
    if i < 0 then "-" + NatToString(-i) else NatToString(i)
  }

  /** The number a string of decimal digits denotes, as Python's `int(s)` reads it. */
  function ParseDigits(s: string): nat
    requires AllDigits(s)
  {
    if s == [] then 0 else ParseDigits(s[..|s| - 1]) * 10 + DigitValue(s[|s| - 1])
  }

  /** Reading back the digits `NatToString` writes gives the number. */
  lemma {:induction false} ParseNatToString(n: nat)
    ensures ParseDigits(NatToString(n)) == n
  {
    var r := NatToString(n);
    if n < 10 {
      assert r[..0] == [];
      assert DigitValue(Digit(n)) == n by {
        assert "0123456789"[n] as int == '0' as int + n;
      }
    } else {
      ParseNatToString(n / 10);
      assert r[..|r| - 1] == NatToString(n / 10);
      assert DigitValue(Digit(n % 10)) == n % 10 by {
        assert "0123456789"[n % 10] as int == '0' as int + n % 10;
      }
    }
  }
}
