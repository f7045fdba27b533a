/** String primitives the bots rely on: `String.prototype.includes`,
    `split(' ')` / `join(' ')`, and the decimal rendering of integers
    inside template literals. */
module Text {
  import opened Wrappers

  /** `p` occurs in `s` starting at index `i`. */
  ghost predicate OccursAt(p: string, s: string, i: int) {
    0 <= i && i + |p| <= |s| && s[i..i + |p|] == p
  }

  /** `p` is a (contiguous) substring of `s`. */
  ghost predicate IsSubstring(p: string, s: string) {
    exists i :: OccursAt(p, s, i)
  }

  /** `s.includes(p)`: scans left to right for an occurrence of `p`. */
  function Includes(s: string, p: string): (found: bool)
    ensures found <==> IsSubstring(p, s)
    decreases |s|
  {
    if |p| > |s| then false
    else if s[..|p|] == p then
      assert OccursAt(p, s, 0);
      true
    else
      var rest := Includes(s[1..], p);
      ShiftOccurrence(p, s);
      rest
  }

  /** Occurrences in `s[1..]` are exactly the occurrences in `s` past index 0. */
  lemma ShiftOccurrence(p: string, s: string)
    requires |s| >= 1
    requires !OccursAt(p, s, 0)
    ensures IsSubstring(p, s[1..]) <==> IsSubstring(p, s)
  {
    if IsSubstring(p, s[1..]) {
      var i :| OccursAt(p, s[1..], i);
      assert s[1..][i..i + |p|] == s[i + 1..i + 1 + |p|];
      assert OccursAt(p, s, i + 1);
    }
    if IsSubstring(p, s) {
      var i :| OccursAt(p, s, i);
      assert i >= 1;
      assert s[1..][i - 1..i - 1 + |p|] == s[i..i + |p|];
      assert OccursAt(p, s[1..], i - 1);
    }
  }

  /** The middle piece of a concatenation occurs in it, at the end of the first piece. */
  lemma OccursInMiddle(a: string, p: string, b: string)
    ensures OccursAt(p, a + p + b, |a|)
  {
  }

  /** Being a substring is transitive. */
  lemma SubstringTransitive(p: string, q: string, s: string)
    requires IsSubstring(p, q) && IsSubstring(q, s)
    ensures IsSubstring(p, s)
  {
    var i :| OccursAt(p, q, i);
    var j :| OccursAt(q, s, j);
    assert forall k :: 0 <= k < |p| ==> p[k] == q[i + k] == s[j + i + k];
    assert s[j + i..j + i + |p|] == p;
    assert OccursAt(p, s, j + i);
  }

  /** An occurrence in `c` is still one after anything is appended. */
  lemma SubstringOfPrefix(p: string, c: string, m: string)
    requires IsSubstring(p, c)
    ensures IsSubstring(p, c + m)
  {
    var i :| OccursAt(p, c, i);
    assert (c + m)[i..i + |p|] == c[i..i + |p|];
    assert OccursAt(p, c + m, i);
  }

  /** Appending `m` creates no new occurrence of `p` when `m` starts with a
      character foreign to `p` (nothing can straddle the seam) and `p` holds a
      character `x` that `m` lacks (nothing fits inside `m`). */
  lemma NoOccurrenceAcrossSeam(p: string, c: string, m: string, x: char)
    requires |m| >= 1 && m[0] !in p
    requires x in p && x !in m
    ensures IsSubstring(p, c + m) <==> IsSubstring(p, c)
  {
    if IsSubstring(p, c + m) {
      var i :| OccursAt(p, c + m, i);
      if i + |p| <= |c| {
        assert (c + m)[i..i + |p|] == c[i..i + |p|];
        assert OccursAt(p, c, i);
      } else if i < |c| {
        SeamInsideOccurrence(p, c, m, i);
        assert false;
      } else {
        OccurrenceInsideSuffix(p, c, m, i, x);
        assert false;
      }
    }
    if IsSubstring(p, c) {
      SubstringOfPrefix(p, c, m);
    }
  }

  /** An occurrence that starts before the seam and ends after it covers `m[0]`. */
  lemma SeamInsideOccurrence(p: string, c: string, m: string, i: int)
    requires OccursAt(p, c + m, i) && i < |c| < i + |p|
    ensures m[0] in p
  {
    assert p[|c| - i] == (c + m)[i..i + |p|][|c| - i] == (c + m)[|c|];
  }

  /** An occurrence lying wholly after the seam uses only characters of `m`. */
  lemma OccurrenceInsideSuffix(p: string, c: string, m: string, i: int, x: char)
    requires OccursAt(p, c + m, i) && i >= |c| && x in p
    ensures x in m
  {
  }

  /** A string lacking one of `p`'s characters does not contain `p`. */
  lemma MissingChar(p: string, s: string, x: char)
    requires x in p && x !in s
    ensures !IsSubstring(p, s)
  {
  }

  /** A character `p` lacks acts as a wall: every occurrence in `a + [x] + b`
      lies wholly in `a` or wholly in `b`. */
  lemma Barrier(p: string, a: string, x: char, b: string)
    requires x !in p
    ensures IsSubstring(p, a + [x] + b) ==> IsSubstring(p, a) || IsSubstring(p, b)
  {
    var s := a + [x] + b;
    if IsSubstring(p, s) {
      var i :| OccursAt(p, s, i);
      if i + |p| <= |a| {
        assert s[i..i + |p|] == a[i..i + |p|];
        assert OccursAt(p, a, i);
      } else if i > |a| {
        assert s[i..i + |p|] == b[i - |a| - 1..i - |a| - 1 + |p|];
        assert OccursAt(p, b, i - |a| - 1);
      } else {
        CharOfOccurrence(p, s, i, |a| - i);
        assert false;
      }
    }
  }

  /** Each character of an occurrence is the matching character of `p`. */
  lemma CharOfOccurrence(p: string, s: string, i: int, k: int)
    requires OccursAt(p, s, i) && 0 <= k < |p|
    ensures s[i + k] == p[k]
  {
    assert s[i..i + |p|][k] == s[i + k];
  }

  /** An occurrence in `l + m + r` that is not inside `m` would have to
      start in `l` or end in `r`. It cannot start in `l` when `p`'s first
      character never sits in `l` followed by `p`'s second, and it cannot
      end in `r` when `r` lacks `p`'s last character. */
  lemma Enclosed(p: string, l: string, m: string, r: string)
    requires |p| >= 2
    requires forall j :: 0 <= j < |l| && l[j] == p[0] ==> j + 1 < |l| && l[j + 1] != p[1]
    requires p[|p| - 1] !in r
    ensures IsSubstring(p, l + m + r) ==> IsSubstring(p, m)
  {
    var s := l + m + r;
    if IsSubstring(p, s) {
      var i :| OccursAt(p, s, i);
      assert s[i] == p[0] && s[i + 1] == p[1] && s[i + |p| - 1] == p[|p| - 1] by {
        assert s[i..i + |p|] == p;
      }
      if |l| <= i && i + |p| <= |l| + |m| {
        assert s[i..i + |p|] == m[i - |l|..i - |l| + |p|];
        assert OccursAt(p, m, i - |l|);
      }
    }
  }

  // ---------------------------------------------------------------------
  // split / join

  /** `s.split(sep)` for a one-character separator: every occurrence of
      `sep` ends a piece, so there is always at least one piece. */
  function Split(s: string, sep: char): (parts: seq<string>)
    ensures |parts| >= 1
    ensures forall k :: 0 <= k < |parts| ==> sep !in parts[k]
  {
    if s == [] then [""]
    else
      var rest := Split(s[1..], sep);
      if s[0] == sep then [""] + rest
      else [[s[0]] + rest[0]] + rest[1..]
  }

  /** `parts.join(sep)`. */
  function Join(parts: seq<string>, sep: string): string {
    if |parts| == 0 then ""
    else if |parts| == 1 then parts[0]
    else parts[0] + sep + Join(parts[1..], sep)
  }

  /** Joining the pieces of a split with the same separator restores the input. */
  lemma {:induction false} JoinSplit(s: string, sep: char)
    ensures Join(Split(s, sep), [sep]) == s
  {
    if s != [] {
      var rest := Split(s[1..], sep);
      JoinSplit(s[1..], sep);
      if s[0] == sep {
        assert ([""] + rest)[1..] == rest;
        assert Join([""] + rest, [sep]) == "" + [sep] + Join(rest, [sep]);
      } else {
        var parts := [[s[0]] + rest[0]] + rest[1..];
        if |rest| == 1 {
          assert Join(parts, [sep]) == [s[0]] + rest[0];
        } else {
          assert parts[1..] == rest[1..];
          assert Join(parts, [sep]) == [s[0]] + rest[0] + [sep] + Join(rest[1..], [sep]);
        }
        assert [s[0]] + s[1..] == s;
      }
    }
  }

  /** Splitting at a first separator that follows a separator-free `a`
      yields `a` followed by the pieces of the remainder. */
  lemma {:induction false} SplitAtFirst(a: string, b: string, sep: char)
    requires sep !in a
    ensures Split(a + [sep] + b, sep) == [a] + Split(b, sep)
  {
    if a == [] {
      assert ([] + [sep] + b)[1..] == b;
    } else {
      assert (a + [sep] + b)[1..] == a[1..] + [sep] + b;
      SplitAtFirst(a[1..], b, sep);
      assert [a[0]] + a[1..] == a;
    }
  }

  /** A string without the separator splits into itself alone. */
  lemma {:induction false} SplitWithoutSeparator(s: string, sep: char)
    requires sep !in s
    ensures Split(s, sep) == [s]
  {
    if s != [] {
      SplitWithoutSeparator(s[1..], sep);
      assert [s[0]] + s[1..] == s;
    }
  }

  // ---------------------------------------------------------------------
  // decimal rendering of integers

  predicate IsDigit(c: char) {
    '0' <= c <= '9'
  }

  function DigitChar(d: nat): (c: char)
    requires d < 10
    ensures IsDigit(c)
  {
    (48 + d) as char
  }

  function DigitValue(c: char): (d: nat)
    requires IsDigit(c)
    ensures d < 10 && DigitChar(d) == c
  {
    (c as int) - 48
  }

  /** `${n}` for a non-negative integer: its decimal digits, most
      significant first, without leading zeros. */
  function ShowNat(n: nat): (s: string)
    ensures |s| >= 1
    ensures forall k :: 0 <= k < |s| ==> IsDigit(s[k])
    ensures |s| > 1 ==> s[0] != '0'
  {
    if n < 10 then [DigitChar(n)]
    else ShowNat(n / 10) + [DigitChar(n % 10)]
  }

  /** Reads a non-empty run of decimal digits, most significant first. */
  function ParseDigits(s: string): (r: Option<nat>)
    ensures r.Some? <==> |s| >= 1 && forall k :: 0 <= k < |s| ==> IsDigit(s[k])
  {
    if |s| == 0 || !IsDigit(s[|s| - 1]) then None
    else if |s| == 1 then Some(DigitValue(s[0]))
    else
      match ParseDigits(s[..|s| - 1])
      case None => None
      case Some(high) => Some(high * 10 + DigitValue(s[|s| - 1]))
  }

  /** Reads the decimal rendering of a natural: a non-empty run of digits
      without a leading zero; anything else is rejected. */
  function ParseNat(s: string): (r: Option<nat>)
    ensures r.Some? <==> |s| >= 1 && (forall k :: 0 <= k < |s| ==> IsDigit(s[k])) && (|s| > 1 ==> s[0] != '0')
  {
    if |s| > 1 && s[0] == '0' then None else ParseDigits(s)
  }

  /** Reading back the rendering of `n` gives `n`. */
  lemma {:induction false} ParseShowNat(n: nat)
    ensures ParseNat(ShowNat(n)) == Some(n)
  {
    ParseDigitsShowNat(n);
  }

  lemma {:induction false} ParseDigitsShowNat(n: nat)
    ensures ParseDigits(ShowNat(n)) == Some(n)
  {
    if n >= 10 {
      var s := ShowNat(n);
      ParseDigitsShowNat(n / 10);
      assert s[..|s| - 1] == ShowNat(n / 10);
    }
  }

  /** Every string `ParseNat` accepts is the rendering of the number it
      reads, so two accepted strings with the same value are equal. */
  lemma {:induction false} ShowParseNat(s: string)
    requires ParseNat(s).Some?
    ensures ShowNat(ParseNat(s).value) == s
    decreases |s|
  {
    if |s| > 1 {
      var p := s[..|s| - 1];
      var d := DigitValue(s[|s| - 1]);
      assert forall k :: 0 <= k < |p| ==> p[k] == s[k];
      assert ParseNat(p) == ParseDigits(p);
      var high := ParseDigits(p).value;
      ShowParseNat(p);
      assert ShowNat(0) == "0" && p[0] == s[0] != '0';
      assert high != 0;
      var n := high * 10 + d;
      assert n / 10 == high && n % 10 == d;
      assert s == p + [s[|s| - 1]];
    }
  }

  /** Position of the first `c` in `s`, if any. */
  function IndexOf(s: string, c: char): (r: Option<nat>)
    ensures r.None? <==> c !in s
    ensures r.Some? ==> r.value < |s| && s[r.value] == c && c !in s[..r.value]
  {
    if s == [] then None
    else if s[0] == c then Some(0)
    else
      match IndexOf(s[1..], c)
      case None => None
      case Some(i) =>
        assert s[..i + 1] == [s[0]] + s[1..][..i];
        Some(i + 1)
  }

  /** The first `c` in `a + [c] + b` is the one after `a` when `a` has none. */
  lemma IndexOfFirst(a: string, c: char, b: string)
    requires c !in a
    ensures IndexOf(a + [c] + b, c) == Some(|a|)
  {
    var r := IndexOf(a + [c] + b, c);
    assert (a + [c] + b)[|a|] == c;
    assert (a + [c] + b)[..|a|] == a;
  }
}
