/**
 The PHP string built-ins the client and the formatters rely on, over `string`
 (a sequence of characters; PHP's byte strings are modelled one byte per char):
 `trim`, `strrpos`, `stripos`, `strtoupper`, `explode`, `implode`, `str_replace`
 and the decimal rendering of integers.
 */
module Strings {

  /** The characters PHP's `trim` strips by default: " \t\n\r\0\x0B". */
  predicate IsTrimmed(c: char) {
    c == ' ' || c == '\t' || c == '\n' || c == '\r' || c as int == 0 || c as int == 11
  }

  predicate AllTrimmed(s: string) {
    forall i :: 0 <= i < |s| ==> IsTrimmed(s[i])
  }

  /** The number of whitespace characters `s` starts with. */
  function LeadingBlanks(s: string): (n: nat)
    ensures n <= |s| && AllTrimmed(s[..n])
    ensures n == |s| || !IsTrimmed(s[n])
  {
    if |s| > 0 && IsTrimmed(s[0]) then
      var n := 1 + LeadingBlanks(s[1..]);
      assert s[..n] == [s[0]] + s[1..][..n - 1];
      n
    else 0
  }

  /** The number of whitespace characters `s` ends with. */
  function TrailingBlanks(s: string): (n: nat)
    ensures n <= |s| && AllTrimmed(s[|s| - n..])
    ensures n == |s| || !IsTrimmed(s[|s| - n - 1])
  {
    if |s| > 0 && IsTrimmed(s[|s| - 1]) then
      var t := s[..|s| - 1];
      var n := 1 + TrailingBlanks(t);
      assert s[|s| - n..] == t[|t| - (n - 1)..] + [s[|s| - 1]];
      n
    else 0
  }

  /** `r` is the infix `s[i..j]`, and only whitespace lies outside it. */
  predicate InfixAmidBlanks(s: string, r: string, i: int, j: int) {
    0 <= i <= j <= |s| && r == s[i..j] && AllTrimmed(s[..i]) && AllTrimmed(s[j..])
  }

  /** PHP `trim`: the longest infix whose two ends are not whitespace. */
  function Trim(s: string): (r: string)
    ensures exists i, j :: InfixAmidBlanks(s, r, i, j)
    ensures |r| == 0 || (!IsTrimmed(r[0]) && !IsTrimmed(r[|r| - 1]))
  {
    var i := LeadingBlanks(s);
    var rest := s[i..];
    var n := TrailingBlanks(rest);
    var j := |s| - n;
    assert s[j..] == rest[|rest| - n..];
    assert i < j ==> s[i..j][0] == rest[0] && s[i..j][j - i - 1] == rest[|rest| - n - 1];
    assert InfixAmidBlanks(s, s[i..j], i, j);
    s[i..j]
  }

  /** Trimming a string whose ends are already non-blank changes nothing. */
  lemma TrimOfTrimmed(s: string)
    requires |s| == 0 || (!IsTrimmed(s[0]) && !IsTrimmed(s[|s| - 1]))
    ensures Trim(s) == s
  {
  }

  /** The result of `strrpos`: an index, or PHP's `false` when the needle is absent. */
  datatype Pos = NotFound | At(index: nat)

  /** PHP `strrpos($s, $c)` for a one-character needle. */
  function LastIndexOf(s: string, c: char): (p: Pos)
    ensures p.NotFound? <==> c !in s
    ensures p.At? ==> p.index < |s| && s[p.index] == c && c !in s[p.index + 1..]
  {
    if |s| == 0 then NotFound
    else if s[|s| - 1] == c then At(|s| - 1)
    else
      var p := LastIndexOf(s[..|s| - 1], c);
      assert s == s[..|s| - 1] + [s[|s| - 1]];
      p
  }

  /**
   PHP's loose `$p != $n` where `$p` is what `strrpos` returned. `false != $n`
   converts `$n` to a boolean, so it is false exactly when `$n` is 0.
   */
  function LooseNotEqual(p: Pos, n: int): bool {
    match p
    case NotFound => n != 0
    case At(i) => i != n
  }

  /**
   The test `strrpos($s, $c) != strlen($s) - 1` used by the client to decide
   whether to append `$c`: true when `$s` does not end in `$c`, except for a
   one-character `$s` that does not contain `$c` at all.
   */
  lemma LooseSuffixTest(s: string, c: char)
    ensures LooseNotEqual(LastIndexOf(s, c), |s| - 1) <==>
            !((|s| > 0 && s[|s| - 1] == c) || (|s| == 1 && c !in s))
  {
  }

  function LowerChar(c: char): char {
    if 'A' <= c <= 'Z' then (c as int + 32) as char else c
  }

  function UpperChar(c: char): char {
    if 'a' <= c <= 'z' then (c as int - 32) as char else c
  }

  /** ASCII case folding, as `strtolower` and `stripos` apply it. */
  function Lower(s: string): (r: string)
    ensures |r| == |s|
    ensures forall i :: 0 <= i < |s| ==> r[i] == LowerChar(s[i])
  {
    if |s| == 0 then [] else [LowerChar(s[0])] + Lower(s[1..])
  }

  /** PHP `strtoupper` on ASCII. */
  function Upper(s: string): (r: string)
    ensures |r| == |s|
    ensures forall i :: 0 <= i < |s| ==> r[i] == UpperChar(s[i])
  {
    if |s| == 0 then [] else [UpperChar(s[0])] + Upper(s[1..])
  }

  predicate StartsWith(s: string, p: string) {
    |p| <= |s| && s[..|p|] == p
  }

  /** `p` occurs somewhere in `s`. */
  predicate Contains(s: string, p: string) {
    StartsWith(s, p) || (|s| > 0 && Contains(s[1..], p))
  }

  lemma {:induction false} ContainsSuffix(a: string, b: string, p: string)
    requires Contains(b, p)
    ensures Contains(a + b, p)
  {
    if |a| > 0 {
      assert (a + b)[1..] == a[1..] + b;
      ContainsSuffix(a[1..], b, p);
    } else {
      assert a + b == b;
    }
  }

  /** A needle longer than the haystack does not occur in it. */
  lemma {:induction false} ShorterNotContains(s: string, p: string)
    requires |s| < |p|
    ensures !Contains(s, p)
  {
    if |s| > 0 {
      ShorterNotContains(s[1..], p);
    }
  }

  /** PHP `stripos($s, $p) !== false`: a case-insensitive occurrence. */
  predicate ContainsIgnoringCase(s: string, p: string) {
    Contains(Lower(s), Lower(p))
  }

  lemma LowerAppend(a: string, b: string)
    ensures Lower(a + b) == Lower(a) + Lower(b)
  {
    assert forall i :: 0 <= i < |a + b| ==> Lower(a + b)[i] == (Lower(a) + Lower(b))[i];
  }

  /** A string ending in `p` contains `p`, whatever the case. */
  lemma ContainsIgnoringCaseSuffix(a: string, p: string)
    ensures ContainsIgnoringCase(a + p, p)
  {
    LowerAppend(a, p);
    assert StartsWith(Lower(p), Lower(p));
    ContainsSuffix(Lower(a), Lower(p), Lower(p));
  }

  /** PHP `explode` with a one-character separator. */
  function Explode(s: string, c: char): (parts: seq<string>)
    ensures |parts| >= 1
    ensures forall i :: 0 <= i < |parts| ==> c !in parts[i]
    ensures c in s <==> |parts| >= 2
  {
    if |s| == 0 then [""]
    else
      var rest := Explode(s[1..], c);
      if s[0] == c then [""] + rest
      else
        assert c in s[1..] ==> c in s;
        assert c in s ==> c in s[1..] by {
          if c in s {
            var k :| 0 <= k < |s| && s[k] == c;
            assert s[1..][k - 1] == c;
          }
        }
        [[s[0]] + rest[0]] + rest[1..]
  }

  /** PHP `implode`. */
  function Join(sep: string, parts: seq<string>): string {
    if |parts| == 0 then ""
    else if |parts| == 1 then parts[0]
    else parts[0] + sep + Join(sep, parts[1..])
  }

  /** The first part of `explode` is the text up to the first separator, or all of it. */
  lemma {:induction false} ExplodeFirst(s: string, c: char)
    ensures StartsWith(s, Explode(s, c)[0])
    ensures |Explode(s, c)[0]| == |s| || s[|Explode(s, c)[0]|] == c
  {
    if |s| > 0 && s[0] != c {
      ExplodeFirst(s[1..], c);
      var h := Explode(s[1..], c)[0];
      assert Explode(s, c)[0] == [s[0]] + h;
      assert s == [s[0]] + s[1..];
    }
  }

  /** In a string holding the separator, the first part ends right before its first occurrence. */
  lemma FirstSeparator(s: string, c: char)
    requires c in s
    ensures var m := Explode(s, c)[0];
            |m| < |s| && s[..|m|] == m && s[|m|] == c && c !in m
  {
    ExplodeFirst(s, c);
    assert Explode(s, c)[0] != s;
  }

  /** The second part of `explode` is the first part of the text after the first separator. */
  lemma SecondPart(s: string, c: char)
    requires c in s
    ensures var m := Explode(s, c)[0];
            |m| < |s| && Explode(s, c)[1] == Explode(s[|m| + 1..], c)[0]
  {
    FirstSeparator(s, c);
    var m := Explode(s, c)[0];
    assert s == m + [c] + s[|m| + 1..];
    ExplodeAround(m, s[|m| + 1..], c);
  }

  /** `implode` undoes `explode`. */
  lemma {:induction false} JoinExplode(s: string, c: char)
    ensures Join([c], Explode(s, c)) == s
  {
    if |s| > 0 {
      var rest := Explode(s[1..], c);
      JoinExplode(s[1..], c);
      if s[0] == c {
        assert Explode(s, c) == [""] + rest;
        assert ([""] + rest)[1..] == rest;
      } else {
        var parts := Explode(s, c);
        assert parts == [[s[0]] + rest[0]] + rest[1..];
        if |rest| == 1 {
          assert Join([c], rest) == rest[0];
        } else {
          assert Join([c], rest) == rest[0] + [c] + Join([c], rest[1..]);
          assert parts[1..] == rest[1..];
        }
        assert s == [s[0]] + s[1..];
      }
    }
  }

  /** `explode` undoes `implode` when no part holds the separator. */
  lemma {:induction false} ExplodeJoin(parts: seq<string>, c: char)
    requires |parts| >= 1
    requires forall i :: 0 <= i < |parts| ==> c !in parts[i]
    ensures Explode(Join([c], parts), c) == parts
  {
    if |parts| == 1 {
      ExplodeNoSeparator(parts[0], c);
    } else {
      ExplodeJoin(parts[1..], c);
      ExplodeAround(parts[0], Join([c], parts[1..]), c);
      assert parts == [parts[0]] + parts[1..];
    }
  }

  lemma {:induction false} ExplodeNoSeparator(s: string, c: char)
    requires c !in s
    ensures Explode(s, c) == [s]
  {
    if |s| > 0 {
      ExplodeNoSeparator(s[1..], c);
      assert [s[0]] + s[1..] == s;
    }
  }

  /** Splitting `a ++ c ++ b`, where `a` is free of `c`, yields `a` then the parts of `b`. */
  lemma {:induction false} ExplodeAround(a: string, b: string, c: char)
    requires c !in a
    ensures Explode(a + [c] + b, c) == [a] + Explode(b, c)
  {
    if |a| == 0 {
      assert a + [c] + b == [c] + b;
      assert ([c] + b)[1..] == b;
    } else {
      ExplodeAround(a[1..], b, c);
      assert (a + [c] + b)[1..] == a[1..] + [c] + b;
      assert [a[0]] + a[1..] == a;
    }
  }

  /** PHP's decimal rendering of an integer, as `(string)$i` and string interpolation produce it. */
  function IntToStr(i: int): (r: string)
    ensures |r| > 0
    ensures i >= 0 ==> forall k :: 0 <= k < |r| ==> '0' <= r[k] <= '9'
    ensures i < 0 ==> r[0] == '-'
    ensures r == "0" <==> i == 0
  {
    if i < 0 then "-" + NatToStr(-i) else NatToStr(i)
  }

  function NatToStr(n: nat): (r: string)
    ensures |r| > 0
    ensures forall k :: 0 <= k < |r| ==> '0' <= r[k] <= '9'
    ensures r == "0" <==> n == 0
  {
    var d := [(n % 10 + '0' as int) as char];
    if n < 10 then d else NatToStr(n / 10) + d
  }

  /**
   PHP `str_replace($pat, $rep, $s)` for a non-empty needle: scans left to right,
   replacing each non-overlapping occurrence and resuming after it.
   */
  function ReplaceAll(s: string, pat: string, rep: string): (r: string)
    requires |pat| > 0
    ensures !Contains(s, pat) ==> r == s
    decreases |s|
  {
    if |s| < |pat| then s
    else if s[..|pat|] == pat then rep + ReplaceAll(s[|pat|..], pat, rep)
    else [s[0]] + ReplaceAll(s[1..], pat, rep)
  }

  /** Text with no occurrence of the needle's first character passes through untouched. */
  lemma {:induction false} ReplaceAllSkips(a: string, b: string, pat: string, rep: string)
    requires |pat| > 0 && pat[0] !in a
    ensures ReplaceAll(a + b, pat, rep) == a + ReplaceAll(b, pat, rep)
    decreases |a|
  {
    if |a| > 0 {
      var s := a + b;
      assert s[0] == a[0];
      if |s| >= |pat| {
        assert s[..|pat|][0] == a[0];
      }
      assert s[1..] == a[1..] + b;
      ReplaceAllSkips(a[1..], b, pat, rep);
      assert [a[0]] + a[1..] == a;
    } else {
      assert a + b == b;
    }
  }
}
