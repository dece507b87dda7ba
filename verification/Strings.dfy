/** The string helpers of the Go standard library that several components lean on. */
module Strings {

  function LowerChar(c: char): char {
    if 'A' <= c <= 'Z' then c - 'A' + 'a' else c
  }

  /** The ASCII capitals, code points 65 to 90, move by 32; nothing else moves. */
  lemma LowerCharExactly(c: char)
    ensures LowerChar(c) as int == if 65 <= c as int < 65 + 26 then c as int + 32 else c as int
  {
  }

  function Lower(s: string): string {
    seq(|s|, i requires 0 <= i < |s| => LowerChar(s[i]))
  }

  /** strings.EqualFold on ASCII. */
  predicate EqualFold(a: string, b: string) {
    |a| == |b| && forall i :: 0 <= i < |a| ==> LowerChar(a[i]) == LowerChar(b[i])
  }

  /** unicode.IsSpace. */
  predicate IsSpace(c: char) {
    '\t' <= c <= '\r' || c == ' ' || c == '\U{85}' || c == '\U{A0}' || c == '\U{1680}' || '\U{2000}' <= c <= '\U{200A}'
    || c == '\U{2028}' || c == '\U{2029}' || c == '\U{202F}' || c == '\U{205F}' || c == '\U{3000}'
  }

  /** The code points of Unicode's White_Space property. */
  lemma SpaceExactly(c: char)
    ensures IsSpace(c) <==>
            c as int in {0x09, 0x0A, 0x0B, 0x0C, 0x0D, 0x20, 0x85, 0xA0, 0x1680, 0x2000, 0x2001, 0x2002, 0x2003,
                         0x2004, 0x2005, 0x2006, 0x2007, 0x2008, 0x2009, 0x200A, 0x2028, 0x2029, 0x202F, 0x205F, 0x3000}
  {
  }

  function TrimSpace(s: string): string {
    if s != "" && IsSpace(s[0]) then TrimSpace(s[1..])
    else if s != "" && IsSpace(s[|s| - 1]) then TrimSpace(s[..|s| - 1])
    else s
  }

  function TrimRight(s: string, cutset: string): string {
    if s != "" && s[|s| - 1] in cutset then TrimRight(s[..|s| - 1], cutset) else s
  }

  lemma {:induction false} TrimSpaceTwice(s: string)
    ensures TrimSpace(TrimSpace(s)) == TrimSpace(s)
    decreases |s|
  {
    if s != "" && IsSpace(s[0]) {
      TrimSpaceTwice(s[1..]);
    } else if s != "" && IsSpace(s[|s| - 1]) {
      TrimSpaceTwice(s[..|s| - 1]);
    }
  }

  /** The order of strings as the database and the sorter compare them. */
  predicate TextAtMost(a: string, b: string) {
    a == "" || (b != "" && (a[0] < b[0] || (a[0] == b[0] && TextAtMost(a[1..], b[1..]))))
  }

  lemma {:induction false} TextReflexive(a: string)
    ensures TextAtMost(a, a)
    decreases |a|
  {
    if a != "" {
      TextReflexive(a[1..]);
    }
  }

  lemma {:induction false} TextAntisymmetric(a: string, b: string)
    requires TextAtMost(a, b) && TextAtMost(b, a)
    ensures a == b
    decreases |a|
  {
    if a != "" && b != "" {
      TextAntisymmetric(a[1..], b[1..]);
      assert a == [a[0]] + a[1..] && b == [b[0]] + b[1..];
    }
  }

  lemma {:induction false} TextTotal(a: string, b: string)
    ensures TextAtMost(a, b) || TextAtMost(b, a)
    decreases |a|
  {
    if a != "" && b != "" {
      TextTotal(a[1..], b[1..]);
    }
  }

  lemma {:induction false} TextTransitive(a: string, b: string, c: string)
    requires TextAtMost(a, b) && TextAtMost(b, c)
    ensures TextAtMost(a, c)
    decreases |a|
  {
    if a != "" && a[0] == b[0] == c[0] {
      TextTransitive(a[1..], b[1..], c[1..]);
    }
  }

  /** The first difference is at i, and a has the smaller character there. */
  predicate SmallerAt(a: string, b: string, i: nat) {
    i < |a| && i < |b| && a[..i] == b[..i] && a[i] < b[i]
  }

  lemma SmallerShifts(a: string, b: string, i: nat)
    requires a != "" && b != "" && a[0] == b[0]
    ensures SmallerAt(a, b, i + 1) <==> SmallerAt(a[1..], b[1..], i)
    ensures a <= b <==> a[1..] <= b[1..]
  {
    if i < |a[1..]| && i < |b[1..]| {
      assert a[..i + 1] == [a[0]] + a[1..][..i] && b[..i + 1] == [b[0]] + b[1..][..i];
      assert a[..i + 1][1..] == a[1..][..i] && b[..i + 1][1..] == b[1..][..i];
    }
    assert a == [a[0]] + a[1..] && b == [b[0]] + b[1..];
  }

  /** a is a prefix of b, or smaller at the first position where they differ. */
  lemma {:induction false} TextOrderExactly(a: string, b: string)
    ensures TextAtMost(a, b) <==> a <= b || exists i: nat :: SmallerAt(a, b, i)
    decreases |a|
  {
    if a != "" && b != "" && a[0] == b[0] {
      TextOrderExactly(a[1..], b[1..]);
      SmallerShifts(a, b, 0);
      if i: nat :| SmallerAt(a[1..], b[1..], i) {
        SmallerShifts(a, b, i);
      }
      if i: nat :| SmallerAt(a, b, i) {
        SmallerShifts(a, b, i - 1);
      }
    } else if a != "" && b != "" {
      if i: nat :| SmallerAt(a, b, i) {
        FirstDiffers(a, b, i);
      }
      assert a[..0] == b[..0];
      assert a[0] < b[0] ==> SmallerAt(a, b, 0);
    }
  }

  lemma FirstDiffers(a: string, b: string, i: nat)
    requires a != "" && b != "" && a[0] != b[0] && SmallerAt(a, b, i)
    ensures i == 0
  {
  }

  /** Letter case is what EqualFold ignores, and nothing else. */
  lemma EqualFoldExactly(a: string, b: string)
    ensures EqualFold(a, b) <==> Lower(a) == Lower(b)
  {
    if Lower(a) == Lower(b) {
      forall i | 0 <= i < |a| ensures LowerChar(a[i]) == LowerChar(b[i]) {
        assert Lower(a)[i] == Lower(b)[i];
      }
    }
  }

  lemma Around(c: char, front: string, t: string, back: string)
    ensures [c] + (front + t + back) == [c] + front + t + back
    ensures front + t + back + [c] == front + t + (back + [c])
  {
  }

  /** Exactly the spaces at both ends are removed. */
  lemma {:induction false} TrimSpaceExactly(s: string) returns (front: string, back: string)
    ensures s == front + TrimSpace(s) + back
    ensures (forall c :: c in front ==> IsSpace(c)) && (forall c :: c in back ==> IsSpace(c))
    ensures TrimSpace(s) != "" ==> !IsSpace(TrimSpace(s)[0]) && !IsSpace(TrimSpace(s)[|TrimSpace(s)| - 1])
    decreases |s|
  {
    if s != "" && IsSpace(s[0]) {
      var rest;
      rest, back := TrimSpaceExactly(s[1..]);
      front := [s[0]] + rest;
      Around(s[0], rest, TrimSpace(s), back);
      assert s == [s[0]] + s[1..];
    } else if s != "" && IsSpace(s[|s| - 1]) {
      var rest;
      front, rest := TrimSpaceExactly(s[..|s| - 1]);
      back := rest + [s[|s| - 1]];
      Around(s[|s| - 1], front, TrimSpace(s), rest);
      assert s == s[..|s| - 1] + [s[|s| - 1]];
    } else {
      front, back := "", "";
      assert "" + s + "" == s;
    }
  }

  /** Exactly the trailing characters of the set are removed. */
  lemma {:induction false} TrimRightExactly(s: string, cutset: string) returns (back: string)
    ensures s == TrimRight(s, cutset) + back && forall c :: c in back ==> c in cutset
    ensures var t := TrimRight(s, cutset); t != "" ==> t[|t| - 1] !in cutset
    decreases |s|
  {
    if s != "" && s[|s| - 1] in cutset {
      back := TrimRightExactly(s[..|s| - 1], cutset);
      back := back + [s[|s| - 1]];
      assert s == s[..|s| - 1] + [s[|s| - 1]];
    } else {
      back := "";
      assert s + "" == s;
    }
  }
}
