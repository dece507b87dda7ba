/** File names of the fanart reorder: internal/image/fanart.go and the name building in
    internal/api/handlers_backdrop.go. The lemmas show that the three families of names a reorder uses
    (discovered paths, staging names, final names) cannot collide by accident. */
module FanartNames {
  import opened Strings

  type Name = string

  function Digit(d: nat): char
    requires d < 10
  {
    "0123456789"[d]
  }

  /** Decimal rendering, the "%d" of the name formats. */
  function Decimal(n: nat): string {
    if n < 10 then [Digit(n)] else Decimal(n / 10) + [Digit(n % 10)]
  }

  predicate IsDigit(c: char) {
    '0' <= c <= '9'
  }

  function DigitsValue(s: string): nat
    requires forall c :: c in s ==> IsDigit(c)
  {
    if s == "" then 0
    else
      var last := s[|s| - 1];
      assert last in s && IsDigit(last);
      DigitsValue(s[..|s| - 1]) * 10 + (last as int - '0' as int)
  }

  /** The suffix from the last dot on, or "" (filepath.Ext on a bare file name). */
  function Ext(s: Name): string {
    if s == "" then ""
    else if s[|s| - 1] == '.' then "."
    else
      var e := Ext(s[..|s| - 1]);
      if e == "" then "" else e + [s[|s| - 1]]
  }

  function TrimExt(s: Name): (stem: string)
    ensures stem + Ext(s) == s
  {
    ExtIsSuffix(s);
    s[..|s| - |Ext(s)|]
  }

  /** Only these files are ever discovered as fanart. */
  predicate IsImageExt(ext: string) {
    Lower(ext) in [".jpg", ".jpeg", ".png"]
  }

  predicate IsImage(name: Name) {
    IsImageExt(Ext(name))
  }

  function FanartFilename(primary: Name, index: nat, kodi: bool): Name {
    if index == 0 then primary
    else TrimExt(primary) + Decimal(if kodi then index else index + 1) + Ext(primary)
  }

  function TempName(i: nat, ext: string): Name {
    "fanart_reorder_" + Decimal(i) + ext + ".tmp"
  }

  function FinalName(primary: Name, i: nat, kodi: bool, ext: string): Name {
    TrimExt(FanartFilename(primary, i, kodi)) + ext
  }

  // ---------------------------------------------------------------- extensions

  lemma {:induction false} ExtDots(s: Name)
    ensures Ext(s) == "" <==> '.' !in s
    ensures Ext(s) != "" ==> Ext(s)[0] == '.' && '.' !in Ext(s)[1..]
    ensures Ext(s) == "" <==> '.' !in s
  {
    if s != "" {
      var init, c := s[..|s| - 1], s[|s| - 1];
      assert s == init + [c];
      if c != '.' {
        ExtDots(init);
        var e := Ext(init);
        if e != "" {
          assert (e + [c])[1..] == e[1..] + [c];
        }
      }
    }
  }

  lemma SplitGrows(stem: string, e: string, c: char)
    ensures var s := stem + e + [c];
            s[..|s| - 1] == stem + e && |s| - |e + [c]| == |stem| && s[..|stem|] == stem && stem + (e + [c]) == s
  {
  }

  lemma {:induction false} ExtSplits(s: Name)
    ensures |Ext(s)| <= |s| && s[..|s| - |Ext(s)|] + Ext(s) == s
  {
    if s != "" {
      var init, c := s[..|s| - 1], s[|s| - 1];
      assert s == init + [c];
      if c != '.' {
        ExtSplits(init);
        SplitGrows(init[..|init| - |Ext(init)|], Ext(init), c);
      }
    }
  }

  lemma ExtIsSuffix(s: Name)
    ensures |Ext(s)| <= |s| && s[..|s| - |Ext(s)|] + Ext(s) == s
    ensures Ext(s) != "" ==> Ext(s)[0] == '.' && '.' !in Ext(s)[1..]
    ensures Ext(s) == "" <==> '.' !in s
  {
    ExtSplits(s);
    ExtDots(s);
  }

  lemma {:induction false} ExtAfterStem(stem: string, w: string)
    requires '.' !in w
    ensures Ext(stem + "." + w) == "." + w
    decreases |w|
  {
    var s := stem + "." + w;
    if w != "" {
      var init := w[..|w| - 1];
      ExtAfterStem(stem, init);
      assert s[..|s| - 1] == stem + "." + init;
      assert "." + w == "." + init + [w[|w| - 1]];
    }
  }

  lemma ImageExtShape(ext: string)
    requires IsImageExt(ext)
    ensures |ext| >= 4 && ext[0] == '.' && '.' !in ext[1..] && ext[|ext| - 1] in "gG"
  {
    var low := Lower(ext);
    assert low == ".jpg" || low == ".jpeg" || low == ".png";
    assert |low| == |ext| && (forall i :: 0 <= i < |ext| ==> low[i] == LowerChar(ext[i]));
    assert low[0] == '.' && '.' !in low[1..] && low[|low| - 1] == 'g';
    assert LowerChar(ext[0]) == '.' && LowerChar(ext[|ext| - 1]) == 'g';
    forall i | 1 <= i < |ext| ensures ext[i] != '.' {
      assert low[1..][i - 1] != '.';
    }
  }

  lemma ImageNameEndsInG(name: Name)
    requires IsImage(name)
    ensures name != "" && name[|name| - 1] in "gG"
  {
    ImageExtShape(Ext(name));
    ExtIsSuffix(name);
  }

  // ---------------------------------------------------------------- injectivity

  lemma DigitsAppend(s: string, c: char)
    requires IsDigit(c) && forall d :: d in s ==> IsDigit(d)
    ensures forall d :: d in s + [c] ==> IsDigit(d)
    ensures DigitsValue(s + [c]) == DigitsValue(s) * 10 + (c as int - '0' as int)
  {
    assert (s + [c])[..|s|] == s;
  }

  lemma DigitIs(d: nat)
    requires d < 10
    ensures IsDigit(Digit(d)) && Digit(d) as int == '0' as int + d && LowerChar(Digit(d)) == Digit(d)
  {
  }

  lemma {:induction false} DecimalDigits(n: nat)
    ensures Decimal(n) != "" && forall c :: c in Decimal(n) ==> IsDigit(c)
    ensures DigitsValue(Decimal(n)) == n
  {
    DigitIs(n % 10);
    if n < 10 {
      DigitsAppend("", Digit(n));
      assert "" + [Digit(n)] == Decimal(n) && DigitsValue("") == 0;
    } else {
      DecimalDigits(n / 10);
      DigitsAppend(Decimal(n / 10), Digit(n % 10));
    }
  }

  lemma LowerDigits(s: string)
    requires forall c :: c in s ==> IsDigit(c)
    ensures Lower(s) == s
  {
    assert forall i :: 0 <= i < |s| ==> s[i] in s;
  }

  lemma DecimalInjective(m: nat, n: nat)
    requires Decimal(m) == Decimal(n)
    ensures m == n
  {
    DecimalDigits(m);
    DecimalDigits(n);
  }

  lemma DecimalNotEmpty(n: nat)
    ensures Decimal(n) != "" && '.' !in Decimal(n)
  {
    DecimalDigits(n);
  }

  lemma SplitAtFirstDot(a: string, x: string, b: string, y: string)
    requires '.' !in a && '.' !in b && x != "" && y != "" && x[0] == '.' == y[0]
    requires a + x == b + y
    ensures a == b
  {
    assert (a + x)[|a|] == '.' && (b + y)[|b|] == '.';
    assert a == (a + x)[..|a|] && b == (b + y)[..|b|];
  }

  lemma SplitAtLastDot(a: string, x: string, b: string, y: string)
    requires x != "" && y != "" && x[0] == '.' == y[0] && '.' !in x[1..] && '.' !in y[1..]
    requires a + x == b + y
    ensures a == b && x == y
  {
    assert (a + x)[|a|] == '.' && (b + y)[|b|] == '.';
    assert |a| == |b|;
    assert a == (a + x)[..|a|] && b == (b + y)[..|b|];
    assert x == (a + x)[|a|..] && y == (b + y)[|b|..];
  }

  lemma TempNamesDistinct(i: nat, e1: string, j: nat, e2: string)
    requires IsImageExt(e1) && IsImageExt(e2) && TempName(i, e1) == TempName(j, e2)
    ensures i == j
  {
    ImageExtShape(e1);
    ImageExtShape(e2);
    DecimalNotEmpty(i);
    DecimalNotEmpty(j);
    var p := "fanart_reorder_";
    var a, b := e1 + ".tmp", e2 + ".tmp";
    assert TempName(i, e1) == p + (Decimal(i) + a) && TempName(j, e2) == p + (Decimal(j) + b);
    assert Decimal(i) + a == TempName(i, e1)[|p|..] == TempName(j, e2)[|p|..] == Decimal(j) + b;
    SplitAtFirstDot(Decimal(i), a, Decimal(j), b);
    DecimalInjective(i, j);
  }

  function SlotSuffix(i: nat, kodi: bool): string {
    if i == 0 then "" else Decimal(if kodi then i else i + 1)
  }

  lemma TrimExtOf(stem: string, ext: string)
    requires if ext == "" then '.' !in stem else ext[0] == '.' && '.' !in ext[1..]
    ensures Ext(stem + ext) == ext && TrimExt(stem + ext) == stem
  {
    if ext == "" {
      ExtIsSuffix(stem);
      assert stem + ext == stem;
    } else {
      ExtAfterStem(stem, ext[1..]);
      assert "." + ext[1..] == ext;
      assert stem + "." + ext[1..] == stem + ext;
    }
    SuffixOff(stem, ext);
  }

  lemma SuffixOff(stem: string, ext: string)
    ensures (stem + ext)[..|stem + ext| - |ext|] == stem
  {
  }

  lemma FinalNameShape(primary: Name, i: nat, kodi: bool, ext: string)
    ensures FinalName(primary, i, kodi, ext) == TrimExt(primary) + SlotSuffix(i, kodi) + ext
  {
    if i > 0 {
      ExtIsSuffix(primary);
      var n := if kodi then i else i + 1;
      DecimalNotEmpty(n);
      assert TrimExt(primary) + Ext(primary) == primary;
      TrimExtOf(TrimExt(primary) + Decimal(n), Ext(primary));
    }
  }

  lemma FinalNamesDistinct(primary: Name, kodi: bool, i: nat, e1: string, j: nat, e2: string)
    requires IsImageExt(e1) && IsImageExt(e2)
    requires FinalName(primary, i, kodi, e1) == FinalName(primary, j, kodi, e2)
    ensures i == j
  {
    FinalNameShape(primary, i, kodi, e1);
    FinalNameShape(primary, j, kodi, e2);
    ImageExtShape(e1);
    ImageExtShape(e2);
    var p, a, b := TrimExt(primary), SlotSuffix(i, kodi), SlotSuffix(j, kodi);
    SplitAtLastDot(p + a, e1, p + b, e2);
    assert a == (p + a)[|p|..] && b == (p + b)[|p|..];
    DecimalNotEmpty(if kodi then i else i + 1);
    DecimalNotEmpty(if kodi then j else j + 1);
    if i > 0 && j > 0 {
      DecimalInjective(if kodi then i else i + 1, if kodi then j else j + 1);
    }
  }

  /** A staging name is never the name of an image, so it is neither a discovered path nor a final name. */
  lemma TempIsNoImage(i: nat, ext: string, name: Name)
    requires name != "" && name[|name| - 1] in "gG"
    ensures TempName(i, ext) != name
  {
    var t := TempName(i, ext);
    assert t[|t| - 1] == 'p';
  }

  lemma LastOfAppend(a: string, b: string)
    requires b != ""
    ensures a + b != "" && (a + b)[|a + b| - 1] == b[|b| - 1]
  {
  }

  lemma FinalNameEndsInG(primary: Name, i: nat, kodi: bool, ext: string)
    requires IsImageExt(ext)
    ensures var f := FinalName(primary, i, kodi, ext); f != "" && f[|f| - 1] in "gG"
  {
    ImageExtShape(ext);
    LastOfAppend(TrimExt(FanartFilename(primary, i, kodi)), ext);
  }
}
