/** The SQL tuple reader of cmd/gen-platform-profiles/main.go: extracting single-quoted strings, splitting on commas
    outside quotes, and reading one seven-field row. */
module TupleParser {
  import opened Strings
  import opened Wrappers

  // ---------------------------------------------------------------- printing a row

  /** SQL string literals double the quote character (section 5.3 of ISO/IEC 9075-2). */
  function Escape(t: string): string {
    if t == "" then ""
    else if t[0] == '\'' then "''" + Escape(t[1..])
    else [t[0]] + Escape(t[1..])
  }

  function Quoted(t: string): string {
    "'" + Escape(t) + "'"
  }

  datatype Value = Text(text: string) | Number(digits: string)

  /** One field of a row with the blanks in front of it. */
  datatype Field = Field(gap: string, value: Value)

  predicate WellFormed(f: Field) {
    && (forall c :: c in f.gap ==> c == ' ')
    && (f.value.Number? ==> f.value.digits != "" && forall c :: c in f.value.digits ==> '0' <= c <= '9')
  }

  function PrintField(f: Field): string {
    f.gap + match f.value case Text(t) => Quoted(t) case Number(d) => d
  }

  function PrintFields(fs: seq<Field>): string {
    if fs == [] then "" else PrintField(fs[0]) + if |fs| == 1 then "" else "," + PrintFields(fs[1..])
  }

  function PrintRow(fs: seq<Field>, last: bool): string {
    "(" + PrintFields(fs) + ")" + if last then ";" else ","
  }

  /** id, name, is_builtin, is_active, nfo_enabled, nfo_format, image_naming. */
  predicate IsProfileRow(fs: seq<Field>) {
    && |fs| == 7 && (forall i :: 0 <= i < 7 ==> WellFormed(fs[i]))
    && (forall i :: 0 <= i < 7 ==> (fs[i].value.Text? <==> i < 2 || i > 4))
  }

  // ---------------------------------------------------------------- quoted strings

  /** What follows an opening quote: the literal's value and the text after its closing quote. An unterminated
      literal runs to the end. */
  function ScanQuoted(s: string): (r: (string, string))
    ensures |r.1| <= |s|
  {
    if s == "" then ("", "")
    else if s[0] != '\'' then
      var r := ScanQuoted(s[1..]);
      ([s[0]] + r.0, r.1)
    else if |s| > 1 && s[1] == '\'' then
      var r := ScanQuoted(s[2..]);
      ("'" + r.0, r.1)
    else ("", s[1..])
  }

  function QuotedStrings(s: string): seq<string>
    decreases |s|
  {
    if s == "" then []
    else if s[0] != '\'' then QuotedStrings(s[1..])
    else
      var r := ScanQuoted(s[1..]);
      [r.0] + QuotedStrings(r.1)
  }

  /** `buf` has been read and the scan of the rest is still to come. */
  function Pending(buf: string, rest: string): (string, string) {
    (buf + ScanQuoted(rest).0, ScanQuoted(rest).1)
  }

  /** What one step of the inner loop leaves pending. */
  lemma PendingStep(buf: string, s: string, i: nat)
    requires i <= |s|
    ensures i == |s| ==> Pending(buf, s[i..]) == (buf, "")
    ensures i < |s| && s[i] != '\'' ==> Pending(buf + [s[i]], s[i + 1..]) == Pending(buf, s[i..])
    ensures i + 1 < |s| && s[i] == s[i + 1] == '\'' ==> Pending(buf + "'", s[i + 2..]) == Pending(buf, s[i..])
    ensures i < |s| && s[i] == '\'' && (i + 1 == |s| || s[i + 1] != '\'') ==> Pending(buf, s[i..]) == (buf, s[i + 1..])
  {
    assert buf + "" == buf;
    if i < |s| {
      assert s[i..][1..] == s[i + 1..];
      if s[i] != '\'' {
        assert buf + ([s[i]] + ScanQuoted(s[i + 1..]).0) == buf + [s[i]] + ScanQuoted(s[i + 1..]).0;
      } else if i + 1 < |s| && s[i + 1] == '\'' {
        assert s[i..][2..] == s[i + 2..];
        assert buf + ("'" + ScanQuoted(s[i + 2..]).0) == buf + "'" + ScanQuoted(s[i + 2..]).0;
      }
    }
  }

  /** The inner loop: reads a literal from just after its opening quote. */
  method ReadQuoted(s: string, from: nat) returns (buf: string, i: nat)
    requires from <= |s|
    ensures from <= i <= |s| && (buf, s[i..]) == ScanQuoted(s[from..])
  {
    buf, i := "", from;
    ghost var found := Pending("", s[from..]);
    assert found == ScanQuoted(s[from..]) by {
      assert "" + ScanQuoted(s[from..]).0 == ScanQuoted(s[from..]).0;
    }
    while i < |s|
      invariant from <= i <= |s|
      invariant Pending(buf, s[i..]) == found
    {
      PendingStep(buf, s, i);
      if s[i] == '\'' {
        if i + 1 < |s| && s[i + 1] == '\'' {
          buf := buf + "'";
          i := i + 2;
          continue;
        }
        return buf, i + 1;
      }
      buf := buf + [s[i]];
      i := i + 1;
    }
    PendingStep(buf, s, i);
  }

  method ExtractQuotedStrings(s: string) returns (results: seq<string>)
    ensures results == QuotedStrings(s)
  {
    results := [];
    var i := 0;
    assert s[0..] == s;
    while i < |s|
      invariant 0 <= i <= |s|
      invariant results + QuotedStrings(s[i..]) == QuotedStrings(s)
    {
      assert s[i..][1..] == s[i + 1..];
      if s[i] != '\'' {
        i := i + 1;
        continue;
      }
      var buf, next := ReadQuoted(s, i + 1);
      assert results + ([buf] + QuotedStrings(s[next..])) == results + [buf] + QuotedStrings(s[next..]);
      results, i := results + [buf], next;
    }
  }

  // ---------------------------------------------------------------- splitting

  datatype Error = TooFewStrings | Unterminated | TooFewFields | BadNaming

  function Prepend(t: string, rest: Result<seq<string>, Error>): Result<seq<string>, Error> {
    if rest.Success? then Success([t] + rest.value) else rest
  }

  /** The tokens of s, `current` being the token begun so far. Doubled quotes inside a literal collapse. */
  function Split(s: string, inQuote: bool, current: string): Result<seq<string>, Error>
    decreases |s|
  {
    if s == "" then if inQuote then Failure(Unterminated) else Success([current])
    else if s[0] == '\'' && inQuote && |s| > 1 && s[1] == '\'' then Split(s[2..], true, current + "'")
    else if s[0] == '\'' then Split(s[1..], !inQuote, current + "'")
    else if s[0] == ',' && !inQuote then Prepend(current, Split(s[1..], false, ""))
    else Split(s[1..], inQuote, current + [s[0]])
  }

  function Extend(tokens: seq<string>, rest: Result<seq<string>, Error>): Result<seq<string>, Error> {
    if rest.Success? then Success(tokens + rest.value) else rest
  }

  method SplitOutsideQuotes(s: string) returns (r: Result<seq<string>, Error>)
    ensures r == Split(s, false, "")
  {
    var tokens: seq<string>, current, inQuote := [], "", false;
    var i := 0;
    assert s[0..] == s && forall r: seq<string> :: [] + r == r;
    while i < |s|
      invariant 0 <= i <= |s|
      invariant Extend(tokens, Split(s[i..], inQuote, current)) == Split(s, false, "")
    {
      var ch := s[i];
      assert s[i..][1..] == s[i + 1..];
      if ch == '\'' {
        if inQuote {
          if i + 1 < |s| && s[i + 1] == '\'' {
            assert s[i..][2..] == s[i + 2..];
            current := current + "'";
            i := i + 2;
            continue;
          }
          inQuote := false;
        } else {
          inQuote := true;
        }
        current := current + [ch];
        i := i + 1;
        continue;
      }
      if ch == ',' && !inQuote {
        ghost var rest := Split(s[i + 1..], false, "");
        assert rest.Success? ==> tokens + ([current] + rest.value) == tokens + [current] + rest.value;
        tokens := tokens + [current];
        current := "";
        i := i + 1;
        continue;
      }
      current := current + [ch];
      i := i + 1;
    }
    if inQuote {
      return Failure(Unterminated);
    }
    return Success(tokens + [current]);
  }

  // ---------------------------------------------------------------- rows

  datatype Row<N> = Row(id: string, name: string, nfoEnabled: bool, naming: N)

  function TrimPrefix(s: string, prefix: string): string {
    if prefix <= s then s[|prefix|..] else s
  }

  function TrimSuffix(s: string, suffix: string): string {
    if |suffix| <= |s| && s[|s| - |suffix|..] == suffix then s[..|s| - |suffix|] else s
  }

  function Inner(line: string): string {
    TrimSuffix(TrimRight(TrimPrefix(line, "("), ",;"), ")")
  }

  /** One row line; `decode` stands for the JSON decoder of the last field. */
  method ParseTupleLine<N>(line: string, decode: string -> Option<N>) returns (r: Result<Row<N>, Error>)
    ensures r == ParsedLine(line, decode)
  {
    var inner := TrimPrefix(line, "(");
    inner := TrimRight(inner, ",;");
    inner := TrimSuffix(inner, ")");
    var quoted := ExtractQuotedStrings(inner);
    if |quoted| < 3 {
      return Failure(TooFewStrings);
    }
    var tokens := SplitOutsideQuotes(inner);
    if tokens.Failure? {
      return Failure(tokens.error);
    }
    if |tokens.value| < 5 {
      return Failure(TooFewFields);
    }
    var naming := decode(quoted[|quoted| - 1]);
    if naming.None? {
      return Failure(BadNaming);
    }
    return Success(Row(quoted[0], quoted[1], TrimSpace(tokens.value[4]) == "1", naming.value));
  }

  function ParsedLine<N>(line: string, decode: string -> Option<N>): Result<Row<N>, Error> {
    var quoted, tokens := QuotedStrings(Inner(line)), Split(Inner(line), false, "");
    if |quoted| < 3 then Failure(TooFewStrings)
    else if tokens.Failure? then Failure(tokens.error)
    else if |tokens.value| < 5 then Failure(TooFewFields)
    else match decode(quoted[|quoted| - 1])
      case None => Failure(BadNaming)
      case Some(naming) => Success(Row(quoted[0], quoted[1], TrimSpace(tokens.value[4]) == "1", naming))
  }

  // ---------------------------------------------------------------- printing and reading back

  /** Text that cannot be mistaken for the second half of a doubled quote. */
  predicate Closed(rest: string) {
    rest == "" || rest[0] != '\''
  }

  /** The first character of an escaped literal, doubled when it is a quote. */
  lemma EscapeHead(t: string, rest: string)
    requires t != ""
    ensures var s, tail := Escape(t) + "'" + rest, Escape(t[1..]) + "'" + rest;
            if t[0] == '\'' then |s| > 1 && s[0] == s[1] == '\'' && s[2..] == tail
            else s != "" && s[0] == t[0] && s[1..] == tail
  {
    var head := if t[0] == '\'' then "''" else [t[0]];
    Regroup(head, Escape(t[1..]), rest);
    DropHead(head, Escape(t[1..]) + "'" + rest);
  }

  lemma Regroup(head: string, x: string, rest: string)
    ensures (head + x) + "'" + rest == head + (x + "'" + rest)
  {
  }

  lemma DropHead(head: string, tail: string)
    ensures (head + tail)[..|head|] == head && (head + tail)[|head|..] == tail
  {
  }

  lemma {:induction false} ScanUndoesEscape(t: string, rest: string)
    requires Closed(rest)
    ensures ScanQuoted(Escape(t) + "'" + rest) == (t, rest)
    decreases |t|
  {
    if t == "" {
      assert "" + "'" + rest == "'" + rest;
      assert ("'" + rest)[1..] == rest;
    } else {
      EscapeHead(t, rest);
      ScanUndoesEscape(t[1..], rest);
      assert [t[0]] + t[1..] == t;
    }
  }

  lemma QuotedThenRest(t: string, rest: string)
    requires Closed(rest)
    ensures QuotedStrings(Quoted(t) + rest) == [t] + QuotedStrings(rest)
  {
    var s := Quoted(t) + rest;
    assert s[1..] == Escape(t) + "'" + rest;
    ScanUndoesEscape(t, rest);
  }

  lemma {:induction false} PlainThenRest(p: string, rest: string)
    requires '\'' !in p
    ensures QuotedStrings(p + rest) == QuotedStrings(rest)
    decreases |p|
  {
    if p == "" {
      assert p + rest == rest;
    } else {
      assert (p + rest)[1..] == p[1..] + rest;
      PlainThenRest(p[1..], rest);
    }
  }

  lemma {:induction false} SplitEscaped(t: string, rest: string, current: string)
    requires Closed(rest)
    ensures Split(Escape(t) + "'" + rest, true, current) == Split(rest, false, current + t + "'")
    decreases |t|
  {
    if t == "" {
      assert Escape(t) + "'" + rest == "'" + rest && ("'" + rest)[1..] == rest;
      assert current + t + "'" == current + "'";
    } else {
      EscapeHead(t, rest);
      SplitEscaped(t[1..], rest, current + [t[0]]);
      assert current + [t[0]] + t[1..] == current + t;
    }
  }

  lemma SplitQuoted(t: string, rest: string, current: string)
    requires Closed(rest)
    ensures Split(Quoted(t) + rest, false, current) == Split(rest, false, current + ("'" + t + "'"))
  {
    var s := Quoted(t) + rest;
    assert s[1..] == Escape(t) + "'" + rest;
    SplitEscaped(t, rest, current + "'");
    assert current + "'" + t + "'" == current + ("'" + t + "'");
  }

  lemma {:induction false} SplitPlain(p: string, rest: string, current: string)
    requires '\'' !in p && ',' !in p
    ensures Split(p + rest, false, current) == Split(rest, false, current + p)
    decreases |p|
  {
    if p == "" {
      assert p + rest == rest && current + p == current;
    } else {
      assert (p + rest)[1..] == p[1..] + rest;
      SplitPlain(p[1..], rest, current + [p[0]]);
      assert current + [p[0]] + p[1..] == current + p;
    }
  }

  function Texts(fs: seq<Field>): seq<string> {
    if fs == [] then []
    else (if fs[0].value.Text? then [fs[0].value.text] else []) + Texts(fs[1..])
  }

  /** A token: a literal keeps its delimiters, its doubled quotes collapse. */
  function Token(f: Field): string {
    f.gap + match f.value case Text(t) => "'" + t + "'" case Number(d) => d
  }

  function Tokens(fs: seq<Field>): seq<string> {
    if fs == [] then [] else [Token(fs[0])] + Tokens(fs[1..])
  }

  lemma FieldStrings(f: Field, rest: string)
    requires WellFormed(f) && Closed(rest)
    ensures QuotedStrings(PrintField(f) + rest) == (if f.value.Text? then [f.value.text] else []) + QuotedStrings(rest)
  {
    match f.value
    case Text(t) =>
      assert PrintField(f) + rest == f.gap + (Quoted(t) + rest);
      PlainThenRest(f.gap, Quoted(t) + rest);
      QuotedThenRest(t, rest);
    case Number(d) =>
      PlainThenRest(f.gap + d, rest);
      assert [] + QuotedStrings(rest) == QuotedStrings(rest);
  }

  lemma FieldSplit(f: Field, rest: string)
    requires WellFormed(f) && Closed(rest)
    ensures Split(PrintField(f) + rest, false, "") == Split(rest, false, Token(f))
  {
    match f.value
    case Text(t) =>
      assert PrintField(f) + rest == f.gap + (Quoted(t) + rest);
      SplitPlain(f.gap, Quoted(t) + rest, "");
      assert "" + f.gap == f.gap;
      SplitQuoted(t, rest, f.gap);
    case Number(d) =>
      SplitPlain(f.gap + d, rest, "");
      assert "" + (f.gap + d) == f.gap + d;
  }

  /** Any printed row: its literals and its tokens are read back field by field. */
  lemma {:induction false} PrintedFieldsReadBack(fs: seq<Field>)
    requires fs != [] && forall i :: 0 <= i < |fs| ==> WellFormed(fs[i])
    ensures QuotedStrings(PrintFields(fs)) == Texts(fs)
    ensures Split(PrintFields(fs), false, "") == Success(Tokens(fs))
    decreases |fs|
  {
    var f := fs[0];
    if |fs| == 1 {
      FieldStrings(f, "");
      FieldSplit(f, "");
      assert fs[1..] == [] && Tokens(fs) == [Token(f)];
      assert PrintFields(fs) == PrintField(f) + "";
      assert Texts(fs) == (if f.value.Text? then [f.value.text] else []) + [];
    } else {
      var rest := PrintFields(fs[1..]);
      PrintedFieldsReadBack(fs[1..]);
      FieldStrings(f, "," + rest);
      PlainThenRest(",", rest);
      FieldSplit(f, "," + rest);
      assert ("," + rest)[1..] == rest;
    }
  }

  lemma TrimRightStops(s: string, stop: string, cutset: string)
    requires s != "" && s[|s| - 1] !in cutset && |stop| == 1 && stop[0] in cutset
    ensures TrimRight(s + stop, cutset) == s
  {
    assert (s + stop)[..|s|] == s;
  }

  lemma PrintedInner(fs: seq<Field>, last: bool)
    ensures Inner(PrintRow(fs, last)) == PrintFields(fs)
  {
    UnwrapRow(PrintFields(fs), if last then ";" else ",");
  }

  lemma UnwrapRow(fields: string, stop: string)
    requires stop == "," || stop == ";"
    ensures Inner("(" + fields + ")" + stop) == fields
  {
    assert "(" + fields + ")" + stop == "(" + (fields + ")" + stop);
    DropHead("(", fields + ")" + stop);
    TrimRightStops(fields + ")", stop, ",;");
    DropHead(fields, ")");
  }

  lemma {:induction false} GapTrimmed(gap: string, d: string)
    requires d != "" && (forall c :: c in gap ==> c == ' ') && (forall c :: c in d ==> '0' <= c <= '9')
    ensures TrimSpace(gap + d) == d
  {
    if gap == "" {
      assert gap + d == d && d[0] in d && d[|d| - 1] in d;
    } else {
      assert gap[0] in gap && (gap + d)[1..] == gap[1..] + d;
      assert forall c :: c in gap[1..] ==> c in gap;
      GapTrimmed(gap[1..], d);
    }
  }

  /** For all strings: reading a printed row gives back its id, its name and its flag, hands the decoder exactly
      the text of the last field, and splits into exactly seven tokens. */
  lemma PrintThenParse<N>(fs: seq<Field>, last: bool, decode: string -> Option<N>)
    requires IsProfileRow(fs)
    ensures ParsedLine(PrintRow(fs, last), decode) ==
            match decode(fs[6].value.text)
            case None => Failure(BadNaming)
            case Some(n) => Success(Row(fs[0].value.text, fs[1].value.text, fs[4].value.digits == "1", n))
    ensures Split(Inner(PrintRow(fs, last)), false, "").Success?
    ensures |Split(Inner(PrintRow(fs, last)), false, "").value| == 7
  {
    PrintedInner(fs, last);
    PrintedFieldsReadBack(fs);
    SevenFields(fs);
    GapTrimmed(fs[4].gap, fs[4].value.digits);
  }

  lemma SevenFields(fs: seq<Field>)
    requires IsProfileRow(fs)
    ensures Texts(fs) == [fs[0].value.text, fs[1].value.text, fs[5].value.text, fs[6].value.text]
    ensures |Tokens(fs)| == 7 && Tokens(fs)[4] == Token(fs[4])
  {
    assert fs[0..] == fs;
    TextsStep(fs, 0);
    TextsStep(fs, 1);
    TextsStep(fs, 2);
    TextsStep(fs, 3);
    TextsStep(fs, 4);
    TextsStep(fs, 5);
    TextsStep(fs, 6);
    TokenAt(fs, 4);
  }

  lemma TextsStep(fs: seq<Field>, i: nat)
    requires i < |fs|
    ensures Texts(fs[i..]) == (if fs[i].value.Text? then [fs[i].value.text] else []) + Texts(fs[i + 1..])
  {
    assert fs[i..][1..] == fs[i + 1..];
  }

  lemma {:induction false} TokenAt(fs: seq<Field>, i: nat)
    requires i < |fs|
    ensures |Tokens(fs)| == |fs| && Tokens(fs)[i] == Token(fs[i])
    decreases |fs|
  {
    if |fs| > 1 {
      TokenAt(fs[1..], if i == 0 then 0 else i - 1);
    } else {
      assert fs[1..] == [];
    }
  }

  // ---------------------------------------------------------------- which rows are refused

  /** How many quotes there are. */
  function Quotes(s: string): nat {
    multiset(s)['\'']
  }

  lemma QuotesStep(s: string)
    requires s != ""
    ensures Quotes(s) == Quotes(s[1..]) + if s[0] == '\'' then 1 else 0
  {
    assert s == [s[0]] + s[1..];
  }

  /** A text is unterminated exactly when its quotes, with the one that is still open, are odd in number. */
  lemma {:induction false} UnterminatedExactly(s: string, inQuote: bool, current: string)
    ensures Split(s, inQuote, current) == Failure(Unterminated) <==> Split(s, inQuote, current).Failure?
    ensures Split(s, inQuote, current).Failure? <==> (Quotes(s) + if inQuote then 1 else 0) % 2 == 1
    decreases |s|
  {
    if s != "" {
      QuotesStep(s);
      if s[0] == '\'' && inQuote && |s| > 1 && s[1] == '\'' {
        QuotesStep(s[1..]);
        assert s[1..][1..] == s[2..];
        UnterminatedExactly(s[2..], true, current + "'");
      } else if s[0] == '\'' {
        UnterminatedExactly(s[1..], !inQuote, current + "'");
      } else if s[0] == ',' && !inQuote {
        UnterminatedExactly(s[1..], false, "");
      } else {
        UnterminatedExactly(s[1..], inQuote, current + [s[0]]);
      }
    }
  }

  /** Any line: too few literals come first, then an odd number of quotes. */
  lemma LineRefused<N>(line: string, decode: string -> Option<N>)
    ensures ParsedLine(line, decode) == Failure(TooFewStrings) <==> |QuotedStrings(Inner(line))| < 3
    ensures ParsedLine(line, decode) == Failure(Unterminated) <==>
            |QuotedStrings(Inner(line))| >= 3 && Quotes(Inner(line)) % 2 == 1
  {
    UnterminatedExactly(Inner(line), false, "");
  }

  lemma {:induction false} SpaceThenText(gap: string, t: string)
    requires forall c :: c in gap ==> c == ' '
    ensures var r := TrimSpace(gap + ("'" + t + "'")); r != "" && r[|r| - 1] == '\''
  {
    var s := gap + ("'" + t + "'");
    assert s[|s| - 1] == '\'';
    if gap == "" {
      assert s[0] == '\'';
    } else {
      assert gap[0] in gap && s[1..] == gap[1..] + ("'" + t + "'");
      assert forall c :: c in gap[1..] ==> c in gap;
      SpaceThenText(gap[1..], t);
    }
  }

  lemma FlagIs(f: Field)
    requires WellFormed(f)
    ensures TrimSpace(Token(f)) == "1" <==> f.value == Number("1")
  {
    match f.value
    case Text(t) => SpaceThenText(f.gap, t);
    case Number(d) => GapTrimmed(f.gap, d);
  }

  /** A printed row of any shape: which error it gives, or which of its fields make up the result. */
  lemma PrintedRowExactly<N>(fs: seq<Field>, last: bool, decode: string -> Option<N>)
    requires fs != [] && forall i :: 0 <= i < |fs| ==> WellFormed(fs[i])
    ensures var texts := Texts(fs);
            ParsedLine(PrintRow(fs, last), decode) ==
            if |texts| < 3 then Failure(TooFewStrings)
            else if |fs| < 5 then Failure(TooFewFields)
            else match decode(texts[|texts| - 1])
              case None => Failure(BadNaming)
              case Some(n) => Success(Row(texts[0], texts[1], fs[4].value == Number("1"), n))
  {
    PrintedInner(fs, last);
    PrintedFieldsReadBack(fs);
    TokenAt(fs, 0);
    if |fs| > 4 {
      TokenAt(fs, 4);
      FlagIs(fs[4]);
    }
  }

  // ---------------------------------------------------------------- what splitting keeps

  function Join(tokens: seq<string>): string {
    if tokens == [] then ""
    else if |tokens| == 1 then tokens[0]
    else tokens[0] + "," + Join(tokens[1..])
  }

  /** How many doubled quotes stand inside literals. */
  function Collapsed(s: string, inQuote: bool): nat
    decreases |s|
  {
    if s == "" then 0
    else if s[0] == '\'' && inQuote && |s| > 1 && s[1] == '\'' then 1 + Collapsed(s[2..], true)
    else if s[0] == '\'' then Collapsed(s[1..], !inQuote)
    else Collapsed(s[1..], inQuote)
  }

  lemma {:induction false} JoinUndoesSplit(s: string, inQuote: bool, current: string)
    requires Split(s, inQuote, current).Success?
    ensures var tokens := Split(s, inQuote, current).value;
            && tokens != []
            && |Join(tokens)| + Collapsed(s, inQuote) == |current| + |s|
            && (Collapsed(s, inQuote) == 0 ==> Join(tokens) == current + s)
    decreases |s|
  {
    if s == "" {
      assert current + s == current;
    } else if s[0] == '\'' && inQuote && |s| > 1 && s[1] == '\'' {
      JoinUndoesSplit(s[2..], true, current + "'");
    } else if s[0] == ',' && !inQuote {
      JoinUndoesSplit(s[1..], false, "");
      var rest := Split(s[1..], false, "").value;
      assert ([current] + rest)[1..] == rest;
      assert "" + s[1..] == s[1..] && current + "," + s[1..] == current + s;
    } else {
      var quote := if s[0] == '\'' then !inQuote else inQuote;
      JoinUndoesSplit(s[1..], quote, current + [s[0]]);
      assert current + [s[0]] + s[1..] == current + s;
    }
  }

  /** Joining the tokens of an accepted line with commas gives the line back exactly when no literal of the line
      contains a doubled quote. */
  lemma JoinRestoresExactlyUncollapsed(s: string)
    requires Split(s, false, "").Success?
    ensures Join(Split(s, false, "").value) == s <==> Collapsed(s, false) == 0
  {
    JoinUndoesSplit(s, false, "");
    assert "" + s == s;
  }

  lemma {:induction false} NoDoubledQuoteNoCollapse(s: string, inQuote: bool)
    requires forall i :: 0 <= i < |s| - 1 ==> !(s[i] == '\'' == s[i + 1])
    ensures Collapsed(s, inQuote) == 0
    decreases |s|
  {
    if s != "" {
      assert |s| > 1 ==> !(s[0] == '\'' == s[0 + 1]);
      forall i | 0 <= i < |s[1..]| - 1 ensures !(s[1..][i] == '\'' == s[1..][i + 1]) {
        assert !(s[i + 1] == '\'' == s[i + 1 + 1]);
      }
      NoDoubledQuoteNoCollapse(s[1..], if s[0] == '\'' then !inQuote else inQuote);
    }
  }
}
