/** Tag lists as text: the three slice fields of an artist are kept as lists and compared, stored and shown as
    comma-separated text (internal/artist/sqlite_artist.go, internal/artist/service.go). */
module Tags {
  import opened Strings

  predicate IsSliceField(field: string) {
    field == "genres" || field == "styles" || field == "moods"
  }

  function CommaAt(s: string): (i: nat)
    ensures i <= |s| && ',' !in s[..i] && (i < |s| ==> s[i] == ',')
  {
    if s == "" || s[0] == ',' then 0
    else
      assert s[..1 + CommaAt(s[1..])] == [s[0]] + s[1..][..CommaAt(s[1..])];
      1 + CommaAt(s[1..])
  }

  /** The trimmed, non-empty pieces between commas. */
  function SplitTags(s: string): seq<string>
    decreases |s|
  {
    var i := CommaAt(s);
    OneTag(s[..i]) + if i < |s| then SplitTags(s[i + 1..]) else []
  }

  function OneTag(piece: string): seq<string> {
    if TrimSpace(piece) == "" then [] else [TrimSpace(piece)]
  }

  function JoinTags(tags: seq<string>): string {
    if tags == [] then ""
    else if |tags| == 1 then tags[0]
    else tags[0] + ", " + JoinTags(tags[1..])
  }

  /** What a field shows after a value has been stored in it: slice fields lose blank tags and stray spaces. */
  function Normal(field: string, value: string): string {
    if IsSliceField(field) then JoinTags(SplitTags(value)) else value
  }

  predicate IsTag(t: string) {
    t != "" && ',' !in t && TrimSpace(t) == t
  }

  ghost predicate AreTags(tags: seq<string>) {
    forall i :: 0 <= i < |tags| ==> IsTag(tags[i])
  }

  lemma {:induction false} TrimKeepsOut(s: string, c: char)
    requires c !in s
    ensures c !in TrimSpace(s)
    decreases |s|
  {
    if s != "" && IsSpace(s[0]) {
      TrimKeepsOut(s[1..], c);
    } else if s != "" && IsSpace(s[|s| - 1]) {
      TrimKeepsOut(s[..|s| - 1], c);
    }
  }

  lemma OneTagIsTag(piece: string)
    requires ',' !in piece
    ensures AreTags(OneTag(piece))
  {
    TrimKeepsOut(piece, ',');
    TrimSpaceTwice(piece);
  }

  lemma AreTagsAppend(a: seq<string>, b: seq<string>)
    requires AreTags(a) && AreTags(b)
    ensures AreTags(a + b)
  {
  }

  lemma {:induction false} SplitGivesTags(s: string)
    ensures AreTags(SplitTags(s))
    decreases |s|
  {
    var i := CommaAt(s);
    OneTagIsTag(s[..i]);
    if i < |s| {
      SplitGivesTags(s[i + 1..]);
      AreTagsAppend(OneTag(s[..i]), SplitTags(s[i + 1..]));
    } else {
      assert OneTag(s[..i]) + [] == OneTag(s[..i]);
    }
  }

  lemma {:induction false} CommaAtEnd(t: string, rest: string)
    requires ',' !in t
    ensures CommaAt(t + "," + rest) == |t| && CommaAt(t) == |t|
    decreases |t|
  {
    if t == "" {
      assert t + "," + rest == "," + rest;
    } else {
      assert (t + "," + rest)[1..] == t[1..] + "," + rest;
      CommaAtEnd(t[1..], rest);
    }
  }

  lemma SplitFirst(t: string, rest: string)
    requires ',' !in t
    ensures SplitTags(t + "," + rest) == OneTag(t) + SplitTags(rest)
    ensures SplitTags(t) == OneTag(t)
  {
    var s := t + "," + rest;
    CommaAtEnd(t, rest);
    assert s[..|t|] == t && s[|t| + 1..] == rest;
    assert t[..|t|] == t;
  }

  lemma MoveSpace(lead: string, t: string, rest: string)
    ensures lead + (t + ", " + rest) == lead + t + "," + (" " + rest)
  {
  }

  lemma LeadHasNoComma(lead: string, t: string)
    requires (lead == "" || lead == " ") && ',' !in t
    ensures ',' !in lead + t
  {
  }

  lemma JoinCons(t: string, rest: seq<string>)
    ensures JoinTags([t] + rest) == if rest == [] then t else t + ", " + JoinTags(rest)
  {
    assert ([t] + rest)[1..] == rest;
  }

  lemma OneMoreTag(lead: string, t: string, rest: seq<string>)
    requires IsTag(t) && (lead == "" || lead == " ")
    requires rest != [] ==> SplitTags(" " + JoinTags(rest)) == rest
    ensures SplitTags(lead + JoinTags([t] + rest)) == [t] + rest
  {
    LeadIsBlank(lead, t);
    LeadHasNoComma(lead, t);
    JoinCons(t, rest);
    if rest == [] {
      SplitFirst(lead + t, "");
    } else {
      MoveSpace(lead, t, JoinTags(rest));
      SplitFirst(lead + t, " " + JoinTags(rest));
    }
  }

  /** Splitting undoes joining, also after a leading blank. */
  lemma {:induction false} SplitUndoesJoin(lead: string, tags: seq<string>)
    requires AreTags(tags) && (lead == "" || lead == " ")
    ensures SplitTags(lead + JoinTags(tags)) == tags
    decreases |tags|
  {
    if tags == [] {
      SplitNothing(lead);
    } else {
      var rest := tags[1..];
      if rest != [] {
        SplitUndoesJoin(" ", rest);
      }
      OneMoreTag(lead, tags[0], rest);
      assert tags == [tags[0]] + rest;
    }
  }

  lemma SplitNothing(lead: string)
    requires lead == "" || lead == " "
    ensures SplitTags(lead + "") == []
  {
    LeadIsBlank(lead, "");
    LeadHasNoComma(lead, "");
    SplitFirst(lead + "", "");
  }

  lemma LeadIsBlank(lead: string, t: string)
    requires lead == "" || lead == " "
    ensures TrimSpace(lead + t) == TrimSpace(t)
  {
    if lead == "" {
      assert lead + t == t;
    } else {
      assert (lead + t)[1..] == t && IsSpace(' ');
    }
  }

  /** A stored value is stored again unchanged. */
  lemma NormalTwice(field: string, value: string)
    ensures Normal(field, Normal(field, value)) == Normal(field, value)
  {
    var tags := SplitTags(value);
    SplitGivesTags(value);
    SplitUndoesJoin("", tags);
    assert "" + JoinTags(tags) == JoinTags(tags);
  }

  lemma PlainIsNormal(field: string, value: string)
    requires !IsSliceField(field)
    ensures Normal(field, value) == value
  {
  }
}
