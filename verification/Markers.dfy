/** Splicing generated text between two markers of a file, and the write-or-check driver around it
    (cmd/gen-settings-reference/main.go). */
module Markers {
  import opened Wrappers

  datatype Error = Unreadable | BeginMissing | EndMissing | Stale | Unwritable

  predicate OccursAt(s: string, pat: string, p: nat) {
    p + |pat| <= |s| && forall j :: 0 <= j < |pat| ==> s[p + j] == pat[j]
  }

  ghost predicate Contains(s: string, pat: string) {
    exists p: nat :: OccursAt(s, pat, p)
  }

  /** The first occurrence of pat at or after position `from`. */
  function Index(s: string, pat: string, from: nat): (r: Option<nat>)
    requires from <= |s|
    ensures r.Some? ==> from <= r.value && OccursAt(s, pat, r.value)
    decreases |s| - from
  {
    if OccursAt(s, pat, from) then Some(from)
    else if from == |s| then None
    else Index(s, pat, from + 1)
  }

  lemma {:induction false} IndexIsFirst(s: string, pat: string, from: nat, p: nat)
    requires from <= p && OccursAt(s, pat, p)
    ensures Index(s, pat, from).Some? && Index(s, pat, from).value <= p
    decreases |s| - from
  {
    if !OccursAt(s, pat, from) {
      IndexIsFirst(s, pat, from + 1, p);
    }
  }

  function TrimNewlines(s: string): string {
    if s != "" && s[|s| - 1] == '\n' then TrimNewlines(s[..|s| - 1]) else s
  }

  /** Exactly the trailing newlines go. */
  lemma {:induction false} TrimNewlinesExactly(s: string) returns (newlines: string)
    ensures s == TrimNewlines(s) + newlines && forall c :: c in newlines ==> c == '\n'
    ensures var t := TrimNewlines(s); t != "" ==> t[|t| - 1] != '\n'
    decreases |s|
  {
    if s != "" && s[|s| - 1] == '\n' {
      newlines := TrimNewlinesExactly(s[..|s| - 1]);
      newlines := newlines + "\n";
      assert s == s[..|s| - 1] + "\n";
    } else {
      newlines := "";
      assert s + "" == s;
    }
  }

  /** What a splice puts in place of the old region: the begin marker and the body, each on its own lines. */
  function Region(begin: string, body: string): string {
    begin + "\n" + TrimNewlines(body) + "\n"
  }

  function ReplaceBetweenMarkers(src: string, begin: string, end: string, body: string): Result<string, Error> {
    match Index(src, begin, 0)
    case None => Failure(BeginMissing)
    case Some(b) =>
      match Index(src, end, b)
      case None => Failure(EndMissing)
      case Some(e) => Success(src[..b] + Region(begin, body) + src[e..])
  }

  class File {
    var content: string

    constructor (content: string)
      ensures this.content == content
    {
      this.content := content;
    }

    /** checkOnly reports staleness and never writes; otherwise the file is written, atomically, when it changes. */
    method WriteOrCheck(begin: string, end: string, rendered: string, checkOnly: bool, readOk: bool, writeOk: bool)
      returns (err: Option<Error>)
      modifies this
      ensures !readOk ==> err == Some(Unreadable) && content == old(content)
      ensures readOk ==>
                match ReplaceBetweenMarkers(old(content), begin, end, rendered)
                case Failure(e) => err == Some(e) && content == old(content)
                case Success(updated) =>
                  if updated == old(content) then err == None && content == updated
                  else if checkOnly then err == Some(Stale) && content == old(content)
                  else if writeOk then err == None && content == updated
                  else err == Some(Unwritable) && content == old(content)
    {
      if !readOk {
        return Some(Unreadable);
      }
      var updated := ReplaceBetweenMarkers(content, begin, end, rendered);
      if updated.Failure? {
        return Some(updated.error);
      }
      if checkOnly {
        if content != updated.value {
          return Some(Stale);
        }
        return None;
      }
      if content == updated.value {
        return None;
      }
      if !writeOk {
        return Some(Unwritable);
      }
      content := updated.value;
      return None;
    }
  }

  // ---------------------------------------------------------------- the text outside the region

  lemma OccurrenceSlice(s: string, pat: string, p: nat)
    requires OccursAt(s, pat, p)
    ensures s[p..p + |pat|] == pat
    ensures s[..p + |pat|] == s[..p] + pat && pat <= s[p..]
  {
    assert s[p..][..|pat|] == s[p..p + |pat|] == pat;
  }

  lemma Ends(front: string, begin: string, region: string, suffix: string)
    requires begin <= region
    ensures var out := front + region + suffix;
            front + begin <= out && |suffix| <= |out| && out[|out| - |suffix|..] == suffix
  {
  }

  lemma RegionStarts(begin: string, body: string)
    ensures begin <= Region(begin, body)
  {
  }

  /** A splice keeps everything up to and including the first begin marker, and everything from the first end
      marker after it on. */
  lemma OutsideTextKept(src: string, begin: string, end: string, body: string)
    requires ReplaceBetweenMarkers(src, begin, end, body).Success?
    ensures var out := ReplaceBetweenMarkers(src, begin, end, body).value;
            var b := Index(src, begin, 0).value;
            var e := Index(src, end, b).value;
            && src[..b + |begin|] == src[..b] + begin && src[..b + |begin|] <= out
            && |src| - e <= |out| && out[|out| - (|src| - e)..] == src[e..] && end <= src[e..]
  {
    var b := Index(src, begin, 0).value;
    var e := Index(src, end, b).value;
    OccurrenceSlice(src, begin, b);
    OccurrenceSlice(src, end, e);
    RegionStarts(begin, body);
    Ends(src[..b], begin, Region(begin, body), src[e..]);
  }

  /** Between them stands the body on lines of its own. */
  lemma SpliceText(src: string, begin: string, end: string, body: string)
    requires ReplaceBetweenMarkers(src, begin, end, body).Success?
    ensures var b := Index(src, begin, 0).value;
            var e := Index(src, end, b).value;
            ReplaceBetweenMarkers(src, begin, end, body).value
            == src[..b] + begin + ("\n" + TrimNewlines(body) + "\n" + src[e..])
  {
    var b := Index(src, begin, 0).value;
    Regroup(src[..b], begin, TrimNewlines(body), src[Index(src, end, b).value..]);
  }

  /** A splice fails exactly when the begin marker is nowhere, or no end marker stands at or after the first one. */
  lemma SpliceFailsExactly(src: string, begin: string, end: string, body: string)
    ensures var r := ReplaceBetweenMarkers(src, begin, end, body);
            && (r == Failure(BeginMissing) <==> !Contains(src, begin))
            && (r == Failure(EndMissing) <==>
                  exists b: nat :: IsFirst(src, begin, b) && forall p: nat :: b <= p ==> !OccursAt(src, end, p))
            && (r.Failure? ==> r.error == BeginMissing || r.error == EndMissing)
  {
    if p: nat :| OccursAt(src, begin, p) {
      IndexIsFirst(src, begin, 0, p);
      var b := Index(src, begin, 0).value;
      FoundFirst(src, begin, b);
      if q: nat :| b <= q && OccursAt(src, end, q) {
        IndexIsFirst(src, end, b, q);
      }
    }
  }

  ghost predicate IsFirst(s: string, pat: string, b: nat) {
    OccursAt(s, pat, b) && forall p: nat :: p < b ==> !OccursAt(s, pat, p)
  }

  /** What Index finds from the start is the first occurrence, and the only first one. */
  lemma FoundFirst(s: string, pat: string, b: nat)
    requires Index(s, pat, 0) == Some(b)
    ensures IsFirst(s, pat, b) && forall c: nat :: IsFirst(s, pat, c) ==> c == b
  {
    forall p: nat | p < b ensures !OccursAt(s, pat, p) {
      if OccursAt(s, pat, p) {
        IndexIsFirst(s, pat, 0, p);
      }
    }
  }

  // ---------------------------------------------------------------- splicing twice

  /** The begin marker is found where it was: nothing before it changed. */
  lemma BeginStaysFirst(src: string, begin: string, tail: string, b: nat)
    requires Index(src, begin, 0) == Some(b)
    ensures Index(src[..b] + begin + tail, begin, 0) == Some(b)
  {
    var out := src[..b] + begin + tail;
    assert forall i :: 0 <= i < b + |begin| ==> out[i] == src[i] by {
      assert forall j :: 0 <= j < |begin| ==> src[b + j] == begin[j];
    }
    forall p: nat | p < b ensures !OccursAt(out, begin, p) {
      if OccursAt(src, begin, p) {
        IndexIsFirst(src, begin, 0, p);
      }
    }
    IndexIs(out, begin, 0, b);
  }

  /** A newline-free marker cannot straddle the newlines around the body: inside a fresh region it occurs only
      within the begin marker or within the body. */
  lemma OccurrencesInRegion(begin: string, end: string, body: string, rest: string, q: nat)
    requires end != "" && '\n' !in end && q < |begin + "\n" + body + "\n"|
    ensures OccursAt(begin + "\n" + body + "\n" + rest, end, q) <==>
            OccursAt(begin, end, q) || (q > |begin| && OccursAt(body, end, q - |begin| - 1))
  {
    var region := begin + "\n" + body + "\n";
    var s := region + rest;
    var n := |begin|;
    assert s[n] == '\n' && s[|region| - 1] == '\n';
    if OccursAt(s, end, q) {
      forall j | q <= j < q + |end| ensures s[j] != '\n' {
        assert s[q + (j - q)] == end[j - q];
      }
      assert q + |end| <= n || n < q;
      assert q + |end| <= |region| - 1;
    }
  }

  lemma {:induction false} IndexAfterPrefix(prefix: string, s: string, pat: string, from: nat)
    requires from <= |s|
    ensures Index(prefix + s, pat, |prefix| + from) ==
            match Index(s, pat, from) case None => None case Some(q) => Some(|prefix| + q)
    decreases |s| - from
  {
    ShiftOccurrence(prefix, s, pat, from);
    if !OccursAt(s, pat, from) && from < |s| {
      IndexAfterPrefix(prefix, s, pat, from + 1);
    }
  }

  lemma IndexIs(s: string, pat: string, from: nat, r: nat)
    requires from <= r && OccursAt(s, pat, r) && forall p: nat :: from <= p < r ==> !OccursAt(s, pat, p)
    ensures Index(s, pat, from) == Some(r)
  {
    IndexIsFirst(s, pat, from, r);
  }

  lemma ShiftOccurrence(prefix: string, s: string, pat: string, p: nat)
    ensures OccursAt(prefix + s, pat, |prefix| + p) <==> OccursAt(s, pat, p)
  {
    var out := prefix + s;
    if OccursAt(out, pat, |prefix| + p) {
      forall j | 0 <= j < |pat| ensures s[p + j] == pat[j] {
        assert out[|prefix| + p + j] == pat[j];
      }
    }
  }

  /** Splicing into a spliced text: everything hangs on where the end marker is first found. */
  lemma SpliceAgain(front: string, rest: string, begin: string, end: string, body: string, q: nat)
    requires Index(front + (Region(begin, body) + rest), begin, 0) == Some(|front|)
    requires Index(Region(begin, body) + rest, end, 0) == Some(q) && q <= |Region(begin, body)|
    ensures var out := front + (Region(begin, body) + rest);
            ReplaceBetweenMarkers(out, begin, end, body) == Success(out) <==> q == |Region(begin, body)|
  {
    var tail := Region(begin, body) + rest;
    IndexAfterPrefix(front, tail, end, 0);
    SameOnlyFromTheEnd(front + tail, front, Region(begin, body), rest, q);
  }

  lemma SameOnlyFromTheEnd(out: string, front: string, region: string, rest: string, q: nat)
    requires out == front + (region + rest) && q <= |region|
    ensures out[..|front|] + region + out[|front| + q..] == out <==> q == |region|
  {
    var again := out[..|front|] + region + out[|front| + q..];
    assert |again| == |out| + |region| - q;
    if q == |region| {
      assert out[|front| + q..] == rest;
    }
  }

  /** The end marker right after a region is found at the latest there. */
  lemma EndFoundInTail(region: string, rest: string, end: string)
    requires OccursAt(rest, end, 0)
    ensures Index(region + rest, end, 0).Some? && Index(region + rest, end, 0).value <= |region|
    ensures forall p: nat :: p < Index(region + rest, end, 0).value ==> !OccursAt(region + rest, end, p)
  {
    ShiftOccurrence(region, rest, end, 0);
    IndexIsFirst(region + rest, end, 0, |region|);
    var q := Index(region + rest, end, 0).value;
    forall p: nat | p < q ensures !OccursAt(region + rest, end, p) {
      if OccursAt(region + rest, end, p) {
        IndexIsFirst(region + rest, end, 0, p);
      }
    }
  }

  lemma Regroup(front: string, begin: string, text: string, rest: string)
    ensures front + (begin + "\n" + text + "\n" + rest) == front + begin + ("\n" + text + "\n" + rest)
    ensures front + (begin + "\n" + text + "\n" + rest) == front + (begin + "\n" + text + "\n") + rest
  {
  }

  lemma SuffixOccurs(s: string, pat: string, e: nat)
    requires OccursAt(s, pat, e)
    ensures OccursAt(s[e..], pat, 0)
  {
  }

  /** Generating and then checking with the same text reports no staleness exactly when the end marker occurs
      neither in the begin marker nor in the generated body. */
  lemma WriteThenCheckConverges(src: string, begin: string, end: string, body: string)
    requires end != "" && '\n' !in end
    requires ReplaceBetweenMarkers(src, begin, end, body).Success?
    ensures var out := ReplaceBetweenMarkers(src, begin, end, body).value;
            ReplaceBetweenMarkers(out, begin, end, body) == Success(out) <==>
            !Contains(begin, end) && !Contains(TrimNewlines(body), end)
  {
    var b := Index(src, begin, 0).value;
    var e := Index(src, end, b).value;
    var region, rest, text := Region(begin, body), src[e..], TrimNewlines(body);
    SuffixOccurs(src, end, e);
    EndFoundInTail(region, rest, end);
    var q := Index(region + rest, end, 0).value;
    var tail := "\n" + text + "\n" + rest;
    BeginStaysFirst(src, begin, tail, b);
    Regroup(src[..b], begin, text, rest);
    SpliceAgain(src[..b], rest, begin, end, body, q);
    NoEarlierOccurrence(begin, end, text, rest, q);
  }

  /** The first occurrence at or after the begin marker is the real end marker, unless an earlier one hides it. */
  lemma NoEarlierOccurrence(begin: string, end: string, text: string, rest: string, q: nat)
    requires end != "" && '\n' !in end
    requires var region := begin + "\n" + text + "\n";
             && q <= |region| && OccursAt(region + rest, end, q)
             && forall p: nat :: p < q ==> !OccursAt(region + rest, end, p)
    ensures q == |begin + "\n" + text + "\n"| <==> !Contains(begin, end) && !Contains(text, end)
  {
    var region := begin + "\n" + text + "\n";
    if q < |region| {
      OccurrencesInRegion(begin, end, text, rest, q);
    } else {
      if p: nat :| OccursAt(begin, end, p) {
        OccurrencesInRegion(begin, end, text, rest, p);
      }
      if p: nat :| OccursAt(text, end, p) {
        OccurrencesInRegion(begin, end, text, rest, |begin| + 1 + p);
      }
    }
  }
}
