/** Slash-separated paths as the source splits, filters, joins and trims them. */
module Paths {
  import opened EscapeSyntax

  /** `split("/")`: always at least one segment. */
  function Split(s: string): (segments: seq<string>)
    ensures |segments| >= 1
  {
    if s == "" then [""]
    else
      var rest := Split(s[1..]);
      if s[0] == '/' then [""] + rest else [[s[0]] + rest[0]] + rest[1..]
  }

  function Join(segments: seq<string>): string {
    if segments == [] then ""
    else if |segments| == 1 then segments[0]
    else segments[0] + "/" + Join(segments[1..])
  }

  function WithoutLeadingSlashes(path: string): string {
    if path != "" && path[0] == '/' then WithoutLeadingSlashes(path[1..]) else path
  }

  /** The path as it is shown: one slash before it. */
  function Displayed(path: string): string {
    "/" + WithoutLeadingSlashes(path)
  }

  /** Leading slashes count for nothing, and one is always shown. */
  lemma DisplayedOnce(path: string)
    ensures Displayed("/" + path) == Displayed(path)
    ensures !("/" <= path) ==> Displayed(path) == "/" + path
  {
    assert ("/" + path)[1..] == path;
  }

  lemma {:induction false} JoinOfSplit(s: string)
    ensures Join(Split(s)) == s
  {
    if s != "" {
      JoinOfSplit(s[1..]);
      var rest := Split(s[1..]);
      assert s == [s[0]] + s[1..];
      if s[0] == '/' {
        assert ([""] + rest)[1..] == rest;
      } else {
        var first := [[s[0]] + rest[0]] + rest[1..];
        assert first[1..] == rest[1..];
        if |rest| > 1 { assert Join(rest) == rest[0] + "/" + Join(rest[1..]); }
      }
    }
  }

  predicate Slashless(segment: string) { '/' !in segment }

  lemma {:induction false} SplitOfSegment(segment: string)
    requires Slashless(segment)
    ensures Split(segment) == [segment]
  {
    if segment != "" {
      SplitOfSegment(segment[1..]);
      assert segment == [segment[0]] + segment[1..];
    }
  }

  lemma {:induction false} SplitAtSlash(segment: string, rest: string)
    requires Slashless(segment)
    ensures Split(segment + "/" + rest) == [segment] + Split(rest)
  {
    var s := segment + "/" + rest;
    if segment == "" {
      assert s[1..] == rest;
    } else {
      SplitAtSlash(segment[1..], rest);
      assert s[1..] == segment[1..] + "/" + rest;
      assert segment == [segment[0]] + segment[1..];
    }
  }

  lemma {:induction false} SplitOfJoin(segments: seq<string>)
    requires segments != [] && forall i :: 0 <= i < |segments| ==> Slashless(segments[i])
    ensures Split(Join(segments)) == segments
  {
    if |segments| == 1 {
      SplitOfSegment(segments[0]);
    } else {
      SplitOfJoin(segments[1..]);
      SplitAtSlash(segments[0], Join(segments[1..]));
    }
  }

  lemma {:induction false} SplitIsSlashless(s: string, i: nat)
    requires i < |Split(s)|
    ensures Slashless(Split(s)[i])
  {
    if s != "" {
      var rest := Split(s[1..]);
      if s[0] == '/' {
        if i > 0 { SplitIsSlashless(s[1..], i - 1); }
      } else {
        SplitIsSlashless(s[1..], i);
      }
    }
  }

  /** The segments that name something: neither empty nor a dot. */
  function Kept(segments: seq<string>): (kept: seq<string>)
    ensures forall i :: 0 <= i < |kept| ==> kept[i] != "" && kept[i] != "."
  {
    if segments == [] then []
    else (if segments[0] == "" || segments[0] == "." then [] else [segments[0]]) + Kept(segments[1..])
  }

  lemma {:induction false} KeptAll(segments: seq<string>)
    requires forall i :: 0 <= i < |segments| ==> segments[i] != "" && segments[i] != "."
    ensures Kept(segments) == segments
  {
    if segments != [] { KeptAll(segments[1..]); }
  }

  lemma {:induction false} KeptIn(segments: seq<string>, i: nat)
    requires i < |Kept(segments)|
    ensures Kept(segments)[i] in segments
  {
    if segments != [] {
      var first := if segments[0] == "" || segments[0] == "." then 0 else 1;
      if i >= first { KeptIn(segments[1..], i - first); }
    }
  }

  // ------------------------------------------------------------------------------------------
  // Trimming
  // ------------------------------------------------------------------------------------------

  function TrimStart(s: string): string {
    if s != "" && IsSpace(s[0]) then TrimStart(s[1..]) else s
  }

  function TrimEnd(s: string): (r: string)
    ensures |r| <= |s| && r == s[..|r|]
    ensures r == "" || !IsSpace(r[|r| - 1])
  {
    if s != "" && IsSpace(s[|s| - 1]) then TrimEnd(s[..|s| - 1]) else s
  }

  function Trim(s: string): string {
    TrimEnd(TrimStart(s))
  }

  predicate EndsInSpace(s: string) { s != "" && IsSpace(s[|s| - 1]) }
}
