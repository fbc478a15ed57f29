/**
 * Escaping around constructs that are copied, whatever the constructs are: a reader says where one
 * ends, and a backslash goes in front of every `<` and `{` outside them.
 */
module Escaping {
  import opened EscapeSyntax
  import opened Wrappers

  /** What is left after the construct at the start of a text, where there is one. */
  type Reader = Text -> Option<Text>

  predicate Suffix(r: Text, t: Text) {
    if Length(t) <= Length(r) then t == r else Suffix(r, t.rest)
  }

  lemma {:induction false} SuffixTrans(a: Text, b: Text, c: Text)
    requires Suffix(a, b) && Suffix(b, c)
    ensures Suffix(a, c)
  {
    SuffixIsShorter(a, b);
    SuffixIsShorter(b, c);
    if Length(c) > Length(b) { SuffixTrans(a, b, c.rest); }
  }

  lemma {:induction false} SuffixIsShorter(r: Text, t: Text)
    requires Suffix(r, t)
    ensures Length(r) <= Length(t)
  {
    if Length(t) > Length(r) { SuffixIsShorter(r, t.rest); }
  }

  ghost predicate ReadsAt(read: Reader, t: Text) {
    read(t).Some? ==> t.More? && Length(read(t).value) < Length(t) && Suffix(read(t).value, t)
  }

  /** A construct is some of the text and not nothing. */
  ghost predicate Reads(read: Reader) {
    forall t :: ReadsAt(read, t)
  }

  /** `t` up to where `r` is left, followed by `y`. */
  function CopyUntil(t: Text, r: Text, y: Text): Text {
    if Length(t) <= Length(r) then y else More(t.head, CopyUntil(t.rest, r, y))
  }

  predicate Opens(c: char) { c == '<' || c == '{' }

  /** What one step leaves to escape. */
  function LeftBy(read: Reader, t: Text): (left: Text)
    requires Reads(read) && t.More?
    ensures Length(left) < Length(t)
  {
    assert ReadsAt(read, t);
    if read(t).Some? then read(t).value else t.rest
  }

  /** What one step makes of the text, in front of the rest escaped. */
  function SteppedBy(read: Reader, t: Text, y: Text): Text
    requires t.More?
  {
    if read(t).Some? then CopyUntil(t, read(t).value, y)
    else if Opens(t.head) then More('\\', More(t.head, y))
    else More(t.head, y)
  }

  /**
   * The escaped text. `at` is the offset of `t` in the document and `enclosed` the offsets where
   * a `<` opens an enclosed link destination, which is copied.
   */
  function EscapedBy(read: Reader, t: Text, at: nat, enclosed: set<nat>): Text
    requires Reads(read)
    decreases Length(t)
  {
    if t.End? then End
    else if t.head == '<' && at in enclosed then More('<', EscapedBy(read, t.rest, at + 1, enclosed))
    else
      var left := LeftBy(read, t);
      SteppedBy(read, t, EscapedBy(read, left, at + Length(t) - Length(left), enclosed))
  }

  // ------------------------------------------------------------------------------------------
  // A construct comes out as it went in
  // ------------------------------------------------------------------------------------------

  /** A string in front of a text. */
  function Put(s: string, t: Text): Text {
    if s == "" then t else More(s[0], Put(s[1..], t))
  }

  lemma {:induction false} PutBoth(a: string, b: string, t: Text)
    ensures Put(a + b, t) == Put(a, Put(b, t))
  {
    if a == "" {
      assert a + b == b;
    } else {
      assert (a + b)[1..] == a[1..] + b;
      PutBoth(a[1..], b, t);
    }
  }

  lemma {:induction false} PutLength(s: string, t: Text)
    ensures Length(Put(s, t)) == |s| + Length(t)
  {
    if s != "" { PutLength(s[1..], t); }
  }

  lemma {:induction false} FromIsPut(s: string, i: nat)
    requires i <= |s|
    ensures From(s, i) == Put(s[i..], End)
    decreases |s| - i
  {
    if i < |s| {
      FromIsPut(s, i + 1);
      assert s[i..][1..] == s[i + 1..];
    }
  }

  lemma {:induction false} CopyOfPut(s: string, r: Text, y: Text)
    ensures CopyUntil(Put(s, r), r, y) == Put(s, y)
  {
    PutLength(s, r);
    if s != "" { CopyOfPut(s[1..], r, y); }
  }

  /** What is read is copied, and escaping goes on after it. */
  lemma CopiedBy(read: Reader, s: string, r: Text, at: nat, enclosed: set<nat>)
    requires Reads(read) && read(Put(s, r)) == Some(r) && !(s != "" && s[0] == '<' && at in enclosed)
    ensures EscapedBy(read, Put(s, r), at, enclosed) == Put(s, EscapedBy(read, r, at + |s|, enclosed))
  {
    var t := Put(s, r);
    assert ReadsAt(read, t);
    PutLength(s, r);
    CopyOfPut(s, r, EscapedBy(read, r, at + |s|, enclosed));
  }

  ghost predicate IsPlain(s: string) {
    forall i :: 0 <= i < |s| ==> s[i] !in "\\`<{"
  }

  ghost predicate NoPlain(read: Reader, t: Text) {
    t.More? && t.head !in "\\`<{" ==> read(t).None?
  }

  /** Other characters start no construct. */
  ghost predicate ReadsNoPlain(read: Reader) {
    forall t :: NoPlain(read, t)
  }

  lemma {:induction false} PlainCopiedBy(read: Reader, s: string, t: Text, at: nat)
    requires Reads(read) && ReadsNoPlain(read) && IsPlain(s)
    ensures EscapedBy(read, Put(s, t), at, {}) == Put(s, EscapedBy(read, t, at + |s|, {}))
  {
    if s != "" {
      PlainCopiedBy(read, s[1..], t, at + 1);
      assert NoPlain(read, Put(s, t));
    }
  }

  lemma LineIsPut(before: string, construct: string, after: string)
    ensures From(before + construct + after, 0) == Put(before, Put(construct, Put(after, End)))
  {
    var line := before + (construct + after);
    FromIsPut(line, 0);
    assert before + construct + after == line == line[0..];
    PutBoth(before, construct + after, End);
    PutBoth(construct, after, End);
  }

  /** A line of one construct between plain words is left as it is. */
  lemma LineIsKept(read: Reader, before: string, construct: string, after: string, at: nat)
    requires Reads(read) && ReadsNoPlain(read) && IsPlain(before) && IsPlain(after)
    requires read(Put(construct, Put(after, End))) == Some(Put(after, End))
    ensures EscapedBy(read, From(before + construct + after, 0), at, {}) == From(before + construct + after, 0)
  {
    var r := Put(after, End);
    LineIsPut(before, construct, after);
    PlainCopiedBy(read, before, Put(construct, r), at);
    CopiedBy(read, construct, r, at + |before|, {});
    PlainCopiedBy(read, after, End, at + |before| + |construct|);
  }

  // ------------------------------------------------------------------------------------------
  // Only backslashes in front of `<` and `{` are added
  // ------------------------------------------------------------------------------------------

  /** `t'` is `t` with backslashes added in front of some `<` and `{`, and nothing else changed. */
  ghost predicate Padded(t: Text, t': Text) {
    if t.End? then t'.End?
    else
      || (t'.More? && t'.head == t.head && Padded(t.rest, t'.rest))
      || (Opens(t.head) && t'.More? && t'.head == '\\'
          && t'.rest.More? && t'.rest.head == t.head && Padded(t.rest, t'.rest.rest))
  }

  lemma {:induction false} CopyIsPadded(t: Text, r: Text, y: Text)
    requires Suffix(r, t) && Padded(r, y)
    ensures Padded(t, CopyUntil(t, r, y))
  {
    if Length(t) > Length(r) { CopyIsPadded(t.rest, r, y); }
  }

  lemma SteppedIsPadded(read: Reader, t: Text, y: Text)
    requires Reads(read) && t.More? && Padded(LeftBy(read, t), y)
    ensures Padded(t, SteppedBy(read, t, y))
  {
    assert ReadsAt(read, t);
    if read(t).Some? { CopyIsPadded(t, read(t).value, y); }
  }

  /** Erasing the backslashes added, each in front of a `<` or `{`, gives the input back. */
  lemma {:induction false} EscapedByIsPadded(read: Reader, t: Text, at: nat, enclosed: set<nat>)
    requires Reads(read)
    ensures Padded(t, EscapedBy(read, t, at, enclosed))
    decreases Length(t)
  {
    if t.More? {
      if t.head == '<' && at in enclosed {
        EscapedByIsPadded(read, t.rest, at + 1, enclosed);
      } else {
        var left := LeftBy(read, t);
        var at' := at + Length(t) - Length(left);
        EscapedByIsPadded(read, left, at', enclosed);
        SteppedIsPadded(read, t, EscapedBy(read, left, at', enclosed));
      }
    }
  }

  // ------------------------------------------------------------------------------------------
  // The output is safe, and escaping it again changes nothing
  // ------------------------------------------------------------------------------------------

  /** Read from the left, every `<` and `{` is inside a construct. */
  predicate SafeBy(read: Reader, t: Text)
    requires Reads(read)
    decreases Length(t)
  {
    t.End? || ((read(t).Some? || !Opens(t.head)) && SafeBy(read, LeftBy(read, t)))
  }

  /** A construct is read again in front of its escaped rest. */
  ghost predicate CopyRereads(read: Reader, t: Text, y: Text) {
    read(t).Some? && Padded(read(t).value, y) ==>
      var copy := CopyUntil(t, read(t).value, y); copy.More? && read(copy) == Some(y)
  }

  /** Escaping the rest makes no construct of a character that starts none. */
  ghost predicate PlainRereads(read: Reader, t: Text, y: Text) {
    t.More? && read(t).None? && !Opens(t.head) && Padded(t.rest, y) ==> read(More(t.head, y)).None?
  }

  /** An escaped character is a construct. */
  ghost predicate EscapeRereads(read: Reader, c: char, y: Text) {
    read(More('\\', More(c, y))) == Some(y)
  }

  ghost predicate Rereads(read: Reader) {
    && (forall t, y :: CopyRereads(read, t, y)) && (forall t, y :: PlainRereads(read, t, y))
    && forall c, y :: EscapeRereads(read, c, y)
  }

  lemma SteppedIsSafe(read: Reader, t: Text, y: Text)
    requires Reads(read) && Rereads(read) && t.More? && SafeBy(read, y) && Padded(LeftBy(read, t), y)
    ensures SafeBy(read, SteppedBy(read, t, y))
  {
    assert CopyRereads(read, t, y) && PlainRereads(read, t, y) && EscapeRereads(read, t.head, y);
  }

  lemma {:induction false} EscapedByIsSafe(read: Reader, t: Text, at: nat)
    requires Reads(read) && Rereads(read)
    ensures SafeBy(read, EscapedBy(read, t, at, {}))
    decreases Length(t)
  {
    if t.More? {
      var left := LeftBy(read, t);
      var at' := at + Length(t) - Length(left);
      EscapedByIsSafe(read, left, at');
      EscapedByIsPadded(read, left, at', {});
      SteppedIsSafe(read, t, EscapedBy(read, left, at', {}));
    }
  }

  lemma {:induction false} CopyOfItself(t: Text, r: Text)
    requires Suffix(r, t)
    ensures CopyUntil(t, r, r) == t
  {
    if Length(t) > Length(r) { CopyOfItself(t.rest, r); }
  }

  lemma {:induction false} CopyIsInjective(t: Text, r: Text, y: Text)
    requires Suffix(r, t) && CopyUntil(t, r, y) == t
    ensures y == r
  {
    if Length(t) > Length(r) { CopyIsInjective(t.rest, r, y); }
  }

  /** A step changes nothing exactly when the text starts safely and nothing after the step changes. */
  lemma SteppedIsUnchanged(read: Reader, t: Text, y: Text)
    requires Reads(read) && t.More?
    ensures SteppedBy(read, t, y) == t <==> (read(t).Some? || !Opens(t.head)) && y == LeftBy(read, t)
  {
    assert ReadsAt(read, t);
    if read(t).Some? {
      CopyOfItself(t, read(t).value);
      if SteppedBy(read, t, y) == t { CopyIsInjective(t, read(t).value, y); }
    }
  }

  /** Exactly the safe texts are left as they are. */
  lemma {:induction false} SafeByIsUnchanged(read: Reader, t: Text, at: nat)
    requires Reads(read)
    ensures EscapedBy(read, t, at, {}) == t <==> SafeBy(read, t)
    decreases Length(t)
  {
    if t.More? {
      var left := LeftBy(read, t);
      var at' := at + Length(t) - Length(left);
      SafeByIsUnchanged(read, left, at');
      SteppedIsUnchanged(read, t, EscapedBy(read, left, at', {}));
    }
  }

  // ------------------------------------------------------------------------------------------
  // Writing the escaped text piece by piece
  // ------------------------------------------------------------------------------------------

  /** `out` from `i` on, then `y`. */
  ghost function Onto(out: string, i: nat, y: Text): Text
    requires i <= |out|
    decreases |out| - i
  {
    if i == |out| then y else More(out[i], Onto(out, i + 1, y))
  }

  lemma {:induction false} OntoEnd(out: string, i: nat)
    requires i <= |out|
    ensures Onto(out, i, End) == From(out, i)
    decreases |out| - i
  {
    if i < |out| { OntoEnd(out, i + 1); }
  }

  lemma {:induction false} OntoBoth(out: string, i: nat, piece: string, y: Text)
    requires i <= |out|
    ensures Onto(out + piece, i, y) == Onto(out, i, Onto(piece, 0, y))
    decreases |out| - i
  {
    if i < |out| { OntoBoth(out, i + 1, piece, y); } else { OntoLater(out, piece, 0, y); }
  }

  lemma {:induction false} OntoLater(out: string, piece: string, i: nat, y: Text)
    requires i <= |piece|
    ensures Onto(out + piece, |out| + i, y) == Onto(piece, i, y)
    decreases |piece| - i
  {
    if i < |piece| { OntoLater(out, piece, i + 1, y); }
  }

  lemma {:induction false} OntoSlice(segment: string, i: nat, j: nat, k: nat, y: Text)
    requires i <= k <= j <= |segment|
    ensures Onto(segment[i..j], k - i, y) == CopyUntil(From(segment, k), From(segment, j), y)
    decreases j - k
  {
    if k < j { OntoSlice(segment, i, j, k + 1, y); }
  }

  /** The piece is what is made of the segment between the cursors, whatever was made before. */
  ghost predicate Emits(read: Reader, segment: string, i: nat, next: nat, offset: nat, enclosed: set<nat>, piece: string)
    requires Reads(read)
  {
    && i < next <= |segment|
    && EscapedBy(read, From(segment, i), offset + i, enclosed)
       == Onto(piece, 0, EscapedBy(read, From(segment, next), offset + next, enclosed))
  }

  lemma EmitsOne(read: Reader, segment: string, i: nat, offset: nat, enclosed: set<nat>, piece: string)
    requires Reads(read) && i < |segment|
    requires (segment[i] == '<' && offset + i in enclosed) || read(From(segment, i)).None?
    requires piece == if Opens(segment[i]) && !(segment[i] == '<' && offset + i in enclosed) then ['\\', segment[i]] else [segment[i]]
    ensures Emits(read, segment, i, i + 1, offset, enclosed, piece)
  {
    var y := EscapedBy(read, From(segment, i + 1), offset + (i + 1), enclosed);
    if |piece| == 2 { assert Onto(piece, 1, y) == More(segment[i], y); }
  }

  lemma EmitsConstruct(read: Reader, segment: string, i: nat, next: nat, offset: nat, enclosed: set<nat>)
    requires Reads(read) && i < next <= |segment| && !(segment[i] == '<' && offset + i in enclosed)
    requires read(From(segment, i)) == Some(From(segment, next))
    ensures Emits(read, segment, i, next, offset, enclosed, segment[i..next])
  {
    OntoSlice(segment, i, next, i, EscapedBy(read, From(segment, next), offset + next, enclosed));
  }

  /** What is out so far, then the escaped rest, is the escaped whole. */
  ghost predicate Progressed(read: Reader, out: string, segment: string, i: nat, offset: nat, enclosed: set<nat>)
    requires Reads(read)
  {
    && i <= |segment|
    && Onto(out, 0, EscapedBy(read, From(segment, i), offset + i, enclosed))
       == EscapedBy(read, From(segment, 0), offset, enclosed)
  }

  lemma ProgressedBy(read: Reader, out: string, segment: string, i: nat, next: nat, offset: nat, enclosed: set<nat>, piece: string)
    requires Reads(read) && Progressed(read, out, segment, i, offset, enclosed) && Emits(read, segment, i, next, offset, enclosed, piece)
    ensures Progressed(read, out + piece, segment, next, offset, enclosed)
  {
    OntoBoth(out, 0, piece, EscapedBy(read, From(segment, next), offset + next, enclosed));
  }

  lemma ProgressEnds(read: Reader, out: string, segment: string, offset: nat, enclosed: set<nat>)
    requires Reads(read) && Progressed(read, out, segment, |segment|, offset, enclosed)
    ensures From(out, 0) == EscapedBy(read, From(segment, 0), offset, enclosed)
  {
    OntoEnd(out, 0);
  }
}
