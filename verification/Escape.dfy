/**
 * The prose escaper of packages/markup/src/escape.ts: a backslash goes in front of every `<` and
 * `{` that is not escaped already (section 2.4 of CommonMark 0.31.2) or part of a code span, a
 * `<br/>` or a component tag.
 */
module Escape {
  import opened EscapeSyntax
  import opened Escaping
  import opened Wrappers

  // ------------------------------------------------------------------------------------------
  // What the escaper does
  // ------------------------------------------------------------------------------------------

  /** What is left after one given character. */
  function After(c: char, t: Option<Text>): (r: Option<Text>)
    ensures r.Some? ==> t.Some? && t.value.More? && t.value.head == c && r.value == t.value.rest
    ensures r.Some? ==> Length(t.value) == 1 + Length(r.value)
  {
    if t.Some? && t.value.More? && t.value.head == c then Some(t.value.rest) else None
  }

  /** What is left after `<br/>`. */
  function AfterBreak(t: Text): (r: Option<Text>)
    ensures r.Some? ==> Length(r.value) < Length(t)
  {
    After('>', After('/', After('r', After('b', After('<', Some(t))))))
  }

  /** What a copied construct leaves: after an escaped pair, a code span, a break or a tag. */
  function AfterVerbatim(t: Text): (r: Option<Text>)
    ensures r.Some? ==> Length(r.value) < Length(t)
  {
    if t.End? then None
    else if t.head == '\\' then (if t.rest.More? then Some(t.rest.rest) else None)
    else if t.head == '`' then CodeSpan(t)
    else if AfterBreak(t).Some? then AfterBreak(t)
    else Tag(t)
  }

  /** The escaped text, where `at` is its offset in the document. */
  function Escaped(t: Text, at: nat, enclosed: set<nat>): Text {
    VerbatimReads();
    EscapedBy(AfterVerbatim, t, at, enclosed)
  }

  /** Read from the left, every `<` and `{` is escaped or inside a code span, a break or a tag. */
  predicate Safe(t: Text) {
    VerbatimReads();
    SafeBy(AfterVerbatim, t)
  }

  // ------------------------------------------------------------------------------------------
  // Recognizers read only their own construct
  // ------------------------------------------------------------------------------------------

  /** `t'` is `t` with `r'` in place of `r` at its end. */
  predicate Swapped(t: Text, r: Text, t': Text, r': Text) {
    if Length(t) <= Length(r) then t == r && t' == r'
    else t.More? && t'.More? && t.head == t'.head && Swapped(t.rest, r, t'.rest, r')
  }

  /** A run that stops before `r` stops at the same place in front of any other ending. */
  lemma {:induction false} RunSwapped(p: CharClass, t: Text, r: Text, t': Text, r': Text)
    requires Swapped(t, r, t', r') && Length(r) < Length(AfterRun(p, t))
    ensures Swapped(AfterRun(p, t), r, AfterRun(p, t'), r') && RunLength(p, t') == RunLength(p, t)
  {
    if Starts(p, t) { RunSwapped(p, t.rest, r, t'.rest, r'); }
  }

  /** A run that ends where `r` starts ends there too when the other ending does not continue it. */
  lemma {:induction false} RunEndsSwapped(p: CharClass, t: Text, t': Text, r': Text)
    requires Swapped(t, AfterRun(p, t), t', r') && !Starts(p, r')
    ensures AfterRun(p, t') == r' && RunLength(p, t') == RunLength(p, t)
  {
    if Starts(p, t) { RunEndsSwapped(p, t.rest, t'.rest, r'); }
  }

  lemma {:induction false} BalancedSwapped(t: Text, depth: nat, r: Text, t': Text, r': Text)
    requires depth > 0 && Balanced(t, depth).Some? && Length(r) <= Length(Balanced(t, depth).value)
    requires Swapped(t, r, t', r')
    ensures Balanced(t', depth).Some? && Swapped(Balanced(t, depth).value, r, Balanced(t', depth).value, r')
  {
    if t.head == '\\' { BalancedSwapped(t.rest.rest, depth, r, t'.rest.rest, r'); }
    else if t.head == '{' { BalancedSwapped(t.rest, depth + 1, r, t'.rest, r'); }
    else if t.head == '}' {
      if depth > 1 { BalancedSwapped(t.rest, depth - 1, r, t'.rest, r'); }
    }
    else { BalancedSwapped(t.rest, depth, r, t'.rest, r'); }
  }

  lemma ValueSwapped(t: Text, r: Text, t': Text, r': Text)
    requires AttributeValue(t).Some? && Length(r) < Length(AttributeValue(t).value) && Swapped(t, r, t', r')
    ensures AttributeValue(t').Some? && Swapped(AttributeValue(t).value, r, AttributeValue(t').value, r')
  {
    if t.head == '"' || t.head == '\'' {
      RunSwapped(NotQuote(t.head), t.rest, r, t'.rest, r');
    } else if t.head == '{' {
      BalancedSwapped(t.rest, 1, r, t'.rest, r');
    } else {
      RunSwapped(UnquotedValue, t, r, t', r');
    }
  }

  lemma AssignedSwapped(t: Text, r: Text, t': Text, r': Text)
    requires Assigned(t).Some? && Length(r) < Length(Assigned(t).value) && Swapped(t, r, t', r')
    ensures Assigned(t').Some? && Swapped(Assigned(t).value, r, Assigned(t').value, r')
  {
    RunSwapped(Space, t, r, t', r');
    var u, u' := AfterRun(Space, t), AfterRun(Space, t');
    if u.head == '=' {
      RunSwapped(Space, u.rest, r, u'.rest, r');
      ValueSwapped(AfterRun(Space, u.rest), r, AfterRun(Space, u'.rest), r');
    }
  }

  /** A step that ends the tag may end where `r` starts; one that goes on must stop before it. */
  lemma StepSwapped(t: Text, r: Text, t': Text, r': Text)
    requires !AttributeStep(t).Fail? && Length(r) <= Length(AttributeStep(t).left) && Swapped(t, r, t', r')
    requires AttributeStep(t).Next? ==> Length(r) < Length(AttributeStep(t).left)
    ensures !AttributeStep(t').Fail? && AttributeStep(t').Done? == AttributeStep(t).Done?
    ensures Swapped(AttributeStep(t).left, r, AttributeStep(t').left, r')
  {
    RunSwapped(Space, t, r, t', r');
    var u, u' := AfterRun(Space, t), AfterRun(Space, t');
    if u.head == '/' || u.head == '>' {
    } else if u.head == '{' {
      BalancedSwapped(u.rest, 1, r, u'.rest, r');
    } else {
      RunSwapped(AttributeName, u, r, u', r');
      AssignedSwapped(AfterRun(AttributeName, u), r, AfterRun(AttributeName, u'), r');
    }
  }

  lemma {:induction false} AttributesSwapped(t: Text, r: Text, t': Text, r': Text)
    requires Attributes(t) == Some(r) && Swapped(t, r, t', r')
    ensures Attributes(t') == Some(r')
    decreases Length(t)
  {
    StepSwapped(t, r, t', r');
    if AttributeStep(t).Next? { AttributesSwapped(AttributeStep(t).left, r, AttributeStep(t').left, r'); }
  }

  lemma {:induction false} SpellsSwapped(t: Text, word: string, u: Text, r: Text, t': Text, u': Text, r': Text)
    requires Swapped(t, r, t', r') && Swapped(u, r, u', r') && Length(r) < Length(u) <= Length(t)
    ensures Spells(t, word, u) <==> Spells(t', word, u')
    decreases |word|
  {
    SpellsIsLonger(t, word, u);
    SpellsIsLonger(t', word, u');
    SwappedLengths(t, r, t', r');
    SwappedLengths(u, r, u', r');
    if Length(t) == |word| + Length(u) {
      if word == "" {
        SwappedIsUnique(t, u, r, t', u', r');
      } else {
        SpellsSwapped(t.rest, word[1..], u, r, t'.rest, u', r');
      }
    }
  }

  lemma {:induction false} SwappedLengths(t: Text, r: Text, t': Text, r': Text)
    requires Swapped(t, r, t', r')
    ensures Length(t') + Length(r) == Length(t) + Length(r')
  {
    if Length(t) > Length(r) { SwappedLengths(t.rest, r, t'.rest, r'); }
  }

  lemma {:induction false} SwappedIsUnique(t: Text, u: Text, r: Text, t': Text, u': Text, r': Text)
    requires Swapped(t, r, t', r') && Swapped(u, r, u', r') && Length(t) == Length(u)
    ensures t == u <==> t' == u'
  {
    if Length(t) > Length(r) { SwappedIsUnique(t.rest, u.rest, r, t'.rest, u'.rest, r'); }
  }

  /** A tag is read from its own characters only. */
  lemma {:induction false} TagSwapped(t: Text, r: Text, t': Text, r': Text)
    requires Tag(t) == Some(r) && Swapped(t, r, t', r')
    ensures Tag(t') == Some(r')
  {
    var closing := t.rest.head == '/';
    var name, name' := if closing then t.rest.rest else t.rest, if closing then t'.rest.rest else t'.rest;
    RunSwapped(AlphaNumeric, name, r, name', r');
    var u, u' := AfterRun(AlphaNumeric, name), AfterRun(AlphaNumeric, name');
    SpellsSwapped(name, "img", u, r, name', u', r');
    if closing {
      RunSwapped(Space, u, r, u', r');
    } else {
      AttributesSwapped(u, r, u', r');
    }
  }

  lemma {:induction false} ClosingSwapped(t: Text, ticks: nat, r: Text, t': Text, r': Text)
    requires ticks > 0 && Closing(t, ticks) == Some(r) && Swapped(t, r, t', r') && !Starts(Tick, r')
    ensures Closing(t', ticks) == Some(r')
    decreases Length(t)
  {
    if Starts(Tick, t) {
      if RunLength(Tick, t) == ticks {
        RunEndsSwapped(Tick, t, t', r');
      } else {
        RunSwapped(Tick, t, r, t', r');
        ClosingSwapped(AfterRun(Tick, t), ticks, r, AfterRun(Tick, t'), r');
      }
    } else {
      ClosingSwapped(t.rest, ticks, r, t'.rest, r');
    }
  }

  /** A code span is read from its own characters, and the next one not being a backtick. */
  lemma {:induction false} CodeSpanSwapped(t: Text, r: Text, t': Text, r': Text)
    requires CodeSpan(t) == Some(r) && Swapped(t, r, t', r') && !Starts(Tick, r')
    ensures CodeSpan(t') == Some(r')
  {
    RunSwapped(Tick, t, r, t', r');
    ClosingSwapped(AfterRun(Tick, t), RunLength(Tick, t), r, AfterRun(Tick, t'), r');
  }

  // ------------------------------------------------------------------------------------------
  // What a recognizer leaves is the end of its text
  // ------------------------------------------------------------------------------------------

  lemma {:induction false} RunLeavesSuffix(p: CharClass, t: Text)
    ensures Suffix(AfterRun(p, t), t)
  {
    if Starts(p, t) { RunLeavesSuffix(p, t.rest); }
  }

  lemma {:induction false} BalancedLeavesSuffix(t: Text, depth: nat)
    requires depth > 0
    ensures Balanced(t, depth).Some? ==> Suffix(Balanced(t, depth).value, t)
  {
    if t.End? {
    } else if t.head == '\\' {
      if t.rest.More? { BalancedLeavesSuffix(t.rest.rest, depth); }
    } else if t.head == '{' {
      BalancedLeavesSuffix(t.rest, depth + 1);
    } else if t.head == '}' {
      if depth > 1 { BalancedLeavesSuffix(t.rest, depth - 1); }
    } else {
      BalancedLeavesSuffix(t.rest, depth);
    }
  }

  lemma ValueLeavesSuffix(t: Text)
    ensures AttributeValue(t).Some? ==> Suffix(AttributeValue(t).value, t)
  {
    if t.More? {
      RunLeavesSuffix(NotQuote(t.head), t.rest);
      BalancedLeavesSuffix(t.rest, 1);
      RunLeavesSuffix(UnquotedValue, t);
      var close := AfterRun(NotQuote(t.head), t.rest);
      if close.More? { SuffixTrans(close.rest, close, t.rest); }
    }
  }

  lemma AssignedLeavesSuffix(t: Text)
    ensures Assigned(t).Some? ==> Suffix(Assigned(t).value, t)
  {
    RunLeavesSuffix(Space, t);
    var u := AfterRun(Space, t);
    if u.More? && u.head == '=' && Assigned(t).Some? {
      RunLeavesSuffix(Space, u.rest);
      ValueLeavesSuffix(AfterRun(Space, u.rest));
      SuffixTrans(Assigned(t).value, AfterRun(Space, u.rest), u.rest);
      SuffixTrans(Assigned(t).value, u, t);
    }
  }

  lemma StepLeavesSuffix(t: Text)
    ensures !AttributeStep(t).Fail? ==> Suffix(AttributeStep(t).left, t)
  {
    RunLeavesSuffix(Space, t);
    var u := AfterRun(Space, t);
    if !AttributeStep(t).Fail? {
      BalancedLeavesSuffix(u.rest, 1);
      RunLeavesSuffix(AttributeName, u);
      AssignedLeavesSuffix(AfterRun(AttributeName, u));
      if u.head != '/' && u.head != '>' && u.head != '{' {
        SuffixTrans(AttributeStep(t).left, AfterRun(AttributeName, u), u);
      }
      SuffixTrans(AttributeStep(t).left, u, t);
    }
  }

  lemma {:induction false} AttributesLeaveSuffix(t: Text)
    ensures Attributes(t).Some? ==> Suffix(Attributes(t).value, t)
    decreases Length(t)
  {
    StepLeavesSuffix(t);
    if AttributeStep(t).Next? {
      AttributesLeaveSuffix(AttributeStep(t).left);
      if Attributes(t).Some? { SuffixTrans(Attributes(t).value, AttributeStep(t).left, t); }
    }
  }

  lemma TagLeavesSuffix(t: Text)
    ensures Tag(t).Some? ==> Suffix(Tag(t).value, t)
  {
    if Tag(t).Some? {
      var name := if t.rest.head == '/' then t.rest.rest else t.rest;
      RunLeavesSuffix(AlphaNumeric, name);
      var u := AfterRun(AlphaNumeric, name);
      RunLeavesSuffix(Space, u);
      AttributesLeaveSuffix(u);
      if t.rest.head == '/' { SuffixTrans(AfterRun(Space, u).rest, AfterRun(Space, u), u); }
      SuffixTrans(Tag(t).value, u, name);
    }
  }

  lemma {:induction false} ClosingLeavesSuffix(t: Text, ticks: nat)
    requires ticks > 0
    ensures Closing(t, ticks).Some? ==> Suffix(Closing(t, ticks).value, t) && !Starts(Tick, Closing(t, ticks).value)
    decreases Length(t)
  {
    if t.More? {
      if Starts(Tick, t) {
        RunLeavesSuffix(Tick, t);
        ClosingLeavesSuffix(AfterRun(Tick, t), ticks);
        if RunLength(Tick, t) != ticks && Closing(t, ticks).Some? {
          SuffixTrans(Closing(t, ticks).value, AfterRun(Tick, t), t);
        }
      } else {
        ClosingLeavesSuffix(t.rest, ticks);
      }
    }
  }

  lemma VerbatimLeavesSuffix(t: Text)
    ensures AfterVerbatim(t).Some? ==> Suffix(AfterVerbatim(t).value, t)
    ensures AfterVerbatim(t).Some? && t.head == '`' ==> !Starts(Tick, AfterVerbatim(t).value)
  {
    if AfterVerbatim(t).Some? {
      if t.head == '`' {
        RunLeavesSuffix(Tick, t);
        ClosingLeavesSuffix(AfterRun(Tick, t), RunLength(Tick, t));
        SuffixTrans(AfterVerbatim(t).value, AfterRun(Tick, t), t);
      } else if t.head == '<' {
        TagLeavesSuffix(t);
        if AfterBreak(t).Some? { BreakLeavesSuffix(t); }
      }
    }
  }

  lemma BreakLeavesSuffix(t: Text)
    requires AfterBreak(t).Some?
    ensures Suffix(AfterBreak(t).value, t)
  {
    var t1 := t.rest;
    var t2 := t1.rest;
    var t3 := t2.rest;
    var t4 := t3.rest;
    assert Suffix(t4.rest, t4) && Suffix(t4, t3) && Suffix(t3, t2) && Suffix(t2, t1) && Suffix(t1, t);
    SuffixTrans(t4.rest, t4, t3);
    SuffixTrans(t4.rest, t3, t2);
    SuffixTrans(t4.rest, t2, t1);
    SuffixTrans(t4.rest, t1, t);
  }

  lemma {:induction false} CopyIsSwapped(t: Text, r: Text, y: Text)
    requires Suffix(r, t)
    ensures Swapped(t, r, CopyUntil(t, r, y), y)
  {
    if Length(t) > Length(r) { CopyIsSwapped(t.rest, r, y); }
  }

  lemma AfterSwapped(c: char, t: Text, r: Text, t': Text, r': Text)
    requires Swapped(t, r, t', r') && After(c, Some(t)).Some? && Length(r) < Length(t)
    ensures After(c, Some(t')).Some? && Swapped(After(c, Some(t)).value, r, After(c, Some(t')).value, r')
  {}

  lemma BreakSwapped(t: Text, r: Text, t': Text, r': Text)
    requires AfterBreak(t) == Some(r) && Swapped(t, r, t', r')
    ensures AfterBreak(t') == Some(r')
  {
    var t1 := t.rest;
    var t2 := t1.rest;
    var t3 := t2.rest;
    var t4 := t3.rest;
    AfterSwapped('<', t, r, t', r');
    AfterSwapped('b', t1, r, t'.rest, r');
    AfterSwapped('r', t2, r, t'.rest.rest, r');
    AfterSwapped('/', t3, r, t'.rest.rest.rest, r');
    AfterSwapped('>', t4, r, t'.rest.rest.rest.rest, r');
  }

  /** A copied construct is recognized again, and leaves what was put after it. */
  lemma VerbatimSwapped(t: Text, r: Text, t': Text, r': Text)
    requires AfterVerbatim(t) == Some(r) && Swapped(t, r, t', r') && (Starts(Tick, r') ==> Starts(Tick, r))
    ensures AfterVerbatim(t') == Some(r')
  {
    VerbatimLeavesSuffix(t);
    if t.head == '`' {
      CodeSpanSwapped(t, r, t', r');
    } else if t.head == '\\' {
      PairSwapped(t, r, t', r');
    } else if AfterBreak(t).Some? {
      BreakSwapped(t, r, t', r');
    } else {
      TagSwapped(t, r, t', r');
      BreakIsNoTag(t');
    }
  }

  lemma PairSwapped(t: Text, r: Text, t': Text, r': Text)
    requires t.More? && t.rest.More? && r == t.rest.rest && Swapped(t, r, t', r')
    ensures t'.More? && t'.rest.More? && r' == t'.rest.rest
  {
    assert Swapped(t.rest, r, t'.rest, r');
    assert Swapped(t.rest.rest, r, t'.rest.rest, r');
  }

  /** `br` is not a preserved name, so the two protected spellings never compete. */
  lemma {:induction false} BreakIsNoTag(t: Text)
    ensures AfterBreak(t).Some? ==> Tag(t) == None
  {
    if AfterBreak(t).Some? { assert !Spells(t.rest, "img", AfterRun(AlphaNumeric, t.rest)); }
  }

  lemma VerbatimReads()
    ensures Reads(AfterVerbatim)
  {
    forall t ensures ReadsAt(AfterVerbatim, t) { VerbatimLeavesSuffix(t); }
  }

  // ------------------------------------------------------------------------------------------
  // Constructs are read again in the escaped text
  // ------------------------------------------------------------------------------------------

  lemma {:induction false} PaddedRun(t: Text, t': Text)
    requires Padded(t, t')
    ensures RunLength(Tick, t') == RunLength(Tick, t) && Padded(AfterRun(Tick, t), AfterRun(Tick, t'))
    ensures Starts(Tick, t) <==> Starts(Tick, t')
  {
    if Starts(Tick, t) { PaddedRun(t.rest, t'.rest); }
  }

  lemma {:induction false} PaddedClosing(t: Text, t': Text, ticks: nat)
    requires Padded(t, t') && ticks > 0
    ensures Closing(t, ticks).None? <==> Closing(t', ticks).None?
    decreases Length(t)
  {
    if t.More? {
      PaddedRun(t, t');
      if Starts(Tick, t) {
        PaddedClosing(AfterRun(Tick, t), AfterRun(Tick, t'), ticks);
      } else if t'.head == t.head && Padded(t.rest, t'.rest) {
        PaddedClosing(t.rest, t'.rest, ticks);
      } else {
        PaddedClosing(t.rest, t'.rest.rest, ticks);
      }
    }
  }

  /** Added backslashes never open or close a code span. */
  lemma {:induction false} PaddedCodeSpan(t: Text, t': Text)
    requires Padded(t, t')
    ensures CodeSpan(t).None? <==> CodeSpan(t').None?
  {
    PaddedRun(t, t');
    if Starts(Tick, t) { PaddedClosing(AfterRun(Tick, t), AfterRun(Tick, t'), RunLength(Tick, t)); }
  }

  /** A copied construct is read as the same construct when its escaped rest follows it. */
  lemma CopyIsRead(t: Text, r: Text, y: Text)
    requires AfterVerbatim(t) == Some(r) && Padded(r, y)
    ensures CopyUntil(t, r, y).More? && AfterVerbatim(CopyUntil(t, r, y)) == Some(y)
  {
    VerbatimLeavesSuffix(t);
    CopyIsSwapped(t, r, y);
    PaddedRun(r, y);
    VerbatimSwapped(t, r, CopyUntil(t, r, y), y);
  }

  lemma PlainIsRead(t: Text, y: Text)
    requires t.More? && AfterVerbatim(t).None? && !Opens(t.head) && Padded(t.rest, y)
    ensures AfterVerbatim(More(t.head, y)).None?
  {
    if t.head == '`' { PaddedCodeSpan(t, More(t.head, y)); }
  }

  lemma VerbatimRereads()
    ensures Rereads(AfterVerbatim)
  {
    forall t, y ensures CopyRereads(AfterVerbatim, t, y) {
      if AfterVerbatim(t).Some? && Padded(AfterVerbatim(t).value, y) { CopyIsRead(t, AfterVerbatim(t).value, y); }
    }
    forall t, y ensures PlainRereads(AfterVerbatim, t, y) {
      if t.More? && AfterVerbatim(t).None? && !Opens(t.head) && Padded(t.rest, y) { PlainIsRead(t, y); }
    }
    forall c, y ensures EscapeRereads(AfterVerbatim, c, y) { EscapeIsRead(c, y); }
  }

  lemma EscapeIsRead(c: char, y: Text)
    ensures AfterVerbatim(More('\\', More(c, y))) == Some(y)
  {
  }

  // ------------------------------------------------------------------------------------------
  // What escaping promises
  // ------------------------------------------------------------------------------------------

  /** Erasing the backslashes the escaper added, each in front of a `<` or `{`, gives the input back. */
  lemma {:induction false} EscapedIsPadded(t: Text, at: nat, enclosed: set<nat>)
    ensures Padded(t, Escaped(t, at, enclosed))
  {
    VerbatimReads();
    EscapedByIsPadded(AfterVerbatim, t, at, enclosed);
  }

  lemma {:induction false} EscapedIsSafe(t: Text, at: nat)
    ensures Safe(Escaped(t, at, {}))
  {
    VerbatimReads();
    VerbatimRereads();
    EscapedByIsSafe(AfterVerbatim, t, at);
  }

  /** The escaper leaves exactly the safe texts as they are. */
  lemma {:induction false} SafeIsUnchanged(t: Text, at: nat)
    ensures Escaped(t, at, {}) == t <==> Safe(t)
  {
    VerbatimReads();
    SafeByIsUnchanged(AfterVerbatim, t, at);
  }

  /** Escaping twice is escaping once. */
  lemma {:induction false} EscapedIsIdempotent(t: Text, at: nat, at': nat)
    ensures Escaped(Escaped(t, at, {}), at', {}) == Escaped(t, at, {})
  {
    EscapedIsSafe(t, at);
    SafeIsUnchanged(Escaped(t, at, {}), at');
  }

  // ------------------------------------------------------------------------------------------
  // The scanner
  // ------------------------------------------------------------------------------------------

  /** The construct to copy at a cursor, as the cursor after it. */
  method VerbatimEnd(segment: string, i: nat) returns (end: Option<nat>)
    requires i < |segment|
    ensures Ends(segment, end, AfterVerbatim(From(segment, i)))
    ensures end.Some? ==> i < end.value
  {
    if segment[i] == '\\' {
      return if i + 1 < |segment| then Some(i + 2) else None;
    }
    if segment[i] == '`' {
      end := TryConsumeInlineCodeSpan(segment, i);
      return;
    }
    end := AfterBreakAt(segment, i);
    if end.None? { end := TryConsumeJsxTag(segment, i); }
  }

  method AfterAt(c: char, text: string, at: Option<nat>, ghost t: Option<Text>) returns (end: Option<nat>)
    requires Ends(text, at, t)
    ensures Ends(text, end, After(c, t))
  {
    return if at.Some? && at.value < |text| && text[at.value] == c then Some(at.value + 1) else None;
  }

  /** Whether the text goes on with `<br/>`, character by character. */
  method AfterBreakAt(text: string, i: nat) returns (end: Option<nat>)
    requires i <= |text|
    ensures Ends(text, end, AfterBreak(From(text, i)))
  {
    ghost var t := Some(From(text, i));
    end := AfterAt('<', text, Some(i), t);
    end := AfterAt('b', text, end, After('<', t));
    end := AfterAt('r', text, end, After('b', After('<', t)));
    end := AfterAt('/', text, end, After('r', After('b', After('<', t))));
    end := AfterAt('>', text, end, After('/', After('r', After('b', After('<', t)))));
  }

  /** What one step writes, and where it leaves the cursor. */
  method NextPiece(segment: string, i: nat, offset: nat, enclosed: set<nat>) returns (piece: string, next: nat)
    requires i < |segment| && Reads(AfterVerbatim)
    ensures Emits(AfterVerbatim, segment, i, next, offset, enclosed, piece)
  {
    if segment[i] == '<' && offset + i in enclosed {
      EmitsOne(AfterVerbatim, segment, i, offset, enclosed, [segment[i]]);
      return [segment[i]], i + 1;
    }
    var end := VerbatimEnd(segment, i);
    if end.Some? {
      EmitsConstruct(AfterVerbatim, segment, i, end.value, offset, enclosed);
      return segment[i..end.value], end.value;
    }
    piece := if segment[i] == '<' || segment[i] == '{' then ['\\', segment[i]] else [segment[i]];
    EmitsOne(AfterVerbatim, segment, i, offset, enclosed, piece);
    next := i + 1;
  }

  /** Escapes one line of prose; `offset` is where it starts in the document. */
  method EscapeProseSegment(segment: string, offset: nat, enclosed: set<nat>) returns (out: string)
    ensures From(out, 0) == Escaped(From(segment, 0), offset, enclosed)
  {
    VerbatimReads();
    out := "";
    var i := 0;
    while i < |segment|
      invariant Progressed(AfterVerbatim, out, segment, i, offset, enclosed)
    {
      var piece, next := NextPiece(segment, i, offset, enclosed);
      ProgressedBy(AfterVerbatim, out, segment, i, next, offset, enclosed, piece);
      out, i := out + piece, next;
    }
    ProgressEnds(AfterVerbatim, out, segment, offset, enclosed);
  }
}
