/**
 * The constructs the prose escaper of packages/markup/src/escape.ts leaves alone: inline code
 * spans (section 6.1 of CommonMark 0.31.2), component tags and balanced braces. A recognizer
 * takes the text from some place on and answers what is left after the construct.
 */
module EscapeSyntax {
  import opened Wrappers

  /** A text from some place on. */
  datatype Text = End | More(head: char, rest: Text)

  function Length(t: Text): nat {
    if t.End? then 0 else 1 + Length(t.rest)
  }

  /** What the cursor `i` of a scanner still has in front of it. */
  function From(s: string, i: nat): (t: Text)
    requires i <= |s|
    ensures Length(t) == |s| - i
    decreases |s| - i
  {
    if i == |s| then End else More(s[i], From(s, i + 1))
  }

  lemma {:induction false} FromIsInjective(s: string, i: nat, s': string, i': nat)
    requires i <= |s| && i' <= |s'| && From(s, i) == From(s', i')
    ensures s[i..] == s'[i'..]
    decreases |s| - i
  {
    if i < |s| { FromIsInjective(s, i + 1, s', i' + 1); }
  }

  // ------------------------------------------------------------------------------------------
  // Runs of characters of one class
  // ------------------------------------------------------------------------------------------

  /** ECMAScript's white space and line terminators. */
  predicate IsSpace(c: char) {
    var n := c as int;
    || 9 <= n <= 13 || n == 0x20 || n == 0xA0 || n == 0x1680 || 0x2000 <= n <= 0x200A
    || n == 0x2028 || n == 0x2029 || n == 0x202F || n == 0x205F || n == 0x3000 || n == 0xFEFF
  }

  predicate IsUpper(c: char) { 'A' <= c <= 'Z' }

  predicate IsAlphaNumeric(c: char) { IsUpper(c) || 'a' <= c <= 'z' || '0' <= c <= '9' }

  datatype CharClass = Space | AlphaNumeric | AttributeName | UnquotedValue | Tick | NotQuote(quote: char)

  predicate InClass(p: CharClass, c: char) {
    match p
    case Space => IsSpace(c)
    case AlphaNumeric => IsAlphaNumeric(c)
    case AttributeName => IsAlphaNumeric(c) || c == ':' || c == '_' || c == '-'
    case UnquotedValue => !IsSpace(c) && c != '/' && c != '>'
    case Tick => c == '`'
    case NotQuote(quote) => c != quote
  }

  predicate Starts(p: CharClass, t: Text) {
    t.More? && InClass(p, t.head)
  }

  /** What is left after a longest run. */
  function AfterRun(p: CharClass, t: Text): (r: Text)
    ensures Length(r) <= Length(t) && !Starts(p, r)
  {
    if Starts(p, t) then AfterRun(p, t.rest) else t
  }

  /** How long that run is. */
  function RunLength(p: CharClass, t: Text): (n: nat)
    ensures n + Length(AfterRun(p, t)) == Length(t)
  {
    if Starts(p, t) then 1 + RunLength(p, t.rest) else 0
  }

  method RunEnd(p: CharClass, text: string, start: nat) returns (i: nat)
    requires start <= |text|
    ensures start <= i <= |text| && From(text, i) == AfterRun(p, From(text, start))
  {
    i := start;
    while i < |text| && InClass(p, text[i])
      invariant start <= i <= |text|
      invariant AfterRun(p, From(text, start)) == AfterRun(p, From(text, i))
    {
      i := i + 1;
    }
  }

  // ------------------------------------------------------------------------------------------
  // Balanced braces
  // ------------------------------------------------------------------------------------------

  /** After the brace that closes `depth` open ones; a backslash hides the next character. */
  function Balanced(t: Text, depth: nat): (r: Option<Text>)
    requires depth > 0
    ensures r.Some? ==> Length(r.value) < Length(t)
  {
    if t.End? then None
    else if t.head == '\\' then (if t.rest.End? then None else Balanced(t.rest.rest, depth))
    else if t.head == '{' then Balanced(t.rest, depth + 1)
    else if t.head == '}' then (if depth == 1 then Some(t.rest) else Balanced(t.rest, depth - 1))
    else Balanced(t.rest, depth)
  }

  function Braces(t: Text): (r: Option<Text>)
    ensures r.Some? ==> Length(r.value) < Length(t)
  {
    if t.More? && t.head == '{' then Balanced(t.rest, 1) else None
  }

  /** The cursor answer of a scanner, as what is left of the text. */
  ghost predicate Ends(text: string, end: Option<nat>, r: Option<Text>) {
    match end
    case None => r.None?
    case Some(i) => i <= |text| && r == Some(From(text, i))
  }

  method SkipBalanced(text: string, start: nat) returns (end: Option<nat>)
    requires start <= |text|
    ensures Ends(text, end, Braces(From(text, start)))
  {
    if start == |text| || text[start] != '{' { return None; }
    var depth, i := 1, start + 1;
    while i < |text|
      invariant start < i <= |text| && depth > 0
      invariant Braces(From(text, start)) == Balanced(From(text, i), depth)
      decreases |text| - i
    {
      if text[i] == '\\' {
        if i + 1 == |text| { return None; }
        i := i + 2;
      } else {
        if text[i] == '{' { depth := depth + 1; }
        if text[i] == '}' {
          if depth == 1 { return Some(i + 1); }
          depth := depth - 1;
        }
        i := i + 1;
      }
    }
    return None;
  }

  // ------------------------------------------------------------------------------------------
  // Code spans
  // ------------------------------------------------------------------------------------------

  /** After the first run of exactly `ticks` backticks. */
  function Closing(t: Text, ticks: nat): (r: Option<Text>)
    requires ticks > 0
    ensures r.Some? ==> Length(r.value) < Length(t)
    decreases Length(t)
  {
    if t.End? then None
    else if Starts(Tick, t) then
      (if RunLength(Tick, t) == ticks then Some(AfterRun(Tick, t)) else Closing(AfterRun(Tick, t), ticks))
    else Closing(t.rest, ticks)
  }

  function CodeSpan(t: Text): (r: Option<Text>)
    ensures r.Some? ==> Length(r.value) < Length(t)
  {
    if Starts(Tick, t) then Closing(AfterRun(Tick, t), RunLength(Tick, t)) else None
  }

  method TryConsumeInlineCodeSpan(text: string, start: nat) returns (end: Option<nat>)
    requires start <= |text|
    ensures Ends(text, end, CodeSpan(From(text, start)))
  {
    if start == |text| || text[start] != '`' { return None; }
    var i := RunEnd(Tick, text, start);
    var openLength := i - start;
    while i < |text|
      invariant start < i <= |text|
      invariant CodeSpan(From(text, start)) == Closing(From(text, i), openLength)
    {
      if text[i] == '`' {
        var runEnd := RunEnd(Tick, text, i);
        if runEnd - i == openLength { return Some(i + openLength); }
        i := runEnd;
      } else {
        i := i + 1;
      }
    }
    return None;
  }

  // ------------------------------------------------------------------------------------------
  // Component tags
  // ------------------------------------------------------------------------------------------

  /** Whether `t` spells `word` up to where `end` is left. */
  predicate Spells(t: Text, word: string, end: Text)
    decreases |word|
  {
    if word == "" then t == end else t.More? && t.head == word[0] && Spells(t.rest, word[1..], end)
  }

  /** A component's name (an upper-case letter and alphanumerics), or the one lowercase exception. */
  predicate IsPreservedName(t: Text) {
    (t.More? && IsUpper(t.head)) || Spells(t, "img", AfterRun(AlphaNumeric, t))
  }

  /** After the value of an attribute: quoted, braced, or up to white space, `/` or `>`. */
  function AttributeValue(t: Text): (r: Option<Text>)
    ensures r.Some? ==> Length(r.value) <= Length(t)
  {
    if t.More? && (t.head == '"' || t.head == '\'') then
      var close := AfterRun(NotQuote(t.head), t.rest);
      if close.End? then None else Some(close.rest)
    else if t.More? && t.head == '{' then Braces(t)
    else Some(AfterRun(UnquotedValue, t))
  }

  /** One attribute, or the end of the tag. */
  datatype Progress = Fail | Done(left: Text) | Next(left: Text)

  /** What may follow an attribute's name: white space, then `=` and a value. */
  function Assigned(t: Text): (r: Option<Text>)
    ensures r.Some? ==> Length(r.value) <= Length(t)
  {
    var u := AfterRun(Space, t);
    if u.More? && u.head == '=' then AttributeValue(AfterRun(Space, u.rest)) else Some(u)
  }

  function AttributeStep(t: Text): (progress: Progress)
    ensures !progress.Fail? ==> Length(progress.left) < Length(t)
  {
    var u := AfterRun(Space, t);
    if u.End? then Fail
    else if u.head == '/' then (if u.rest.More? && u.rest.head == '>' then Done(u.rest.rest) else Fail)
    else if u.head == '>' then Done(u.rest)
    else if u.head == '{' then (match Braces(u) case None => Fail case Some(r) => Next(r))
    else if !Starts(AttributeName, u) then Fail
    else match Assigned(AfterRun(AttributeName, u)) case None => Fail case Some(r) => Next(r)
  }

  /** After the attributes of an open tag and its `>`. */
  function Attributes(t: Text): (r: Option<Text>)
    ensures r.Some? ==> Length(r.value) < Length(t)
    decreases Length(t)
  {
    match AttributeStep(t)
    case Fail => None
    case Done(r) => Some(r)
    case Next(u) => Attributes(u)
  }

  function ClosingTag(t: Text): (r: Option<Text>)
    ensures r.Some? ==> Length(r.value) < Length(t)
  {
    var u := AfterRun(Space, t);
    if u.More? && u.head == '>' then Some(u.rest) else None
  }

  /** After an opening, closing or self-closing tag with a preserved name. */
  function Tag(t: Text): (r: Option<Text>)
    ensures r.Some? ==> Length(r.value) < Length(t)
  {
    if !(t.More? && t.head == '<') then None
    else if t.rest.More? && t.rest.head == '/' then
      (if IsPreservedName(t.rest.rest) then ClosingTag(AfterRun(AlphaNumeric, t.rest.rest)) else None)
    else if IsPreservedName(t.rest) then Attributes(AfterRun(AlphaNumeric, t.rest))
    else None
  }

  method AttributeValueAt(text: string, start: nat) returns (end: Option<nat>)
    requires start <= |text|
    ensures Ends(text, end, AttributeValue(From(text, start)))
  {
    if start < |text| && (text[start] == '"' || text[start] == '\'') {
      var close := RunEnd(NotQuote(text[start]), text, start + 1);
      return if close == |text| then None else Some(close + 1);
    }
    if start < |text| && text[start] == '{' {
      end := SkipBalanced(text, start);
      return;
    }
    var stop := RunEnd(UnquotedValue, text, start);
    return Some(stop);
  }

  method AssignedAt(text: string, start: nat) returns (end: Option<nat>)
    requires start <= |text|
    ensures Ends(text, end, Assigned(From(text, start)))
  {
    var i := RunEnd(Space, text, start);
    if i == |text| || text[i] != '=' { return Some(i); }
    i := RunEnd(Space, text, i + 1);
    end := AttributeValueAt(text, i);
  }

  /** The attribute loop of a tag; `ended` says whether the `>` was reached. */
  method ConsumeAttributes(text: string, start: nat) returns (end: Option<nat>)
    requires start <= |text|
    ensures Ends(text, end, Attributes(From(text, start)))
  {
    var i := start;
    while i < |text|
      invariant start <= i <= |text|
      invariant Attributes(From(text, start)) == Attributes(From(text, i))
    {
      ghost var before := i;
      i := RunEnd(Space, text, i);
      if i == |text| { return None; }
      if text[i] == '/' { return if i + 1 < |text| && text[i + 1] == '>' then Some(i + 2) else None; }
      if text[i] == '>' { return Some(i + 1); }
      var next: Option<nat>;
      if text[i] == '{' {
        next := SkipBalanced(text, i);
      } else {
        var nameEnd := RunEnd(AttributeName, text, i);
        if nameEnd == i { return None; }
        next := AssignedAt(text, nameEnd);
      }
      if next.None? { return None; }
      i := next.value;
    }
    return None;
  }

  method TryConsumeJsxTag(text: string, start: nat) returns (end: Option<nat>)
    requires start <= |text|
    ensures Ends(text, end, Tag(From(text, start)))
  {
    if start == |text| || text[start] != '<' { return None; }
    var closing := start + 1 < |text| && text[start + 1] == '/';
    var nameStart := if closing then start + 2 else start + 1;
    var i := RunEnd(AlphaNumeric, text, nameStart);
    var preserved := PreservedNameAt(text, nameStart, i);
    if !preserved { return None; }
    if closing {
      i := RunEnd(Space, text, i);
      return if i < |text| && text[i] == '>' then Some(i + 1) else None;
    }
    end := ConsumeAttributes(text, i);
  }

  /** Whether the alphanumeric run between the two cursors is a preserved name. */
  method PreservedNameAt(text: string, start: nat, end: nat) returns (preserved: bool)
    requires start <= end <= |text| && From(text, end) == AfterRun(AlphaNumeric, From(text, start))
    ensures preserved == IsPreservedName(From(text, start))
  {
    SpellsSlice(text, start, end, "img");
    preserved := (start < |text| && IsUpper(text[start])) || text[start..end] == "img";
  }

  lemma {:induction false} SpellsSlice(text: string, start: nat, end: nat, word: string)
    requires start <= end <= |text|
    ensures Spells(From(text, start), word, From(text, end)) <==> text[start..end] == word
    decreases |word|
  {
    if word == "" {
    } else if start < end {
      SpellsSlice(text, start + 1, end, word[1..]);
      assert text[start..end] == [text[start]] + text[start + 1..end];
      assert word == [word[0]] + word[1..];
    } else {
      SpellsIsLonger(From(text, start), word, From(text, end));
    }
  }

  lemma {:induction false} SpellsIsLonger(t: Text, word: string, end: Text)
    ensures Spells(t, word, end) ==> Length(t) == |word| + Length(end)
  {
    if word != "" && t.More? { SpellsIsLonger(t.rest, word[1..], end); }
  }
}
