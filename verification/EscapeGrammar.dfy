/**
 * The constructs the prose escaper leaves alone, as they are printed: a grammar of balanced braces,
 * code spans and component tags, and the recognizers of packages/markup/src/escape.ts read exactly
 * what it prints. So the escaper copies every printed construct and nothing else.
 */
module EscapeGrammar {
  import opened Escape
  import opened EscapeSyntax
  import opened Escaping
  import opened Wrappers

  ghost predicate AllIn(p: CharClass, s: string) {
    forall i :: 0 <= i < |s| ==> InClass(p, s[i])
  }

  lemma {:induction false} RunRead(p: CharClass, s: string, t: Text)
    requires AllIn(p, s) && !Starts(p, t)
    ensures AfterRun(p, Put(s, t)) == t && RunLength(p, Put(s, t)) == |s|
  {
    if s != "" { RunRead(p, s[1..], t); }
  }

  lemma {:induction false} RunPrinted(p: CharClass, t: Text) returns (s: string)
    ensures AllIn(p, s) && t == Put(s, AfterRun(p, t)) && |s| == RunLength(p, t)
  {
    if Starts(p, t) {
      var more := RunPrinted(p, t.rest);
      s := [t.head] + more;
      assert s[1..] == more;
    } else {
      s := "";
    }
  }

  // ------------------------------------------------------------------------------------------
  // Balanced braces
  // ------------------------------------------------------------------------------------------

  /** What stands after an open brace, up to the brace that closes it. */
  datatype Braced = Close | Plain(c: char, more: Braced) | Hidden(c: char, more: Braced) | Nest(inside: Braced, more: Braced)

  predicate ProperBraced(b: Braced) {
    match b
    case Close => true
    case Plain(c, more) => c != '\\' && c != '{' && c != '}' && ProperBraced(more)
    case Hidden(_, more) => ProperBraced(more)
    case Nest(inside, more) => ProperBraced(inside) && ProperBraced(more)
  }

  function PrintBraced(b: Braced): string {
    match b
    case Close => "}"
    case Plain(c, more) => [c] + PrintBraced(more)
    case Hidden(c, more) => ['\\', c] + PrintBraced(more)
    case Nest(inside, more) => "{" + PrintBraced(inside) + PrintBraced(more)
  }

  lemma PutOne(c: char, s: string, t: Text)
    ensures Put([c] + s, t) == More(c, Put(s, t))
  {
    assert ([c] + s)[1..] == s;
  }

  lemma PutTwo(c: char, c': char, s: string, t: Text)
    ensures Put([c, c'] + s, t) == More(c, More(c', Put(s, t)))
  {
    assert ([c, c'] + s)[1..] == [c'] + s;
    PutOne(c', s, t);
  }

  lemma PutLast(c: char, t: Text)
    ensures Put([c], t) == More(c, t)
  {
    assert [c][1..] == "";
  }

  lemma PutLastTwo(c: char, c': char, t: Text)
    ensures Put([c, c'], t) == More(c, More(c', t))
  {
    assert [c, c'][1..] == [c'];
    PutLast(c', t);
  }

  lemma PutNest(inside: string, more: string, t: Text)
    ensures Put("{" + inside + more, t) == More('{', Put(inside, Put(more, t)))
  {
    assert "{" + inside + more == ['{'] + (inside + more);
    PutOne('{', inside + more, t);
    PutBoth(inside, more, t);
  }

  lemma {:induction false} BracedRead(b: Braced, rest: Text, depth: nat)
    requires depth > 0 && ProperBraced(b)
    ensures Balanced(Put(PrintBraced(b), rest), depth) == if depth == 1 then Some(rest) else Balanced(rest, depth - 1)
    decreases b
  {
    match b
    case Close =>
      PutLast('}', rest);
    case Plain(c, more) =>
      PutOne(c, PrintBraced(more), rest);
      BracedRead(more, rest, depth);
    case Hidden(c, more) =>
      PutTwo('\\', c, PrintBraced(more), rest);
      BracedRead(more, rest, depth);
    case Nest(inside, more) =>
      PutNest(PrintBraced(inside), PrintBraced(more), rest);
      BracedRead(inside, Put(PrintBraced(more), rest), depth + 1);
      BracedRead(more, rest, depth);
  }

  lemma {:induction false} BracedPrinted(t: Text, depth: nat) returns (b: Braced, rest: Text)
    requires depth > 0 && Balanced(t, depth).Some?
    ensures ProperBraced(b) && t == Put(PrintBraced(b), rest) && Length(rest) < Length(t)
    ensures Balanced(t, depth) == if depth == 1 then Some(rest) else Balanced(rest, depth - 1)
    decreases Length(t)
  {
    if t.head == '}' {
      b, rest := Close, t.rest;
      PutLast('}', rest);
    } else if t.head == '\\' {
      var more, left := BracedPrinted(t.rest.rest, depth);
      b, rest := Hidden(t.rest.head, more), left;
      PutTwo('\\', t.rest.head, PrintBraced(more), rest);
    } else if t.head == '{' {
      var inside, after := BracedPrinted(t.rest, depth + 1);
      var more, left := BracedPrinted(after, depth);
      b, rest := Nest(inside, more), left;
      PutNest(PrintBraced(inside), PrintBraced(more), rest);
    } else {
      var more, left := BracedPrinted(t.rest, depth);
      b, rest := Plain(t.head, more), left;
      PutOne(t.head, PrintBraced(more), rest);
    }
  }

  /** The text is a balanced group, then `r`. */
  ghost predicate IsGroup(b: Braced, t: Text, r: Text) {
    ProperBraced(b) && t == Put("{" + PrintBraced(b), r)
  }

  /** Braces are read exactly where a balanced group is printed, and what is left is what follows it. */
  lemma {:induction false} BracesArePrinted(t: Text, r: Text)
    ensures Braces(t) == Some(r) <==> exists b :: IsGroup(b, t, r)
  {
    if Braces(t) == Some(r) {
      var b, rest := BracedPrinted(t.rest, 1);
      PutOne('{', PrintBraced(b), r);
      assert IsGroup(b, t, r);
    }
    if b :| IsGroup(b, t, r) {
      PutOne('{', PrintBraced(b), r);
      BracedRead(b, r, 1);
    }
  }

  // ------------------------------------------------------------------------------------------
  // Code spans
  // ------------------------------------------------------------------------------------------

  /** What stands after the opening backticks: other characters, runs of backticks, the closing run. */
  datatype SpanBody = Ended | Char(c: char, more: SpanBody) | Ticks(count: nat, more: SpanBody)

  /** No run of backticks inside is as long as the closing one. */
  predicate ProperBody(b: SpanBody, ticks: nat) {
    match b
    case Ended => true
    case Char(c, more) => c != '`' && ProperBody(more, ticks)
    case Ticks(count, more) => 0 < count != ticks && more.Char? && ProperBody(more, ticks)
  }

  function TickRun(count: nat): string {
    seq(count, _ => '`')
  }

  function PrintBody(b: SpanBody, ticks: nat): string {
    match b
    case Ended => TickRun(ticks)
    case Char(c, more) => [c] + PrintBody(more, ticks)
    case Ticks(count, more) => TickRun(count) + PrintBody(more, ticks)
  }

  lemma TicksStart(count: nat, t: Text)
    requires count > 0
    ensures Starts(Tick, Put(TickRun(count), t))
  {
  }

  lemma {:induction false} BodyRead(b: SpanBody, ticks: nat, r: Text)
    requires ticks > 0 && ProperBody(b, ticks) && !Starts(Tick, r)
    ensures EscapeSyntax.Closing(Put(PrintBody(b, ticks), r), ticks) == Some(r)
    ensures b.Char? ==> !Starts(Tick, Put(PrintBody(b, ticks), r))
  {
    match b
    case Ended =>
      TicksStart(ticks, r);
      RunRead(Tick, TickRun(ticks), r);
    case Char(c, more) =>
      PutOne(c, PrintBody(more, ticks), r);
      BodyRead(more, ticks, r);
    case Ticks(count, more) =>
      BodyRead(more, ticks, r);
      PutBoth(TickRun(count), PrintBody(more, ticks), r);
      TicksStart(count, Put(PrintBody(more, ticks), r));
      RunRead(Tick, TickRun(count), Put(PrintBody(more, ticks), r));
  }

  lemma TicksPrinted(t: Text)
    ensures t == Put(TickRun(RunLength(Tick, t)), AfterRun(Tick, t))
  {
    var s := RunPrinted(Tick, t);
    assert s == TickRun(|s|);
  }

  lemma {:induction false} BodyPrinted(t: Text, ticks: nat, r: Text) returns (b: SpanBody)
    requires ticks > 0 && EscapeSyntax.Closing(t, ticks) == Some(r)
    ensures ProperBody(b, ticks) && t == Put(PrintBody(b, ticks), r) && !Starts(Tick, r)
    ensures !Starts(Tick, t) ==> b.Char?
    decreases Length(t)
  {
    if Starts(Tick, t) {
      TicksPrinted(t);
      if RunLength(Tick, t) == ticks {
        b := Ended;
      } else {
        var more := BodyPrinted(AfterRun(Tick, t), ticks, r);
        b := Ticks(RunLength(Tick, t), more);
        PutBoth(TickRun(RunLength(Tick, t)), PrintBody(more, ticks), r);
      }
    } else {
      var more := BodyPrinted(t.rest, ticks, r);
      b := Char(t.head, more);
      PutOne(t.head, PrintBody(more, ticks), r);
    }
  }

  /** The text is a code span of `ticks` backticks on each side, then `r`. */
  ghost predicate IsSpan(ticks: nat, body: SpanBody, t: Text, r: Text) {
    && ticks > 0 && body.Char? && ProperBody(body, ticks) && !(r.More? && r.head == '`')
    && t == Put(TickRun(ticks) + PrintBody(body, ticks), r)
  }

  /** A code span is read exactly where one is printed. */
  lemma {:induction false} SpanIsPrinted(t: Text, r: Text)
    ensures CodeSpan(t) == Some(r) <==> exists ticks, body :: IsSpan(ticks, body, t, r)
  {
    if CodeSpan(t) == Some(r) {
      var ticks := RunLength(Tick, t);
      TicksPrinted(t);
      var body := BodyPrinted(AfterRun(Tick, t), ticks, r);
      PutBoth(TickRun(ticks), PrintBody(body, ticks), r);
      assert IsSpan(ticks, body, t, r);
    }
    if ticks, body :| IsSpan(ticks, body, t, r) {
      BodyRead(body, ticks, r);
      PutBoth(TickRun(ticks), PrintBody(body, ticks), r);
      TicksStart(ticks, Put(PrintBody(body, ticks), r));
      RunRead(Tick, TickRun(ticks), Put(PrintBody(body, ticks), r));
    }
  }

  // ------------------------------------------------------------------------------------------
  // Attributes
  // ------------------------------------------------------------------------------------------

  datatype Value = Quoted(quote: char, text: string) | InBraces(inside: Braced) | Unquoted(text: string)

  /** A spread or comment in braces, a name alone, or a name with a value. */
  datatype Attribute = Spread(inside: Braced) | Bare(name: string) | Given(name: string, before: string, after: string, value: Value)

  predicate ProperValue(v: Value) {
    match v
    case Quoted(quote, text) => (quote == '"' || quote == '\'') && quote !in text
    case InBraces(inside) => ProperBraced(inside)
    case Unquoted(text) =>
      && (forall i :: 0 <= i < |text| ==> !IsSpace(text[i]) && text[i] != '/' && text[i] != '>')
      && (text != "" ==> text[0] != '"' && text[0] != '\'' && text[0] != '{')
  }

  predicate IsAttributeName(s: string) {
    s != "" && forall i :: 0 <= i < |s| ==> IsAlphaNumeric(s[i]) || s[i] in ":_-"
  }

  predicate IsBlank(s: string) {
    forall i :: 0 <= i < |s| ==> IsSpace(s[i])
  }

  predicate ProperAttribute(a: Attribute) {
    match a
    case Spread(inside) => ProperBraced(inside)
    case Bare(name) => IsAttributeName(name)
    case Given(name, before, after, value) => IsAttributeName(name) && IsBlank(before) && IsBlank(after) && ProperValue(value)
  }

  function PrintValue(v: Value): string {
    match v
    case Quoted(quote, text) => [quote] + text + [quote]
    case InBraces(inside) => "{" + PrintBraced(inside)
    case Unquoted(text) => text
  }

  function PrintAttribute(a: Attribute): string {
    match a
    case Spread(inside) => "{" + PrintBraced(inside)
    case Bare(name) => name
    case Given(name, before, after, value) => name + before + "=" + after + PrintValue(value)
  }

  /** Whether the attribute ends where the next character is this one: names and unquoted values run on. */
  predicate EndsBefore(a: Attribute, next: char) {
    match a
    case Spread(_) => true
    case Bare(_) => !(IsAlphaNumeric(next) || next in ":_-")
    case Given(_, _, _, Unquoted(text)) => (next == '/' || next == '>' || IsSpace(next)) && (text == "" ==> !IsSpace(next))
    case Given(_, _, _, _) => true
  }

  /** White space and what follows it: an attribute and more, or the end of the tag, with or without a slash. */
  datatype Items = EndOfTag(spaces: string, slash: bool) | Item(spaces: string, attribute: Attribute, more: Items)

  function PrintItems(items: Items): string {
    match items
    case EndOfTag(spaces, slash) => spaces + if slash then "/>" else ">"
    case Item(spaces, attribute, more) => spaces + PrintAttribute(attribute) + PrintItems(more)
  }

  /** The first character printed. */
  function FirstOf(items: Items): char {
    if items.spaces != "" then items.spaces[0]
    else match items
      case EndOfTag(_, slash) => if slash then '/' else '>'
      case Item(_, Spread(_), _) => '{'
      case Item(_, attribute, _) => if attribute.name == "" then '=' else attribute.name[0]
  }

  predicate ProperItems(items: Items) {
    && IsBlank(items.spaces)
    && match items
       case EndOfTag(_, _) => true
       case Item(_, attribute, more) => ProperAttribute(attribute) && ProperItems(more) && EndsBefore(attribute, FirstOf(more))
  }

  // ------------------------------------------------------------------------------------------
  // Printed attributes are read
  // ------------------------------------------------------------------------------------------

  lemma QuotedRead(quote: char, text: string, t: Text)
    requires (quote == '"' || quote == '\'') && quote !in text
    ensures AttributeValue(Put([quote] + text + [quote], t)) == Some(t)
  {
    assert [quote] + text + [quote] == [quote] + (text + [quote]);
    PutOne(quote, text + [quote], t);
    PutBoth(text, [quote], t);
    PutLast(quote, t);
    RunRead(NotQuote(quote), text, More(quote, t));
  }

  lemma UnquotedRead(text: string, t: Text)
    requires ProperValue(Unquoted(text)) && t.More? && (t.head == '/' || t.head == '>' || IsSpace(t.head))
    ensures AttributeValue(Put(text, t)) == Some(t)
  {
    assert AllIn(UnquotedValue, text);
    RunRead(UnquotedValue, text, t);
  }

  /** Where a value with nothing in front of it is read to. */
  lemma ValueRead(a: Attribute, t: Text)
    requires a.Given? && ProperAttribute(a) && t.More? && EndsBefore(a, t.head)
    ensures AttributeValue(Put(PrintValue(a.value), t)) == Some(t)
    ensures !Starts(Space, Put(PrintValue(a.value), t))
  {
    match a.value
    case Quoted(quote, text) =>
      QuotedRead(quote, text, t);
      assert [quote] + text + [quote] == [quote] + (text + [quote]);
      PutOne(quote, text + [quote], t);
    case InBraces(inside) =>
      PutOne('{', PrintBraced(inside), t);
      BracedRead(inside, t, 1);
    case Unquoted(text) => UnquotedRead(text, t);
  }

  lemma PutGiven(a: Attribute, t: Text)
    requires a.Given?
    ensures Put(PrintAttribute(a), t) == Put(a.name, Put(a.before, More('=', Put(a.after, Put(PrintValue(a.value), t)))))
  {
    var value := PrintValue(a.value);
    assert PrintAttribute(a) == a.name + (a.before + (['='] + (a.after + value)));
    PutBoth(a.name, a.before + (['='] + (a.after + value)), t);
    PutBoth(a.before, ['='] + (a.after + value), t);
    PutOne('=', a.after + value, t);
    PutBoth(a.after, value, t);
  }

  lemma GivenRead(a: Attribute, t: Text)
    requires a.Given? && ProperAttribute(a) && t.More? && EndsBefore(a, t.head)
    ensures Assigned(Put(a.before, More('=', Put(a.after, Put(PrintValue(a.value), t))))) == Some(t)
  {
    var value := Put(PrintValue(a.value), t);
    ValueRead(a, t);
    assert AllIn(Space, a.before) && AllIn(Space, a.after);
    RunRead(Space, a.before, More('=', Put(a.after, value)));
    RunRead(Space, a.after, value);
  }

  lemma NameRead(name: string, t: Text)
    requires IsAttributeName(name) && !Starts(AttributeName, t)
    ensures AfterRun(AttributeName, Put(name, t)) == t && !Starts(Space, Put(name, t))
    ensures var u := Put(name, t); u.More? && u.head == name[0] && Starts(AttributeName, u) && u.head !in "/>{="
  {
    assert AllIn(AttributeName, name);
    RunRead(AttributeName, name, t);
  }

  lemma EqualsIsNoName(before: string, t: Text)
    requires IsBlank(before)
    ensures !Starts(AttributeName, Put(before, More('=', t)))
  {
  }

  /** An attribute starts with its brace or its name. */
  lemma AttributeStarts(a: Attribute, t: Text)
    requires ProperAttribute(a)
    ensures var u := Put(PrintAttribute(a), t); u.More? && !IsSpace(u.head) && u.head != '=' && u.head == FirstOf(Item("", a, EndOfTag("", false)))
  {
    match a
    case Spread(inside) => PutOne('{', PrintBraced(inside), t);
    case Bare(name) => FirstPut(name, t);
    case Given(name, before, after, value) =>
      PutGiven(a, t);
      FirstPut(name, Put(before, More('=', Put(after, Put(PrintValue(value), t)))));
  }

  lemma GivenStep(a: Attribute, t: Text)
    requires a.Given? && ProperAttribute(a) && t.More? && EndsBefore(a, t.head)
    ensures AttributeStep(Put(PrintAttribute(a), t)) == Next(t)
  {
    var tail := More('=', Put(a.after, Put(PrintValue(a.value), t)));
    PutGiven(a, t);
    EqualsIsNoName(a.before, tail.rest);
    NameRead(a.name, Put(a.before, tail));
    GivenRead(a, t);
  }

  /** One printed attribute is one step; a name alone takes the white space after it as well. */
  lemma AttributeRead(a: Attribute, t: Text)
    requires ProperAttribute(a) && t.More? && EndsBefore(a, t.head)
    requires var u := AfterRun(Space, t); !(u.More? && u.head == '=')
    ensures var step := AttributeStep(Put(PrintAttribute(a), t)); step.Next? && (step.left == t || step.left == AfterRun(Space, t))
  {
    match a
    case Spread(inside) =>
      PutOne('{', PrintBraced(inside), t);
      BracedRead(inside, t, 1);
    case Bare(name) => NameRead(name, t);
    case Given(_, _, _, _) => GivenStep(a, t);
  }

  lemma PastSpaces(spaces: string, t: Text)
    requires IsBlank(spaces)
    ensures AfterRun(Space, Put(spaces, t)) == AfterRun(Space, t)
  {
    var more := RunPrinted(Space, t);
    assert AllIn(Space, spaces + more);
    PutBoth(spaces, more, AfterRun(Space, t));
    RunRead(Space, spaces + more, AfterRun(Space, t));
  }

  lemma StepPastSpaces(t: Text, u: Text)
    requires AfterRun(Space, t) == AfterRun(Space, u)
    ensures AttributeStep(t) == AttributeStep(u) && Attributes(t) == Attributes(u)
  {
  }

  lemma PutItem(items: Items, r: Text)
    requires items.Item?
    ensures Put(PrintItems(items), r) == Put(items.spaces, Put(PrintAttribute(items.attribute), Put(PrintItems(items.more), r)))
  {
    var a, more := PrintAttribute(items.attribute), PrintItems(items.more);
    assert PrintItems(items) == items.spaces + (a + more);
    PutBoth(items.spaces, a + more, r);
    PutBoth(a, more, r);
  }

  lemma PutEnd(items: Items, r: Text)
    requires items.EndOfTag?
    ensures Put(PrintItems(items), r) == Put(items.spaces, if items.slash then More('/', More('>', r)) else More('>', r))
  {
    PutBoth(items.spaces, if items.slash then "/>" else ">", r);
    PutLastTwo('/', '>', r);
    PutLast('>', r);
  }

  lemma FirstPut(s: string, t: Text)
    requires s != ""
    ensures Put(s, t).More? && Put(s, t).head == s[0]
  {
  }

  lemma EndStarts(items: Items, r: Text)
    requires items.EndOfTag? && ProperItems(items)
    ensures var t := Put(PrintItems(items), r); t.More? && t.head == FirstOf(items) && AfterRun(Space, t).More? && AfterRun(Space, t).head != '='
    ensures Attributes(Put(PrintItems(items), r)) == Some(r)
  {
    var end := if items.slash then More('/', More('>', r)) else More('>', r);
    PutEnd(items, r);
    if items.spaces != "" { FirstPut(items.spaces, end); }
    PastSpaces(items.spaces, end);
    StepPastSpaces(Put(items.spaces, end), end);
  }

  /** The first character printed is the one `FirstOf` names, and no `=` follows the white space. */
  lemma ItemsStart(items: Items, r: Text)
    requires ProperItems(items)
    ensures var t := Put(PrintItems(items), r); t.More? && t.head == FirstOf(items) && AfterRun(Space, t).More? && AfterRun(Space, t).head != '='
  {
    if items.EndOfTag? {
      EndStarts(items, r);
    } else {
      var next := Put(PrintItems(items.more), r);
      var u := Put(PrintAttribute(items.attribute), next);
      PutItem(items, r);
      AttributeStarts(items.attribute, next);
      if items.spaces != "" { FirstPut(items.spaces, u); }
      PastSpaces(items.spaces, u);
    }
  }

  /** Printed attributes leave what follows their tag. */
  lemma {:induction false} ItemsRead(items: Items, r: Text)
    requires ProperItems(items)
    ensures Attributes(Put(PrintItems(items), r)) == Some(r)
  {
    if items.EndOfTag? {
      EndStarts(items, r);
    } else {
      ItemsRead(items.more, r);
      ItemsStart(items.more, r);
      var next := Put(PrintItems(items.more), r);
      var u := Put(PrintAttribute(items.attribute), next);
      PutItem(items, r);
      AttributeRead(items.attribute, next);
      PastSpaces(items.spaces, u);
      StepPastSpaces(Put(items.spaces, u), u);
      StepPastSpaces(next, AfterRun(Space, next));
    }
  }

  // ------------------------------------------------------------------------------------------
  // What is read as attributes is printed
  // ------------------------------------------------------------------------------------------

  lemma ValuePrinted(t: Text, w: Text) returns (v: Value)
    requires AttributeValue(t) == Some(w) && w.More? && !Starts(Space, t)
    ensures ProperValue(v) && t == Put(PrintValue(v), w)
    ensures v.Unquoted? ==> (w.head == '/' || w.head == '>' || IsSpace(w.head)) && (v.text == "" ==> !IsSpace(w.head))
  {
    if t.More? && (t.head == '"' || t.head == '\'') {
      var text := RunPrinted(NotQuote(t.head), t.rest);
      v := Quoted(t.head, text);
      assert [t.head] + text + [t.head] == [t.head] + (text + [t.head]);
      PutOne(t.head, text + [t.head], w);
      PutBoth(text, [t.head], w);
      PutLast(t.head, w);
    } else if t.More? && t.head == '{' {
      var inside, rest := BracedPrinted(t.rest, 1);
      v := InBraces(inside);
      PutOne('{', PrintBraced(inside), w);
    } else {
      var text := RunPrinted(UnquotedValue, t);
      v := Unquoted(text);
      assert AllIn(UnquotedValue, text);
    }
  }

  lemma NamePrinted(u: Text) returns (name: string)
    requires Starts(AttributeName, u)
    ensures IsAttributeName(name) && u == Put(name, AfterRun(AttributeName, u))
  {
    name := RunPrinted(AttributeName, u);
    assert AllIn(AttributeName, name);
  }

  lemma BlankPrinted(t: Text) returns (spaces: string)
    ensures IsBlank(spaces) && t == Put(spaces, AfterRun(Space, t))
  {
    spaces := RunPrinted(Space, t);
    assert AllIn(Space, spaces);
  }

  /** One step read is one attribute, and for a name alone the white space after it. */
  lemma AttributePrinted(u: Text, w: Text) returns (a: Attribute, gap: string)
    requires AttributeStep(u) == Next(w) && !Starts(Space, u) && w.More?
    ensures ProperAttribute(a) && IsBlank(gap) && u == Put(PrintAttribute(a), Put(gap, w))
    ensures var next := Put(gap, w); next.More? && EndsBefore(a, next.head)
  {
    gap := "";
    if u.head == '{' {
      var inside, rest := BracedPrinted(u.rest, 1);
      a := Spread(inside);
      PutOne('{', PrintBraced(inside), w);
    } else {
      var name := NamePrinted(u);
      var v := AfterRun(AttributeName, u);
      var before := BlankPrinted(v);
      var x := AfterRun(Space, v);
      if x.More? && x.head == '=' {
        var after := BlankPrinted(x.rest);
        var value := ValuePrinted(AfterRun(Space, x.rest), w);
        a := Given(name, before, after, value);
        PutGiven(a, w);
      } else {
        a, gap := Bare(name), before;
      }
    }
  }

  lemma GapJoins(gap: string, items: Items, r: Text) returns (joined: Items)
    requires IsBlank(gap) && ProperItems(items)
    ensures ProperItems(joined) && Put(PrintItems(joined), r) == Put(gap, Put(PrintItems(items), r))
  {
    joined := items.(spaces := gap + items.spaces);
    var printed := if items.Item? then PrintAttribute(items.attribute) + PrintItems(items.more) else if items.slash then "/>" else ">";
    assert PrintItems(items) == items.spaces + printed;
    assert PrintItems(joined) == gap + (items.spaces + printed);
    PutBoth(gap, items.spaces + printed, r);
  }

  lemma {:induction false} ItemsPrinted(t: Text, r: Text) returns (items: Items)
    requires Attributes(t) == Some(r)
    ensures ProperItems(items) && t == Put(PrintItems(items), r)
    decreases Length(t)
  {
    var spaces := BlankPrinted(t);
    var u := AfterRun(Space, t);
    StepPastSpaces(t, u);
    if AttributeStep(t).Done? {
      items := EndOfTag(spaces, u.head == '/');
      PutEnd(items, r);
    } else {
      var w := AttributeStep(t).left;
      var rest := ItemsPrinted(w, r);
      var a, gap := AttributePrinted(u, w);
      var more := GapJoins(gap, rest, r);
      ItemsStart(more, r);
      items := Item(spaces, a, more);
      PutItem(items, r);
    }
  }

  // ------------------------------------------------------------------------------------------
  // Tags
  // ------------------------------------------------------------------------------------------

  /** An opening tag, a self-closing one where its items end in a slash, or a closing tag. */
  datatype TagShape = OpenTag(name: string, items: Items) | CloseTag(name: string, spaces: string)

  /** A name of letters and digits that starts with a capital, or `img`. */
  predicate IsComponentName(s: string) {
    s == "img" || (s != "" && 'A' <= s[0] <= 'Z' && forall i :: 0 <= i < |s| ==> IsAlphaNumeric(s[i]))
  }

  predicate ProperTag(tag: TagShape) {
    && IsComponentName(tag.name)
    && match tag
       case OpenTag(_, items) => ProperItems(items) && !IsAlphaNumeric(FirstOf(items))
       case CloseTag(_, spaces) => IsBlank(spaces)
  }

  function PrintTag(tag: TagShape): string {
    match tag
    case OpenTag(name, items) => "<" + name + PrintItems(items)
    case CloseTag(name, spaces) => "</" + name + spaces + ">"
  }

  lemma PutOpen(name: string, items: string, r: Text)
    ensures Put("<" + name + items, r) == More('<', Put(name, Put(items, r)))
  {
    assert "<" + name + items == ['<'] + (name + items);
    PutOne('<', name + items, r);
    PutBoth(name, items, r);
  }

  lemma PutClose(name: string, spaces: string, r: Text)
    ensures Put("</" + name + spaces + ">", r) == More('<', More('/', Put(name, Put(spaces, More('>', r)))))
  {
    assert "</" + name + spaces + ">" == ['<', '/'] + (name + (spaces + ">"));
    PutTwo('<', '/', name + (spaces + ">"), r);
    PutBoth(name, spaces + ">", r);
    PutBoth(spaces, ">", r);
    PutLast('>', r);
  }

  lemma {:induction false} SpellsPut(name: string, word: string, t: Text)
    ensures Spells(Put(name, t), word, t) <==> name == word
    decreases |name|
  {
    PutLength(name, t);
    SpellsIsLonger(Put(name, t), word, t);
    if name != "" && word != "" {
      SpellsPut(name[1..], word[1..], t);
      assert name == [name[0]] + name[1..] && word == [word[0]] + word[1..];
    }
  }

  lemma ComponentNameRead(name: string, t: Text)
    requires AllIn(AlphaNumeric, name) && !Starts(AlphaNumeric, t)
    ensures AfterRun(AlphaNumeric, Put(name, t)) == t
    ensures IsPreservedName(Put(name, t)) <==> IsComponentName(name)
  {
    RunRead(AlphaNumeric, name, t);
    SpellsPut(name, "img", t);
    if name != "" { FirstPut(name, t); }
  }

  lemma ComponentNameIsAlphaNumeric(name: string)
    requires IsComponentName(name)
    ensures name != "" && AllIn(AlphaNumeric, name)
  {
  }

  lemma OpenTagRead(name: string, items: Items, r: Text)
    requires ProperTag(OpenTag(name, items))
    ensures Tag(Put(PrintTag(OpenTag(name, items)), r)) == Some(r)
  {
    var t := Put(PrintItems(items), r);
    PutOpen(name, PrintItems(items), r);
    ItemsStart(items, r);
    ItemsRead(items, r);
    ComponentNameIsAlphaNumeric(name);
    FirstPut(name, t);
    ComponentNameRead(name, t);
  }

  lemma CloseTagRead(name: string, spaces: string, r: Text)
    requires ProperTag(CloseTag(name, spaces))
    ensures Tag(Put(PrintTag(CloseTag(name, spaces)), r)) == Some(r)
  {
    var t := Put(spaces, More('>', r));
    PutClose(name, spaces, r);
    if spaces != "" { FirstPut(spaces, More('>', r)); }
    ComponentNameIsAlphaNumeric(name);
    ComponentNameRead(name, t);
    assert AllIn(Space, spaces);
    RunRead(Space, spaces, More('>', r));
  }

  lemma TagRead(tag: TagShape, r: Text)
    requires ProperTag(tag)
    ensures Tag(Put(PrintTag(tag), r)) == Some(r)
  {
    match tag
    case OpenTag(name, items) => OpenTagRead(name, items, r);
    case CloseTag(name, spaces) => CloseTagRead(name, spaces, r);
  }

  lemma TagPrinted(t: Text, r: Text) returns (tag: TagShape)
    requires Tag(t) == Some(r)
    ensures ProperTag(tag) && t == Put(PrintTag(tag), r)
  {
    var start := if t.rest.head == '/' then t.rest.rest else t.rest;
    var name := RunPrinted(AlphaNumeric, start);
    var u := AfterRun(AlphaNumeric, start);
    ComponentNameRead(name, u);
    if t.rest.head == '/' {
      var spaces := BlankPrinted(u);
      tag := CloseTag(name, spaces);
      PutClose(name, spaces, r);
    } else {
      var items := ItemsPrinted(u, r);
      ItemsStart(items, r);
      tag := OpenTag(name, items);
      PutOpen(name, PrintItems(items), r);
    }
  }

  /** The text is this tag, then `r`. */
  ghost predicate IsTag(tag: TagShape, t: Text, r: Text) {
    ProperTag(tag) && t == Put(PrintTag(tag), r)
  }

  /** A tag is read exactly where one is printed, and what is left is what follows it. */
  lemma {:induction false} TagIsPrinted(t: Text, r: Text)
    ensures Tag(t) == Some(r) <==> exists tag :: IsTag(tag, t, r)
  {
    if Tag(t) == Some(r) {
      var tag := TagPrinted(t, r);
      assert IsTag(tag, t, r);
    }
    if tag :| IsTag(tag, t, r) { TagRead(tag, r); }
  }

  // ------------------------------------------------------------------------------------------
  // The escaper copies printed constructs
  // ------------------------------------------------------------------------------------------

  datatype Construct = Pair(c: char) | Span(ticks: nat, body: SpanBody) | Break | Component(tag: TagShape)

  function PrintConstruct(c: Construct): string {
    match c
    case Pair(hidden) => ['\\', hidden]
    case Span(ticks, body) => TickRun(ticks) + PrintBody(body, ticks)
    case Break => "<br/>"
    case Component(tag) => PrintTag(tag)
  }

  /** The text is this construct, then `r`. */
  ghost predicate IsConstruct(c: Construct, t: Text, r: Text) {
    && t == Put(PrintConstruct(c), r)
    && match c
       case Pair(_) => true
       case Span(ticks, body) => IsSpan(ticks, body, t, r)
       case Break => true
       case Component(tag) => ProperTag(tag)
  }

  lemma {:induction false} BreakIsPrinted(t: Text, r: Text)
    ensures AfterBreak(t) == Some(r) <==> t == Put("<br/>", r)
  {
    assert "<br/>" == ['<', 'b'] + (['r', '/'] + [ '>' ]);
    PutTwo('<', 'b', ['r', '/'] + ['>'], r);
    PutTwo('r', '/', ['>'], r);
    PutLast('>', r);
  }

  lemma FirstOfConstruct(c: Construct, t: Text, r: Text)
    requires IsConstruct(c, t, r)
    ensures t.More? && t.head == match c case Pair(_) => '\\' case Span(_, _) => '`' case Break => '<' case Component(_) => '<'
  {
    FirstPut(PrintConstruct(c), r);
  }

  lemma VerbatimRead(c: Construct, t: Text, r: Text)
    requires IsConstruct(c, t, r)
    ensures AfterVerbatim(t) == Some(r)
  {
    FirstOfConstruct(c, t, r);
    match c
    case Pair(hidden) => PutLastTwo('\\', hidden, r);
    case Span(ticks, body) => SpanIsPrinted(t, r);
    case Break => BreakIsPrinted(t, r);
    case Component(tag) =>
      TagRead(tag, r);
      BreakIsNoTag(t);
  }

  lemma VerbatimPrinted(t: Text, r: Text) returns (c: Construct)
    requires AfterVerbatim(t) == Some(r)
    ensures IsConstruct(c, t, r)
  {
    if t.head == '\\' {
      c := Pair(t.rest.head);
      PutLastTwo('\\', t.rest.head, r);
    } else if t.head == '`' {
      SpanIsPrinted(t, r);
      var ticks, body :| IsSpan(ticks, body, t, r);
      c := Span(ticks, body);
    } else if AfterBreak(t).Some? {
      BreakIsPrinted(t, r);
      c := Break;
    } else {
      var tag := TagPrinted(t, r);
      c := Component(tag);
    }
  }

  /** What is copied whole is exactly what the grammar prints. */
  lemma {:induction false} VerbatimIsPrinted(t: Text, r: Text)
    ensures AfterVerbatim(t) == Some(r) <==> exists c :: IsConstruct(c, t, r)
  {
    if AfterVerbatim(t) == Some(r) {
      var c := VerbatimPrinted(t, r);
      assert IsConstruct(c, t, r);
    }
    if c :| IsConstruct(c, t, r) { VerbatimRead(c, t, r); }
  }

  /** A printed construct comes out as it is, and escaping goes on after it. */
  lemma ConstructIsCopied(c: Construct, t: Text, r: Text, at: nat, enclosed: set<nat>)
    requires IsConstruct(c, t, r) && !(t.head == '<' && at in enclosed)
    ensures Escaped(t, at, enclosed) == Put(PrintConstruct(c), Escaped(r, at + |PrintConstruct(c)|, enclosed))
  {
    VerbatimRead(c, t, r);
    VerbatimReads();
    CopiedBy(AfterVerbatim, PrintConstruct(c), r, at, enclosed);
  }

  /** Where no construct is printed, one character comes out: behind a backslash when it is `<` or `{`. */
  lemma OtherIsEscaped(t: Text, at: nat, enclosed: set<nat>)
    requires t.More? && forall c, r :: !IsConstruct(c, t, r)
    ensures var rest := Escaped(t.rest, at + 1, enclosed);
            Escaped(t, at, enclosed) == if (t.head == '<' && at !in enclosed) || t.head == '{' then More('\\', More(t.head, rest)) else More(t.head, rest)
  {
    forall r ensures AfterVerbatim(t) != Some(r) { VerbatimIsPrinted(t, r); }
    VerbatimReads();
  }

  /** A `<` that opens an enclosed link destination comes out as it is, whatever it starts. */
  lemma EnclosedIsCopied(t: Text, at: nat, enclosed: set<nat>)
    requires t.More? && t.head == '<' && at in enclosed
    ensures Escaped(t, at, enclosed) == More('<', Escaped(t.rest, at + 1, enclosed))
  {
    VerbatimReads();
  }

  // ------------------------------------------------------------------------------------------
  // One line of prose
  // ------------------------------------------------------------------------------------------

  lemma NoPlainRead()
    ensures ReadsNoPlain(AfterVerbatim)
  {
    forall t ensures NoPlain(AfterVerbatim, t) {}
  }

  /** A component between plain words stays a component. */
  lemma ComponentIsKept(before: string, tag: TagShape, after: string, at: nat)
    requires IsPlain(before) && ProperTag(tag) && IsPlain(after)
    ensures Escaped(From(before + PrintTag(tag) + after, 0), at, {}) == From(before + PrintTag(tag) + after, 0)
  {
    var r := Put(after, End);
    VerbatimReads();
    NoPlainRead();
    VerbatimRead(Component(tag), Put(PrintTag(tag), r), r);
    LineIsKept(AfterVerbatim, before, PrintTag(tag), after, at);
  }

  const SOURCE := Given("src", "", "", Quoted('"', "a.png"))
  const FIGURE := OpenTag("Figure", Item(" ", SOURCE, EndOfTag("", true)))

  lemma SourcePrints()
    ensures ProperAttribute(SOURCE) && PrintAttribute(SOURCE) == "src=\"a.png\""
  {
    assert PrintValue(SOURCE.value) == "\"a.png\"";
  }

  lemma ItemPrints(items: Items)
    requires items == FIGURE.items
    ensures PrintItems(items) == " src=\"a.png\"/>"
  {
    SourcePrints();
    assert PrintItems(items.more) == "/>";
  }

  lemma FigurePrints()
    ensures ProperTag(FIGURE) && PrintTag(FIGURE) == "<Figure src=\"a.png\"/>"
  {
    SourcePrints();
    ItemPrints(FIGURE.items);
  }

  /** A self-closing figure with a quoted source stays a figure. */
  lemma FigureIsKept(at: nat)
    ensures var line := "See " + "<Figure src=\"a.png\"/>" + " here"; Escaped(From(line, 0), at, {}) == From(line, 0)
  {
    FigurePrints();
    ComponentIsKept("See ", FIGURE, " here", at);
  }
}
