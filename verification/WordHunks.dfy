/**
 * Whole-token differences between two texts: tokens coded one per UTF-16 unit, diffed as strings,
 * and read back as hunks over the first text (packages/agent-edit/src/word-hunks.ts).
 */
module WordHunks {
  import opened Wrappers

  /** Replace `from` up to `to` of the first text with `text`. */
  datatype Hunk = Hunk(from: nat, to: nat, text: string)

  datatype DiffOp = Equal | Delete | Insert
  datatype Chunk = Chunk(op: DiffOp, codes: seq<nat>)

  // ------------------------------------------------------------------------------------------
  // Tokens and their codes
  // ------------------------------------------------------------------------------------------

  /** How long the first token of a text is: the three alternatives of the pattern cover every text. */
  ghost predicate Cuts(cut: string -> nat) {
    forall s :: s != "" ==> 0 < cut(s) <= |s|
  }

  function Tokens(s: string, cut: string -> nat): seq<string>
    requires Cuts(cut)
    decreases |s|
  {
    if s == "" then [] else [s[..cut(s)]] + Tokens(s[cut(s)..], cut)
  }

  function Text(tokens: seq<string>): string {
    if tokens == [] then "" else tokens[0] + Text(tokens[1..])
  }

  lemma {:induction false} TokensSpell(s: string, cut: string -> nat)
    requires Cuts(cut)
    ensures Text(Tokens(s, cut)) == s
    decreases |s|
  {
    if s != "" { TokensSpell(s[cut(s)..], cut); }
  }

  lemma {:induction false} TextOfBoth(a: seq<string>, b: seq<string>)
    ensures Text(a + b) == Text(a) + Text(b)
  {
    if a == [] {
      assert a + b == b;
    } else {
      assert (a + b)[1..] == a[1..] + b;
      TextOfBoth(a[1..], b);
    }
  }

  const SURROGATES: nat := 0xD800
  const AFTER_SURROGATES: nat := 0xE000
  const MAX_UNIT: nat := 0xFFFF
  const MAX_TOKENS: nat := MAX_UNIT - 0x800

  function CodeOf(index: nat): nat {
    if index < SURROGATES then index else index + 0x800
  }

  function TokenNumber(code: nat): int {
    if code < AFTER_SURROGATES then code else code - 0x800
  }

  /** Codes skip the surrogates, are never zero, fit one unit, and lead back to their index. */
  lemma CodesAreUnits(index: nat, other: nat)
    requires 1 <= index <= MAX_TOKENS
    ensures 1 <= CodeOf(index) <= MAX_UNIT && !(SURROGATES <= CodeOf(index) < AFTER_SURROGATES)
    ensures TokenNumber(CodeOf(index)) == index
    ensures CodeOf(index) == CodeOf(other) ==> index == other
    ensures CodeOf(MAX_TOKENS + 1) > MAX_UNIT
  {
  }

  datatype Dictionary = Dictionary(tokens: seq<string>, codes: map<string, nat>)

  ghost predicate Distinct(tokens: seq<string>) {
    forall i, k :: 0 <= i < k < |tokens| ==> tokens[i] != tokens[k]
  }

  ghost predicate Valid(d: Dictionary) {
    && Distinct(d.tokens) && |d.tokens| <= MAX_TOKENS
    && (forall token :: token in d.codes <==> token in d.tokens)
    && forall i :: 0 <= i < |d.tokens| ==> d.codes[d.tokens[i]] == CodeOf(i + 1)
  }

  predicate Known(d: Dictionary, code: nat) {
    1 <= TokenNumber(code) <= |d.tokens|
  }

  function TokenOf(d: Dictionary, code: nat): string
    requires Known(d, code)
  {
    d.tokens[TokenNumber(code) - 1]
  }

  ghost predicate AllKnown(d: Dictionary, codes: seq<nat>) {
    forall i :: 0 <= i < |codes| ==> Known(d, codes[i])
  }

  function TokensOf(d: Dictionary, codes: seq<nat>): (tokens: seq<string>)
    requires AllKnown(d, codes)
    ensures |tokens| == |codes| && forall i :: 0 <= i < |codes| ==> tokens[i] == TokenOf(d, codes[i])
  {
    seq(|codes|, i requires 0 <= i < |codes| => TokenOf(d, codes[i]))
  }

  function Decode(d: Dictionary, codes: seq<nat>): string
    requires AllKnown(d, codes)
  {
    Text(TokensOf(d, codes))
  }

  lemma DecodeOfBoth(d: Dictionary, a: seq<nat>, b: seq<nat>)
    requires AllKnown(d, a + b)
    ensures AllKnown(d, a) && AllKnown(d, b) && Decode(d, a + b) == Decode(d, a) + Decode(d, b)
  {
    assert forall i :: 0 <= i < |a| ==> (a + b)[i] == a[i];
    assert forall i :: 0 <= i < |b| ==> (a + b)[|a| + i] == b[i];
    assert TokensOf(d, a + b) == TokensOf(d, a) + TokensOf(d, b);
    TextOfBoth(TokensOf(d, a), TokensOf(d, b));
  }

  datatype EncodeError = TooManyTokens

  function TokenSet(tokens: seq<string>): set<string> {
    set i | 0 <= i < |tokens| :: tokens[i]
  }

  lemma {:induction false} DistinctCount(tokens: seq<string>)
    requires Distinct(tokens)
    ensures |TokenSet(tokens)| == |tokens|
  {
    if tokens != [] {
      var n := |tokens| - 1;
      DistinctCount(tokens[..n]);
      assert TokenSet(tokens) == TokenSet(tokens[..n]) + {tokens[n]};
      assert tokens[n] !in TokenSet(tokens[..n]);
    }
  }

  lemma SubsetCount(a: set<string>, b: set<string>)
    requires a <= b
    ensures |a| <= |b|
  {
    assert b == a + (b - a);
  }

  /** The dictionary grew at its end, so a code keeps its meaning. */
  ghost predicate Grows(was: Dictionary, now: Dictionary) {
    |was.tokens| <= |now.tokens| && forall i :: 0 <= i < |was.tokens| ==> now.tokens[i] == was.tokens[i]
  }

  ghost predicate Codes(d: Dictionary, codes: seq<nat>, tokens: seq<string>) {
    |codes| == |tokens| && forall i :: 0 <= i < |codes| ==> Known(d, codes[i]) && TokenOf(d, codes[i]) == tokens[i]
  }

  lemma CodesGrow(was: Dictionary, now: Dictionary, codes: seq<nat>, tokens: seq<string>)
    requires Grows(was, now) && Codes(was, codes, tokens)
    ensures Codes(now, codes, tokens)
  {
  }

  function WithToken(d: Dictionary, token: string): Dictionary {
    Dictionary(d.tokens + [token], d.codes[token := CodeOf(|d.tokens| + 1)])
  }

  lemma TokenAdded(d: Dictionary, token: string)
    requires Valid(d) && token !in d.tokens && |d.tokens| < MAX_TOKENS
    ensures Valid(WithToken(d, token)) && Grows(d, WithToken(d, token))
    ensures TokenSet(WithToken(d, token).tokens) == TokenSet(d.tokens) + {token}
  {
    var now := WithToken(d, token);
    assert now.tokens[|d.tokens|] == token;
    assert forall i :: 0 <= i < |d.tokens| ==> now.tokens[i] == d.tokens[i] && d.tokens[i] != token;
  }

  lemma CodeIsKnown(d: Dictionary, token: string)
    requires Valid(d) && token in d.tokens
    ensures token in d.codes && Known(d, d.codes[token]) && TokenOf(d, d.codes[token]) == token
  {
    var i :| 0 <= i < |d.tokens| && d.tokens[i] == token;
    CodesAreUnits(i + 1, i + 1);
  }

  /** The code of one token, a new one where it has none; refused when no unit is left. */
  method EncodeToken(token: string, d0: Dictionary) returns (r: Result<nat, EncodeError>, d: Dictionary)
    requires Valid(d0)
    ensures Valid(d) && Grows(d0, d)
    ensures r.Ok? ==> Known(d, r.value) && TokenOf(d, r.value) == token && TokenSet(d.tokens) == TokenSet(d0.tokens) + {token}
    ensures r.Err? ==> d == d0 && token !in d0.tokens && |d0.tokens| == MAX_TOKENS
  {
    d := d0;
    if token !in d.codes {
      if CodeOf(|d.tokens| + 1) > MAX_UNIT { return Err(TooManyTokens), d; }
      TokenAdded(d, token);
      d := Dictionary(d.tokens + [token], d.codes[token := CodeOf(|d.tokens| + 1)]);
    } else {
      assert TokenSet(d.tokens) == TokenSet(d.tokens) + {token};
    }
    assert token in d.tokens;
    CodeIsKnown(d, token);
    r := Ok(d.codes[token]);
  }

  lemma TooMany(d: Dictionary, token: string, all: set<string>)
    requires Valid(d) && |d.tokens| == MAX_TOKENS && token !in d.tokens && TokenSet(d.tokens) + {token} <= all
    ensures |all| > MAX_TOKENS
  {
    DistinctCount(d.tokens);
    assert token !in TokenSet(d.tokens);
    SubsetCount(TokenSet(d.tokens) + {token}, all);
  }

  lemma TokenSetGrows(tokens: seq<string>, i: nat)
    requires i < |tokens|
    ensures TokenSet(tokens[..i + 1]) == TokenSet(tokens[..i]) + {tokens[i]} && TokenSet(tokens[..i + 1]) <= TokenSet(tokens)
  {
    assert tokens[..i + 1] == tokens[..i] + [tokens[i]];
    assert forall k :: 0 <= k < i ==> tokens[..i][k] == tokens[k] && tokens[..i + 1][k] == tokens[k];
    assert tokens[..i + 1][i] == tokens[i];
  }

  lemma TokenCoded(d: Dictionary, codes: seq<nat>, code: nat, tokens: seq<string>, i: nat)
    requires i < |tokens| && Codes(d, codes, tokens[..i]) && Known(d, code) && TokenOf(d, code) == tokens[i]
    ensures Codes(d, codes + [code], tokens[..i + 1])
  {
    assert tokens[..i + 1] == tokens[..i] + [tokens[i]];
  }

  lemma GrowsOn(a: Dictionary, b: Dictionary, c: Dictionary)
    requires Grows(a, b) && Grows(b, c)
    ensures Grows(a, c)
  {
  }

  lemma Joined(was: set<string>, start: set<string>, front: set<string>, further: set<string>, token: string)
    requires was == start + front && further == front + {token}
    ensures was + {token} == start + further
  {
  }

  lemma Within(was: set<string>, start: set<string>, front: set<string>, further: set<string>, token: string, whole: set<string>)
    requires was == start + front && further == front + {token} && further <= whole
    ensures was + {token} <= start + whole
  {
  }

  /** Codes a text token by token; refused exactly when the tokens outnumber the codes. */
  method EncodeTokens(tokens: seq<string>, d0: Dictionary) returns (r: Result<seq<nat>, EncodeError>, d: Dictionary)
    requires Valid(d0)
    ensures Valid(d) && Grows(d0, d)
    ensures r.Ok? ==> Codes(d, r.value, tokens) && TokenSet(d.tokens) == TokenSet(d0.tokens) + TokenSet(tokens)
    ensures r.Ok? <==> |TokenSet(d0.tokens) + TokenSet(tokens)| <= MAX_TOKENS
  {
    d := d0;
    var codes: seq<nat> := [];
    for i := 0 to |tokens|
      invariant Valid(d) && Grows(d0, d) && Codes(d, codes, tokens[..i])
      invariant TokenSet(d.tokens) == TokenSet(d0.tokens) + TokenSet(tokens[..i])
    {
      TokenSetGrows(tokens, i);
      var code, grown := EncodeToken(tokens[i], d);
      if code.Err? {
        Within(TokenSet(d.tokens), TokenSet(d0.tokens), TokenSet(tokens[..i]), TokenSet(tokens[..i + 1]), tokens[i], TokenSet(tokens));
        TooMany(d, tokens[i], TokenSet(d0.tokens) + TokenSet(tokens));
        return Err(TooManyTokens), d;
      }
      CodesGrow(d, grown, codes, tokens[..i]);
      TokenCoded(grown, codes, code.value, tokens, i);
      GrowsOn(d0, d, grown);
      Joined(TokenSet(d.tokens), TokenSet(d0.tokens), TokenSet(tokens[..i]), TokenSet(tokens[..i + 1]), tokens[i]);
      d, codes := grown, codes + [code.value];
    }
    assert tokens[..|tokens|] == tokens;
    DistinctCount(d.tokens);
    r := Ok(codes);
  }

  // ------------------------------------------------------------------------------------------
  // Hunks
  // ------------------------------------------------------------------------------------------

  /** The coded text the first `n` chunks start from: what they keep and what they delete. */
  function OldSide(chunks: seq<Chunk>, n: nat): seq<nat>
    requires n <= |chunks|
  {
    if n == 0 then [] else OldSide(chunks, n - 1) + if chunks[n - 1].op.Insert? then [] else chunks[n - 1].codes
  }

  function NewSide(chunks: seq<Chunk>, n: nat): seq<nat>
    requires n <= |chunks|
  {
    if n == 0 then [] else NewSide(chunks, n - 1) + if chunks[n - 1].op.Delete? then [] else chunks[n - 1].codes
  }

  /** All a diff is relied on for: its chunks spell the two texts. */
  ghost predicate Diffs(diff: (seq<nat>, seq<nat>) -> seq<Chunk>) {
    forall a, b :: OldSide(diff(a, b), |diff(a, b)|) == a && NewSide(diff(a, b), |diff(a, b)|) == b
  }

  /** In order, apart, and within the first `end` units. */
  ghost predicate InOrder(hunks: seq<Hunk>, end: nat) {
    && (forall i :: 0 <= i < |hunks| ==> hunks[i].from <= hunks[i].to <= end)
    && forall i, k :: 0 <= i < k < |hunks| ==> hunks[i].to <= hunks[k].from
  }

  /** The text from `from` up to `to`, nothing where there is no such piece. */
  function Piece(text: string, from: nat, to: nat): string {
    if from <= to <= |text| then text[from..to] else ""
  }

  /** The text up to `end` with the hunks applied, for hunks in order within it. */
  function Applied(before: string, hunks: seq<Hunk>, end: nat): string
    decreases |hunks|
  {
    if hunks == [] then Piece(before, 0, end)
    else
      var last := hunks[|hunks| - 1];
      Applied(before, hunks[..|hunks| - 1], last.from) + last.text + Piece(before, last.to, end)
  }

  lemma PieceFurther(text: string, from: nat, to: nat, further: nat)
    requires from <= to <= further <= |text|
    ensures Piece(text, from, further) == Piece(text, from, to) + text[to..further]
  {
  }

  lemma AppliedFurther(before: string, hunks: seq<Hunk>, end: nat, further: nat)
    requires end <= further <= |before| && InOrder(hunks, end)
    ensures InOrder(hunks, further) && Applied(before, hunks, further) == Applied(before, hunks, end) + before[end..further]
  {
    if hunks == [] {
      PieceFurther(before, 0, end, further);
    } else {
      var last := hunks[|hunks| - 1];
      PieceFurther(before, last.to, end, further);
      var front := Applied(before, hunks[..|hunks| - 1], last.from);
      assert (front + last.text) + (Piece(before, last.to, end) + before[end..further])
          == ((front + last.text) + Piece(before, last.to, end)) + before[end..further];
    }
  }

  function Pending(hunks: seq<Hunk>, current: Option<Hunk>): seq<Hunk> {
    if current.Some? then hunks + [current.value] else hunks
  }

  /** What the loop carries: the hunks closed, the one open, and how much of the first text is read. */
  datatype Reading = Reading(hunks: seq<Hunk>, current: Option<Hunk>, offset: nat)

  /** The loop's claim: the hunks so far, the open one with them, make the new text of what was read. */
  ghost predicate Reads(before: string, r: Reading, made: string) {
    && r.offset <= |before| && InOrder(Pending(r.hunks, r.current), r.offset)
    && (r.current.Some? ==> r.current.value.to == r.offset)
    && Applied(before, Pending(r.hunks, r.current), r.offset) == made
  }

  /** An edit opens a hunk where none is open. */
  function Opened(r: Reading): Hunk {
    if r.current.Some? then r.current.value else Hunk(r.offset, r.offset, "")
  }

  function Read(r: Reading, op: DiffOp, text: string): Reading {
    match op
    case Equal => Reading(Pending(r.hunks, r.current), None, r.offset + |text|)
    case Delete => Reading(r.hunks, Some(Opened(r).(to := Opened(r).to + |text|)), r.offset + |text|)
    case Insert => Reading(r.hunks, Some(Opened(r).(text := Opened(r).text + text)), r.offset)
  }

  lemma AppliedLast(before: string, hunks: seq<Hunk>, last: Hunk)
    requires InOrder(hunks + [last], last.to) && last.from <= last.to <= |before|
    ensures InOrder(hunks, last.from)
    ensures Applied(before, hunks + [last], last.to) == Applied(before, hunks, last.from) + last.text
  {
    var all := hunks + [last];
    assert all[..|hunks|] == hunks && all[|hunks|] == last;
    assert forall i :: 0 <= i < |hunks| ==> all[i] == hunks[i] && all[i].to <= all[|hunks|].from;
    assert Applied(before, hunks, last.from) + last.text + "" == Applied(before, hunks, last.from) + last.text;
  }

  lemma InOrderLast(hunks: seq<Hunk>, last: Hunk, end: nat)
    requires InOrder(hunks, last.from) && last.from <= last.to <= end
    ensures InOrder(hunks + [last], end)
  {
    var all := hunks + [last];
    assert forall i :: 0 <= i < |hunks| ==> all[i] == hunks[i];
  }

  /** What the closed hunks make of the text before `from`. */
  ghost predicate Leads(before: string, hunks: seq<Hunk>, from: nat, front: string) {
    from <= |before| && InOrder(hunks, from) && Applied(before, hunks, from) == front
  }

  /** The open hunk, or an empty one where none is open, changes nothing of what was made. */
  lemma OpenedReads(before: string, r: Reading, made: string) returns (front: string)
    requires Reads(before, r, made)
    ensures Opened(r).from <= Opened(r).to == r.offset
    ensures Leads(before, r.hunks, Opened(r).from, front) && made == front + Opened(r).text
  {
    if r.current.Some? {
      AppliedLast(before, r.hunks, r.current.value);
      front := Applied(before, r.hunks, r.current.value.from);
    } else {
      front := made;
      assert made + "" == made;
    }
  }

  lemma EditReads(before: string, now: Reading, open: Hunk, front: string, made: string)
    requires Leads(before, now.hunks, open.from, front) && open.from <= open.to <= |before|
    requires now.current == Some(open) && now.offset == open.to && made == front + open.text
    ensures Reads(before, now, made)
  {
    InOrderLast(now.hunks, open, open.to);
    AppliedLast(before, now.hunks, open);
  }

  lemma NoneOpen(before: string, hunks: seq<Hunk>, end: nat, made: string)
    requires end <= |before| && InOrder(hunks, end) && Applied(before, hunks, end) == made
    ensures Reads(before, Reading(hunks, None, end), made)
  {
  }

  lemma MadeFurther(before: string, hunks: seq<Hunk>, offset: nat, end: nat, made: string, text: string)
    requires offset <= end <= |before| && before[offset..end] == text && InOrder(hunks, offset) && Applied(before, hunks, offset) == made
    ensures InOrder(hunks, end) && Applied(before, hunks, end) == made + text
  {
    AppliedFurther(before, hunks, offset, end);
  }

  lemma KeptReads(before: string, r: Reading, made: string, text: string)
    requires Reads(before, r, made)
    requires Stands(before, r.offset, text)
    ensures Reads(before, Read(r, Equal, text), made + text)
  {
    var hunks, end := Pending(r.hunks, r.current), r.offset + |text|;
    MadeFurther(before, hunks, r.offset, end, made, text);
    NoneOpen(before, hunks, end, made + text);
  }

  lemma DeletedReads(before: string, r: Reading, made: string, text: string)
    requires Reads(before, r, made) && r.offset + |text| <= |before|
    ensures Reads(before, Read(r, Delete, text), made)
  {
    var front := OpenedReads(before, r, made);
    var open := Opened(r);
    EditReads(before, Read(r, Delete, text), Hunk(open.from, open.to + |text|, open.text), front, made);
  }

  lemma InsertedReads(before: string, r: Reading, made: string, text: string)
    requires Reads(before, r, made)
    ensures Reads(before, Read(r, Insert, text), made + text)
  {
    var front := OpenedReads(before, r, made);
    var open := Opened(r);
    Regroup(front, open.text, text);
    EditReads(before, Read(r, Insert, text), Hunk(open.from, open.to, open.text + text), front, made + text);
  }

  lemma Regroup(a: string, b: string, c: string)
    ensures a + (b + c) == a + b + c
  {
  }

  /** Each chunk adds its part of the new text. */
  lemma ReadKeeps(before: string, r: Reading, made: string, op: DiffOp, text: string)
    requires Reads(before, r, made)
    requires !op.Insert? ==> Stands(before, r.offset, text)
    ensures Reads(before, Read(r, op, text), if op.Delete? then made else made + text)
  {
    match op
    case Equal => KeptReads(before, r, made, text);
    case Delete => DeletedReads(before, r, made, text);
    case Insert => InsertedReads(before, r, made, text);
  }

  // ------------------------------------------------------------------------------------------
  // Chunks and the texts they spell
  // ------------------------------------------------------------------------------------------

  /** A chunk read back: what it does, and the text it does it with. */
  datatype Part = Part(op: DiffOp, text: string)

  ghost predicate ChunksKnown(d: Dictionary, chunks: seq<Chunk>) {
    forall i :: 0 <= i < |chunks| ==> AllKnown(d, chunks[i].codes)
  }

  ghost function PartsOf(d: Dictionary, chunks: seq<Chunk>): (parts: seq<Part>)
    requires ChunksKnown(d, chunks)
    ensures |parts| == |chunks|
  {
    seq(|chunks|, i requires 0 <= i < |chunks| => Part(chunks[i].op, Decode(d, chunks[i].codes)))
  }

  /** The text the first `n` parts start from: what they keep and what they delete. */
  ghost function OldText(parts: seq<Part>, n: nat): string
    requires n <= |parts|
  {
    if n == 0 then "" else OldText(parts, n - 1) + if parts[n - 1].op.Insert? then "" else parts[n - 1].text
  }

  ghost function NewText(parts: seq<Part>, n: nat): string
    requires n <= |parts|
  {
    if n == 0 then "" else NewText(parts, n - 1) + if parts[n - 1].op.Delete? then "" else parts[n - 1].text
  }

  lemma KnownParts(d: Dictionary, a: seq<nat>, b: seq<nat>)
    requires AllKnown(d, a + b)
    ensures AllKnown(d, a) && AllKnown(d, b)
  {
    assert forall i :: 0 <= i < |a| ==> (a + b)[i] == a[i];
    assert forall i :: 0 <= i < |b| ==> (a + b)[|a| + i] == b[i];
  }

  /** Every chunk before `n` is made of codes of one side or the other. */
  lemma {:induction false} SidesAreKnown(d: Dictionary, chunks: seq<Chunk>, n: nat, i: nat)
    requires i < n <= |chunks| && AllKnown(d, OldSide(chunks, n)) && AllKnown(d, NewSide(chunks, n))
    ensures AllKnown(d, chunks[i].codes)
  {
    var last := chunks[n - 1];
    KnownParts(d, OldSide(chunks, n - 1), if last.op.Insert? then [] else last.codes);
    KnownParts(d, NewSide(chunks, n - 1), if last.op.Delete? then [] else last.codes);
    if i < n - 1 { SidesAreKnown(d, chunks, n - 1, i); }
  }

  /** The parts spell what the two sides of the chunks decode to. */
  lemma {:induction false} PartsSpellSides(d: Dictionary, chunks: seq<Chunk>, n: nat)
    requires n <= |chunks| && ChunksKnown(d, chunks)
    ensures AllKnown(d, OldSide(chunks, n)) && Decode(d, OldSide(chunks, n)) == OldText(PartsOf(d, chunks), n)
    ensures AllKnown(d, NewSide(chunks, n)) && Decode(d, NewSide(chunks, n)) == NewText(PartsOf(d, chunks), n)
  {
    if n > 0 {
      PartsSpellSides(d, chunks, n - 1);
      var last := chunks[n - 1];
      assert Decode(d, []) == "";
      DecodeOfBoth(d, OldSide(chunks, n - 1), if last.op.Insert? then [] else last.codes);
      DecodeOfBoth(d, NewSide(chunks, n - 1), if last.op.Delete? then [] else last.codes);
    }
  }

  // ------------------------------------------------------------------------------------------
  // Reading the parts
  // ------------------------------------------------------------------------------------------

  lemma {:induction false} OldTextStarts(parts: seq<Part>, i: nat, n: nat)
    requires i <= n <= |parts|
    ensures OldText(parts, i) <= OldText(parts, n)
  {
    if i < n { OldTextStarts(parts, i, n - 1); }
  }

  /** A piece of a text, where the text before it says. */
  ghost predicate Stands(before: string, offset: nat, text: string) {
    offset + |text| <= |before| && before[offset..offset + |text|] == text
  }

  lemma MiddleStands(a: string, text: string, all: string)
    requires a + text <= all
    ensures Stands(all, |a|, text)
  {
    assert all[..|a + text|][|a|..] == text;
  }

  /** A part that keeps or deletes has its text in the first one, where the parts before it end. */
  lemma OldStands(parts: seq<Part>, i: nat)
    requires i < |parts| && !parts[i].op.Insert?
    ensures Stands(OldText(parts, |parts|), |OldText(parts, i)|, parts[i].text)
  {
    OldTextStarts(parts, i + 1, |parts|);
    MiddleStands(OldText(parts, i), parts[i].text, OldText(parts, |parts|));
  }

  ghost predicate ReadsTo(parts: seq<Part>, n: nat, r: Reading) {
    n <= |parts| && r.offset == |OldText(parts, n)| && Reads(OldText(parts, |parts|), r, NewText(parts, n))
  }

  ghost predicate Follows(was: Reading, part: Part, now: Reading) {
    now == Read(was, part.op, part.text)
  }

  /** Each part read keeps the loop's claim. */
  lemma PartReads(parts: seq<Part>, i: nat, r: Reading, now: Reading)
    requires i < |parts| && ReadsTo(parts, i, r) && Follows(r, parts[i], now)
    ensures ReadsTo(parts, i + 1, now)
  {
    if !parts[i].op.Insert? { OldStands(parts, i); }
    ReadKeeps(OldText(parts, |parts|), r, NewText(parts, i), parts[i].op, parts[i].text);
  }

  /** What the loop has carried, before each part and after the last. */
  ghost predicate Trace(parts: seq<Part>, carried: seq<Reading>) {
    && 0 < |carried| <= |parts| + 1 && carried[0] == Reading([], None, 0)
    && forall i :: 0 <= i < |carried| - 1 ==> Follows(carried[i], parts[i], carried[i + 1])
  }

  lemma TraceGrows(parts: seq<Part>, carried: seq<Reading>, now: Reading)
    requires Trace(parts, carried) && |carried| <= |parts| && Follows(carried[|carried| - 1], parts[|carried| - 1], now)
    ensures Trace(parts, carried + [now])
  {
    var all := carried + [now];
    forall i | 0 <= i < |all| - 1 ensures Follows(all[i], parts[i], all[i + 1]) {
      if i + 1 < |carried| { assert Follows(carried[i], parts[i], carried[i + 1]); }
    }
  }

  lemma {:induction false} TraceReads(parts: seq<Part>, carried: seq<Reading>, n: nat)
    requires Trace(parts, carried) && n < |carried|
    ensures ReadsTo(parts, n, carried[n])
  {
    if n > 0 {
      TraceReads(parts, carried, n - 1);
      assert Follows(carried[n - 1], parts[n - 1], carried[n]);
      PartReads(parts, n - 1, carried[n - 1], carried[n]);
    }
  }

  ghost predicate Rebuilds(hunks: seq<Hunk>, before: string, after: string) {
    InOrder(hunks, |before|) && Applied(before, hunks, |before|) == after
  }

  // ------------------------------------------------------------------------------------------
  // Hunks as runs of edits
  // ------------------------------------------------------------------------------------------

  /** The parts from `first` up to, not including, `end`. */
  datatype Run = Run(first: nat, end: nat)

  /** Edits only, between kept parts or the ends of the first `n`. */
  ghost predicate IsRun(parts: seq<Part>, n: nat, run: Run)
    requires n <= |parts|
  {
    && run.first < run.end <= n && (forall c :: run.first <= c < run.end ==> !parts[c].op.Equal?)
    && (run.first > 0 ==> parts[run.first - 1].op.Equal?) && (run.end < n ==> parts[run.end].op.Equal?)
  }

  ghost predicate InSome(runs: seq<Run>, c: nat) {
    exists i :: 0 <= i < |runs| && runs[i].first <= c < runs[i].end
  }

  /** Every run of edits among the first `n` parts, in order. */
  ghost predicate RunsIn(parts: seq<Part>, n: nat, runs: seq<Run>)
    requires n <= |parts|
  {
    && (forall i :: 0 <= i < |runs| ==> IsRun(parts, n, runs[i]))
    && (forall i, k :: 0 <= i < k < |runs| ==> runs[i].end < runs[k].first)
    && forall c: nat :: c < n && !parts[c].op.Equal? ==> InSome(runs, c)
  }

  /** The texts of the parts of one kind, from `from` up to `to`. */
  ghost function TextIn(parts: seq<Part>, op: DiffOp, from: nat, to: nat): string
    requires from <= to <= |parts|
  {
    if from == to then "" else TextIn(parts, op, from, to - 1) + if parts[to - 1].op == op then parts[to - 1].text else ""
  }

  /** The hunk replaces what the run deletes, where it stands, with what the run inserts. */
  ghost predicate HunkFits(parts: seq<Part>, run: Run, hunk: Hunk) {
    && run.first <= run.end <= |parts|
    && hunk.from == |OldText(parts, run.first)|
    && hunk.to == hunk.from + |TextIn(parts, Delete, run.first, run.end)|
    && hunk.text == TextIn(parts, Insert, run.first, run.end)
  }

  ghost predicate HunksFit(parts: seq<Part>, runs: seq<Run>, hunks: seq<Hunk>) {
    |hunks| == |runs| && forall i :: 0 <= i < |runs| ==> HunkFits(parts, runs[i], hunks[i])
  }

  /** One hunk for each run of edits. */
  ghost predicate HunksOf(parts: seq<Part>, hunks: seq<Hunk>) {
    exists runs: seq<Run> :: RunsIn(parts, |parts|, runs) && HunksFit(parts, runs, hunks)
  }

  lemma EqualKeepsRuns(parts: seq<Part>, n: nat, runs: seq<Run>)
    requires n < |parts| && RunsIn(parts, n, runs) && parts[n].op.Equal?
    ensures RunsIn(parts, n + 1, runs)
  {
    forall i | 0 <= i < |runs| ensures IsRun(parts, n + 1, runs[i]) { assert IsRun(parts, n, runs[i]); }
  }

  lemma InSomeMore(runs: seq<Run>, run: Run, c: nat)
    ensures InSome(runs + [run], c) <==> InSome(runs, c) || run.first <= c < run.end
  {
    var all := runs + [run];
    assert all[|runs|] == run;
    if i :| 0 <= i < |runs| && runs[i].first <= c < runs[i].end { assert all[i] == runs[i]; }
  }

  lemma EditOpensRun(parts: seq<Part>, n: nat, runs: seq<Run>)
    requires n < |parts| && RunsIn(parts, n, runs) && !parts[n].op.Equal? && (n > 0 ==> parts[n - 1].op.Equal?)
    ensures RunsIn(parts, n + 1, runs + [Run(n, n + 1)])
  {
    var all := runs + [Run(n, n + 1)];
    assert all[|runs|] == Run(n, n + 1);
    forall i: nat | i < |runs| ensures all[i] == runs[i] && IsRun(parts, n, runs[i]) && runs[i].end != n {
      assert IsRun(parts, n, runs[i]);
    }
    forall c: nat | c < n + 1 && !parts[c].op.Equal? ensures InSome(all, c) { InSomeMore(runs, Run(n, n + 1), c); }
  }

  /** The run that reaches the last part read is the last one. */
  lemma LastRun(parts: seq<Part>, n: nat, runs: seq<Run>)
    requires 0 < n <= |parts| && RunsIn(parts, n, runs) && !parts[n - 1].op.Equal?
    ensures runs != [] && runs[|runs| - 1].end == n
  {
    var i :| 0 <= i < |runs| && runs[i].first <= n - 1 < runs[i].end;
    assert IsRun(parts, n, runs[i]);
    assert IsRun(parts, n, runs[|runs| - 1]);
  }

  lemma RunExtends(parts: seq<Part>, n: nat, run: Run)
    requires n < |parts| && IsRun(parts, n, run) && run.end == n && !parts[n].op.Equal?
    ensures IsRun(parts, n + 1, Run(run.first, n + 1))
  {
  }

  lemma EditExtendsRun(parts: seq<Part>, n: nat, runs: seq<Run>, last: Run)
    requires n < |parts| && RunsIn(parts, n, runs + [last]) && !parts[n].op.Equal? && last.end == n
    ensures RunsIn(parts, n + 1, runs + [Run(last.first, n + 1)])
  {
    var was, all := runs + [last], runs + [Run(last.first, n + 1)];
    assert was[|runs|] == last && all[|runs|] == Run(last.first, n + 1);
    assert IsRun(parts, n, was[|runs|]);
    RunExtends(parts, n, last);
    forall i: nat | i < |runs| ensures all[i] == was[i] && IsRun(parts, n + 1, all[i]) && all[i].end < last.first {
      assert IsRun(parts, n, was[i]) && was[i].end < was[|runs|].first;
    }
    forall c: nat | c < n + 1 && !parts[c].op.Equal? ensures InSome(all, c) {
      InSomeMore(runs, last, c);
      InSomeMore(runs, Run(last.first, n + 1), c);
    }
  }

  lemma OneFitsMore(parts: seq<Part>, runs: seq<Run>, hunks: seq<Hunk>, run: Run, hunk: Hunk)
    requires HunksFit(parts, runs, hunks) && HunkFits(parts, run, hunk)
    ensures HunksFit(parts, runs + [run], hunks + [hunk])
  {
  }

  lemma LastFits(parts: seq<Part>, runs: seq<Run>, hunks: seq<Hunk>, hunk: Hunk)
    requires HunksFit(parts, runs, hunks + [hunk])
    ensures runs != [] && HunkFits(parts, runs[|runs| - 1], hunk) && HunksFit(parts, runs[..|runs| - 1], hunks)
  {
    var all := hunks + [hunk];
    assert all[|hunks|] == hunk;
    forall i | 0 <= i < |hunks| ensures HunkFits(parts, runs[i], hunks[i]) { assert all[i] == hunks[i] && HunkFits(parts, runs[i], all[i]); }
  }

  /** What a stretch of edits deletes is all it takes from the first text. */
  lemma {:induction false} EditsTakeDeletes(parts: seq<Part>, from: nat, to: nat)
    requires from <= to <= |parts| && forall c :: from <= c < to ==> !parts[c].op.Equal?
    ensures OldText(parts, to) == OldText(parts, from) + TextIn(parts, Delete, from, to)
  {
    if from < to { EditsTakeDeletes(parts, from, to - 1); }
  }

  /** The runs met so far, and the hunks they made: the last one open while its run goes on. */
  ghost predicate RunsRead(parts: seq<Part>, n: nat, runs: seq<Run>, r: Reading)
    requires n <= |parts|
  {
    && RunsIn(parts, n, runs) && HunksFit(parts, runs, Pending(r.hunks, r.current))
    && (r.current.Some? <==> n > 0 && !parts[n - 1].op.Equal?)
  }

  lemma KeptRead(parts: seq<Part>, n: nat, runs: seq<Run>, r: Reading, now: Reading)
    requires n < |parts| && RunsRead(parts, n, runs, r) && Follows(r, parts[n], now) && parts[n].op.Equal?
    ensures RunsRead(parts, n + 1, runs, now)
  {
    EqualKeepsRuns(parts, n, runs);
  }

  lemma EditRead(parts: seq<Part>, n: nat, run: Run, open: Hunk, now: Hunk)
    requires n < |parts| && HunkFits(parts, run, open) && run.end == n && open.to == |OldText(parts, n)|
    requires match parts[n].op case Equal => false case Delete => now == open.(to := open.to + |parts[n].text|) case Insert => now == open.(text := open.text + parts[n].text)
    ensures HunkFits(parts, Run(run.first, n + 1), now)
  {
  }

  lemma FirstEditRead(parts: seq<Part>, n: nat, runs: seq<Run>, r: Reading, now: Reading)
    requires n < |parts| && RunsRead(parts, n, runs, r) && r.offset == |OldText(parts, n)|
    requires Follows(r, parts[n], now) && !parts[n].op.Equal? && r.current.None?
    ensures RunsRead(parts, n + 1, runs + [Run(n, n + 1)], now)
  {
    EditOpensRun(parts, n, runs);
    EditRead(parts, n, Run(n, n), Opened(r), now.current.value);
    OneFitsMore(parts, runs, r.hunks, Run(n, n + 1), now.current.value);
  }

  lemma NextEditRead(parts: seq<Part>, n: nat, runs: seq<Run>, r: Reading, now: Reading) returns (more: seq<Run>)
    requires n < |parts| && RunsRead(parts, n, runs, r) && r.current.Some? && r.current.value.to == |OldText(parts, n)|
    requires Follows(r, parts[n], now) && !parts[n].op.Equal?
    ensures RunsRead(parts, n + 1, more, now)
  {
    LastRun(parts, n, runs);
    LastFits(parts, runs, r.hunks, r.current.value);
    var front, last := runs[..|runs| - 1], runs[|runs| - 1];
    assert runs == front + [last];
    EditExtendsRun(parts, n, front, last);
    EditRead(parts, n, last, r.current.value, now.current.value);
    OneFitsMore(parts, front, r.hunks, Run(last.first, n + 1), now.current.value);
    more := front + [Run(last.first, n + 1)];
  }

  lemma RunGoesOn(parts: seq<Part>, n: nat, was: seq<Run>, r: Reading, now: Reading) returns (runs: seq<Run>)
    requires n < |parts| && RunsRead(parts, n, was, r) && ReadsTo(parts, n, r) && Follows(r, parts[n], now)
    ensures RunsRead(parts, n + 1, runs, now)
  {
    if parts[n].op.Equal? {
      KeptRead(parts, n, was, r, now);
      runs := was;
    } else if r.current.None? {
      FirstEditRead(parts, n, was, r, now);
      runs := was + [Run(n, n + 1)];
    } else {
      runs := NextEditRead(parts, n, was, r, now);
    }
  }

  lemma {:induction false} TraceRuns(parts: seq<Part>, carried: seq<Reading>, n: nat) returns (runs: seq<Run>)
    requires Trace(parts, carried) && n < |carried|
    ensures RunsRead(parts, n, runs, carried[n])
  {
    if n == 0 {
      runs := [];
    } else {
      var was := TraceRuns(parts, carried, n - 1);
      TraceReads(parts, carried, n - 1);
      assert Follows(carried[n - 1], parts[n - 1], carried[n]);
      runs := RunGoesOn(parts, n - 1, was, carried[n - 1], carried[n]);
    }
  }

  /** Each hunk replaces exactly what its run deletes, and ends where the run leaves the first text. */
  lemma HunkReplacesDeletes(parts: seq<Part>, run: Run, hunk: Hunk)
    requires IsRun(parts, |parts|, run) && HunkFits(parts, run, hunk)
    ensures hunk.from <= hunk.to <= |OldText(parts, |parts|)| && hunk.to == |OldText(parts, run.end)|
    ensures OldText(parts, |parts|)[hunk.from..hunk.to] == TextIn(parts, Delete, run.first, run.end)
  {
    EditsTakeDeletes(parts, run.first, run.end);
    OldTextStarts(parts, run.end, |parts|);
    MiddleStands(OldText(parts, run.first), TextIn(parts, Delete, run.first, run.end), OldText(parts, |parts|));
  }

  /** The hunk stands before or after the piece from `from` up to `to`. */
  ghost predicate Outside(hunk: Hunk, from: nat, to: nat) {
    hunk.to <= from || to <= hunk.from
  }

  /** No hunk touches a kept part. */
  lemma KeptLiesOutside(parts: seq<Part>, hunks: seq<Hunk>, c: nat, i: nat)
    requires HunksOf(parts, hunks) && c < |parts| && parts[c].op.Equal? && i < |hunks|
    ensures Outside(hunks[i], |OldText(parts, c)|, |OldText(parts, c + 1)|)
  {
    var runs: seq<Run> :| RunsIn(parts, |parts|, runs) && HunksFit(parts, runs, hunks);
    var run := runs[i];
    assert IsRun(parts, |parts|, run) && HunkFits(parts, run, hunks[i]);
    HunkReplacesDeletes(parts, run, hunks[i]);
    if c < run.first { OldTextStarts(parts, c + 1, run.first); } else { OldTextStarts(parts, run.end, c); }
  }

  /** There are no hunks exactly when nothing was deleted or inserted. */
  lemma NoEditNoHunk(parts: seq<Part>, hunks: seq<Hunk>)
    requires HunksOf(parts, hunks)
    ensures hunks == [] <==> forall c :: 0 <= c < |parts| ==> parts[c].op.Equal?
  {
    var runs: seq<Run> :| RunsIn(parts, |parts|, runs) && HunksFit(parts, runs, hunks);
    if hunks != [] {
      assert IsRun(parts, |parts|, runs[0]) && !parts[runs[0].first].op.Equal?;
    }
  }

  const ONE_WORD: seq<Part> := [Part(Equal, "the "), Part(Delete, "cat"), Part(Insert, "dog"), Part(Equal, " sat")]

  lemma OneRun(run: Run)
    requires IsRun(ONE_WORD, 4, run)
    ensures run == Run(1, 3)
  {
    assert !ONE_WORD[run.first].op.Equal? && !ONE_WORD[run.end - 1].op.Equal?;
  }

  lemma OneWordRuns(parts: seq<Part>, runs: seq<Run>)
    requires parts == ONE_WORD && RunsIn(parts, |parts|, runs)
    ensures runs == [Run(1, 3)]
  {
    assert !parts[1].op.Equal? && InSome(runs, 1);
    forall i | 0 <= i < |runs| ensures runs[i] == Run(1, 3) {
      assert IsRun(parts, |parts|, runs[i]);
      OneRun(runs[i]);
    }
    assert runs[0] == runs[|runs| - 1];
  }

  lemma OneWordTexts(parts: seq<Part>)
    requires parts == ONE_WORD
    ensures OldText(parts, 1) == "the " && TextIn(parts, Delete, 1, 3) == "cat" && TextIn(parts, Insert, 1, 3) == "dog"
  {
    assert OldText(parts, 0) == "";
    assert TextIn(parts, Insert, 1, 2) == "";
    assert TextIn(parts, Delete, 1, 2) == "cat";
  }

  lemma OneWordFound(parts: seq<Part>)
    requires parts == ONE_WORD
    ensures HunksOf(parts, [Hunk(4, 7, "dog")])
  {
    var runs := [Run(1, 3)];
    assert InSome(runs, 1) && InSome(runs, 2);
    assert IsRun(parts, |parts|, runs[0]) && RunsIn(parts, |parts|, runs);
    OneWordTexts(parts);
    assert HunkFits(parts, runs[0], Hunk(4, 7, "dog"));
  }

  lemma OneWordFits(parts: seq<Part>, hunk: Hunk)
    requires parts == ONE_WORD && HunkFits(parts, Run(1, 3), hunk)
    ensures hunk == Hunk(4, 7, "dog")
  {
    OneWordTexts(parts);
  }

  lemma OneWordOnly(parts: seq<Part>, hunks: seq<Hunk>)
    requires parts == ONE_WORD && HunksOf(parts, hunks)
    ensures hunks == [Hunk(4, 7, "dog")]
  {
    var runs: seq<Run> :| RunsIn(parts, |parts|, runs) && HunksFit(parts, runs, hunks);
    OneWordRuns(parts, runs);
    assert HunkFits(parts, runs[0], hunks[0]);
    OneWordFits(parts, hunks[0]);
  }

  /** One word replaced between kept text: one hunk, for that word alone. */
  lemma OneWordReplaced(parts: seq<Part>, hunks: seq<Hunk>)
    requires parts == ONE_WORD
    ensures HunksOf(parts, hunks) <==> hunks == [Hunk(4, 7, "dog")]
  {
    if HunksOf(parts, hunks) { OneWordOnly(parts, hunks); }
    OneWordFound(parts);
  }

  /** Reads the chunks into hunks: an equal chunk closes the open one. */
  method ReadChunks(d: Dictionary, chunks: seq<Chunk>) returns (hunks: seq<Hunk>)
    requires ChunksKnown(d, chunks)
    ensures var parts := PartsOf(d, chunks); Rebuilds(hunks, OldText(parts, |parts|), NewText(parts, |parts|))
    ensures HunksOf(PartsOf(d, chunks), hunks)
  {
    hunks := [];
    var offset: nat := 0;
    var current: Option<Hunk> := None;
    ghost var parts := PartsOf(d, chunks);
    ghost var carried := [Reading(hunks, current, offset)];
    for i := 0 to |chunks|
      invariant Trace(parts, carried) && |carried| == i + 1 && carried[i] == Reading(hunks, current, offset)
    {
      var text := Decode(d, chunks[i].codes);
      if chunks[i].op.Equal? {
        if current.Some? { hunks := hunks + [current.value]; }
        current := None;
        offset := offset + |text|;
      } else {
        var open := if current.Some? then current.value else Hunk(offset, offset, "");
        if chunks[i].op.Delete? {
          current := Some(open.(to := open.to + |text|));
          offset := offset + |text|;
        } else {
          current := Some(open.(text := open.text + text));
        }
      }
      TraceGrows(parts, carried, Reading(hunks, current, offset));
      carried := carried + [Reading(hunks, current, offset)];
    }
    TraceReads(parts, carried, |parts|);
    ghost var runs := TraceRuns(parts, carried, |parts|);
    if current.Some? { hunks := hunks + [current.value]; }
    assert RunsIn(parts, |parts|, runs) && HunksFit(parts, runs, hunks);
  }

  /** The hunks are the runs of edits in the diff of the two texts, coded token by token. */
  ghost predicate FromDiff(before: string, after: string, cut: string -> nat, diff: (seq<nat>, seq<nat>) -> seq<Chunk>, hunks: seq<Hunk>)
    requires Cuts(cut)
  {
    exists d: Dictionary, a: seq<nat>, b: seq<nat> :: Codes(d, a, Tokens(before, cut)) && Codes(d, b, Tokens(after, cut)) && Distinct(d.tokens)
      && ChunksKnown(d, diff(a, b)) && HunksOf(PartsOf(d, diff(a, b)), hunks)
  }

  /** Each token is what the tokenizer cuts off the rest of the text. */
  lemma {:induction false} TokensAreCut(s: string, cut: string -> nat, i: nat)
    requires Cuts(cut) && i < |Tokens(s, cut)|
    ensures var at := |Text(Tokens(s, cut)[..i])|;
            at < |s| && cut(s[at..]) <= |s[at..]| && Tokens(s, cut)[i] == s[at..][..cut(s[at..])]
    decreases |s|
  {
    var n := cut(s);
    var tokens, rest := Tokens(s, cut), Tokens(s[n..], cut);
    assert tokens == [s[..n]] + rest;
    if i == 0 {
      assert Text(tokens[..0]) == "" && s[0..] == s;
    } else {
      TokensAreCut(s[n..], cut, i - 1);
      assert tokens[..i] == [s[..n]] + rest[..i - 1];
      assert tokens[..i][1..] == rest[..i - 1];
      var at := |Text(rest[..i - 1])|;
      assert s[n..][at..] == s[n + at..];
    }
  }

  lemma DiffSpells(d: Dictionary, before: string, after: string, cut: string -> nat, a: seq<nat>, b: seq<nat>, chunks: seq<Chunk>)
    requires Cuts(cut) && Codes(d, a, Tokens(before, cut)) && Codes(d, b, Tokens(after, cut))
    requires OldSide(chunks, |chunks|) == a && NewSide(chunks, |chunks|) == b
    ensures ChunksKnown(d, chunks)
    ensures var parts := PartsOf(d, chunks); OldText(parts, |parts|) == before && NewText(parts, |parts|) == after
  {
    forall i | 0 <= i < |chunks| ensures AllKnown(d, chunks[i].codes) { SidesAreKnown(d, chunks, |chunks|, i); }
    PartsSpellSides(d, chunks, |chunks|);
    assert TokensOf(d, a) == Tokens(before, cut) && TokensOf(d, b) == Tokens(after, cut);
    TokensSpell(before, cut);
    TokensSpell(after, cut);
  }

  /**
   * The hunks of two texts are in order and apart, and applying them to the first gives the second.
   * It is refused exactly when the texts hold more distinct tokens than one unit can code.
   */
  method FindWordHunks(before: string, after: string, cut: string -> nat, diff: (seq<nat>, seq<nat>) -> seq<Chunk>)
    returns (r: Result<seq<Hunk>, EncodeError>)
    requires Cuts(cut) && Diffs(diff)
    ensures r.Ok? <==> |TokenSet(Tokens(before, cut)) + TokenSet(Tokens(after, cut))| <= MAX_TOKENS
    ensures r.Ok? ==> Rebuilds(r.value, before, after)
    ensures r.Ok? ==> FromDiff(before, after, cut, diff, r.value)
  {
    var start := Dictionary([], map[]);
    var a, first := EncodeTokens(Tokens(before, cut), start);
    assert TokenSet(start.tokens) == {};
    assert TokenSet(start.tokens) + TokenSet(Tokens(before, cut)) == TokenSet(Tokens(before, cut));
    if a.Err? {
      SubsetCount(TokenSet(Tokens(before, cut)), TokenSet(Tokens(before, cut)) + TokenSet(Tokens(after, cut)));
      return Err(TooManyTokens);
    }
    var b, d := EncodeTokens(Tokens(after, cut), first);
    assert TokenSet(first.tokens) == TokenSet(Tokens(before, cut));
    if b.Err? { return Err(TooManyTokens); }
    CodesGrow(first, d, a.value, Tokens(before, cut));
    var chunks := diff(a.value, b.value);
    DiffSpells(d, before, after, cut, a.value, b.value, chunks);
    var hunks := ReadChunks(d, chunks);
    r := Ok(hunks);
  }
}
