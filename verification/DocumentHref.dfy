/**
 * Markdown link hrefs: what an href written in a document names, and how a link to an address is
 * spelled (packages/contracts/src/document-href.ts, document-link.ts:190-194). Percent-encoding
 * follows section 2.1 of RFC 3986.
 */
module DocumentHref {
  import opened ContextUri
  import opened EscapeSyntax
  import opened Paths
  import opened Wrappers

  datatype Kind = Document | Folder
  datatype LinkAddress = LinkAddress(kind: Kind, uri: string)
  datatype Resolved = Resolved(kind: Kind, uri: string, suffix: string)

  // ------------------------------------------------------------------------------------------
  // Percent-encoding
  // ------------------------------------------------------------------------------------------

  function EncodeChar(c: char): string {
    if c == '%' then "%25" else if c == '#' then "%23" else if c == '?' then "%3F" else [c]
  }

  /** Only what would end or escape a path is encoded. */
  function Encode(s: string): string {
    if s == "" then "" else EncodeChar(s[0]) + Encode(s[1..])
  }

  function HexValue(c: char): Option<nat> {
    if '0' <= c <= '9' then Some((c as int - '0' as int) as nat)
    else if 'a' <= c <= 'f' then Some((c as int - 'a' as int + 10) as nat)
    else if 'A' <= c <= 'F' then Some((c as int - 'A' as int + 10) as nat)
    else None
  }

  /** The byte of an escape at the start of the text. */
  function ByteAt(s: string): Option<nat> {
    if |s| >= 3 && s[0] == '%' && HexValue(s[1]).Some? && HexValue(s[2]).Some? then
      Some(HexValue(s[1]).value * 16 + HexValue(s[2]).value)
    else None
  }

  function Continuation(s: string): Option<nat> {
    match ByteAt(s)
    case Some(b) => if 0x80 <= b < 0xC0 then Some(b - 0x80) else None
    case None => None
  }

  predicate IsScalar(n: int) { 0 <= n < 0xD800 || 0xE000 <= n < 0x11_0000 }

  /** How many escapes one UTF-8 sequence takes, by its first byte; none starts one otherwise. */
  function SequenceLength(b: nat): Option<nat> {
    if b < 0x80 then Some(1)
    else if 0xC2 <= b < 0xE0 then Some(2)
    else if 0xE0 <= b < 0xF0 then Some(3)
    else if 0xF0 <= b < 0xF5 then Some(4)
    else None
  }

  /** The character of the escaped sequence at the start, shortest form only. */
  function DecodedChar(s: string, b: nat, length: nat): Option<char>
    requires 1 <= length <= 4 && SequenceLength(b) == Some(length)
  {
    if length == 1 then Some(b as char)
    else if |s| < 3 * length then None
    else
      var c1 := Continuation(s[3..6]);
      if c1.None? then None
      else if length == 2 then Some(((b - 0xC0) * 64 + c1.value) as char)
      else
        var c2 := Continuation(s[6..9]);
        if c2.None? then None
        else if length == 3 then
          var n := (b - 0xE0) * 4096 + c1.value * 64 + c2.value;
          if n >= 0x800 && IsScalar(n) then Some(n as char) else None
        else
          var c3 := Continuation(s[9..12]);
          if c3.None? then None
          else
            var n := (b - 0xF0) * 262144 + c1.value * 4096 + c2.value * 64 + c3.value;
            if 0x1_0000 <= n < 0x11_0000 then Some(n as char) else None
  }

  /** The character escaped at the start of the text, and how much of it that takes. */
  function DecodeEscape(s: string): (r: Option<(char, nat)>)
    ensures r.Some? ==> 0 < r.value.1 <= |s|
  {
    match ByteAt(s)
    case None => None
    case Some(b) =>
      if SequenceLength(b).None? then None
      else
        var length := SequenceLength(b).value;
        match DecodedChar(s, b, length)
        case None => None
        case Some(c) => Some((c, 3 * length))
  }

  /** The bytes of a character in UTF-8, six bits to each after the first (section 3 of RFC 3629). */
  function Utf8(c: char): (bytes: seq<nat>)
    ensures |bytes| == if (c as nat) < 0x80 then 1 else if (c as nat) < 0x800 then 2 else if (c as nat) < 0x1_0000 then 3 else 4
  {
    var n := c as nat;
    if n < 0x80 then [n]
    else if n < 0x800 then [0xC0 + n / 64, 0x80 + n % 64]
    else if n < 0x1_0000 then [0xE0 + n / 64 / 64, 0x80 + n / 64 % 64, 0x80 + n % 64]
    else [0xF0 + n / 64 / 64 / 64, 0x80 + n / 64 / 64 % 64, 0x80 + n / 64 % 64, 0x80 + n % 64]
  }

  lemma LastSix(x: int, c: int, n: nat)
    requires 0 <= c < 64
    ensures n == x * 64 + c <==> x == n / 64 && c == n % 64
  {
  }

  lemma ThreeBytes(x: int, c1: int, c2: int, n: nat)
    requires 0 <= x && 0 <= c1 < 64 && 0 <= c2 < 64
    ensures n == x * 4096 + c1 * 64 + c2 <==> x == n / 64 / 64 && c1 == n / 64 % 64 && c2 == n % 64
  {
    LastSix(x * 64 + c1, c2, n);
    LastSix(x, c1, n / 64);
  }

  lemma FourBytes(x: int, c1: int, c2: int, c3: int, n: nat)
    requires 0 <= x && 0 <= c1 < 64 && 0 <= c2 < 64 && 0 <= c3 < 64
    ensures n == x * 262144 + c1 * 4096 + c2 * 64 + c3
            <==> x == n / 64 / 64 / 64 && c1 == n / 64 / 64 % 64 && c2 == n / 64 % 64 && c3 == n % 64
  {
    LastSix(x * 4096 + c1 * 64 + c2, c3, n);
    ThreeBytes(x, c1, c2, n / 64);
  }

  function ByteOf(s: string, k: nat): Option<nat>
    requires 3 * k + 3 <= |s|
  {
    ByteAt(s[3 * k..3 * k + 3])
  }

  /** The text starts with the escapes of these bytes, in either case of letter. */
  ghost predicate StartsWithBytes(s: string, bytes: seq<nat>) {
    3 * |bytes| <= |s| && forall k :: 0 <= k < |bytes| ==> ByteOf(s, k) == Some(bytes[k])
  }

  lemma FirstByte(s: string)
    ensures ByteAt(s).Some? ==> |s| >= 3
    ensures |s| >= 3 ==> ByteOf(s, 0) == ByteAt(s)
  {
  }

  /** Six bits at escape `k`: a byte from 0x80 on, below 0xC0. */
  lemma SixBits(s: string, k: nat, c: int)
    requires 3 * k + 3 <= |s|
    ensures 0 <= c < 64 ==> (ByteOf(s, k) == Some(0x80 + c) <==> Continuation(s[3 * k..3 * k + 3]) == Some(c))
    ensures Continuation(s[3 * k..3 * k + 3]).Some? ==> Continuation(s[3 * k..3 * k + 3]).value < 64
  {
  }

  lemma TwoEscapes(s: string, c: char)
    requires |s| >= 6 && ByteAt(s).Some? && SequenceLength(ByteAt(s).value) == Some(2)
    ensures DecodedChar(s, ByteAt(s).value, 2) == Some(c) <==> |Utf8(c)| == 2 && ByteAt(s) == Some(Utf8(c)[0]) && ByteOf(s, 1) == Some(Utf8(c)[1])
  {
    var b, n := ByteAt(s).value, c as nat;
    SixBits(s, 1, n % 64);
    var c1 := Continuation(s[3..6]);
    if c1.Some? { LastSix(b - 0xC0, c1.value, n); }
  }

  lemma ThreeEscapes(s: string, c: char)
    requires |s| >= 9 && ByteAt(s).Some? && SequenceLength(ByteAt(s).value) == Some(3)
    ensures DecodedChar(s, ByteAt(s).value, 3) == Some(c) <==>
            |Utf8(c)| == 3 && ByteAt(s) == Some(Utf8(c)[0]) && ByteOf(s, 1) == Some(Utf8(c)[1]) && ByteOf(s, 2) == Some(Utf8(c)[2])
  {
    var b, n := ByteAt(s).value, c as nat;
    SixBits(s, 1, n / 64 % 64);
    SixBits(s, 2, n % 64);
    var c1, c2 := Continuation(s[3..6]), Continuation(s[6..9]);
    if c1.Some? && c2.Some? { ThreeBytes(b - 0xE0, c1.value, c2.value, n); }
  }

  /** What four bytes come to: nothing unless three go on from the first and the number is a character that needs four. */
  lemma FourDecoded(s: string, b: nat, c: char)
    requires |s| >= 12 && SequenceLength(b) == Some(4)
    ensures var c1, c2, c3 := Continuation(s[3..6]), Continuation(s[6..9]), Continuation(s[9..12]);
            DecodedChar(s, b, 4) == Some(c) <==>
            && c1.Some? && c2.Some? && c3.Some? && 0x1_0000 <= c as nat
            && c as nat == (b - 0xF0) * 262144 + c1.value * 4096 + c2.value * 64 + c3.value
  {
  }

  lemma FourEscapes(s: string, c: char)
    requires |s| >= 12 && ByteAt(s).Some? && SequenceLength(ByteAt(s).value) == Some(4)
    ensures DecodedChar(s, ByteAt(s).value, 4) == Some(c) <==>
            && |Utf8(c)| == 4 && ByteAt(s) == Some(Utf8(c)[0])
            && ByteOf(s, 1) == Some(Utf8(c)[1]) && ByteOf(s, 2) == Some(Utf8(c)[2]) && ByteOf(s, 3) == Some(Utf8(c)[3])
  {
    var b, n := ByteAt(s).value, c as nat;
    SixBits(s, 1, n / 64 / 64 % 64);
    SixBits(s, 2, n / 64 % 64);
    SixBits(s, 3, n % 64);
    var c1, c2, c3 := Continuation(s[3..6]), Continuation(s[6..9]), Continuation(s[9..12]);
    FourDecoded(s, b, c);
    if c1.Some? && c2.Some? && c3.Some? { FourBytes(b - 0xF0, c1.value, c2.value, c3.value, n); }
  }

  /** The first byte says how many there are. */
  lemma FirstByteCounts(c: char)
    ensures SequenceLength(Utf8(c)[0]) == Some(|Utf8(c)|)
  {
  }

  lemma BytesInTurn(s: string, bytes: seq<nat>)
    requires 1 <= |bytes| <= 4
    ensures StartsWithBytes(s, bytes) <==>
            && 3 * |bytes| <= |s| && ByteOf(s, 0) == Some(bytes[0]) && (|bytes| > 1 ==> ByteOf(s, 1) == Some(bytes[1]))
            && (|bytes| > 2 ==> ByteOf(s, 2) == Some(bytes[2])) && (|bytes| > 3 ==> ByteOf(s, 3) == Some(bytes[3]))
  {
  }

  /** An escape is read exactly where a character's UTF-8 bytes are escaped, and as that character. */
  lemma EscapesAreUtf8(s: string, c: char, n: nat)
    ensures DecodeEscape(s) == Some((c, n)) <==> n == 3 * |Utf8(c)| && StartsWithBytes(s, Utf8(c))
  {
    FirstByte(s);
    FirstByteCounts(c);
    BytesInTurn(s, Utf8(c));
    if ByteAt(s).Some? {
      var length := SequenceLength(ByteAt(s).value);
      if length == Some(2) && |s| >= 6 { TwoEscapes(s, c); }
      if length == Some(3) && |s| >= 9 { ThreeEscapes(s, c); }
      if length == Some(4) && |s| >= 12 { FourEscapes(s, c); }
    }
  }

  /** `decodeURIComponent`; nothing where it throws. */
  function Decode(s: string): Option<string> {
    if s == "" then Some("")
    else
      match (if s[0] == '%' then DecodeEscape(s) else Some((s[0], 1)))
      case None => None
      case Some((c, n)) =>
        match Decode(s[n..])
        case None => None
        case Some(rest) => Some([c] + rest)
  }

  lemma EscapeOfChar(c: char, rest: string)
    requires c == '%' || c == '#' || c == '?'
    ensures DecodeEscape(EncodeChar(c) + rest) == Some((c, 3))
  {
    var s := EncodeChar(c) + rest;
    assert s[0] == '%' && (s[1] == '2' || s[1] == '3');
    assert ByteAt(s) == Some(c as nat);
  }

  lemma DecodeOfChar(c: char, rest: string)
    requires Decode(rest).Some?
    ensures Decode(EncodeChar(c) + rest) == Some([c] + Decode(rest).value)
  {
    var e := EncodeChar(c);
    assert (e + rest)[|e|..] == rest;
    if c == '%' || c == '#' || c == '?' { EscapeOfChar(c, rest); }
  }

  lemma {:induction false} DecodeUndoesEncode(s: string)
    ensures Decode(Encode(s)) == Some(s)
  {
    if s != "" {
      DecodeUndoesEncode(s[1..]);
      DecodeOfChar(s[0], Encode(s[1..]));
      assert s == [s[0]] + s[1..];
    }
  }

  /** The encoded text holds nothing that starts a suffix. */
  predicate Suffixless(s: string) {
    forall i :: 0 <= i < |s| ==> s[i] != '?' && s[i] != '#'
  }

  lemma {:induction false} EncodedIsSuffixless(s: string)
    ensures Suffixless(Encode(s))
  {
    if s != "" { EncodedIsSuffixless(s[1..]); }
  }

  lemma {:induction false} EncodeOfBoth(a: string, b: string)
    ensures Encode(a + b) == Encode(a) + Encode(b)
  {
    if a == "" {
      assert a + b == b;
    } else {
      assert (a + b)[1..] == a[1..] + b;
      EncodeOfBoth(a[1..], b);
    }
  }

  lemma {:induction false} EncodedIsSlashless(s: string)
    requires Slashless(s)
    ensures Slashless(Encode(s))
  {
    if s != "" { EncodedIsSlashless(s[1..]); }
  }

  // ------------------------------------------------------------------------------------------
  // Paths, segment by segment
  // ------------------------------------------------------------------------------------------

  function DecodeAll(segments: seq<string>): Option<seq<string>> {
    if segments == [] then Some([])
    else
      match (Decode(segments[0]), DecodeAll(segments[1..]))
      case (Some(first), Some(rest)) => if '/' in first then None else Some([first] + rest)
      case _ => None
  }

  /** Nothing where an escape is malformed or hides a slash. */
  function DecodePath(path: string): Option<string> {
    match DecodeAll(Split(path))
    case None => None
    case Some(segments) => Some(Join(segments))
  }

  function EncodeAll(segments: seq<string>): (r: seq<string>)
    ensures |r| == |segments| && forall i :: 0 <= i < |r| ==> r[i] == Encode(segments[i])
  {
    seq(|segments|, i requires 0 <= i < |segments| => Encode(segments[i]))
  }

  function EncodePath(path: string): string {
    Join(EncodeAll(Split(path)))
  }

  lemma {:induction false} DecodeAllUndoes(segments: seq<string>)
    requires forall i :: 0 <= i < |segments| ==> Slashless(segments[i])
    ensures DecodeAll(EncodeAll(segments)) == Some(segments)
  {
    if segments != [] {
      DecodeAllUndoes(segments[1..]);
      DecodeUndoesEncode(segments[0]);
      assert EncodeAll(segments)[1..] == EncodeAll(segments[1..]);
      assert segments == [segments[0]] + segments[1..];
    }
  }

  lemma SplitOfEncoded(path: string)
    ensures Split(EncodePath(path)) == EncodeAll(Split(path))
  {
    var segments := EncodeAll(Split(path));
    forall i | 0 <= i < |segments| ensures Slashless(segments[i]) {
      SplitIsSlashless(path, i);
      EncodedIsSlashless(Split(path)[i]);
    }
    SplitOfJoin(segments);
  }

  lemma DecodePathUndoes(path: string)
    ensures DecodePath(EncodePath(path)) == Some(path)
  {
    SplitOfEncoded(path);
    forall i | 0 <= i < |Split(path)| ensures Slashless(Split(path)[i]) { SplitIsSlashless(path, i); }
    DecodeAllUndoes(Split(path));
    JoinOfSplit(path);
  }

  lemma {:induction false} JoinIsEncoded(segments: seq<string>)
    ensures Join(EncodeAll(segments)) == Encode(Join(segments))
  {
    if |segments| > 1 {
      JoinIsEncoded(segments[1..]);
      assert EncodeAll(segments)[1..] == EncodeAll(segments[1..]);
      EncodeOfBoth(segments[0] + "/", Join(segments[1..]));
      EncodeOfBoth(segments[0], "/");
      assert Encode("/") == "/";
    }
  }

  /** Encoding segment by segment is encoding the whole, for a slash is never encoded. */
  lemma EncodePathIsEncode(path: string)
    ensures EncodePath(path) == Encode(path)
  {
    JoinIsEncoded(Split(path));
    JoinOfSplit(path);
  }

  // ------------------------------------------------------------------------------------------
  // Resolving
  // ------------------------------------------------------------------------------------------

  function SuffixStart(s: string): (n: nat)
    ensures n <= |s| && Suffixless(s[..n])
    ensures n < |s| ==> s[n] == '?' || s[n] == '#'
  {
    if s == "" || s[0] == '?' || s[0] == '#' then 0
    else
      var n := SuffixStart(s[1..]);
      assert s[..n + 1] == [s[0]] + s[1..][..n];
      n + 1
  }

  /** The scheme of a full address, in any case; the rest of it follows. */
  function AnyCaseRun(s: string): nat {
    SchemeRun(Lower(s))
  }

  predicate IsLetter(c: char) { IsUpper(c) || IsLower(c) }

  predicate NamesScheme(path: string) {
    var n := AnyCaseRun(path);
    n > 0 && n < |path| && IsLetter(path[0]) && path[n] == ':'
  }

  predicate IsFullUri(path: string) {
    NamesScheme(path) && AnyCaseRun(path) + 3 <= |path| && path[AnyCaseRun(path)..AnyCaseRun(path) + 3] == "://"
  }

  /** Relative segments over the holder's folder: nothing when they climb above it. */
  function Walk(segments: seq<string>, parts: seq<string>): Option<seq<string>>
    decreases |parts|
  {
    if parts == [] then Some(segments)
    else if parts[0] == "" || parts[0] == "." then Walk(segments, parts[1..])
    else if parts[0] == ".." then
      if segments == [] then None else Walk(segments[..|segments| - 1], parts[1..])
    else Walk(segments + [parts[0]], parts[1..])
  }

  method WalkPath(start: seq<string>, parts: seq<string>) returns (segments: Option<seq<string>>)
    ensures segments == Walk(start, parts)
  {
    var at := start;
    for i := 0 to |parts|
      invariant Walk(start, parts) == Walk(at, parts[i..])
    {
      var part := parts[i];
      assert parts[i..][1..] == parts[i + 1..];
      if part == "" || part == "." { continue; }
      if part == ".." {
        if |at| == 0 { return None; }
        at := at[..|at| - 1];
      } else {
        at := at + [part];
      }
    }
    segments := Some(at);
  }

  function KindOf(rawPath: string): Kind {
    if rawPath != "" && rawPath[|rawPath| - 1] == '/' then Folder else Document
  }

  function ResolveFull(kind: Kind, path: string, suffix: string): Option<Resolved> {
    var n := AnyCaseRun(path);
    if n > |path| then None
    else
      match ParseContextUri(Lower(path[..n]) + path[n..])
      case Ok(address) => if address.path != "" then Some(Resolved(kind, address.normalized, suffix)) else None
      case Err(_) => None
  }

  function ResolveRelative(kind: Kind, path: string, suffix: string, base: string): Option<Resolved> {
    match ParseContextUri(base)
    case Err(_) => None
    case Ok(address) =>
      if address.path == "" then None
      else
        var folder := Split(address.path);
        match Walk(folder[..|folder| - 1], Split(path))
        case None => None
        case Some(segments) =>
          if segments == [] then None
          else
            match FormatParsedContextUri(address.scheme, Join(segments), address.authority)
            case Ok(uri) => Some(Resolved(kind, uri, suffix))
            case Err(_) => None
  }

  function ResolveRaw(rawPath: string, suffix: string, base: Option<string>): Option<Resolved> {
    if rawPath == "" || rawPath[0] == '/' then None
    else
      var kind := KindOf(rawPath);
      match DecodePath(if kind.Folder? then rawPath[..|rawPath| - 1] else rawPath)
      case None => None
      case Some(path) => if path == "" then None else ResolvePlain(path, kind, suffix, base)
  }

  /** What an href says once its suffix is off and its escapes are read. */
  function ResolvePlain(path: string, kind: Kind, suffix: string, base: Option<string>): Option<Resolved> {
    if IsFullUri(path) then ResolveFull(kind, path, suffix)
    else if NamesScheme(path) then None
    else if base.None? || base.value == "" then None
    else ResolveRelative(kind, path, suffix, base.value)
  }

  /** What an href written in the document at `base` names; nothing when it names no document. */
  function ResolveDocumentHref(href: string, base: Option<string>): Option<Resolved> {
    var n := SuffixStart(href);
    ResolveRaw(href[..n], href[n..], base)
  }

  // ------------------------------------------------------------------------------------------
  // Spelling
  // ------------------------------------------------------------------------------------------

  datatype SpellError = InvalidTarget | InvalidSuffix

  /** What is left of two paths below the folders they share; the target keeps its last segment. */
  function DropShared(from: seq<string>, to: seq<string>): (seq<string>, seq<string>)
    decreases |from|
  {
    if from != [] && |to| > 1 && from[0] == to[0] then DropShared(from[1..], to[1..]) else (from, to)
  }

  method ShiftShared(from0: seq<string>, to0: seq<string>) returns (from: seq<string>, to: seq<string>)
    ensures (from, to) == DropShared(from0, to0)
  {
    from, to := from0, to0;
    while |from| > 0 && |to| > 1 && from[0] == to[0]
      invariant DropShared(from0, to0) == DropShared(from, to)
      decreases |from|
    {
      from, to := from[1..], to[1..];
    }
  }

  function Ups(n: nat): seq<string> {
    if n == 0 then [] else [".."] + Ups(n - 1)
  }

  function KindSuffix(kind: Kind): string {
    if kind.Folder? then "/" else ""
  }

  /** Whether a holder can spell the target relative to itself. */
  predicate SharesArea(holder: Option<string>, target: Address) {
    && holder.Some? && holder.value != "" && ParseContextUri(holder.value).Ok?
    && ParseContextUri(holder.value).value.path != ""
    && ParseContextUri(holder.value).value.scheme == target.scheme
    && ParseContextUri(holder.value).value.authority == target.authority
  }

  function RelativeSegments(holder: string, target: string): seq<string> {
    var folder := Split(holder);
    var (from, to) := DropShared(folder[..|folder| - 1], Split(target));
    Ups(|from|) + to
  }

  function SpellDocumentHref(holder: Option<string>, target: LinkAddress): Result<string, SpellError> {
    match ParseContextUri(target.uri)
    case Err(_) => Err(InvalidTarget)
    case Ok(address) =>
      if address.path == "" then Err(InvalidTarget)
      else if SharesArea(holder, address) then
        Ok(EncodePath(Join(RelativeSegments(ParseContextUri(holder.value).value.path, address.path))) + KindSuffix(target.kind))
      else
        match FormatParsedContextUri(address.scheme, EncodePath(address.path), address.authority)
        case Ok(href) => Ok(href + KindSuffix(target.kind))
        case Err(_) => Err(InvalidTarget)
  }

  /** The one stored spelling: the full address and its suffix. */
  function StoredHref(target: LinkAddress, suffix: string): Result<string, SpellError> {
    if suffix != "" && suffix[0] != '?' && suffix[0] != '#' then Err(InvalidSuffix)
    else
      match SpellDocumentHref(None, target)
      case Ok(href) => Ok(href + suffix)
      case Err(error) => Err(error)
  }

  // ------------------------------------------------------------------------------------------
  // Reading back what was spelled
  // ------------------------------------------------------------------------------------------

  lemma EncodedStarts(s: string)
    requires s != ""
    ensures Encode(s) != "" && (Encode(s)[0] == '/' <==> s[0] == '/')
  {
    var first := EncodeChar(s[0]);
    assert Encode(s)[0] == first[0];
  }

  lemma EncodedFinishes(s: string)
    requires s != "" && Encode(s) != ""
    ensures Encode(s)[|Encode(s)| - 1] == '/' <==> s[|s| - 1] == '/'
  {
    var n := |s| - 1;
    var last := [s[n]];
    assert s == s[..n] + last;
    EncodeOfBoth(s[..n], last);
    EncodedOne(s[n]);
    LastOfBoth(Encode(s[..n]), EncodeChar(s[n]));
  }

  lemma EncodedOne(c: char)
    ensures Encode([c]) == EncodeChar(c) && EncodeChar(c) != ""
    ensures EncodeChar(c)[|EncodeChar(c)| - 1] == '/' <==> c == '/'
  {
    assert Encode([c]) == EncodeChar(c) + Encode("");
  }

  lemma LastOfBoth(a: string, b: string)
    requires b != ""
    ensures (a + b)[|a + b| - 1] == b[|b| - 1]
  {
  }

  lemma {:induction false} SuffixAfter(path: string, suffix: string)
    requires Suffixless(path) && (suffix != "" ==> suffix[0] == '?' || suffix[0] == '#')
    ensures SuffixStart(path + suffix) == |path|
  {
    if path == "" {
      assert path + suffix == suffix;
    } else {
      assert (path + suffix)[1..] == path[1..] + suffix;
      SuffixAfter(path[1..], suffix);
    }
  }

  lemma EncodedDecodes(path: string)
    ensures DecodePath(Encode(path)) == Some(path)
  {
    EncodePathIsEncode(path);
    DecodePathUndoes(path);
  }

  lemma RawReads(encoded: string, path: string, kind: Kind, suffix: string, base: Option<string>)
    requires path != "" && encoded != "" && encoded[0] != '/' && encoded[|encoded| - 1] != '/'
    requires DecodePath(encoded) == Some(path)
    ensures ResolveRaw(encoded + KindSuffix(kind), suffix, base) == ResolvePlain(path, kind, suffix, base)
  {
    RawParts(encoded, kind);
  }

  lemma RawIsPlain(path: string, kind: Kind, suffix: string, base: Option<string>)
    requires path != "" && path[0] != '/' && path[|path| - 1] != '/'
    ensures ResolveRaw(Encode(path) + KindSuffix(kind), suffix, base) == ResolvePlain(path, kind, suffix, base)
  {
    EncodedStarts(path);
    EncodedFinishes(path);
    EncodedDecodes(path);
    RawReads(Encode(path), path, kind, suffix, base);
  }

  lemma RawParts(encoded: string, kind: Kind)
    requires encoded != "" && encoded[|encoded| - 1] != '/'
    ensures var raw := encoded + KindSuffix(kind);
            && raw != "" && raw[0] == encoded[0] && KindOf(raw) == kind
            && (if kind.Folder? then raw[..|raw| - 1] else raw) == encoded
  {
    var raw := encoded + KindSuffix(kind);
    if kind.Folder? { assert raw[..|raw| - 1] == encoded; } else { assert raw == encoded; }
  }

  lemma SpelledIsPlain(path: string, kind: Kind, suffix: string, base: Option<string>)
    requires path != "" && path[0] != '/' && path[|path| - 1] != '/'
    requires suffix != "" ==> suffix[0] == '?' || suffix[0] == '#'
    ensures ResolveDocumentHref(Encode(path) + KindSuffix(kind) + suffix, base) == ResolvePlain(path, kind, suffix, base)
  {
    RawIsSuffixless(path, kind);
    RawIsPlain(path, kind, suffix, base);
    HrefSplits(Encode(path) + KindSuffix(kind), suffix, base);
  }

  lemma RawIsSuffixless(path: string, kind: Kind)
    ensures Suffixless(Encode(path) + KindSuffix(kind))
  {
    EncodedIsSuffixless(path);
  }

  lemma HrefSplits(raw: string, suffix: string, base: Option<string>)
    requires Suffixless(raw) && (suffix != "" ==> suffix[0] == '?' || suffix[0] == '#')
    ensures ResolveDocumentHref(raw + suffix, base) == ResolveRaw(raw, suffix, base)
  {
    SuffixAfter(raw, suffix);
    assert (raw + suffix)[..|raw|] == raw && (raw + suffix)[|raw|..] == suffix;
  }

  // ------------------------------------------------------------------------------------------
  // Full spellings
  // ------------------------------------------------------------------------------------------

  lemma {:induction false} EncodePlain(s: string)
    requires Suffixless(s) && '%' !in s
    ensures Encode(s) == s
  {
    if s != "" { EncodePlain(s[1..]); }
  }

  lemma TailIsEncoded(path: string, authority: Authority)
    requires OwnerQualifier(authority).Ok? && !authority.Owners?
    ensures Tail(Encode(path), authority, OwnerQualifier(authority).value) == Encode(Tail(path, authority, OwnerQualifier(authority).value))
  {
    if HasHandle(authority) {
      var q := "@" + HandleOf(authority) + "/";
      EncodePlain(q);
      EncodeOfBoth(q, path);
    }
  }

  lemma FullIsEncoded(scheme: Scheme, path: string, authority: Authority)
    requires Fits(scheme, authority) && !authority.Owners?
    ensures FormatParsedContextUri(scheme, path, authority).Ok?
    ensures FormatParsedContextUri(scheme, EncodePath(path), authority) ==
            Ok(Encode(FormatParsedContextUri(scheme, path, authority).value))
  {
    EncodePathIsEncode(path);
    TailIsEncoded(path, authority);
    FrontIsEncoded(scheme, Tail(path, authority, OwnerQualifier(authority).value));
  }

  lemma FrontIsEncoded(scheme: Scheme, tail: string)
    ensures Encode(Front(scheme) + tail) == Front(scheme) + Encode(tail)
  {
    EncodePlain(Front(scheme));
    EncodeOfBoth(Front(scheme), tail);
  }

  lemma FullNamesItself(scheme: Scheme, tail: string)
    ensures var uri := Front(scheme) + tail;
            && IsFullUri(uri) && Lower(uri[..AnyCaseRun(uri)]) + uri[AnyCaseRun(uri)..] == uri
  {
    var text := SchemeText(scheme);
    var uri := Front(scheme) + tail;
    assert Lower(text) == text;
    assert uri == text + ("://" + tail);
    assert Lower(uri) == text + Lower("://" + tail);
    RunOfScheme(text, Lower("://" + tail));
    assert uri[..|text|] == text && uri[|text|..] == "://" + tail;
  }

  /** An address that cannot be stored does not read back as itself. */
  lemma UnstorableChanges(address: Address)
    requires IsPath(address.path) && Fits(address.scheme, address.authority) && address.path != "" && !address.authority.Owners?
    requires FormatParsedContextUri(address.scheme, address.path, address.authority) == Ok(address.normalized)
    requires !Storable(address.path)
    ensures ParseContextUri(address.normalized).Ok? && ParseContextUri(address.normalized).value.path != "" ==>
              ParseContextUri(address.normalized).value.normalized != address.normalized
  {
    var tail := Tail(address.path, address.authority, OwnerQualifier(address.authority).value);
    FullIsTail(address.scheme, tail);
    TailIsStorable(address.path, address.authority);
    if !EndsInSpace(tail) {
      assert TrimEnd(tail) == tail;
    } else if OneLine(TrimEnd(tail)) && ParseTail(address.scheme, TrimEnd(tail)).Ok?
              && ParseTail(address.scheme, TrimEnd(tail)).value.path != "" {
      NormalizedIsNoLonger(address.scheme, TrimEnd(tail));
    }
  }

  lemma NormalizedIsNoLonger(scheme: Scheme, tail: string)
    requires ParseTail(scheme, tail).Ok? && ParseTail(scheme, tail).value.path != ""
    ensures |ParseTail(scheme, tail).value.normalized| <= |Front(scheme)| + |tail|
  {
    ParsedIsShorter(scheme, tail);
    TailIsNormalized(scheme, tail);
  }

  lemma PathEnds(path: string)
    requires IsPath(path) && path != ""
    ensures path[0] != '/' && path[|path| - 1] != '/'
  {
    var segments := Split(path);
    JoinOfSplit(path);
    JoinEnds(segments);
  }

  lemma {:induction false} JoinEnds(segments: seq<string>)
    requires segments != [] && forall i :: 0 <= i < |segments| ==> segments[i] != "" && Slashless(segments[i])
    ensures Join(segments) != "" && Join(segments)[0] != '/' && Join(segments)[|Join(segments)| - 1] != '/'
  {
    if |segments| > 1 { JoinEnds(segments[1..]); }
  }

  /** The full spelling resolves from anywhere to the same kind, address and suffix, exactly when the address can be stored. */
  lemma FullResolvesExactly(address: Address, kind: Kind, suffix: string, base: Option<string>)
    requires IsPath(address.path) && Fits(address.scheme, address.authority) && address.path != "" && !address.authority.Owners?
    requires FormatParsedContextUri(address.scheme, address.path, address.authority) == Ok(address.normalized)
    requires suffix != "" ==> suffix[0] == '?' || suffix[0] == '#'
    ensures var resolved := ResolveDocumentHref(Encode(address.normalized) + KindSuffix(kind) + suffix, base);
            resolved == Some(Resolved(kind, address.normalized, suffix)) <==> Storable(address.path)
  {
    var tail := Tail(address.path, address.authority, OwnerQualifier(address.authority).value);
    PathEnds(address.path);
    assert address.normalized == Front(address.scheme) + tail;
    assert tail[|tail| - 1] == address.path[|address.path| - 1];
    SpelledIsPlain(address.normalized, kind, suffix, base);
    FullNamesItself(address.scheme, tail);
    ParseUndoesFormat(address.scheme, address.path, address.authority);
    if !Storable(address.path) { UnstorableChanges(address); }
  }

  /**
   * A stored href names the address it was made for, with its suffix, wherever it is read. Addresses
   * with a line terminator, or white space at their end, are exactly the ones it cannot carry.
   */
  lemma StoredHrefResolvesExactly(target: LinkAddress, suffix: string, base: Option<string>)
    requires StoredHref(target, suffix).Ok?
    ensures var address := ParseContextUri(target.uri).value;
            ResolveDocumentHref(StoredHref(target, suffix).value, base) == Some(Resolved(target.kind, address.normalized, suffix))
            <==> Storable(address.path)
  {
    var address := ParseContextUri(target.uri).value;
    ParsedIsNormalized(target.uri);
    FullIsEncoded(address.scheme, address.path, address.authority);
    FullResolvesExactly(address, target.kind, suffix, base);
  }

  // ------------------------------------------------------------------------------------------
  // Relative spellings
  // ------------------------------------------------------------------------------------------

  predicate ProperSegments(segments: seq<string>) {
    forall i :: 0 <= i < |segments| ==> segments[i] != "" && segments[i] != "." && segments[i] != ".." && Slashless(segments[i])
  }

  lemma {:induction false} WalkDown(at: seq<string>, to: seq<string>)
    requires ProperSegments(to)
    ensures Walk(at, to) == Some(at + to)
    decreases |to|
  {
    if to == [] {
      assert at + to == at;
    } else {
      WalkDown(at + [to[0]], to[1..]);
      assert at + [to[0]] + to[1..] == at + to;
    }
  }

  lemma {:induction false} WalkUp(at: seq<string>, from: seq<string>, to: seq<string>)
    requires ProperSegments(to)
    ensures Walk(at + from, Ups(|from|) + to) == Some(at + to)
    decreases |from|
  {
    if from == [] {
      assert at + from == at && Ups(0) + to == to;
      WalkDown(at, to);
    } else {
      var n := |from| - 1;
      var parts := Ups(|from|) + to;
      assert parts[1..] == Ups(n) + to;
      assert (at + from)[..|at + from| - 1] == at + from[..n];
      WalkUp(at, from[..n], to);
    }
  }

  lemma {:induction false} SharedIsDropped(from: seq<string>, to: seq<string>) returns (shared: seq<string>)
    ensures from == shared + DropShared(from, to).0 && to == shared + DropShared(from, to).1
    ensures to != [] ==> DropShared(from, to).1 != []
    decreases |from|
  {
    if from != [] && |to| > 1 && from[0] == to[0] {
      var rest := SharedIsDropped(from[1..], to[1..]);
      shared := [from[0]] + rest;
    } else {
      shared := [];
    }
  }

  lemma {:induction false} UpsAre(n: nat, i: nat)
    requires i < n
    ensures |Ups(n)| == n && Ups(n)[i] == ".."
  {
    if i > 0 { UpsAre(n - 1, i - 1); } else if n > 1 { UpsAre(n - 1, 0); }
  }

  lemma {:induction false} UpsCount(n: nat)
    ensures |Ups(n)| == n && forall i :: 0 <= i < n ==> Ups(n)[i] == ".."
  {
    if n > 0 { UpsCount(n - 1); }
  }

  lemma {:induction false} NoEmptyBetween(segments: seq<string>, k: nat)
    requires forall i :: 0 <= i < |segments| ==> segments[i] != "" && Slashless(segments[i])
    requires k + 1 < |Join(segments)| && Join(segments)[k] == '/'
    ensures Join(segments)[k + 1] != '/'
  {
    if |segments| > 1 {
      JoinEnds(segments[1..]);
      var n := |segments[0]|;
      assert forall j :: 0 <= j < n ==> Join(segments)[j] == segments[0][j];
      if k > n {
        assert Join(segments)[k] == Join(segments[1..])[k - n - 1];
        assert Join(segments)[k + 1] == Join(segments[1..])[k - n];
        NoEmptyBetween(segments[1..], k - n - 1);
      } else if k == n {
        assert Join(segments)[k + 1] == Join(segments[1..])[0];
      }
    }
  }

  /** The segments of a relative spelling, and where they lead from the holder's folder. */
  lemma RelativeLeadsThere(holder: string, target: string)
    requires IsPath(holder) && IsPath(target) && holder != "" && target != ""
    ensures var rel := RelativeSegments(holder, target); var folder := Split(holder);
            && rel != [] && (forall i :: 0 <= i < |rel| ==> rel[i] != "" && Slashless(rel[i]))
            && Walk(folder[..|folder| - 1], rel) == Some(Split(target))
  {
    var folder := Split(holder);
    var from0, to0 := folder[..|folder| - 1], Split(target);
    var shared := SharedIsDropped(from0, to0);
    var (from, to) := DropShared(from0, to0);
    UpsCount(|from|);
    forall i | 0 <= i < |to| ensures IsSegment(to[i]) { assert to[i] == to0[|shared| + i]; }
    WalkUp(shared, from, to);
    var rel := RelativeSegments(holder, target);
    assert Slashless("..");
  }

  /**
   * A target spelled for a holder resolves from that holder to the same kind and address. Where they
   * share an area the spelling is relative, and fails exactly when it reads as a scheme, as a first
   * segment with a colon does; otherwise it is full, and fails exactly when it cannot be stored.
   */
  lemma SpelledResolvesExactly(holder: Option<string>, target: LinkAddress)
    requires SpellDocumentHref(holder, target).Ok?
    ensures var address := ParseContextUri(target.uri).value;
            ResolveDocumentHref(SpellDocumentHref(holder, target).value, holder) == Some(Resolved(target.kind, address.normalized, ""))
            <==> (if SharesArea(holder, address) then
                    !NamesScheme(Join(RelativeSegments(ParseContextUri(holder.value).value.path, address.path)))
                  else Storable(address.path))
  {
    var address := ParseContextUri(target.uri).value;
    ParsedIsNormalized(target.uri);
    var href := SpellDocumentHref(holder, target).value;
    if SharesArea(holder, address) {
      RelativeResolvesExactly(holder.value, address, target.kind);
    } else {
      FullIsEncoded(address.scheme, address.path, address.authority);
      FullResolvesExactly(address, target.kind, "", holder);
      assert href + "" == href;
    }
  }

  lemma RelativeResolves(holder: string, address: Address, kind: Kind, path: string)
    requires SharesArea(Some(holder), address) && IsPath(address.path) && address.path != ""
    requires FormatParsedContextUri(address.scheme, address.path, address.authority) == Ok(address.normalized)
    requires path == Join(RelativeSegments(ParseContextUri(holder).value.path, address.path))
    ensures ResolveRelative(kind, path, "", holder) == Some(Resolved(kind, address.normalized, ""))
  {
    ParsedIsNormalized(holder);
    var from := ParseContextUri(holder).value.path;
    RelativeLeadsThere(from, address.path);
    SplitOfJoin(RelativeSegments(from, address.path));
    JoinOfSplit(address.path);
  }

  lemma NoFullUri(segments: seq<string>)
    requires forall i :: 0 <= i < |segments| ==> segments[i] != "" && Slashless(segments[i])
    ensures !IsFullUri(Join(segments))
  {
    var path := Join(segments);
    if IsFullUri(path) {
      SlashesAfter(path, AnyCaseRun(path));
      NoEmptyBetween(segments, AnyCaseRun(path) + 1);
    }
  }

  lemma SlashesAfter(path: string, n: nat)
    requires n + 3 <= |path| && path[n..n + 3] == "://"
    ensures path[n + 1] == '/' && path[n + 2] == '/'
  {
    assert path[n + 1] == path[n..n + 3][1] && path[n + 2] == path[n..n + 3][2];
  }

  lemma RelativeResolvesExactly(holder: string, address: Address, kind: Kind)
    requires SharesArea(Some(holder), address) && IsPath(address.path) && address.path != ""
    requires FormatParsedContextUri(address.scheme, address.path, address.authority) == Ok(address.normalized)
    ensures var path := Join(RelativeSegments(ParseContextUri(holder).value.path, address.path));
            var resolved := ResolveDocumentHref(EncodePath(path) + KindSuffix(kind), Some(holder));
            resolved == Some(Resolved(kind, address.normalized, "")) <==> !NamesScheme(path)
  {
    ParsedIsNormalized(holder);
    var from := ParseContextUri(holder).value.path;
    var rel := RelativeSegments(from, address.path);
    var path := Join(rel);
    RelativeLeadsThere(from, address.path);
    JoinEnds(rel);
    NoFullUri(rel);
    EncodePathIsEncode(path);
    SpelledIsPlain(path, kind, "", Some(holder));
    var href := EncodePath(path) + KindSuffix(kind);
    assert href + "" == href;
    RelativeResolves(holder, address, kind, path);
  }

  // ------------------------------------------------------------------------------------------
  // Names the app accepts
  // ------------------------------------------------------------------------------------------

  predicate InvalidInName(c: char) {
    c as int < 32 || c in "/\\:*?\"<>|"
  }

  /** A name as `validateContextEntryName` leaves it. */
  predicate EntryName(segment: string) {
    && segment != "" && !IsSpace(segment[0]) && !EndsInSpace(segment) && segment[0] != '@' && segment[0] != '~'
    && segment != "." && segment != ".." && forall i :: 0 <= i < |segment| ==> !InvalidInName(segment[i])
  }

  predicate ColonFree(s: string) { ':' !in s }

  lemma {:induction false} JoinIsColonFree(segments: seq<string>)
    requires forall i :: 0 <= i < |segments| ==> ColonFree(segments[i])
    ensures ColonFree(Join(segments))
  {
    if |segments| > 1 { JoinIsColonFree(segments[1..]); }
  }

  lemma {:induction false} JoinEndsWithLast(segments: seq<string>)
    requires segments != [] && segments[|segments| - 1] != ""
    ensures Join(segments) != "" && EndsInSpace(Join(segments)) == EndsInSpace(segments[|segments| - 1])
  {
    if |segments| > 1 {
      JoinEndsWithLast(segments[1..]);
      var rest := Join(segments[1..]);
      assert Join(segments)[|Join(segments)| - 1] == rest[|rest| - 1];
    }
  }

  lemma NamesAreStorable(path: string)
    requires path != "" && forall i :: 0 <= i < |Split(path)| ==> EntryName(Split(path)[i])
    ensures Storable(path) <==> OneLine(path)
    ensures ColonFree(path)
  {
    JoinOfSplit(path);
    JoinEndsWithLast(Split(path));
    forall i | 0 <= i < |Split(path)| ensures ColonFree(Split(path)[i]) {
      assert InvalidInName(':');
    }
    JoinIsColonFree(Split(path));
  }

  lemma RelativeIsColonFree(holder: string, target: string)
    requires forall i :: 0 <= i < |Split(target)| ==> ColonFree(Split(target)[i])
    ensures ColonFree(Join(RelativeSegments(holder, target)))
  {
    var folder := Split(holder);
    var from0, to0 := folder[..|folder| - 1], Split(target);
    var shared := SharedIsDropped(from0, to0);
    var (from, to) := DropShared(from0, to0);
    UpsCount(|from|);
    forall i | 0 <= i < |to| ensures ColonFree(to[i]) { assert to[i] == to0[|shared| + i]; }
    JoinIsColonFree(RelativeSegments(holder, target));
  }

  /**
   * For names the app accepts, a spelled link always leads back within an area; a full one does
   * unless a name holds one of the two line terminators the name rule lets through.
   */
  lemma EntryNamesResolveExactly(holder: Option<string>, target: LinkAddress)
    requires SpellDocumentHref(holder, target).Ok?
    requires forall i :: 0 <= i < |Split(ParseContextUri(target.uri).value.path)| ==>
               EntryName(Split(ParseContextUri(target.uri).value.path)[i])
    ensures var address := ParseContextUri(target.uri).value;
            var resolved := ResolveDocumentHref(SpellDocumentHref(holder, target).value, holder);
            resolved == Some(Resolved(target.kind, address.normalized, "")) <==> SharesArea(holder, address) || OneLine(address.path)
  {
    var address := ParseContextUri(target.uri).value;
    SpelledResolvesExactly(holder, target);
    NamesAreStorable(address.path);
    if SharesArea(holder, address) {
      forall i | 0 <= i < |Split(address.path)| ensures ColonFree(Split(address.path)[i]) { assert InvalidInName(':'); }
      RelativeIsColonFree(ParseContextUri(holder.value).value.path, address.path);
    }
  }

  lemma NamesArePath(path: string)
    requires path != "" && forall i :: 0 <= i < |Split(path)| ==> EntryName(Split(path)[i])
    ensures IsPath(path)
  {
    forall i | 0 <= i < |Split(path)| ensures IsSegment(Split(path)[i]) {
      SplitIsSlashless(path, i);
    }
  }

  /** The canonical address of a path of accepted names reads back exactly while it is one line. */
  lemma CanonicalReads(scheme: Scheme, path: string, authority: Authority, uri: string)
    requires path != "" && forall i :: 0 <= i < |Split(path)| ==> EntryName(Split(path)[i])
    requires Fits(scheme, authority) && !authority.Owners? && FormatParsedContextUri(scheme, path, authority) == Ok(uri)
    ensures if OneLine(path) then ParseContextUri(uri) == Ok(Address(scheme, authority, path, uri)) else ParseContextUri(uri) == Err(Malformed)
  {
    NamesArePath(path);
    NamesAreStorable(path);
    ParseUndoesFormat(scheme, path, authority);
    if !OneLine(path) {
      var tail := Tail(path, authority, OwnerQualifier(authority).value);
      TailIsStorable(path, authority);
      FullIsTail(scheme, tail);
      JoinOfSplit(path);
      JoinEndsWithLast(Split(path));
      assert TrimEnd(tail) == tail;
    }
  }

  /**
   * A link to the canonical address of accepted names is spelled exactly while no name holds one of
   * the two line terminators the name rule lets through, and then it leads back; otherwise spelling
   * refuses the address, from every holder.
   */
  lemma NamesSpellExactly(holder: Option<string>, kind: Kind, scheme: Scheme, path: string, authority: Authority, uri: string)
    requires path != "" && forall i :: 0 <= i < |Split(path)| ==> EntryName(Split(path)[i])
    requires Fits(scheme, authority) && !authority.Owners? && FormatParsedContextUri(scheme, path, authority) == Ok(uri)
    ensures var spelled := SpellDocumentHref(holder, LinkAddress(kind, uri));
            && (spelled.Ok? <==> OneLine(path)) && (spelled.Err? ==> spelled.error == InvalidTarget)
            && (spelled.Ok? ==> ResolveDocumentHref(spelled.value, holder) == Some(Resolved(kind, uri, "")))
  {
    CanonicalReads(scheme, path, authority, uri);
    if OneLine(path) {
      FullIsEncoded(scheme, path, authority);
      EntryNamesResolveExactly(holder, LinkAddress(kind, uri));
    }
  }

  const SEPARATED: string := "a\U{2028}b"

  lemma SeparatedIsName()
    ensures EntryName(SEPARATED) && !OneLine(SEPARATED) && Slashless(SEPARATED)
  {
    assert |SEPARATED| == 3 && SEPARATED[0] == 'a' && SEPARATED[1] == '\U{2028}' && SEPARATED[2] == 'b';
    assert !InvalidInName('a') && !InvalidInName('\U{2028}') && !InvalidInName('b');
    assert IsLineTerminator(SEPARATED[1]);
  }

  /** A name the app accepts, and the link to it that cannot be spelled. */
  lemma LineSeparatorIsRefused(holder: Option<string>, uri: string)
    requires uri == "manuscript://" + SEPARATED
    ensures EntryName(SEPARATED) && SpellDocumentHref(holder, LinkAddress(Document, uri)) == Err(InvalidTarget)
  {
    SeparatedIsName();
    SplitOfSegment(SEPARATED);
    assert Front(Manuscript) == "manuscript://";
    assert FormatParsedContextUri(Manuscript, SEPARATED, Contextual) == Ok(Front(Manuscript) + SEPARATED);
    NamesSpellExactly(holder, Document, Manuscript, SEPARATED, Contextual, uri);
  }
}
