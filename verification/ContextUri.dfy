/**
 * Context addresses: parsing what a writer or the model types, and the one serializer
 * (packages/contracts/src/context-uri.ts, handles.ts).
 */
module ContextUri {
  import opened EscapeSyntax
  import opened Paths
  import opened Wrappers

  // ------------------------------------------------------------------------------------------
  // Handles
  // ------------------------------------------------------------------------------------------

  datatype HandleKind = ChatHandle | SubagentHandle | WorkHandle

  predicate IsDigit(c: char) { '0' <= c <= '9' }

  predicate IsLower(c: char) { 'a' <= c <= 'z' }

  /** A letter and digits with no leading zero. */
  predicate HandleShaped(token: string) {
    |token| >= 2 && IsLower(token[0]) && '1' <= token[1] <= '9' && forall i :: 2 <= i < |token| ==> IsDigit(token[i])
  }

  function ParseHandle(token: string): Option<HandleKind> {
    if !HandleShaped(token) then None
    else if token[0] == 'c' then Some(ChatHandle)
    else if token[0] == 'p' then Some(SubagentHandle)
    else if token[0] == 'w' then Some(WorkHandle)
    else None
  }

  datatype Token = Handle(kind: HandleKind) | UnknownLetter | Uppercase(lower: string) | LeadingZero | Name

  function Lowered(c: char): char {
    if IsUpper(c) then (c as int + 32) as char else c
  }

  function Lower(s: string): (r: string)
    ensures |r| == |s| && forall i :: 0 <= i < |s| ==> r[i] == Lowered(s[i])
  {
    seq(|s|, i requires 0 <= i < |s| => Lowered(s[i]))
  }

  function ClassifyHandleToken(token: string): Token {
    if ParseHandle(token).Some? then Handle(ParseHandle(token).value)
    else if HandleShaped(token) then UnknownLetter
    else if token != "" && IsUpper(token[0]) && HandleShaped(Lower(token)) then Uppercase(Lower(token))
    else if |token| >= 2 && (IsUpper(token[0]) || IsLower(token[0])) && token[1] == '0'
            && (forall i :: 2 <= i < |token| ==> IsDigit(token[i])) then LeadingZero
    else Name
  }

  // ------------------------------------------------------------------------------------------
  // Addresses
  // ------------------------------------------------------------------------------------------

  datatype Scheme = Manuscript | Kb | User | Unfiled | Scratch | Uploads

  function SchemeText(scheme: Scheme): string {
    match scheme
    case Manuscript => "manuscript"
    case Kb => "kb"
    case User => "user"
    case Unfiled => "unfiled"
    case Scratch => "scratch"
    case Uploads => "uploads"
  }

  function SchemeOf(text: string): Option<Scheme> {
    if text == "manuscript" then Some(Manuscript)
    else if text == "kb" then Some(Kb)
    else if text == "user" then Some(User)
    else if text == "unfiled" then Some(Unfiled)
    else if text == "scratch" then Some(Scratch)
    else if text == "uploads" then Some(Uploads)
    else None
  }

  predicate Owned(scheme: Scheme) { scheme.Scratch? || scheme.Uploads? }

  datatype Authority =
    | Contextual
    | Owners
    | Lineage(rootThreadRef: string)
    | Chat(chatRef: string)
    | Work(workHandle: string)

  /** A scheme's authority, with the handle its kind takes. */
  predicate Fits(scheme: Scheme, authority: Authority) {
    match authority
    case Contextual => true
    case Owners => Owned(scheme)
    case Lineage(ref) => scheme.Scratch? && ParseHandle(ref) == Some(ChatHandle)
    case Chat(ref) => scheme.Uploads? && ParseHandle(ref) == Some(ChatHandle)
    case Work(handle) => scheme.Scratch? && ParseHandle(handle) == Some(WorkHandle)
  }

  datatype Address = Address(scheme: Scheme, authority: Authority, path: string, normalized: string)

  datatype UriError =
    | EmptyUri | UnknownScheme(scheme: string) | Malformed
    | QualifierChain | Unqualified | RetiredEmptyOwner | HandleAfterSlash | NoHandle
    | SubagentOwner | UploadsBelongToChat | UppercaseHandle | LeadingZeroHandle | UnknownName
    | Traversal | ReservedSegment | BranchSegment

  /** The text between `@` and the path; none without an owner. A handle of the wrong kind is refused. */
  function OwnerQualifier(authority: Authority): Result<Option<string>, ()> {
    match authority
    case Contextual => Ok(None)
    case Owners => Ok(Some("@"))
    case Lineage(ref) => if ParseHandle(ref) == Some(ChatHandle) then Ok(Some("@" + ref)) else Err(())
    case Chat(ref) => if ParseHandle(ref) == Some(ChatHandle) then Ok(Some("@" + ref)) else Err(())
    case Work(handle) => if ParseHandle(handle) == Some(WorkHandle) then Ok(Some("@" + handle)) else Err(())
  }

  function Front(scheme: Scheme): string { SchemeText(scheme) + "://" }

  /** What follows `scheme://`. The owner listing carries no path. */
  function Tail(path: string, authority: Authority, qualifier: Option<string>): string {
    match qualifier
    case None => path
    case Some(q) => if authority.Owners? then q else q + "/" + path
  }

  /** The one serializer. */
  function FormatParsedContextUri(scheme: Scheme, path: string, authority: Authority): Result<string, ()> {
    match OwnerQualifier(authority)
    case Err(_) => Err(())
    case Ok(qualifier) => Ok(Front(scheme) + Tail(path, authority, qualifier))
  }

  // ------------------------------------------------------------------------------------------
  // Parsing
  // ------------------------------------------------------------------------------------------

  predicate IsSchemeChar(c: char) { IsLower(c) || IsDigit(c) || c == '+' || c == '.' || c == '-' }

  /** How many scheme characters the text starts with. */
  function SchemeRun(s: string): (n: nat)
    ensures n <= |s|
  {
    if s != "" && IsSchemeChar(s[0]) then 1 + SchemeRun(s[1..]) else 0
  }

  /** What a dot in a pattern does not match. */
  predicate IsLineTerminator(c: char) {
    c == '\n' || c == '\r' || c as int == 0x2028 || c as int == 0x2029
  }

  predicate OneLine(s: string) {
    forall i :: 0 <= i < |s| ==> !IsLineTerminator(s[i])
  }

  datatype SchemeSplit = Full(scheme: string, rest: string) | Broken | Bare

  function SplitScheme(s: string): SchemeSplit {
    var n := SchemeRun(s);
    if n == 0 || !IsLower(s[0]) || n == |s| || s[n] != ':' then Bare
    else if n + 3 <= |s| && s[n..n + 3] == "://" && OneLine(s[n + 3..]) then Full(s[..n], s[n + 3..])
    else Broken
  }

  function OwnerAuthority(scheme: Scheme, handle: string): Option<Authority> {
    match ParseHandle(handle)
    case Some(ChatHandle) => Some(if scheme.Uploads? then Chat(handle) else Lineage(handle))
    case Some(WorkHandle) => if scheme.Scratch? then Some(Work(handle)) else None
    case _ => None
  }

  function ParseBareSigil(scheme: Scheme, rest: seq<string>): Result<(Authority, seq<string>), UriError> {
    if rest == [] then Ok((Owners, []))
    else if ClassifyHandleToken(rest[0]).Handle? && OwnerAuthority(scheme, rest[0]).Some? then Err(HandleAfterSlash)
    else Err(NoHandle)
  }

  function ParseOwnerToken(scheme: Scheme, token: string, rest: seq<string>): Result<(Authority, seq<string>), UriError> {
    match ClassifyHandleToken(token)
    case Handle(kind) =>
      if OwnerAuthority(scheme, token).Some? then Ok((OwnerAuthority(scheme, token).value, rest))
      else if kind.SubagentHandle? then Err(SubagentOwner)
      else if scheme.Uploads? && kind.WorkHandle? then Err(UploadsBelongToChat)
      else Err(NoHandle)
    case Uppercase(_) => Err(UppercaseHandle)
    case LeadingZero => Err(LeadingZeroHandle)
    case Name => Err(if scheme.Scratch? then UnknownName else NoHandle)
    case UnknownLetter => Err(NoHandle)
  }

  predicate StartsWithChar(s: string, c: char) { s != "" && s[0] == c }

  /** The authority, and the segments after it. */
  function ParseAuthority(scheme: Scheme, rawPath: string): Result<(Authority, seq<string>), UriError> {
    ParseSegments(scheme, Kept(Split(rawPath)), WithoutLeadingSlashes(rawPath))
  }

  function ParseSegments(scheme: Scheme, segments: seq<string>, trimmed: string): Result<(Authority, seq<string>), UriError> {
    if segments == [] || !StartsWithChar(segments[0], '@') then Ok((Contextual, segments))
    else if |segments| > 1 && StartsWithChar(segments[1], '@') then Err(QualifierChain)
    else if !Owned(scheme) then Err(Unqualified)
    else if segments[0] != "@" then ParseOwnerToken(scheme, segments[0][1..], segments[1..])
    else if |segments| == 1 && |trimmed| >= 2 && trimmed[..2] == "@/" then Err(RetiredEmptyOwner)
    else ParseBareSigil(scheme, segments[1..])
  }

  predicate SomeStartsWith(segments: seq<string>, c: char) {
    exists i :: 0 <= i < |segments| && StartsWithChar(segments[i], c)
  }

  function ParseTail(scheme: Scheme, rawPath: string): Result<Address, UriError> {
    match ParseAuthority(scheme, rawPath)
    case Err(error) => Err(error)
    case Ok((authority, segments)) =>
      if ".." in segments then Err(Traversal)
      else if SomeStartsWith(segments, '@') then Err(ReservedSegment)
      else if SomeStartsWith(segments, '~') then Err(BranchSegment)
      else
        match FormatParsedContextUri(scheme, Join(segments), authority)
        case Ok(normalized) => Ok(Address(scheme, authority, Join(segments), normalized))
        case Err(_) => Err(Malformed)
  }

  /** Strict serializer, lenient parser; a bare path is a manuscript's. */
  function ParseContextUri(raw: string): Result<Address, UriError> {
    var trimmed := Trim(raw);
    if trimmed == "" then Err(EmptyUri)
    else
      match SplitScheme(trimmed)
      case Full(text, rest) =>
        (match SchemeOf(text)
         case None => Err(UnknownScheme(text))
         case Some(scheme) => ParseTail(scheme, rest))
      case Broken => Err(Malformed)
      case Bare => ParseTail(Manuscript, trimmed)
  }

  // ------------------------------------------------------------------------------------------
  // What parsing answers
  // ------------------------------------------------------------------------------------------

  predicate IsSegment(segment: string) {
    && Slashless(segment) && segment != "" && segment != "." && segment != ".."
    && segment[0] != '@' && segment[0] != '~'
  }

  /** A path as parsing leaves it: nothing empty, relative or reserved between its slashes. */
  predicate IsPath(path: string) {
    path == "" || forall i :: 0 <= i < |Split(path)| ==> IsSegment(Split(path)[i])
  }

  lemma KeptIsSlashless(rawPath: string, i: nat)
    requires i < |Kept(Split(rawPath))|
    ensures Slashless(Kept(Split(rawPath))[i])
  {
    KeptIn(Split(rawPath), i);
    var k :| 0 <= k < |Split(rawPath)| && Split(rawPath)[k] == Kept(Split(rawPath))[i];
    SplitIsSlashless(rawPath, k);
  }

  lemma OwnerFits(scheme: Scheme, handle: string)
    requires Owned(scheme) && OwnerAuthority(scheme, handle).Some?
    ensures Fits(scheme, OwnerAuthority(scheme, handle).value) && HasHandle(OwnerAuthority(scheme, handle).value)
    ensures HandleOf(OwnerAuthority(scheme, handle).value) == handle
  {
  }

  /** An owner is the first segment's, and the path is what follows. */
  predicate Divides(all: seq<string>, authority: Authority, segments: seq<string>) {
    if authority.Contextual? then segments == all
    else
      && all != [] && segments == all[1..] && (authority.Owners? ==> segments == [])
      && (HasHandle(authority) ==> all[0] == "@" + HandleOf(authority))
  }

  lemma AuthorityFits(scheme: Scheme, rawPath: string)
    requires ParseAuthority(scheme, rawPath).Ok?
    ensures Fits(scheme, ParseAuthority(scheme, rawPath).value.0)
    ensures Divides(Kept(Split(rawPath)), ParseAuthority(scheme, rawPath).value.0, ParseAuthority(scheme, rawPath).value.1)
  {
    SegmentsFit(scheme, Kept(Split(rawPath)), WithoutLeadingSlashes(rawPath));
  }

  lemma SegmentsFit(scheme: Scheme, all: seq<string>, trimmed: string)
    requires ParseSegments(scheme, all, trimmed).Ok?
    ensures Fits(scheme, ParseSegments(scheme, all, trimmed).value.0)
    ensures Divides(all, ParseSegments(scheme, all, trimmed).value.0, ParseSegments(scheme, all, trimmed).value.1)
  {
    if all != [] && StartsWithChar(all[0], '@') {
      if all[0] != "@" {
        OwnerTokenFits(scheme, all[0][1..], all[1..]);
        assert all[0] == "@" + all[0][1..];
      }
    }
  }

  lemma OwnerTokenFits(scheme: Scheme, token: string, rest: seq<string>)
    requires Owned(scheme) && ParseOwnerToken(scheme, token, rest).Ok?
    ensures var parsed := ParseOwnerToken(scheme, token, rest).value;
            parsed.1 == rest && Fits(scheme, parsed.0) && HasHandle(parsed.0) && HandleOf(parsed.0) == token
  {
    OwnerFits(scheme, token);
  }

  /** Whatever parses is normalized: a path of proper segments and an authority its scheme takes. */
  lemma ParsedIsNormalized(raw: string)
    requires ParseContextUri(raw).Ok?
    ensures var address := ParseContextUri(raw).value;
            && IsPath(address.path) && Fits(address.scheme, address.authority)
            && (address.authority.Owners? ==> address.path == "")
            && FormatParsedContextUri(address.scheme, address.path, address.authority) == Ok(address.normalized)
  {
    var trimmed := Trim(raw);
    match SplitScheme(trimmed)
    case Full(text, rest) => TailIsNormalized(SchemeOf(text).value, rest);
    case Bare => TailIsNormalized(Manuscript, trimmed);
  }

  lemma TailIsNormalized(scheme: Scheme, rawPath: string)
    requires ParseTail(scheme, rawPath).Ok?
    ensures var address := ParseTail(scheme, rawPath).value;
            && address.scheme == scheme && IsPath(address.path) && Fits(address.scheme, address.authority)
            && (address.authority.Owners? ==> address.path == "")
            && FormatParsedContextUri(address.scheme, address.path, address.authority) == Ok(address.normalized)
  {
    AuthorityFits(scheme, rawPath);
    var all := Kept(Split(rawPath));
    var segments := ParseAuthority(scheme, rawPath).value.1;
    forall i | 0 <= i < |segments| ensures IsSegment(segments[i]) {
      KeptIsSlashless(rawPath, if segments == all then i else i + 1);
      assert !StartsWithChar(segments[i], '@') && !StartsWithChar(segments[i], '~');
    }
    if segments != [] { SplitOfJoin(segments); }
  }

  // ------------------------------------------------------------------------------------------
  // Parsing undoes formatting
  // ------------------------------------------------------------------------------------------

  lemma {:induction false} RunOfScheme(text: string, rest: string)
    requires forall i :: 0 <= i < |text| ==> IsSchemeChar(text[i])
    requires rest == "" || !IsSchemeChar(rest[0])
    ensures SchemeRun(text + rest) == |text|
  {
    if text == "" {
      assert text + rest == rest;
    } else {
      assert (text + rest)[1..] == text[1..] + rest;
      RunOfScheme(text[1..], rest);
    }
  }

  lemma SplitOfFull(scheme: Scheme, tail: string)
    ensures SplitScheme(Front(scheme) + tail) == if OneLine(tail) then Full(SchemeText(scheme), tail) else Broken
  {
    var text := SchemeText(scheme);
    var s := Front(scheme) + tail;
    assert s == text + ("://" + tail);
    RunOfScheme(text, "://" + tail);
    assert s[|text|..|text| + 3] == "://" && s[|text| + 3..] == tail && s[..|text|] == text;
  }

  /** What a normalized address needs to survive being written out and read again. */
  predicate Storable(path: string) {
    OneLine(path) && !EndsInSpace(path)
  }

  predicate HasHandle(authority: Authority) {
    authority.Lineage? || authority.Chat? || authority.Work?
  }

  function HandleOf(authority: Authority): string
    requires HasHandle(authority)
  {
    match authority
    case Lineage(ref) => ref
    case Chat(ref) => ref
    case Work(handle) => handle
  }

  lemma HandleIsPlain(handle: string)
    requires HandleShaped(handle)
    ensures Slashless(handle) && OneLine(handle) && !IsSpace(handle[|handle| - 1])
  {
  }

  /** The segments of what follows the scheme: the qualifier, then the path's. */
  lemma TailSegments(path: string, authority: Authority)
    requires IsPath(path) && HasHandle(authority) && HandleShaped(HandleOf(authority))
    ensures Kept(Split("@" + HandleOf(authority) + "/" + path)) ==
            ["@" + HandleOf(authority)] + (if path == "" then [] else Split(path))
  {
    var q := "@" + HandleOf(authority);
    HandleIsPlain(HandleOf(authority));
    SplitAtSlash(q, path);
    var all := [q] + Split(path);
    assert all[1..] == Split(path);
    if path == "" {
      assert Kept([""]) == [];
    } else {
      KeptAll(Split(path));
    }
  }

  lemma NoneReserved(path: string)
    requires IsPath(path) && path != ""
    ensures ".." !in Split(path) && !SomeStartsWith(Split(path), '@') && !SomeStartsWith(Split(path), '~')
    ensures Kept(Split(path)) == Split(path) && Join(Split(path)) == path
  {
    JoinOfSplit(path);
    KeptAll(Split(path));
  }

  function SegmentsOf(path: string): seq<string> {
    if path == "" then [] else Split(path)
  }

  lemma HandleAuthority(scheme: Scheme, path: string, authority: Authority)
    requires IsPath(path) && Fits(scheme, authority) && HasHandle(authority)
    ensures ParseAuthority(scheme, "@" + HandleOf(authority) + "/" + path) == Ok((authority, SegmentsOf(path)))
  {
    TailSegments(path, authority);
    var handle := HandleOf(authority);
    var q := "@" + handle;
    assert q[1..] == handle && ([q] + SegmentsOf(path))[1..] == SegmentsOf(path);
    assert q != "@" by { assert |q| == 1 + |handle|; }
    assert OwnerAuthority(scheme, handle) == Some(authority);
    if path != "" { NoneReserved(path); }
    var all := Kept(Split("@" + handle + "/" + path));
    assert all == [q] + SegmentsOf(path);
  }

  lemma ParsedAuthority(scheme: Scheme, path: string, authority: Authority)
    requires IsPath(path) && Fits(scheme, authority) && (authority.Owners? ==> path == "")
    ensures ParseAuthority(scheme, Tail(path, authority, OwnerQualifier(authority).value)) == Ok((authority, SegmentsOf(path)))
  {
    match authority
    case Contextual =>
      if path != "" { NoneReserved(path); } else { assert Kept(Split("")) == []; }
    case Owners =>
      SplitOfSegment("@");
      assert Kept(["@"]) == ["@"];
    case _ =>
      HandleAuthority(scheme, path, authority);
  }

  lemma ParsedTail(scheme: Scheme, path: string, authority: Authority)
    requires IsPath(path) && Fits(scheme, authority) && (authority.Owners? ==> path == "")
    ensures var tail := Tail(path, authority, OwnerQualifier(authority).value);
            ParseTail(scheme, tail) == Ok(Address(scheme, authority, path, Front(scheme) + tail))
  {
    ParsedAuthority(scheme, path, authority);
    if path != "" { NoneReserved(path); }
  }

  lemma {:induction false} TrimEndOfBoth(a: string, b: string)
    requires a != "" && !IsSpace(a[|a| - 1])
    ensures TrimEnd(a + b) == a + TrimEnd(b)
  {
    if b == "" {
      assert a + b == a;
    } else {
      var n := |b| - 1;
      assert (a + b)[|a + b| - 1] == b[n];
      assert (a + b)[..|a| + n] == a + b[..n];
      if IsSpace(b[n]) { TrimEndOfBoth(a, b[..n]); }
    }
  }

  /** Reading a full address is reading what follows its scheme, trimmed. */
  lemma FullIsTail(scheme: Scheme, tail: string)
    ensures ParseContextUri(Front(scheme) + tail) ==
            if OneLine(TrimEnd(tail)) then ParseTail(scheme, TrimEnd(tail)) else Err(Malformed)
  {
    TrimOfFull(scheme, tail);
    SplitOfFull(scheme, TrimEnd(tail));
    SchemeIsKnown(scheme);
  }

  lemma TrimOfFull(scheme: Scheme, tail: string)
    ensures Trim(Front(scheme) + tail) == Front(scheme) + TrimEnd(tail)
  {
    assert TrimStart(Front(scheme) + tail) == Front(scheme) + tail;
    TrimEndOfBoth(Front(scheme), tail);
  }

  lemma SchemeIsKnown(scheme: Scheme)
    ensures SchemeOf(SchemeText(scheme)) == Some(scheme)
  {
  }

  lemma TailIsStorable(path: string, authority: Authority)
    requires OwnerQualifier(authority).Ok? && (authority.Owners? ==> path == "")
    ensures var tail := Tail(path, authority, OwnerQualifier(authority).value);
            && (OneLine(tail) <==> OneLine(path)) && (EndsInSpace(tail) <==> EndsInSpace(path))
  {
    if HasHandle(authority) {
      HandleIsPlain(HandleOf(authority));
      var q := "@" + HandleOf(authority) + "/";
      assert Tail(path, authority, OwnerQualifier(authority).value) == q + path;
      FrontIsStorable(q, path);
    }
  }

  lemma FrontIsStorable(front: string, path: string)
    requires OneLine(front) && front != "" && !IsSpace(front[|front| - 1])
    ensures (OneLine(front + path) <==> OneLine(path)) && (EndsInSpace(front + path) <==> EndsInSpace(path))
  {
    var all := front + path;
    assert forall i :: 0 <= i < |front| ==> all[i] == front[i];
    assert forall i :: 0 <= i < |path| ==> all[|front| + i] == path[i];
  }

  lemma {:induction false} KeptIsShorter(s: string)
    ensures |Join(Kept(Split(s)))| <= |s|
  {
    JoinOfSplit(s);
    KeptJoinIsShorter(Split(s));
  }

  lemma {:induction false} KeptJoinIsShorter(segments: seq<string>)
    ensures |Join(Kept(segments))| <= |Join(segments)|
  {
    if |segments| > 1 {
      KeptJoinIsShorter(segments[1..]);
      var kept := Kept(segments);
      if segments[0] != "" && segments[0] != "." {
        assert kept == [segments[0]] + Kept(segments[1..]);
        assert kept[1..] == Kept(segments[1..]);
      } else {
        assert kept == Kept(segments[1..]);
      }
    } else if |segments| == 1 {
      assert Kept(segments[1..]) == [];
    }
  }

  /** What is read is no longer than what was written. */
  lemma ParsedIsShorter(scheme: Scheme, tail: string)
    requires ParseTail(scheme, tail).Ok?
    ensures var address := ParseTail(scheme, tail).value;
            |address.path| + (if HasHandle(address.authority) && address.path != "" then |HandleOf(address.authority)| + 2 else 0) <= |tail|
  {
    AuthorityFits(scheme, tail);
    KeptIsShorter(tail);
    var (authority, segments) := ParseAuthority(scheme, tail).value;
    DividedIsShorter(Kept(Split(tail)), authority, segments);
    ParsedParts(scheme, tail, authority, segments);
  }

  /** What an address is made of. */
  lemma ParsedParts(scheme: Scheme, tail: string, authority: Authority, segments: seq<string>)
    requires ParseTail(scheme, tail).Ok? && ParseAuthority(scheme, tail) == Ok((authority, segments))
    ensures ParseTail(scheme, tail).value.authority == authority && ParseTail(scheme, tail).value.path == Join(segments)
  {
  }

  lemma DividedIsShorter(all: seq<string>, authority: Authority, segments: seq<string>)
    requires Divides(all, authority, segments)
    ensures |Join(segments)| + (if HasHandle(authority) && Join(segments) != "" then |HandleOf(authority)| + 2 else 0) <= |Join(all)|
  {
    if segments != all && segments != [] {
      assert Join(all) == all[0] + "/" + Join(segments);
    }
  }

  /**
   * Parsing undoes formatting exactly for the paths with no line terminator and no white space at
   * the end: the pattern for a full address stops at the one, and trimming takes the other away.
   */
  lemma ParseUndoesFormat(scheme: Scheme, path: string, authority: Authority)
    requires IsPath(path) && Fits(scheme, authority) && (authority.Owners? ==> path == "")
    ensures var formatted := FormatParsedContextUri(scheme, path, authority);
            && formatted.Ok?
            && (ParseContextUri(formatted.value) == Ok(Address(scheme, authority, path, formatted.value)) <==> Storable(path))
  {
    var tail := Tail(path, authority, OwnerQualifier(authority).value);
    FullIsTail(scheme, tail);
    TailIsStorable(path, authority);
    if EndsInSpace(path) {
      if OneLine(TrimEnd(tail)) && ParseTail(scheme, TrimEnd(tail)).Ok? { ParsedIsShorter(scheme, TrimEnd(tail)); }
    } else {
      assert TrimEnd(tail) == tail;
      ParsedTail(scheme, path, authority);
    }
  }
}
