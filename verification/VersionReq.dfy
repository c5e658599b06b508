/** Version requirements rewritten to a normal form, and the framing of an upload. */
module VersionReq {
  import opened Basics
  import opened Joining

  // ---- the grammar of one comparator ----

  /** What strip and \s take for blank: Unicode's white space, and four separators. */
  predicate Blank(c: char) {
    || 0x09 <= c as int <= 0x0D || 0x1C <= c as int <= 0x20
    || c as int in {0x85, 0xA0, 0x1680, 0x2028, 0x2029, 0x202F, 0x205F, 0x3000}
    || 0x2000 <= c as int <= 0x200A
  }

  predicate Digit(c: char) {
    '0' <= c <= '9'
  }

  predicate Wild(c: char) {
    c == 'x' || c == 'X' || c == '*'
  }

  predicate IdentChar(c: char) {
    Digit(c) || 'A' <= c <= 'Z' || 'a' <= c <= 'z' || c == '-'
  }

  predicate IsOp(op: string) {
    op == "" || op == ">=" || op == "<=" || op == ">" || op == "<" || op == "=" || op == "^" || op == "~"
  }

  predicate AllDigits(s: string) {
    forall k :: 0 <= k < |s| ==> Digit(s[k])
  }

  predicate IsWild(piece: string) {
    |piece| == 1 && Wild(piece[0])
  }

  predicate IsPiece(piece: string) {
    (piece != "" && AllDigits(piece)) || IsWild(piece)
  }

  predicate ArePieces(pieces: seq<string>) {
    forall k :: 0 <= k < |pieces| ==> IsPiece(pieces[k])
  }

  /** Identifiers with single dots between them. */
  predicate Dotted(s: string) {
    && s != "" && IdentChar(s[0])
    && (|s| == 1 || Dotted(s[1..]) || (s[1] == '.' && Dotted(s[2..])))
  }

  /** A prerelease with its dash, or nothing. */
  predicate IsPre(s: string) {
    s == "" || (s[0] == '-' && Dotted(s[1..]))
  }

  datatype Comparator = Comparator(op: string, pieces: seq<string>, pre: string)

  predicate WellFormed(c: Comparator) {
    && IsOp(c.op) && IsPre(c.pre)
    && 1 <= |c.pieces| <= 3 && ArePieces(c.pieces)
  }

  predicate AllBlank(s: string) {
    forall k :: 0 <= k < |s| ==> Blank(s[k])
  }

  /** The regular expression, as the texts it matches and the groups it then sets. */
  ghost predicate Matches(part: string, c: Comparator) {
    WellFormed(c) && exists gap :: AllBlank(gap) && part == c.op + gap + Join(c.pieces, '.') + c.pre
  }

  // ---- matching it, from the left ----

  function OpLength(s: string): (n: nat)
    ensures n <= |s| && IsOp(s[..n])
  {
    if |s| >= 2 && (s[0] == '>' || s[0] == '<') && s[1] == '=' then assert s[..2] == [s[0], s[1]]; 2
    else if |s| >= 1 && (s[0] == '>' || s[0] == '<' || s[0] == '=' || s[0] == '^' || s[0] == '~')
    then assert s[..1] == [s[0]]; 1
    else 0
  }

  function Blanks(s: string): (n: nat)
    ensures n <= |s| && (forall k :: 0 <= k < n ==> Blank(s[k])) && (n == |s| || !Blank(s[n]))
  {
    if s == "" || !Blank(s[0]) then 0 else 1 + Blanks(s[1..])
  }

  function Digits(s: string): (n: nat)
    ensures n <= |s| && (forall k :: 0 <= k < n ==> Digit(s[k])) && (n == |s| || !Digit(s[n]))
  {
    if s == "" || !Digit(s[0]) then 0 else 1 + Digits(s[1..])
  }

  /** How long the piece at the head of s is; 0 if there is none. */
  function PieceLength(s: string): (n: nat)
    ensures n <= |s| && (n > 0 ==> IsPiece(s[..n]))
  {
    if Digits(s) > 0 then Digits(s) else if s != "" && Wild(s[0]) then 1 else 0
  }

  /** Up to most pieces, dots between them, and what follows. */
  function ReadPieces(s: string, most: nat): (seq<string>, string)
    decreases most
  {
    var n := PieceLength(s);
    if most == 0 || n == 0 then ([], s)
    else if most > 1 && n < |s| && s[n] == '.' && PieceLength(s[n + 1..]) > 0 then
      var more := ReadPieces(s[n + 1..], most - 1);
      ([s[..n]] + more.0, more.1)
    else ([s[..n]], s[n..])
  }

  function Parse(part: string): Option<Comparator> {
    var op, rest := part[..OpLength(part)], part[OpLength(part)..];
    var read := ReadPieces(rest[Blanks(rest)..], 3);
    if read.0 == [] || !IsPre(read.1) then None else Some(Comparator(op, read.0, read.1))
  }

  lemma JoinOneMore(first: string, more: seq<string>, rest: string)
    requires more != []
    ensures Join([first] + more, '.') + rest == first + "." + (Join(more, '.') + rest)
  {
    assert ([first] + more)[1..] == more;
  }

  lemma Rejoined(s: string, n: nat, more: seq<string>, rest: string)
    requires n < |s| && s[n] == '.' && more != [] && s[n + 1..] == Join(more, '.') + rest
    ensures s == Join([s[..n]] + more, '.') + rest
  {
    JoinOneMore(s[..n], more, rest);
  }

  lemma OnePiece(s: string, n: nat)
    requires n <= |s| && IsPiece(s[..n])
    ensures s == Join([s[..n]], '.') + s[n..] && ArePieces([s[..n]])
  {
  }

  lemma MorePieces(piece: string, more: seq<string>)
    requires IsPiece(piece) && ArePieces(more)
    ensures ArePieces([piece] + more)
  {
  }

  lemma {:induction false} PiecesRead(s: string, most: nat)
    requires ReadPieces(s, most).0 != []
    ensures var (pieces, rest) := ReadPieces(s, most);
            s == Join(pieces, '.') + rest && |pieces| <= most && ArePieces(pieces)
    decreases most
  {
    var n := PieceLength(s);
    if most > 1 && n < |s| && s[n] == '.' && PieceLength(s[n + 1..]) > 0 {
      PiecesRead(s[n + 1..], most - 1);
      var (more, rest) := ReadPieces(s[n + 1..], most - 1);
      Rejoined(s, n, more, rest);
      MorePieces(s[..n], more);
    } else {
      OnePiece(s, n);
    }
  }

  lemma {:induction false} PieceStops(piece: string, tail: string)
    requires IsPiece(piece) && (tail == "" || !Digit(tail[0]))
    ensures PieceLength(piece + tail) == |piece|
    ensures (piece + tail)[..|piece|] == piece && (piece + tail)[|piece|..] == tail
  {
    assert forall k :: 0 <= k < |piece| ==> (piece + tail)[k] == piece[k];
    assert tail != "" ==> (piece + tail)[|piece|] == tail[0];
  }

  lemma ReadLast(piece: string, pre: string, most: nat)
    requires IsPiece(piece) && IsPre(pre) && most >= 1
    ensures ReadPieces(piece + pre, most) == ([piece], pre)
  {
    PieceStops(piece, pre);
    assert pre != "" ==> (piece + pre)[|piece|] == '-';
  }

  lemma ReadOneMore(piece: string, rest: string, most: nat)
    requires IsPiece(piece) && PieceLength(rest) > 0 && most > 1
    ensures ReadPieces(piece + "." + rest, most) == ([piece] + ReadPieces(rest, most - 1).0, ReadPieces(rest, most - 1).1)
  {
    var s := piece + "." + rest;
    assert s == piece + ("." + rest);
    PieceStops(piece, "." + rest);
    assert s[|piece|] == '.' && s[|piece| + 1..] == rest;
  }

  predicate ReadsBack(pieces: seq<string>, pre: string, most: nat) {
    ReadPieces(Join(pieces, '.') + pre, most) == (pieces, pre)
  }

  lemma LastReadsBack(piece: string, pre: string, most: nat)
    requires IsPiece(piece) && IsPre(pre) && most >= 1
    ensures ReadsBack([piece], pre, most)
  {
    ReadLast(piece, pre, most);
  }

  lemma MoreReadBack(piece: string, rest: seq<string>, pre: string, most: nat)
    requires IsPiece(piece) && rest != [] && most > 1 && ReadsBack(rest, pre, most - 1)
    ensures ReadsBack([piece] + rest, pre, most)
  {
    StartsWithPiece(rest, pre, most - 1);
    ReadOneMore(piece, Join(rest, '.') + pre, most);
    JoinOneMore(piece, rest, pre);
  }

  lemma FirstAndRest(pieces: seq<string>)
    requires pieces != []
    ensures pieces == [pieces[0]] + pieces[1..]
    ensures |pieces| == 1 ==> pieces == [pieces[0]]
  {
  }

  lemma StartsWithPiece(pieces: seq<string>, pre: string, most: nat)
    requires pieces != [] && ReadsBack(pieces, pre, most)
    ensures PieceLength(Join(pieces, '.') + pre) > 0
  {
  }

  lemma {:induction false} PiecesReadBack(pieces: seq<string>, pre: string, most: nat)
    requires 1 <= |pieces| <= most && IsPre(pre) && ArePieces(pieces)
    ensures ReadsBack(pieces, pre, most)
    decreases most
  {
    FirstAndRest(pieces);
    if |pieces| == 1 {
      LastReadsBack(pieces[0], pre, most);
    } else {
      PiecesReadBack(pieces[1..], pre, most - 1);
      MoreReadBack(pieces[0], pieces[1..], pre, most);
    }
  }

  /** Matching from the left accepts the grammar, and reads each text in the only way. */
  lemma ParseIffMatches(part: string, c: Comparator)
    ensures Parse(part) == Some(c) <==> Matches(part, c)
  {
    if Parse(part) == Some(c) {
      ParseSound(part, c);
    }
    if Matches(part, c) {
      var gap :| AllBlank(gap) && part == c.op + gap + Join(c.pieces, '.') + c.pre;
      ParseComplete(gap, c);
    }
  }

  lemma ParseSound(part: string, c: Comparator)
    requires Parse(part) == Some(c)
    ensures Matches(part, c)
  {
    var rest := part[OpLength(part)..];
    var gap, body := rest[..Blanks(rest)], rest[Blanks(rest)..];
    PiecesRead(body, 3);
    Reassembled(part, OpLength(part), Blanks(rest), Join(c.pieces, '.'), c.pre);
    MatchesWith(part, gap, c);
  }

  lemma MatchesWith(part: string, gap: string, c: Comparator)
    requires WellFormed(c) && AllBlank(gap) && part == c.op + gap + Join(c.pieces, '.') + c.pre
    ensures Matches(part, c)
  {
  }

  lemma Reassembled(s: string, i: nat, j: nat, head: string, tail: string)
    requires i + j <= |s| && s[i..][j..] == head + tail
    ensures s == s[..i] + s[i..][..j] + head + tail
  {
    CutAt(s, i);
    CutAt(s[i..], j);
    Associates(s[..i], s[i..][..j], head + tail);
    Associates(s[..i] + s[i..][..j], head, tail);
  }

  lemma CutAt(s: string, i: nat)
    requires i <= |s|
    ensures s == s[..i] + s[i..]
  {
  }

  predicate AtBody(s: string) {
    s != "" && (Digit(s[0]) || Wild(s[0]))
  }

  lemma ParseComplete(gap: string, c: Comparator)
    requires WellFormed(c) && AllBlank(gap)
    ensures Parse(c.op + gap + Join(c.pieces, '.') + c.pre) == Some(c)
  {
    var body := Join(c.pieces, '.') + c.pre;
    assert IsPiece(c.pieces[0]) && body[0] == c.pieces[0][0];
    assert AtBody(body);
    var part := c.op + gap + Join(c.pieces, '.') + c.pre;
    assert part == c.op + (gap + body);
    OpStops(c.op, gap + body);
    assert part[..|c.op|] == c.op && part[|c.op|..] == gap + body;
    BlanksStop(gap, body);
    PiecesReadBack(c.pieces, c.pre, 3);
  }

  lemma OpStops(op: string, rest: string)
    requires IsOp(op) && rest != "" && (Blank(rest[0]) || AtBody(rest))
    ensures OpLength(op + rest) == |op|
  {
  }

  lemma BlanksStop(gap: string, body: string)
    requires AllBlank(gap) && body != "" && !Blank(body[0])
    ensures Blanks(gap + body) == |gap| && (gap + body)[|gap|..] == body
  {
    assert forall k :: 0 <= k < |gap| ==> (gap + body)[k] == gap[k];
    assert (gap + body)[|gap|] == body[0];
  }

  // ---- the normal form ----

  function FirstWild(pieces: seq<string>): (f: nat)
    ensures f <= |pieces| && (f < |pieces| ==> IsWild(pieces[f]))
    ensures forall k :: 0 <= k < f ==> !IsWild(pieces[k])
  {
    if pieces == [] || IsWild(pieces[0]) then 0 else 1 + FirstWild(pieces[1..])
  }

  /** What is accepted beyond the grammar. */
  predicate Allowed(c: Comparator) {
    var f := FirstWild(c.pieces);
    && (forall k :: 0 <= k < |c.pieces| ==> !(|c.pieces[k]| > 1 && c.pieces[k][0] == '0'))
    && if f < |c.pieces|
       then c.op == "" && c.pre == "" && forall k :: f <= k < |c.pieces| ==> IsWild(c.pieces[k])
       else c.pre != "" ==> |c.pieces| == 3
  }

  /** The caret made explicit, and wildcards collapsed to one star. */
  function Canonical(c: Comparator): Comparator {
    var f := FirstWild(c.pieces);
    if f < |c.pieces| then Comparator("", c.pieces[..f] + ["*"], "")
    else Comparator(if c.op == "" then "^" else c.op, c.pieces, c.pre)
  }

  function Show(c: Comparator): string {
    c.op + Join(c.pieces, '.') + c.pre
  }

  function StripEnd(s: string): string {
    if s != "" && Blank(s[|s| - 1]) then StripEnd(s[..|s| - 1]) else s
  }

  function Strip(s: string): string {
    StripEnd(s[Blanks(s)..])
  }

  function ReadPart(part: string): Option<Comparator> {
    var c := Parse(Strip(part));
    if c.Some? && Allowed(c.value) then c else None
  }

  /** What read makes of every part; nothing if it refuses one. */
  function AllRead<C>(read: string -> Option<C>, parts: seq<string>): Option<seq<C>> {
    if parts == [] then Some([])
    else
      var before, last := AllRead(read, parts[..|parts| - 1]), read(parts[|parts| - 1]);
      if before == None || last == None then None else Some(before.value + [last.value])
  }

  function Each<A, B>(f: A -> B, xs: seq<A>): (ys: seq<B>)
    ensures |ys| == |xs| && forall k :: 0 <= k < |xs| ==> ys[k] == f(xs[k])
  {
    seq(|xs|, k requires 0 <= k < |xs| => f(xs[k]))
  }

  /** The comparators of an accepted text. */
  function Comparators(text: string): Option<seq<Comparator>> {
    AllRead(ReadPart, SplitBy(text, ','))
  }

  /** ", ".join(bodies) */
  function Listed(bodies: seq<string>): string {
    if bodies == [] then "" else if |bodies| == 1 then bodies[0] else bodies[0] + "," + (" " + Listed(bodies[1..]))
  }

  function Body(c: Comparator): string {
    Show(Canonical(c))
  }

  function Normal(text: string): Option<string> {
    var cs := Comparators(text);
    if cs == None then None else Some(Listed(Each(Body, cs.value)))
  }

  method VersionReq(text: string) returns (r: Option<string>)
    ensures r == Normal(text)
  {
    var parts := SplitBy(text, ',');
    var result := [];
    ghost var cs := [];
    for i := 0 to |parts|
      invariant AllRead(ReadPart, parts[..i]) == Some(cs) && result == Each(Body, cs)
    {
      OneMoreRead(ReadPart, parts, i, cs);
      var c := ReadPart(parts[i]);
      if c == None {
        return None;
      }
      OneMoreEach(Body, cs, c.value);
      result := result + [Body(c.value)];
      cs := cs + [c.value];
    }
    assert parts[..|parts|] == parts;
    return Some(Listed(result));
  }

  lemma OneMoreEach<A, B>(f: A -> B, xs: seq<A>, x: A)
    ensures Each(f, xs + [x]) == Each(f, xs) + [f(x)]
  {
  }

  lemma {:induction false} OneMoreRead<C>(read: string -> Option<C>, parts: seq<string>, i: nat, cs: seq<C>)
    requires i < |parts| && AllRead(read, parts[..i]) == Some(cs)
    ensures read(parts[i]).Some? ==> AllRead(read, parts[..i + 1]) == Some(cs + [read(parts[i]).value])
    ensures read(parts[i]) == None ==> AllRead(read, parts) == None
  {
    assert parts[..i + 1][..i] == parts[..i];
    if read(parts[i]) == None {
      RefusedStays(read, parts, i);
    }
  }

  lemma {:induction false} RefusedStays<C>(read: string -> Option<C>, parts: seq<string>, i: nat)
    requires i < |parts| && read(parts[i]) == None
    ensures AllRead(read, parts) == None
  {
    if i < |parts| - 1 {
      RefusedStays(read, parts[..|parts| - 1], i);
    }
  }

  lemma {:induction false} AllReadIff<C>(read: string -> Option<C>, parts: seq<string>, cs: seq<C>)
    ensures AllRead(read, parts) == Some(cs)
       <==> |cs| == |parts| && forall k :: 0 <= k < |parts| ==> read(parts[k]) == Some(cs[k])
  {
    if parts != [] {
      var n := |parts| - 1;
      if |cs| == |parts| {
        AllReadIff(read, parts[..n], cs[..n]);
        assert cs == cs[..n] + [cs[n]];
      }
      if AllRead(read, parts[..n]).Some? {
        AllReadIff(read, parts[..n], AllRead(read, parts[..n]).value);
      }
    }
  }

  // ---- its laws ----

  predicate Solid(s: string) {
    forall k :: 0 <= k < |s| ==> !Blank(s[k]) && s[k] != ','
  }

  lemma {:induction false} DottedIsSolid(s: string)
    requires Dotted(s)
    ensures Solid(s)
  {
    if |s| > 1 {
      if Dotted(s[1..]) {
        DottedIsSolid(s[1..]);
        assert s == [s[0]] + s[1..];
      } else {
        DottedIsSolid(s[2..]);
        assert s == [s[0], s[1]] + s[2..];
      }
    }
  }

  lemma {:induction false} PiecesAreSolid(pieces: seq<string>)
    requires ArePieces(pieces)
    ensures Solid(Join(pieces, '.')) && (pieces != [] ==> Join(pieces, '.') != "")
  {
    if pieces != [] {
      assert IsPiece(pieces[0]) && Solid(pieces[0]);
      PiecesAreSolid(pieces[1..]);
    }
  }

  lemma ShownIsSolid(c: Comparator)
    requires WellFormed(c)
    ensures Solid(Show(c)) && Show(c) != ""
  {
    PiecesAreSolid(c.pieces);
    assert Solid(c.op);
    if c.pre != "" {
      DottedIsSolid(c.pre[1..]);
      assert c.pre == [c.pre[0]] + c.pre[1..];
    }
  }

  lemma StripOfSolid(lead: string, s: string)
    requires AllBlank(lead) && Solid(s) && s != ""
    ensures Strip(lead + s) == s
  {
    BlanksStop(lead, s);
  }

  lemma ReadIsWellFormed(part: string, c: Comparator)
    ensures ReadPart(part) == Some(c) ==> WellFormed(c) && Allowed(c)
  {
    ParseIffMatches(Strip(part), c);
  }

  lemma WildAt(plain: seq<string>, wild: string)
    requires IsWild(wild) && forall k :: 0 <= k < |plain| ==> !IsWild(plain[k])
    ensures FirstWild(plain + [wild]) == |plain|
  {
    var pieces := plain + [wild];
    assert pieces[|plain|] == wild && forall k :: 0 <= k < |plain| ==> pieces[k] == plain[k];
  }

  /** A canonical comparator is well formed, allowed and its own canonical form. */
  lemma CanonicalIsCanonical(c: Comparator)
    requires WellFormed(c) && Allowed(c)
    ensures WellFormed(Canonical(c)) && Allowed(Canonical(c)) && Canonical(Canonical(c)) == Canonical(c)
  {
    var f, d := FirstWild(c.pieces), Canonical(c);
    if f < |c.pieces| {
      assert IsWild("*");
      WildAt(c.pieces[..f], "*");
    }
  }

  lemma ShownReads(lead: string, c: Comparator)
    requires AllBlank(lead) && WellFormed(c) && Allowed(c)
    ensures ReadPart(lead + Show(c)) == Some(c)
  {
    ShownIsSolid(c);
    StripOfSolid(lead, Show(c));
    ParseComplete("", c);
    assert c.op + "" == c.op;
  }

  /** The parts a listing splits into: all but the first with a blank in front. */
  function Spaced(lead: string, bodies: seq<string>): seq<string> {
    seq(|bodies|, k requires 0 <= k < |bodies| => (if k == 0 then lead else " ") + bodies[k])
  }

  lemma SpacedMore(lead: string, bodies: seq<string>)
    requires bodies != []
    ensures Spaced(lead, bodies) == [lead + bodies[0]] + Spaced(" ", bodies[1..])
  {
  }

  lemma ListedMore(lead: string, bodies: seq<string>)
    requires |bodies| > 1
    ensures lead + Listed(bodies) == (lead + bodies[0]) + "," + (" " + Listed(bodies[1..]))
  {
  }

  lemma {:induction false} ListedSplits(lead: string, bodies: seq<string>)
    requires bodies != [] && Without(lead, ',') && forall k :: 0 <= k < |bodies| ==> Without(bodies[k], ',')
    ensures SplitBy(lead + Listed(bodies), ',') == Spaced(lead, bodies)
    decreases |bodies|
  {
    var first := lead + bodies[0];
    SpacedMore(lead, bodies);
    if |bodies| == 1 {
      SplitUndoesJoin([first], ',');
    } else {
      ListedMore(lead, bodies);
      ListedSplits(" ", bodies[1..]);
      SplitOffFirst(first, ',', " " + Listed(bodies[1..]));
    }
  }

  /** If every shown form is solid and reads back, blank in front or not, so does their list. */
  lemma ListReadsBack<C>(read: string -> Option<C>, show: C -> string, cs: seq<C>, ds: seq<C>)
    requires |cs| == |ds| > 0
    requires forall k :: 0 <= k < |cs| ==> ShowsAs(read, show, cs[k], ds[k])
    ensures AllRead(read, SplitBy(Listed(Each(show, cs)), ',')) == Some(ds)
  {
    var bodies := Each(show, cs);
    forall k | 0 <= k < |cs|
      ensures Without(bodies[k], ',') && read(Spaced("", bodies)[k]) == Some(ds[k])
    {
      assert ShowsAs(read, show, cs[k], ds[k]);
      assert "" + bodies[k] == bodies[k];
    }
    ListedSplits("", bodies);
    assert "" + Listed(bodies) == Listed(bodies);
    AllReadIff(read, Spaced("", bodies), ds);
  }

  predicate ShowsAs<C(==)>(read: string -> Option<C>, show: C -> string, c: C, d: C) {
    Solid(show(c)) && read(show(c)) == Some(d) && read(" " + show(c)) == Some(d)
  }

  lemma BodyReads(part: string, c: Comparator)
    requires ReadPart(part) == Some(c)
    ensures ShowsAs(ReadPart, Body, c, Canonical(c)) && Body(Canonical(c)) == Body(c)
  {
    ReadIsWellFormed(part, c);
    CanonicalIsCanonical(c);
    CanonicalReads(c, Canonical(c));
  }

  lemma TextReads(d: Comparator)
    requires WellFormed(d) && Allowed(d)
    ensures ReadPart(Show(d)) == Some(d)
  {
    ShownReads("", d);
    assert "" + Show(d) == Show(d);
  }

  lemma SpacedTextReads(d: Comparator)
    requires WellFormed(d) && Allowed(d)
    ensures ReadPart(" " + Show(d)) == Some(d)
  {
    ShownReads(" ", d);
  }

  lemma ShowsAsBoth<C>(read: string -> Option<C>, show: C -> string, c: C, d: C, text: string)
    requires text == show(c) && Solid(text) && read(text) == Some(d) && read(" " + text) == Some(d)
    ensures ShowsAs(read, show, c, d)
  {
  }

  lemma CanonicalReads(c: Comparator, d: Comparator)
    requires WellFormed(d) && Allowed(d) && Body(c) == Show(d)
    ensures ShowsAs(ReadPart, Body, c, d)
  {
    ShownIsSolid(d);
    TextReads(d);
    SpacedTextReads(d);
    ShowsAsBoth(ReadPart, Body, c, d, Show(d));
  }

  lemma EveryBodyReads(text: string, cs: seq<Comparator>)
    requires Comparators(text) == Some(cs)
    ensures |cs| > 0 && forall k :: 0 <= k < |cs| ==>
              ShowsAs(ReadPart, Body, cs[k], Canonical(cs[k])) && Body(Canonical(cs[k])) == Body(cs[k])
  {
    var parts := SplitBy(text, ',');
    AllReadIff(ReadPart, parts, cs);
    forall k | 0 <= k < |cs|
      ensures ShowsAs(ReadPart, Body, cs[k], Canonical(cs[k])) && Body(Canonical(cs[k])) == Body(cs[k])
    {
      BodyReads(parts[k], cs[k]);
    }
  }

  /** The result says what the text said: it is accepted, and its comparators are the
      text's, up to the default caret and collapsed wildcards. */
  lemma NormalMeansTheSame(text: string)
    ensures var cs, r := Comparators(text), Normal(text);
            if cs == None then r == None
            else r.Some? && Comparators(r.value) == Some(Each(Canonical, cs.value))
  {
    if Comparators(text).Some? {
      var cs := Comparators(text).value;
      EveryBodyReads(text, cs);
      ListReadsBack(ReadPart, Body, cs, Each(Canonical, cs));
    }
  }

  lemma EachTwice<A, B>(f: A -> B, g: A -> A, xs: seq<A>)
    requires forall k :: 0 <= k < |xs| ==> f(g(xs[k])) == f(xs[k])
    ensures Each(f, Each(g, xs)) == Each(f, xs)
  {
  }

  /** Normalizing twice is normalizing once. */
  lemma NormalIsIdempotent(text: string)
    ensures var r := Normal(text);
            r.Some? ==> Normal(r.value) == r
  {
    if Comparators(text).Some? {
      var cs := Comparators(text).value;
      NormalMeansTheSame(text);
      EveryBodyReads(text, cs);
      EachTwice(Body, Canonical, cs);
    }
  }

  /** It is a normal form: two accepted texts get the same one exactly when they say the
      same. */
  lemma SameNormalIff(t1: string, t2: string)
    ensures var cs, ds := Comparators(t1), Comparators(t2);
            cs.Some? && ds.Some? ==>
              (Normal(t1) == Normal(t2) <==> Each(Canonical, cs.value) == Each(Canonical, ds.value))
  {
    NormalMeansTheSame(t1);
    NormalMeansTheSame(t2);
    var cs, ds := Comparators(t1), Comparators(t2);
    if cs.Some? && ds.Some? {
      SameBodies(cs.value, ds.value);
    }
  }

  lemma SameBodies(cs: seq<Comparator>, ds: seq<Comparator>)
    ensures Each(Canonical, cs) == Each(Canonical, ds) ==> Each(Body, cs) == Each(Body, ds)
  {
    assert forall es :: Each(Body, es) == Each(Show, Each(Canonical, es));
  }

  // ---- framing an upload ----

  /** Four bytes, the least significant first. */
  function U32(n: int): (r: Bytes)
    requires 0 <= n < 0x1_0000_0000
    ensures |r| == 4
  {
    [(n % 256) as Byte, (n / 256 % 256) as Byte, (n / 65536 % 256) as Byte, (n / 16777216) as Byte]
  }

  function ReadU32(b: Bytes): int
    requires |b| >= 4
  {
    b[0] as int + 256 * b[1] as int + 65536 * b[2] as int + 16777216 * b[3] as int
  }

  /** Little-endian, whatever the four bytes. */
  lemma LittleEndian(a: Byte, b: Byte, c: Byte, d: Byte)
    ensures U32(a as int + 256 * b as int + 65536 * c as int + 16777216 * d as int) == [a, b, c, d]
  {
    Bytewise(a as int, b as int, c as int, d as int);
  }

  const JSON_QUOTA := 0x10_0000

  /** frame_upload, from the encoded metadata on. */
  function FrameUpload(metadata: Bytes, crate: Bytes): Option<Bytes> {
    if |metadata| > JSON_QUOTA || |crate| > 0xFFFF_FFFF then None
    else Some(U32(|metadata|) + metadata + U32(|crate|) + crate)
  }

  /** A length and that many bytes off the front: the bytes, and what follows. */
  function ReadBlock(b: Bytes): Option<(Bytes, Bytes)> {
    if |b| < 4 || ReadU32(b) > |b| - 4 then None
    else Some((b[4..4 + ReadU32(b)], b[4 + ReadU32(b)..]))
  }

  lemma U32ReadsBack(n: int, rest: Bytes)
    requires 0 <= n < 0x1_0000_0000
    ensures ReadU32(U32(n) + rest) == n
  {
    ByteSum(n);
    assert forall k :: 0 <= k < 4 ==> (U32(n) + rest)[k] == U32(n)[k];
  }

  lemma ByteSum(n: int)
    ensures n == n % 256 + 256 * (n / 256 % 256) + 65536 * (n / 65536 % 256) + 16777216 * (n / 16777216)
  {
    var high, higher := n / 256, n / 65536;
    assert higher == high / 256 && n / 16777216 == higher / 256;
    assert n == 256 * high + n % 256;
    assert high == 256 * higher + high % 256;
    assert higher == 256 * (higher / 256) + higher % 256;
  }

  lemma U32Undone(b: Bytes)
    requires |b| >= 4
    ensures 0 <= ReadU32(b) < 0x1_0000_0000 && U32(ReadU32(b)) == b[..4]
  {
    Bytewise(b[0] as int, b[1] as int, b[2] as int, b[3] as int);
  }

  lemma Bytewise(a: int, b: int, c: int, d: int)
    requires 0 <= a < 256 && 0 <= b < 256 && 0 <= c < 256 && 0 <= d < 256
    ensures var n := a + 256 * b + 65536 * c + 16777216 * d;
            n % 256 == a && n / 256 % 256 == b && n / 65536 % 256 == c && n / 16777216 == d
  {
    var n := a + 256 * b + 65536 * c + 16777216 * d;
    assert n / 256 == b + 256 * c + 65536 * d;
    assert n / 65536 == c + 256 * d;
  }

  lemma BlockReadsBack(block: Bytes, rest: Bytes)
    requires |block| < 0x1_0000_0000
    ensures ReadBlock(U32(|block|) + block + rest) == Some((block, rest))
  {
    U32ReadsBack(|block|, block + rest);
    assert U32(|block|) + block + rest == U32(|block|) + (block + rest);
  }

  lemma BlockUndone(b: Bytes)
    requires ReadBlock(b).Some?
    ensures var (block, rest) := ReadBlock(b).value;
            |block| < 0x1_0000_0000 && b == U32(|block|) + block + rest
  {
    var n := ReadU32(b);
    U32Undone(b);
    assert b == b[..4] + b[4..4 + n] + b[4 + n..];
  }

  /** A frame is exactly what reads back as two blocks and nothing more, the first within
      its quota: reading undoes framing, and framing undoes reading. */
  lemma FrameIff(metadata: Bytes, crate: Bytes, frame: Bytes)
    ensures FrameUpload(metadata, crate) == Some(frame)
       <==> |metadata| <= JSON_QUOTA && ReadBlock(frame).Some? && ReadBlock(frame).value.0 == metadata
            && ReadBlock(ReadBlock(frame).value.1) == Some((crate, []))
  {
    if FrameUpload(metadata, crate) == Some(frame) {
      var tail := U32(|crate|) + crate;
      assert frame == U32(|metadata|) + metadata + tail;
      BlockReadsBack(metadata, tail);
      assert tail == tail + [];
      BlockReadsBack(crate, []);
    }
    if ReadBlock(frame).Some? && ReadBlock(ReadBlock(frame).value.1) == Some((crate, [])) {
      BlockUndone(frame);
      BlockUndone(ReadBlock(frame).value.1);
      var (block, tail) := ReadBlock(frame).value;
      assert tail == U32(|crate|) + crate;
      assert frame == U32(|block|) + block + U32(|crate|) + crate;
    }
  }
}
