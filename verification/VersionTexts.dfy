/** Version requirements as texts: what becomes of each text, without going through what it
    is parsed into. */
module VersionTexts {
  import opened Basics
  import opened Joining
  import opened VersionReq

  predicate LeadingZero(piece: string) {
    |piece| > 1 && piece[0] == '0'
  }

  /** Numbers without leading zeros. */
  predicate Plain(pieces: seq<string>) {
    forall k :: 0 <= k < |pieces| ==> pieces[k] != "" && AllDigits(pieces[k]) && !LeadingZero(pieces[k])
  }

  predicate Wildcards(pieces: seq<string>) {
    forall k :: 0 <= k < |pieces| ==> IsWild(pieces[k])
  }

  /** One requirement as it may be written: blanks around it and behind its operator. */
  function Spelling(lead: string, op: string, gap: string, pieces: seq<string>, pre: string, trail: string): string {
    lead + (op + gap + Join(pieces, '.') + pre) + trail
  }

  predicate Blanked(lead: string, gap: string, trail: string) {
    AllBlank(lead) && AllBlank(gap) && AllBlank(trail)
  }

  // ---- stripping ----

  lemma {:induction false} StripEndIs(s: string, trail: string)
    requires s != "" && !Blank(s[|s| - 1]) && AllBlank(trail)
    ensures StripEnd(s + trail) == s
    decreases |trail|
  {
    var t := s + trail;
    if trail == "" {
      assert t == s;
    } else {
      var n := |trail| - 1;
      assert t[|t| - 1] == trail[n] && t[..|t| - 1] == s + trail[..n];
      StripEndIs(s, trail[..n]);
    }
  }

  lemma StripIs(lead: string, s: string, trail: string)
    requires AllBlank(lead) && AllBlank(trail) && s != "" && !Blank(s[0]) && !Blank(s[|s| - 1])
    ensures Strip(lead + s + trail) == s
  {
    Associates(lead, s, trail);
    assert (s + trail)[0] == s[0];
    BlanksStop(lead, s + trail);
    StripEndIs(s, trail);
  }

  // ---- one requirement ----

  lemma CoreEnds(op: string, gap: string, pieces: seq<string>, pre: string)
    requires WellFormed(Comparator(op, pieces, pre)) && AllBlank(gap) && (op == "" ==> gap == "")
    ensures var core := op + gap + Join(pieces, '.') + pre;
            core != "" && !Blank(core[0]) && !Blank(core[|core| - 1])
  {
    var body := Join(pieces, '.') + pre;
    ShownIsSolid(Comparator("", pieces, pre));
    assert Show(Comparator("", pieces, pre)) == body;
    var core := op + gap + Join(pieces, '.') + pre;
    assert core == (op + gap) + body;
    assert core[|core| - 1] == body[|body| - 1];
    assert op == "" ==> core == body;
    assert op != "" ==> core[0] == op[0];
  }

  lemma CoreIsRead(lead: string, op: string, gap: string, pieces: seq<string>, pre: string, trail: string)
    requires WellFormed(Comparator(op, pieces, pre)) && Blanked(lead, gap, trail) && (op == "" ==> gap == "")
    ensures Parse(Strip(Spelling(lead, op, gap, pieces, pre, trail))) == Some(Comparator(op, pieces, pre))
  {
    CoreEnds(op, gap, pieces, pre);
    StripIs(lead, op + gap + Join(pieces, '.') + pre, trail);
    ParseComplete(gap, Comparator(op, pieces, pre));
  }

  lemma GapIsLead(lead: string, gap: string, pieces: seq<string>, pre: string, trail: string)
    ensures Spelling(lead, "", gap, pieces, pre, trail) == Spelling(lead + gap, "", "", pieces, pre, trail)
  {
    var body := Join(pieces, '.') + pre;
    assert "" + gap + Join(pieces, '.') + pre == gap + body && "" + "" + Join(pieces, '.') + pre == body;
    Associates(lead, gap, body);
  }

  lemma SpellingIsRead(lead: string, op: string, gap: string, pieces: seq<string>, pre: string, trail: string)
    requires WellFormed(Comparator(op, pieces, pre)) && Blanked(lead, gap, trail)
    ensures Parse(Strip(Spelling(lead, op, gap, pieces, pre, trail))) == Some(Comparator(op, pieces, pre))
  {
    if op == "" {
      GapIsLead(lead, gap, pieces, pre, trail);
      CoreIsRead(lead + gap, "", "", pieces, pre, trail);
    } else {
      CoreIsRead(lead, op, gap, pieces, pre, trail);
    }
  }

  lemma SpellingHasNoComma(lead: string, op: string, gap: string, pieces: seq<string>, pre: string, trail: string)
    requires WellFormed(Comparator(op, pieces, pre)) && Blanked(lead, gap, trail)
    ensures Without(Spelling(lead, op, gap, pieces, pre, trail), ',')
  {
    ShownIsSolid(Comparator("", pieces, pre));
    var body := Join(pieces, '.') + pre;
    assert Show(Comparator("", pieces, pre)) == body;
    assert Spelling(lead, op, gap, pieces, pre, trail) == lead + op + gap + body + trail;
  }

  /** A text without commas is one requirement. */
  lemma OneText(text: string)
    requires Without(text, ',')
    ensures Normal(text) == if ReadPart(text) == None then None else Some(Body(ReadPart(text).value))
  {
    SplitUndoesJoin([text], ',');
    assert [text][..0] == [];
    assert AllRead(ReadPart, [text]) == if ReadPart(text) == None then None else Some([] + [ReadPart(text).value]);
  }

  lemma NormalOfSpelling(lead: string, op: string, gap: string, pieces: seq<string>, pre: string, trail: string)
    requires WellFormed(Comparator(op, pieces, pre)) && Blanked(lead, gap, trail)
    ensures var c := Comparator(op, pieces, pre);
            Normal(Spelling(lead, op, gap, pieces, pre, trail)) == if Allowed(c) then Some(Body(c)) else None
  {
    SpellingIsRead(lead, op, gap, pieces, pre, trail);
    SpellingHasNoComma(lead, op, gap, pieces, pre, trail);
    OneText(Spelling(lead, op, gap, pieces, pre, trail));
  }

  lemma PlainHasNoWildcard(pieces: seq<string>)
    requires Plain(pieces)
    ensures FirstWild(pieces) == |pieces| && ArePieces(pieces)
  {
  }

  /** Numbers without an operator get the caret. */
  lemma DefaultIsTheCaret(lead: string, pieces: seq<string>, pre: string, trail: string)
    requires Plain(pieces) && 1 <= |pieces| <= 3 && IsPre(pre) && (pre != "" ==> |pieces| == 3)
    requires Blanked(lead, "", trail)
    ensures Normal(Spelling(lead, "", "", pieces, pre, trail)) == Some("^" + Join(pieces, '.') + pre)
  {
    PlainHasNoWildcard(pieces);
    NormalOfSpelling(lead, "", "", pieces, pre, trail);
  }

  /** Numbers with an operator keep it, and only the blanks go. */
  lemma OperatorStays(lead: string, op: string, gap: string, pieces: seq<string>, pre: string, trail: string)
    requires Plain(pieces) && 1 <= |pieces| <= 3 && IsPre(pre) && (pre != "" ==> |pieces| == 3)
    requires IsOp(op) && op != "" && Blanked(lead, gap, trail)
    ensures Normal(Spelling(lead, op, gap, pieces, pre, trail)) == Some(op + Join(pieces, '.') + pre)
  {
    PlainHasNoWildcard(pieces);
    NormalOfSpelling(lead, op, gap, pieces, pre, trail);
  }

  lemma FirstWildcard(plain: seq<string>, wild: seq<string>)
    requires Plain(plain) && Wildcards(wild) && wild != []
    ensures var pieces := plain + wild;
            && FirstWild(pieces) == |plain| && pieces[..|plain|] == plain && ArePieces(pieces)
            && (forall k :: |plain| <= k < |pieces| ==> IsWild(pieces[k]))
            && (forall k :: 0 <= k < |pieces| ==> !LeadingZero(pieces[k]))
  {
    var pieces := plain + wild;
    assert forall k :: 0 <= k < |plain| ==> pieces[k] == plain[k] && !IsWild(plain[k]);
    assert forall k :: |plain| <= k < |pieces| ==> pieces[k] == wild[k - |plain|];
    assert pieces[|plain|] == wild[0];
  }

  /** Numbers followed by wildcards come back as the numbers and one star. */
  lemma WildcardsCollapse(lead: string, plain: seq<string>, wild: seq<string>, trail: string)
    requires Plain(plain) && Wildcards(wild) && wild != [] && |plain| + |wild| <= 3 && Blanked(lead, "", trail)
    ensures Normal(Spelling(lead, "", "", plain + wild, "", trail)) == Some(Join(plain + ["*"], '.'))
  {
    WildcardBody(plain, wild);
    NormalOfSpelling(lead, "", "", plain + wild, "", trail);
  }

  lemma WildcardBody(plain: seq<string>, wild: seq<string>)
    requires Plain(plain) && Wildcards(wild) && wild != [] && |plain| + |wild| <= 3
    ensures var c := Comparator("", plain + wild, "");
            WellFormed(c) && Allowed(c) && Body(c) == Join(plain + ["*"], '.')
  {
    WildcardAllowed(plain, wild);
    WildcardCanonical(plain, wild);
    ShowBare(plain + ["*"]);
  }

  lemma WildcardAllowed(plain: seq<string>, wild: seq<string>)
    requires Plain(plain) && Wildcards(wild) && wild != [] && |plain| + |wild| <= 3
    ensures WellFormed(Comparator("", plain + wild, "")) && Allowed(Comparator("", plain + wild, ""))
  {
    FirstWildcard(plain, wild);
  }

  lemma WildcardCanonical(plain: seq<string>, wild: seq<string>)
    requires Plain(plain) && Wildcards(wild) && wild != []
    ensures Canonical(Comparator("", plain + wild, "")) == Comparator("", plain + ["*"], "")
  {
    FirstWildcard(plain, wild);
  }

  lemma ShowBare(pieces: seq<string>)
    ensures Show(Comparator("", pieces, "")) == Join(pieces, '.')
  {
  }

  /** What is refused within the grammar. */
  predicate Refusable(op: string, pieces: seq<string>, pre: string) {
    || (exists k :: 0 <= k < |pieces| && LeadingZero(pieces[k]))
    || (exists k :: 0 <= k < |pieces| && IsWild(pieces[k]) && (op != "" || pre != ""))
    || (exists j, k :: 0 <= j < k < |pieces| && IsWild(pieces[j]) && !IsWild(pieces[k]))
    || (pre != "" && |pieces| < 3)
  }

  lemma AllowedIff(op: string, pieces: seq<string>, pre: string)
    requires |pieces| <= 3
    ensures Allowed(Comparator(op, pieces, pre)) <==> !Refusable(op, pieces, pre)
  {
    var f := FirstWild(pieces);
    assert f < |pieces| ==> IsWild(pieces[f]);
    assert forall k :: 0 <= k < |pieces| && IsWild(pieces[k]) ==> f <= k;
  }

  /** A requirement within the grammar is refused exactly for a leading zero, an operator or
      a prerelease beside a wildcard, a number behind a wildcard, or a prerelease of an
      incomplete version. */
  lemma RefusedIff(lead: string, op: string, gap: string, pieces: seq<string>, pre: string, trail: string)
    requires WellFormed(Comparator(op, pieces, pre)) && Blanked(lead, gap, trail)
    ensures Normal(Spelling(lead, op, gap, pieces, pre, trail)) == None <==> Refusable(op, pieces, pre)
  {
    NormalOfSpelling(lead, op, gap, pieces, pre, trail);
    AllowedIff(op, pieces, pre);
  }

  /** Outside the grammar everything is. */
  lemma OutsideIsRefused(text: string)
    requires Without(text, ',') && forall c :: !Matches(Strip(text), c)
    ensures Normal(text) == None
  {
    OneText(text);
    if Parse(Strip(text)).Some? {
      ParseIffMatches(Strip(text), Parse(Strip(text)).value);
    }
  }

  // ---- several ----

  lemma ReadFirst<C>(read: string -> Option<C>, first: string, rest: seq<string>)
    ensures var all := AllRead(read, rest);
            AllRead(read, [first] + rest)
            == if read(first) == None || all == None then None else Some([read(first).value] + all.value)
  {
    var parts := [first] + rest;
    if read(first) == None {
      RefusedStays(read, parts, 0);
    } else if AllRead(read, rest) == None {
      var k := RefusedSomewhere(read, rest);
      assert parts[k + 1] == rest[k];
      RefusedStays(read, parts, k + 1);
    } else {
      AllReadIff(read, rest, AllRead(read, rest).value);
      AllReadIff(read, parts, [read(first).value] + AllRead(read, rest).value);
    }
  }

  lemma {:induction false} RefusedSomewhere<C>(read: string -> Option<C>, parts: seq<string>) returns (k: nat)
    requires AllRead(read, parts) == None
    ensures k < |parts| && read(parts[k]) == None
  {
    var n := |parts| - 1;
    if read(parts[n]) == None {
      k := n;
    } else {
      k := RefusedSomewhere(read, parts[..n]);
    }
  }

  /** A requirement, a comma and more: both are normalized, and joined by a comma and a
      blank; refused if either is. */
  lemma CommaJoins(text: string, more: string)
    requires Without(text, ',')
    ensures Normal(text + "," + more)
         == if Normal(text) == None || Normal(more) == None then None
            else Some(Normal(text).value + ", " + Normal(more).value)
  {
    OneText(text);
    SplitOffFirst(text, ',', more);
    ReadFirst(ReadPart, text, SplitBy(more, ','));
    if ReadPart(text).Some? && Comparators(more).Some? {
      ListedFirst(ReadPart(text).value, Comparators(more).value);
    }
  }

  lemma ListedFirst(c: Comparator, cs: seq<Comparator>)
    requires cs != []
    ensures Listed(Each(Body, [c] + cs)) == Body(c) + ", " + Listed(Each(Body, cs))
  {
    var bodies := Each(Body, [c] + cs);
    assert bodies[1..] == Each(Body, cs);
    var rest := Listed(Each(Body, cs));
    assert Body(c) + "," + (" " + rest) == Body(c) + ", " + rest;
  }
}
