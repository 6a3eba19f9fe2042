/** Fold keys of whole credits, and where the key of a displayed credit departs from the key of the credit. */
module ArtistDisplay {
  import opened Common
  import opened Text
  import opened TextLemmas
  import opened SortedText
  import opened ArtistName
  import opened ArtistCredit

  /** A text that cleaning leaves alone. */
  predicate Plain(s: string) {
    Tight(s) && '|' !in s && '/' !in s && s[|s| - 1] !in ")]"
  }

  lemma NotFoundWhole(s: string, c: char)
    requires c !in s
    ensures SplitOnce(s, [c]) == None
  {
    NoCharNoFind(s, c);
  }

  lemma PlainUnbracketed(s: string)
    requires Tight(s) && s[|s| - 1] !in ")]"
    ensures Unbracketed(s) == s
  {
    TightIsTrimmed(s);
  }

  lemma PlainIsItsCore(u: Tables, s: string)
    requires Plain(s)
    ensures Trim(s) == s && Core(u, s) == s
  {
    TightIsTrimmed(s);
    NotFoundWhole(s, '|');
    NotFoundWhole(s, '/');
    PlainUnbracketed(s);
  }

  lemma FoldKeyOfPlain(u: Tables, s: string)
    requires Plain(s) && CollabFoldKey(u, s).Some?
    ensures ArtistFoldKey(u, s) == CollabFoldKey(u, s).value
  {
    PlainIsItsCore(u, s);
  }

  lemma {:induction false} JoinedEnds(parts: seq<string>, sep: string)
    requires parts != [] && (forall p :: p in parts ==> Tight(p)) && parts[|parts| - 1] != ""
    ensures var s := JoinWith(parts, sep); var last := parts[|parts| - 1];
            Tight(s) && s[|s| - 1] == last[|last| - 1]
  {
    assert parts[0] in parts;
    if |parts| > 1 {
      JoinedEnds(parts[1..], sep);
      var rest := JoinWith(parts[1..], sep);
      var s := parts[0] + sep + rest;
      assert s[0] == parts[0][0] && s[|s| - 1] == rest[|rest| - 1];
    }
  }

  /** A credit written plainly: no watermark, no slash, and nothing bracketed at its end. */
  ghost predicate WrittenPlainly(parts: seq<string>, sep: Separator) {
    && Joinable(parts, sep) && FreeOf(parts, '|') && FreeOf(parts, '/')
    && var last := parts[|parts| - 1]; last != "" && last[|last| - 1] !in ")]"
  }

  lemma WrittenPlainlyIsPlain(parts: seq<string>, sep: Separator)
    requires WrittenPlainly(parts, sep)
    ensures Plain(JoinWith(parts, SepText(sep)))
  {
    JoinedEnds(parts, SepText(sep));
    NotInJoined(parts, SepText(sep), '|');
    NotInJoined(parts, SepText(sep), '/');
  }

  lemma FoldKeyOfJoined(u: Tables, parts: seq<string>, sep: Separator)
    requires WrittenPlainly(parts, sep) && FoldParts(u, parts) != []
    ensures Some(ArtistFoldKey(u, JoinWith(parts, SepText(sep)))) == CollabFoldKey(u, JoinWith(parts, SepText(sep)))
  {
    WrittenPlainlyIsPlain(parts, sep);
    KeyOfJoined(u, parts, sep);
    FoldKeyOfPlain(u, JoinWith(parts, SepText(sep)));
  }

  /** Whole credits written plainly share a fold key exactly when their parts fold to the same set. */
  lemma SameCreditKeyIff(u: Tables, a: seq<string>, sepA: Separator, b: seq<string>, sepB: Separator)
    requires WrittenPlainly(a, sepA) && WrittenPlainly(b, sepB) && LowerFreeOfAmpersand(u)
    requires FoldParts(u, a) != [] && FoldParts(u, b) != []
    ensures ArtistFoldKey(u, JoinWith(a, SepText(sepA))) == ArtistFoldKey(u, JoinWith(b, SepText(sepB)))
            <==> SameFolds(u, a, b)
  {
    FoldKeyOfJoined(u, a, sepA);
    FoldKeyOfJoined(u, b, sepB);
    SameKeyIff(u, a, sepA, b, sepB);
  }

  // ---------------------------------------------------------------------------
  // The displayed credit
  // ---------------------------------------------------------------------------

  /** The joining word does not stand inside the name. */
  predicate NoJoiningWord(s: string) {
    Find(Lower(" " + s), " and ").None?
  }

  /** A name that is one part wherever it stands: no delimiter, no bracket, no joining word. */
  predicate PlainName(s: string) {
    Tight(s) && (forall c :: c in s ==> c !in ";,/|&()[]") && NoJoiningWord(s)
  }

  ghost predicate PlainNames(parts: seq<string>) {
    forall p :: p in parts ==> PlainName(p)
  }

  lemma PlainNameParts(u: Tables, s: string)
    requires PlainName(s)
    ensures Plain(s) && ReorderLastFirst(CollapseSelfSlash(u, Unbracketed(s))) == s && Trim(s) == s
    ensures ';' !in s && '&' !in s && ',' !in s
  {
    assert s[|s| - 1] in s;
    TightIsTrimmed(s);
    PlainUnbracketed(s);
    NotFoundWhole(s, '/');
    NotFoundWhole(s, ',');
  }

  ghost predicate AllTight(parts: seq<string>) {
    forall p :: p in parts ==> Tight(p)
  }

  lemma PlainNameIsFree(s: string)
    requires PlainName(s)
    ensures Tight(s) && s[|s| - 1] !in ")]"
    ensures '|' !in s && '/' !in s && ';' !in s && '&' !in s && ',' !in s
  {
    assert s[|s| - 1] in s;
  }

  lemma PlainNamesAreFree(parts: seq<string>)
    requires PlainNames(parts)
    ensures AllTight(parts) && FreeOf(parts, '|') && FreeOf(parts, '/')
    ensures FreeOf(parts, ';') && FreeOf(parts, '&') && FreeOf(parts, ',')
    ensures parts != [] ==> var last := parts[|parts| - 1]; last != "" && last[|last| - 1] !in ")]"
  {
    forall p | p in parts
      ensures Tight(p) && '|' !in p && '/' !in p && ';' !in p && '&' !in p && ',' !in p
    {
      PlainNameIsFree(p);
    }
    if parts != [] { PlainNameIsFree(parts[|parts| - 1]); }
  }

  /** Every plain name folds to something. */
  ghost predicate AllFold(u: Tables, parts: seq<string>) {
    forall p :: p in parts ==> Folded(u, p) != ""
  }

  lemma PlainFold(u: Tables, s: string)
    requires PlainName(s)
    ensures FoldPart(u, s) == Folded(u, s)
  {
    PlainNameParts(u, s);
  }

  lemma FoldsOfPlain(u: Tables, parts: seq<string>, x: string)
    requires PlainNames(parts) && AllFold(u, parts)
    ensures x in FoldParts(u, parts) <==> exists p :: p in parts && Folded(u, p) == x
  {
    FoldPartsMembers(u, parts, x);
    forall p | p in parts ensures FoldPart(u, p) == Folded(u, p) { PlainFold(u, p); }
  }

  lemma {:induction false} CleanPlain(u: Tables, parts: seq<string>)
    requires PlainNames(parts)
    ensures CleanParts(u, parts) == parts
  {
    if parts != [] {
      assert parts[0] in parts;
      PlainNameParts(u, parts[0]);
      CleanPlain(u, parts[1..]);
      assert parts == [parts[0]] + parts[1..];
    }
  }

  // The names a display keeps: the first of every fold.

  function Shown(u: Tables, parts: seq<string>): seq<string> {
    FreshBy(FoldedKey(u), parts, {})
  }

  lemma FoldedKeyIs(u: Tables, s: string)
    ensures FoldedKey(u)(s) == Folded(u, s)
  {
  }

  lemma {:induction false} FreshHeadStays(key: string -> string, members: seq<string>)
    requires members != [] && key(members[0]) != ""
    ensures FreshBy(key, members, {}) != [] && FreshBy(key, members, {})[0] == members[0]
  {
  }

  /** The display keeps at least two names where two fold differently. */
  lemma ShownAtLeastTwo(u: Tables, parts: seq<string>, a: string, b: string)
    requires a in parts && b in parts && Folded(u, a) != Folded(u, b) && Folded(u, a) != "" && Folded(u, b) != ""
    ensures |Shown(u, parts)| >= 2
  {
    ShownFolds(u, parts, a);
    ShownFolds(u, parts, b);
    var x :| x in Shown(u, parts) && Folded(u, x) == Folded(u, a);
    var y :| y in Shown(u, parts) && Folded(u, y) == Folded(u, b);
  }

  lemma ShownArePlain(u: Tables, parts: seq<string>)
    requires PlainNames(parts) && AllFold(u, parts)
    ensures PlainNames(Shown(u, parts)) && AllFold(u, Shown(u, parts))
  {
    forall p | p in Shown(u, parts) ensures p in parts { FreshAreMembers(FoldedKey(u), parts, {}, p); }
  }

  lemma ShownFolds(u: Tables, parts: seq<string>, p: string)
    requires p in parts && Folded(u, p) != ""
    ensures exists m :: m in Shown(u, parts) && Folded(u, m) == Folded(u, p)
  {
    FoldedKeyIs(u, p);
    FreshKeepsEveryKey(FoldedKey(u), parts, {}, p);
    var m :| m in Shown(u, parts) && FoldedKey(u)(m) == Folded(u, p);
    FoldedKeyIs(u, m);
  }

  lemma ShownFoldAlike(u: Tables, parts: seq<string>)
    requires PlainNames(parts) && AllFold(u, parts)
    ensures SameFolds(u, parts, Shown(u, parts))
  {
    var shown := Shown(u, parts);
    ShownArePlain(u, parts);
    forall x ensures x in FoldParts(u, parts) <==> x in FoldParts(u, shown) {
      FoldsOfPlain(u, parts, x);
      FoldsOfPlain(u, shown, x);
      if p :| p in parts && Folded(u, p) == x { ShownFolds(u, parts, p); }
      if m :| m in shown && Folded(u, m) == x { FreshAreMembers(FoldedKey(u), parts, {}, m); }
    }
  }

  // The text of a display.

  /** The parts as commas cut them: every one after the first keeps its space. */
  function Spaced(parts: seq<string>): seq<string> {
    if parts == [] then [] else [" " + parts[0]] + Spaced(parts[1..])
  }

  function CommaParts(parts: seq<string>): seq<string> {
    if parts == [] then [] else [parts[0]] + Spaced(parts[1..])
  }

  lemma {:induction false} SpacedJoin(parts: seq<string>)
    requires parts != []
    ensures Spaced(parts) != [] && JoinWith(Spaced(parts), ",") == " " + JoinWith(parts, ", ")
    decreases |parts|
  {
    if |parts| == 1 {
      assert parts[1..] == [] && Spaced(parts) == [" " + parts[0]];
    } else {
      SpacedJoin(parts[1..]);
      var rest := JoinWith(parts[1..], ", ");
      assert Spaced(parts)[1..] == Spaced(parts[1..]);
      CommaSpace(parts[0], rest);
    }
  }

  lemma CommaSpace(head: string, rest: string)
    ensures (" " + head) + "," + (" " + rest) == " " + (head + ", " + rest)
    ensures head + "," + (" " + rest) == head + ", " + rest
  {
    assert "," + " " == ", ";
  }

  lemma DisplayText(parts: seq<string>)
    requires |parts| >= 2
    ensures JoinWith(CommaParts(parts), ",") == JoinWith(parts, ", ")
    ensures |CommaParts(parts)| >= 2
  {
    SpacedJoin(parts[1..]);
    assert CommaParts(parts)[1..] == Spaced(parts[1..]);
    CommaSpace(parts[0], JoinWith(parts[1..], ", "));
  }

  // No joining word in a display.

  lemma FoundHolds(s: string, pat: string, k: nat)
    requires k < |pat|
    ensures Find(s, pat).Some? ==> Find(s, pat).value + |pat| <= |s| && s[Find(s, pat).value + k] == pat[k]
  {
    if Find(s, pat).Some? {
      var i := Find(s, pat).value;
      assert s[i..i + |pat|][k] == s[i + k];
    }
  }

  lemma NotFoundAcross(a: string, b: string, pat: string, i: nat)
    requires ',' !in pat && FoundAt(a + "," + b, pat, i)
    ensures FoundAt(a, pat, i) || (i > |a| && FoundAt(b, pat, i - |a| - 1))
  {
    var s := a + "," + b;
    InsideFound(s, pat, i, |a|);
    if i + |pat| <= |a| {
      assert s[i..i + |pat|] == a[i..i + |pat|];
    } else if i > |a| {
      assert s[i..i + |pat|] == b[i - |a| - 1..i - |a| - 1 + |pat|];
    }
  }

  lemma InsideFound(s: string, pat: string, i: nat, j: nat)
    requires FoundAt(s, pat, i)
    ensures i <= j < i + |pat| ==> s[j] in pat
  {
    if i <= j < i + |pat| { assert s[i..i + |pat|][j - i] == s[j]; }
  }

  lemma NotFoundJoined(a: string, b: string, pat: string)
    requires ',' !in pat && Find(a, pat).None? && Find(b, pat).None?
    ensures Find(a + "," + b, pat).None?
  {
    if Find(a + "," + b, pat).Some? { NotFoundAcross(a, b, pat, Find(a + "," + b, pat).value); }
  }

  /** No piece holds the pattern, whatever its case. */
  ghost predicate Silent(pieces: seq<string>, pat: string) {
    forall v :: v in pieces ==> Find(Lower(v), pat).None?
  }

  lemma {:induction false} NotFoundInPieces(pieces: seq<string>, pat: string)
    requires ',' !in pat && pat != "" && Silent(pieces, pat)
    ensures Find(Lower(JoinWith(pieces, ",")), pat).None?
  {
    if pieces != [] {
      assert pieces[0] in pieces;
      if |pieces| > 1 {
        var rest := JoinWith(pieces[1..], ",");
        NotFoundInPieces(pieces[1..], pat);
        LowerOfConcat(pieces[0] + ",", rest);
        LowerOfConcat(pieces[0], ",");
        LowerIsStable(",");
        NotFoundJoined(Lower(pieces[0]), Lower(rest), pat);
      }
    }
  }

  lemma NotFoundInSuffix(s: string, pat: string)
    requires s != "" && Find(s, pat).None?
    ensures Find(s[1..], pat).None?
  {
    if Find(s[1..], pat).Some? {
      var i := Find(s[1..], pat).value;
      assert s[i + 1..i + 1 + |pat|] == s[1..][i..i + |pat|];
      assert FoundAt(s, pat, i + 1);
    }
  }

  lemma NameIsSilent(s: string)
    requires NoJoiningWord(s)
    ensures Find(Lower(s), " and ").None?
  {
    assert (" " + s)[1..] == s;
    assert Lower(" " + s)[1..] == Lower(s);
    NotFoundInSuffix(Lower(" " + s), " and ");
  }

  lemma {:induction false} SpacedIsSilent(parts: seq<string>)
    requires forall p :: p in parts ==> NoJoiningWord(p)
    ensures Silent(Spaced(parts), " and ")
  {
    if parts != [] {
      assert parts[0] in parts;
      SpacedIsSilent(parts[1..]);
    }
  }

  lemma CommaPartsAreSilent(parts: seq<string>)
    requires forall p :: p in parts ==> NoJoiningWord(p)
    ensures Silent(CommaParts(parts), " and ")
  {
    if parts != [] {
      assert parts[0] in parts;
      SpacedIsSilent(parts[1..]);
      NameIsSilent(parts[0]);
    }
  }

  // The key of a display.

  lemma PushSpaced(kept: seq<string>, piece: string, name: string)
    requires Tight(name) && (piece == name || piece == " " + name)
    ensures Pushed(kept, piece) == kept + [name]
  {
    TightIsTrimmed(name);
    assert (" " + name)[1..] == name;
  }

  lemma PushOneMore(kept: seq<string>, piece: string, rest: seq<string>)
    ensures PushAll(kept, [piece] + rest) == PushAll(Pushed(kept, piece), rest)
  {
    assert ([piece] + rest)[0] == piece && ([piece] + rest)[1..] == rest;
  }

  lemma KeptGrows(kept: seq<string>, parts: seq<string>)
    requires parts != []
    ensures kept + [parts[0]] + parts[1..] == kept + parts
  {
  }

  lemma {:induction false} PushAllSpaced(kept: seq<string>, parts: seq<string>)
    requires AllTight(parts)
    ensures PushAll(kept, Spaced(parts)) == kept + parts
    decreases |parts|
  {
    if parts == [] {
      assert kept + parts == kept;
    } else {
      assert parts[0] in parts;
      PushSpaced(kept, " " + parts[0], parts[0]);
      PushOneMore(kept, " " + parts[0], Spaced(parts[1..]));
      PushAllSpaced(kept + [parts[0]], parts[1..]);
      KeptGrows(kept, parts);
    }
  }

  lemma CommaPartsTrimmed(parts: seq<string>)
    requires AllTight(parts) && parts != []
    ensures PushAll([], CommaParts(parts)) == parts
  {
    assert parts[0] in parts;
    PushSpaced([], parts[0], parts[0]);
    assert CommaParts(parts)[1..] == Spaced(parts[1..]);
    PushAllSpaced([parts[0]], parts[1..]);
    assert [] + [parts[0]] == [parts[0]] && [parts[0]] + parts[1..] == parts;
  }

  lemma {:induction false} SpacedIsFree(parts: seq<string>)
    requires FreeOf(parts, ',')
    ensures FreeOf(Spaced(parts), ',')
  {
    if parts != [] {
      assert parts[0] in parts;
      SpacedIsFree(parts[1..]);
    }
  }

  /** A display cut at its commas gives back the names it shows. */
  lemma DisplayCuts(parts: seq<string>)
    requires AllTight(parts) && FreeOf(parts, ',') && |parts| >= 2
    ensures var s := JoinWith(parts, ", "); Parts(s, s, ",", 0, []) == Some(parts)
  {
    var s := JoinWith(parts, ", ");
    DisplayText(parts);
    assert parts[0] in parts;
    SpacedIsFree(parts[1..]);
    JoinedSplits("", CommaParts(parts), Comma);
    assert "" + s == s;
    CommaPartsTrimmed(parts);
  }

  lemma DisplayHead(parts: seq<string>)
    requires FreeOf(parts, ',') && |parts| >= 2
    ensures var s := JoinWith(parts, ", ");
            SplitOnce(s, ",").Some? && SplitOnce(s, ",").value.0 == parts[0]
  {
    assert parts[0] in parts;
    var rest := JoinWith(parts[1..], ", ");
    CommaSpace(parts[0], rest);
    HeadBeforeComma(parts[0], " " + rest, JoinWith(parts, ", "));
  }

  lemma HeadBeforeComma(head: string, tail: string, s: string)
    requires ',' !in head && s == head + "," + tail
    ensures SplitOnce(s, ",").Some? && SplitOnce(s, ",").value.0 == head
  {
    assert "" + head == head;
    FoundFirst("", head, Comma, tail, s);
    assert s[..|head|] == head;
  }

  lemma DisplayShape(parts: seq<string>)
    requires |parts| >= 2 && AllTight(parts)
    requires FreeOf(parts, '|') && FreeOf(parts, '/') && FreeOf(parts, ';') && FreeOf(parts, '&')
    requires var last := parts[|parts| - 1]; last != "" && last[|last| - 1] !in ")]"
    ensures var s := JoinWith(parts, ", "); Plain(s) && ';' !in s && '&' !in s
  {
    JoinedEnds(parts, ", ");
    NotInJoined(parts, ", ", '|');
    NotInJoined(parts, ", ", '/');
    NotInJoined(parts, ", ", ';');
    NotInJoined(parts, ", ", '&');
  }

  lemma NotFoundInDisplay(parts: seq<string>, pat: string)
    requires |parts| >= 2 && ',' !in pat && pat != "" && Silent(CommaParts(parts), pat)
    ensures Find(Lower(JoinWith(parts, ", ")), pat).None?
  {
    NotFoundInPieces(CommaParts(parts), pat);
    DisplayText(parts);
  }

  lemma JoiningWordHasNoComma()
    ensures ',' !in " and "
  {
    var word := " and ";
    assert forall i :: 0 <= i < |word| ==> word[i] != ',';
  }

  lemma DisplayHasNoJoiningWord(parts: seq<string>)
    requires |parts| >= 2 && forall p :: p in parts ==> NoJoiningWord(p)
    ensures Find(Lower(JoinWith(parts, ", ")), " and ").None?
  {
    JoiningWordHasNoComma();
    CommaPartsAreSilent(parts);
    NotFoundInDisplay(parts, " and ");
  }

  lemma DisplayIsPlain(parts: seq<string>)
    requires PlainNames(parts) && |parts| >= 2
    ensures var s := JoinWith(parts, ", "); Plain(s) && ';' !in s && '&' !in s && Find(Lower(s), " and ").None?
  {
    PlainNamesAreFree(parts);
    DisplayShape(parts);
    DisplayHasNoJoiningWord(parts);
  }

  /** A display splits again exactly when its first name has several words. */
  lemma DisplaySplitsIff(parts: seq<string>)
    requires PlainNames(parts) && |parts| >= 2
    ensures SplitCollab(JoinWith(parts, ", ")) == if HasWhitespace(parts[0]) then Some(parts) else None
  {
    var s := JoinWith(parts, ", ");
    DisplayIsPlain(parts);
    NoCharNoFind(s, ';');
    FoundHolds(s, " & ", 1);
    PlainNamesAreFree(parts);
    DisplayHead(parts);
    assert parts[0] in parts;
    TightIsTrimmed(parts[0]);
    DisplayCuts(parts);
  }

  lemma FoldedIsFree(u: Tables, s: string)
    requires LowerFreeOfAmpersand(u)
    ensures '&' !in Folded(u, s)
  {
    FoldAllFree(u, u.nfd(s));
  }

  lemma OneArtistKeyIsFree(u: Tables, s: string)
    requires Plain(s) && CollabFoldKey(u, s) == None && LowerFreeOfAmpersand(u)
    ensures '&' !in ArtistFoldKey(u, s)
  {
    PlainIsItsCore(u, s);
    FoldedIsFree(u, ReorderLastFirst(s));
    assert '&' !in "various artists";
  }

  lemma TwoKeysHaveAmpersand(keys: seq<string>, a: string, b: string)
    requires a in keys && b in keys && a != b
    ensures '&' in JoinWith(Dedup(Sort(keys)), " & ")
  {
    DedupSortMembers(keys);
    var sorted := Dedup(Sort(keys));
    assert a in sorted && b in sorted;
    assert |sorted| >= 2;
    FirstAmpersandIn(sorted[0], JoinWith(sorted[1..], " & "));
  }

  lemma FirstAmpersandIn(head: string, rest: string)
    ensures '&' in head + " & " + rest
  {
    assert (head + " & " + rest)[|head| + 1] == '&';
  }

  /** A collaboration of plain names of which two fold differently. */
  ghost predicate PlainCredit(u: Tables, parts: seq<string>, sep: Separator) {
    && |parts| >= 2 && !sep.Comma? && PlainNames(parts) && AllFold(u, parts)
    && exists a, b :: a in parts && b in parts && Folded(u, a) != Folded(u, b)
  }

  lemma PlainCreditIsPlain(u: Tables, parts: seq<string>, sep: Separator)
    requires PlainCredit(u, parts, sep)
    ensures WrittenPlainly(parts, sep)
  {
    PlainNamesAreFree(parts);
  }

  lemma PlainCreditShows(u: Tables, parts: seq<string>, sep: Separator)
    requires PlainCredit(u, parts, sep)
    ensures |Shown(u, parts)| >= 2 && Shown(u, parts)[0] == parts[0]
  {
    var a, b :| a in parts && b in parts && Folded(u, a) != Folded(u, b);
    ShownAtLeastTwo(u, parts, a, b);
    assert parts[0] in parts;
    FoldedKeyIs(u, parts[0]);
    FreshHeadStays(FoldedKey(u), parts);
  }

  lemma PlainCreditShape(u: Tables, parts: seq<string>, sep: Separator)
    requires PlainCredit(u, parts, sep)
    ensures WrittenPlainly(parts, sep) && FoldParts(u, parts) != []
    ensures |Shown(u, parts)| >= 2 && Shown(u, parts)[0] == parts[0]
  {
    PlainCreditIsPlain(u, parts, sep);
    PlainCreditShows(u, parts, sep);
    assert parts[0] in parts;
    FoldsOfPlain(u, parts, Folded(u, parts[0]));
  }

  lemma CreditDisplay(u: Tables, parts: seq<string>, sep: Separator)
    requires PlainCredit(u, parts, sep)
    ensures PreprocessArtist(u, JoinWith(parts, SepText(sep))) == JoinWith(Shown(u, parts), ", ")
    ensures Trim(JoinWith(parts, SepText(sep))) == JoinWith(parts, SepText(sep)) != ""
  {
    var s := JoinWith(parts, SepText(sep));
    PlainCreditShape(u, parts, sep);
    WrittenPlainlyIsPlain(parts, sep);
    PlainIsItsCore(u, s);
    JoinedCreditSplits(parts, sep);
    CleanPlain(u, parts);
  }

  /** The display is the names shown, joined by commas, composed and not taken for various artists. */
  lemma DisplayForm(u: Tables, parts: seq<string>, sep: Separator)
    requires PlainCredit(u, parts, sep)
    requires var shown := JoinWith(Shown(u, parts), ", "); Folded(u, shown) !in VARIOUS && u.nfc(shown) == shown
    ensures ArtistDisplayForm(u, JoinWith(parts, SepText(sep))) == JoinWith(Shown(u, parts), ", ")
  {
    CreditDisplay(u, parts, sep);
    PlainCreditShape(u, parts, sep);
    ShownArePlain(u, parts);
    DisplayIsPlain(Shown(u, parts));
  }

  /** A display that splits again is keyed by the folds of the names it shows. */
  lemma SplitDisplayKey(u: Tables, names: seq<string>)
    requires PlainNames(names) && |names| >= 2 && HasWhitespace(names[0]) && FoldParts(u, names) != []
    ensures ArtistFoldKey(u, JoinWith(names, ", ")) == JoinWith(Dedup(Sort(FoldParts(u, names))), " & ")
  {
    DisplaySplitsIff(names);
    DisplayIsPlain(names);
    FoldKeyOfPlain(u, JoinWith(names, ", "));
  }

  lemma ShownKeepsSortedFolds(u: Tables, parts: seq<string>)
    requires PlainNames(parts) && AllFold(u, parts) && FoldParts(u, parts) != []
    ensures FoldParts(u, Shown(u, parts)) != []
    ensures Dedup(Sort(FoldParts(u, Shown(u, parts)))) == Dedup(Sort(FoldParts(u, parts)))
  {
    var before, after := FoldParts(u, parts), FoldParts(u, Shown(u, parts));
    ShownFoldAlike(u, parts);
    assert before[0] in after;
    SortDedupForgetsRepeats(before, after);
  }

  lemma KeyOfSplitDisplay(u: Tables, parts: seq<string>, sep: Separator)
    requires PlainCredit(u, parts, sep) && HasWhitespace(parts[0])
    ensures ArtistFoldKey(u, JoinWith(Shown(u, parts), ", ")) == ArtistFoldKey(u, JoinWith(parts, SepText(sep)))
  {
    PlainCreditShape(u, parts, sep);
    FoldKeyOfJoined(u, parts, sep);
    KeyOfJoined(u, parts, sep);
    ShownArePlain(u, parts);
    ShownKeepsSortedFolds(u, parts);
    SplitDisplayKey(u, Shown(u, parts));
  }

  lemma KeyOfTurnedDisplay(u: Tables, parts: seq<string>, sep: Separator)
    requires PlainCredit(u, parts, sep) && !HasWhitespace(parts[0]) && LowerFreeOfAmpersand(u)
    ensures ArtistFoldKey(u, JoinWith(Shown(u, parts), ", ")) != ArtistFoldKey(u, JoinWith(parts, SepText(sep)))
  {
    var shown := Shown(u, parts);
    PlainCreditShape(u, parts, sep);
    FoldKeyOfJoined(u, parts, sep);
    KeyOfJoined(u, parts, sep);
    ShownArePlain(u, parts);
    DisplaySplitsIff(shown);
    DisplayIsPlain(shown);
    OneArtistKeyIsFree(u, JoinWith(shown, ", "));
    var a, b :| a in parts && b in parts && Folded(u, a) != Folded(u, b);
    FoldsOfPlain(u, parts, Folded(u, a));
    FoldsOfPlain(u, parts, Folded(u, b));
    TwoKeysHaveAmpersand(FoldParts(u, parts), Folded(u, a), Folded(u, b));
  }

  /**
   The key of the display is the key of the credit exactly when the first name has several words: then
   the comma splits the display again, while a single first word is taken for a last name.
   */
  lemma DisplayKeepsKeyIff(u: Tables, parts: seq<string>, sep: Separator)
    requires PlainCredit(u, parts, sep) && LowerFreeOfAmpersand(u)
    requires var shown := JoinWith(Shown(u, parts), ", "); Folded(u, shown) !in VARIOUS && u.nfc(shown) == shown
    ensures var raw := JoinWith(parts, SepText(sep));
            ArtistFoldKey(u, ArtistDisplayForm(u, raw)) == ArtistFoldKey(u, raw) <==> SeveralWords(parts[0])
  {
    SeveralWordsIff(parts[0]);
    DisplayForm(u, parts, sep);
    if HasWhitespace(parts[0]) {
      KeyOfSplitDisplay(u, parts, sep);
    } else {
      KeyOfTurnedDisplay(u, parts, sep);
    }
  }

  /** Two names with different folds. */
  lemma DisplayedPairKeepsKeyIff(u: Tables, a: string, b: string)
    requires PlainName(a) && PlainName(b) && LowerFreeOfAmpersand(u)
    requires Folded(u, a) != "" && Folded(u, b) != "" && Folded(u, a) != Folded(u, b)
    requires Folded(u, a + ", " + b) !in VARIOUS && u.nfc(a + ", " + b) == a + ", " + b
    ensures var raw := a + " & " + b;
            ArtistFoldKey(u, ArtistDisplayForm(u, raw)) == ArtistFoldKey(u, raw) <==> SeveralWords(a)
  {
    PairText(a, b, " & ");
    PairText(a, b, ", ");
    FoldedKeyIs(u, a);
    FoldedKeyIs(u, b);
    FreshPair(FoldedKey(u), a, b);
    assert a in [a, b] && b in [a, b];
    DisplayKeepsKeyIff(u, [a, b], Ampersand);
  }

  lemma PairText(a: string, b: string, sep: string)
    ensures JoinWith([a, b], sep) == a + sep + b
  {
    assert [a, b][1..] == [b];
  }

  lemma FreshPair(key: string -> string, a: string, b: string)
    requires key(a) != "" && key(b) != "" && key(a) != key(b)
    ensures FreshBy(key, [a, b], {}) == [a, b]
  {
    assert [a, b][1..] == [b] && [b][1..] == [];
    assert key(b) !in {key(a)};
    assert FreshBy(key, [b], {} + {key(a)}) == [b] + FreshBy(key, [b][1..], {} + {key(a)} + {key(b)});
  }
}
