/** Cleaning album titles for display, and when cleaning again changes nothing. */
module AlbumTitle {
  import opened Common
  import opened Text
  import opened TextLemmas
  import opened AlbumName
  import F = FolderAlbum

  /** The edition wording, and Unicode composition. */
  datatype Wording = Wording(isEdition: string -> bool, nfc: string -> string)

  /** What stands before one trailing edition in brackets. */
  function PeelEdition(v: Wording, s: string): (r: Option<string>)
    ensures r.Some? ==> |r.value| < |s|
  {
    var trimmed := TrimEnd(s);
    if ByteLength(trimmed) < 3 || trimmed == "" || trimmed[|trimmed| - 1] !in ")]" then None
    else
      var open := if trimmed[|trimmed| - 1] == ')' then '(' else '[';
      match RFind(trimmed, [open])
      case None => None
      case Some(i) =>
        assert trimmed[i..i + 1][0] == trimmed[i];
        if v.isEdition(Trim(trimmed[i + 1..|trimmed| - 1])) then Some(TrimEnd(trimmed[..i])) else None
  }

  function PeelEditions(v: Wording, s: string): (r: string)
    ensures |r| <= |s|
    decreases |s|
  {
    match PeelEdition(v, s) case None => s case Some(rest) => PeelEditions(v, rest)
  }

  method StripTrailingEditionQualifier(v: Wording, s: string) returns (out: string)
    ensures out == PeelEditions(v, TrimEnd(s))
  {
    out := TrimEnd(s);
    while true
      invariant PeelEditions(v, out) == PeelEditions(v, TrimEnd(s))
      decreases |out|
    {
      var stripped := PeelEdition(v, out);
      if stripped.None? {
        return;
      }
      out := stripped.value;
    }
  }

  /** The display title, or nothing where stripping the disc suffix stops the program. */
  function CleanAlbumTitle(v: Wording, raw: string): Option<string> {
    var trimmed := Trim(raw);
    if trimmed == "" then Some("")
    else
      match StripTrailingDiscSuffix(trimmed)
      case None => None
      case Some(withoutDisc) =>
        var title := PeelEditions(v, TrimEnd(withoutDisc));
        Some(v.nfc(if Trim(title) == "" then trimmed else title))
  }

  /** Cleaning a title stops the program exactly when stripping the trimmed title does. */
  lemma CleanAlbumTitleStopsIff(v: Wording, raw: string)
    ensures CleanAlbumTitle(v, raw).None? <==> F.StopsOn(Trim(raw))
  {
    F.StripStopsIff(Trim(raw));
  }

  // ---------------------------------------------------------------------------
  // Cleaning again
  // ---------------------------------------------------------------------------

  lemma PrefixThrough(a: string, b: string, s: string)
    requires a <= b && b <= s
    ensures a <= s
  {
  }

  lemma TrimmedCut(trimmed: string, i: nat)
    requires i <= |trimmed|
    ensures TrimEnd(trimmed[..i]) <= trimmed && TrimEnd(TrimEnd(trimmed[..i])) == TrimEnd(trimmed[..i])
  {
    TrimEndIsPrefix(trimmed[..i]);
    PrefixThrough(TrimEnd(trimmed[..i]), trimmed[..i], trimmed);
  }

  /** A prefix that ends in no blank. */
  predicate CutOf(a: string, s: string) {
    a <= s && TrimEnd(a) == a
  }

  lemma PeeledIsCut(v: Wording, s: string)
    requires TrimEnd(s) == s
    ensures PeelEdition(v, s).Some? ==> CutOf(PeelEdition(v, s).value, s)
  {
    if PeelEdition(v, s).Some? {
      var open := if s[|s| - 1] == ')' then '(' else '[';
      TrimmedCut(s, RFind(s, [open]).value);
    }
  }

  lemma {:induction false} PeeledAllIsCut(v: Wording, s: string)
    requires TrimEnd(s) == s
    ensures CutOf(PeelEditions(v, s), s) && PeelEdition(v, PeelEditions(v, s)) == None
    decreases |s|
  {
    PeeledIsCut(v, s);
    if PeelEdition(v, s).Some? {
      var rest := PeelEdition(v, s).value;
      PeeledAllIsCut(v, rest);
      PrefixThrough(PeelEditions(v, rest), rest, s);
    }
  }

  lemma StripAtIsCut(s: string, delim: string)
    ensures StripAt(s, delim).Stripped? ==> CutOf(StripAt(s, delim).title, s)
  {
    if StripAt(s, delim).Stripped? { TrimmedCut(s, RFind(s, delim).value); }
  }

  lemma StripParenIsCut(s: string)
    ensures StripParen(s).Stripped? ==> CutOf(StripParen(s).title, s)
  {
    if StripParen(s).Stripped? {
      var open := if s[|s| - 1] == ')' then '(' else '[';
      TrimmedCut(s, RFind(s, [open]).value);
    }
  }

  lemma StripGluedIsCut(s: string)
    ensures StripGlued(s).Stripped? ==> CutOf(StripGlued(s).title, s)
  {
    if StripGlued(s).Stripped? { TrimmedCut(s, LastSpace(s).value); }
  }

  lemma DiscStripIsCut(s: string)
    requires TrimEnd(s) == s
    ensures StripTrailingDiscSuffix(s).Some? ==> CutOf(StripTrailingDiscSuffix(s).value, s)
  {
    StripParenIsCut(s);
    StripAtIsCut(s, HYPHEN);
    StripAtIsCut(s, EN_DASH);
    StripAtIsCut(s, EM_DASH);
    StripGluedIsCut(s);
  }

  /** Composition leaves the trimmed text and what stripping makes of it as they are. */
  ghost predicate Composed(v: Wording, s: string) {
    forall a :: a <= s ==> v.nfc(a) == a
  }

  /** Stripping a title's disc suffix would leave no title. */
  predicate NothingLeft(v: Wording, title: string) {
    var stripped := StripTrailingDiscSuffix(title);
    stripped.Some? && Trim(PeelEditions(v, TrimEnd(stripped.value))) == ""
  }

  lemma CutOfTight(a: string, s: string)
    requires CutOf(a, s) && Tight(s) && Trim(a) != ""
    ensures Tight(a)
  {
    TrimEndIsPrefix(a);
  }

  /** What a cleaned title is: trimmed, and either whole or free of trailing editions. */
  lemma CleanedShape(v: Wording, raw: string, title: string)
    requires CleanAlbumTitle(v, raw) == Some(title) && title != "" && Composed(v, Trim(raw))
    ensures Tight(title) && title <= Trim(raw)
    ensures (title == Trim(raw) && NothingLeft(v, title)) || PeelEdition(v, title) == None
  {
    var t := Trim(raw);
    TrimIsTight(raw);
    DiscStripIsCut(t);
    var d := StripTrailingDiscSuffix(t).value;
    PeeledAllIsCut(v, d);
    var e := PeelEditions(v, d);
    PrefixThrough(e, d, t);
    if Trim(e) != "" { CutOfTight(e, t); }
  }

  lemma TrimIsTight(s: string)
    requires Trim(s) != ""
    ensures Tight(Trim(s)) && TrimEnd(Trim(s)) == Trim(s)
  {
    TrimStartEmptyIff(s);
    TrimEndOfConcat("", TrimStart(s));
    assert "" + TrimStart(s) == TrimStart(s);
    TrimEndIsPrefix(TrimStart(s));
  }

  lemma ComposedPrefix(v: Wording, a: string, s: string)
    requires Composed(v, s) && a <= s
    ensures Composed(v, a)
  {
    forall b | b <= a ensures v.nfc(b) == b { PrefixThrough(b, a, s); }
  }

  /** The text with one disc suffix and then its trailing editions taken off. */
  function Under(v: Wording, raw: string): Option<string> {
    match StripTrailingDiscSuffix(Trim(raw))
    case None => None
    case Some(withoutDisc) => Some(PeelEditions(v, TrimEnd(withoutDisc)))
  }

  /** A disc mark lies under the trailing editions, with a title in front of it. */
  predicate DiscMarkUnderEditions(v: Wording, raw: string) {
    var under := Under(v, raw);
    && under.Some? && Trim(under.value) != ""
    && StripTrailingDiscSuffix(under.value) != under && !NothingLeft(v, under.value)
  }

  lemma CleanedIsUnder(v: Wording, raw: string, title: string)
    requires CleanAlbumTitle(v, raw) == Some(title) && title != "" && Composed(v, Trim(raw))
    ensures Under(v, raw).Some?
    ensures if Trim(Under(v, raw).value) == "" then title == Trim(raw) && NothingLeft(v, title)
            else Under(v, raw) == Some(title)
  {
    var t := Trim(raw);
    TrimIsTight(raw);
    DiscStripIsCut(t);
    var d := StripTrailingDiscSuffix(t).value;
    PeeledAllIsCut(v, d);
    PrefixThrough(PeelEditions(v, d), d, t);
  }

  lemma CleanedAgain(v: Wording, raw: string, title: string)
    requires CleanAlbumTitle(v, raw) == Some(title) && title != "" && Composed(v, Trim(raw))
    ensures CleanAlbumTitle(v, title) == Some(title)
            <==> StripTrailingDiscSuffix(title) == Some(title) || NothingLeft(v, title)
  {
    CleanedShape(v, raw, title);
    ComposedPrefix(v, title, Trim(raw));
    TightIsTrimmed(title);
    if StripTrailingDiscSuffix(title).Some? {
      DiscStripIsCut(title);
      var d := StripTrailingDiscSuffix(title).value;
      PeeledAllIsCut(v, d);
      PrefixThrough(PeelEditions(v, d), d, title);
    }
  }

  /** Cleaning twice differs from cleaning once exactly when a disc mark lies under the trailing editions. */
  lemma CleanAgainIff(v: Wording, raw: string, title: string)
    requires CleanAlbumTitle(v, raw) == Some(title) && Composed(v, Trim(raw))
    ensures CleanAlbumTitle(v, title) == Some(title) <==> !DiscMarkUnderEditions(v, raw)
  {
    if title == "" {
      CleanedIsEmpty(v, raw);
    } else {
      CleanedIsUnder(v, raw, title);
      CleanedAgain(v, raw, title);
    }
  }

  /** Only blanks are cleaned to nothing. */
  lemma CleanedIsEmpty(v: Wording, raw: string)
    requires CleanAlbumTitle(v, raw) == Some("") && Composed(v, Trim(raw))
    ensures Trim(raw) == "" && !DiscMarkUnderEditions(v, raw)
  {
    var t := Trim(raw);
    if t != "" {
      TrimIsTight(raw);
      DiscStripIsCut(t);
      var d := StripTrailingDiscSuffix(t).value;
      PeeledAllIsCut(v, d);
      PrefixThrough(PeelEditions(v, d), d, t);
    }
  }

  /**
   What composing does in Unicode: its results are composed wherever they are cut, and a text with no
   blank at either end is given none.
   */
  ghost predicate Composes(v: Wording) {
    forall s :: Composed(v, v.nfc(s)) && (Tight(s) ==> Tight(v.nfc(s)))
  }

  /** The title carries no disc mark and no edition, or taking them off would leave no title. */
  predicate NothingToTake(v: Wording, title: string) {
    || NothingLeft(v, title)
    || (StripTrailingDiscSuffix(title) == Some(title) && PeelEdition(v, title) == None)
  }

  lemma CleanedIsTight(v: Wording, raw: string, title: string)
    requires CleanAlbumTitle(v, raw) == Some(title) && Composes(v)
    ensures Composed(v, title) || Trim(raw) == title == ""
    ensures Tight(title) || Trim(raw) == title == ""
  {
    var t := Trim(raw);
    if t != "" {
      TrimIsTight(raw);
      DiscStripIsCut(t);
      var d := StripTrailingDiscSuffix(t).value;
      PeeledAllIsCut(v, d);
      PrefixThrough(PeelEditions(v, d), d, t);
      if Trim(PeelEditions(v, d)) != "" { CutOfTight(PeelEditions(v, d), t); }
    }
  }

  lemma TightIsKeptIff(v: Wording, title: string)
    requires Tight(title) && Composed(v, title)
    ensures CleanAlbumTitle(v, title) == Some(title) <==> NothingToTake(v, title)
  {
    TightIsTrimmed(title);
    if StripTrailingDiscSuffix(title).Some? {
      DiscStripIsCut(title);
      var d := StripTrailingDiscSuffix(title).value;
      PeeledAllIsCut(v, d);
      PrefixThrough(PeelEditions(v, d), d, title);
    }
  }

  /** Whatever the raw title, cleaning again changes nothing exactly when the cleaned one has nothing to take. */
  lemma CleanAgainOfAnyIff(v: Wording, raw: string, title: string)
    requires CleanAlbumTitle(v, raw) == Some(title) && Composes(v)
    ensures CleanAlbumTitle(v, title) == Some(title) <==> title == "" || NothingToTake(v, title)
  {
    CleanedIsTight(v, raw, title);
    if title != "" { TightIsKeptIff(v, title); }
  }

  // ---------------------------------------------------------------------------
  // An edition behind a disc mark
  // ---------------------------------------------------------------------------

  lemma TailEndsAlike(s: string, k: nat)
    requires k < |s| && s[|s| - 1] in ")]"
    ensures ParseDiscGroup(Trim(s[k..])) == None
  {
    F.EndsInBracket(s[k..]);
  }

  lemma BracketStopsDash(s: string, delim: string)
    requires |delim| == 3 && delim[2] == ' ' && s != "" && s[|s| - 1] in ")]"
    ensures StripAt(s, delim) == NoSuffix
  {
    if RFind(s, delim).Some? {
      var i := RFind(s, delim).value;
      assert s[i..i + 3][2] == s[i + 2];
      TailEndsAlike(s, i + 3);
    }
  }

  lemma EditionBracket(before: string, q: string)
    requires '(' !in q
    ensures var s := before + " (" + q + ")";
            RFind(s, "(") == Some(|before| + 1) && s[|before| + 2..|s| - 1] == q && s[..|before| + 1] == before + " "
  {
    var s := before + " (" + q + ")";
    assert s == (before + " ") + ['('] + (q + ")");
    LastOccurrence(before + " ", '(', q + ")");
  }

  lemma EditionBlank(before: string, q: string)
    requires IsWord(q)
    ensures var s := before + " (" + q + ")"; LastSpace(s) == Some(|before|) && s[|before|] == ' '
  {
    var w := "(" + q + ")";
    assert IsWord(w);
    F.GluedPosition(before, w);
    assert before + " " + w == before + " (" + q + ")";
  }

  lemma EditionShape(before: string, q: string)
    requires IsWord(q) && '(' !in q
    ensures var s := before + " (" + q + ")";
            && RFind(s, "(") == Some(|before| + 1) && s[|before| + 2..|s| - 1] == q && s[..|before| + 1] == before + " "
            && LastSpace(s) == Some(|before|) && s[|before|] == ' ' && s[|s| - 1] == ')' && |s| >= 4
  {
    EditionBracket(before, q);
    EditionBlank(before, q);
  }

  lemma OneWordIsNoDisc(q: string)
    requires IsWord(q)
    ensures ParseDiscGroup(Trim(q)) == None && Trim(q) == q
  {
    TightIsTrimmed(q);
    OneWord(Lower(q));
  }

  lemma EditionIsNoGlue(before: string, q: string)
    requires IsWord(q) && '(' !in q
    ensures StripGlued(before + " (" + q + ")") == NoSuffix
  {
    var s := before + " (" + q + ")";
    EditionShape(before, q);
    F.SpaceIsOneByte();
    var lower := Lower(s[|before| + 1..]);
    assert lower[|lower| - 1] == ')';
    if FirstDigit(lower).Some? {
      var d := FirstDigit(lower).value;
      assert lower[d..][|lower[d..]| - 1] == ')';
    }
  }

  lemma EditionIsNoDisc(before: string, q: string)
    requires IsWord(q) && '(' !in q
    ensures StripTrailingDiscSuffix(before + " (" + q + ")") == Some(before + " (" + q + ")")
  {
    var s := before + " (" + q + ")";
    EditionShape(before, q);
    OneWordIsNoDisc(q);
    BracketStopsDash(s, HYPHEN);
    BracketStopsDash(s, EN_DASH);
    BracketStopsDash(s, EM_DASH);
    EditionIsNoGlue(before, q);
    F.EndedIsTrimmed(s);
  }

  lemma PeelsRound(v: Wording, s: string, i: nat, before: string, inner: string)
    requires |s| >= 3 && s[|s| - 1] == ')' && RFind(s, "(") == Some(i) && i + 1 < |s|
    requires s[..i] == before && s[i + 1..|s| - 1] == inner && Trim(inner) == inner && v.isEdition(inner)
    ensures PeelEdition(v, s) == Some(TrimEnd(before))
  {
    F.EndedIsTrimmed(s);
  }

  lemma EditionPeels(v: Wording, before: string, q: string)
    requires Tight(before) && IsWord(q) && '(' !in q && v.isEdition(q)
    ensures PeelEdition(v, before + " (" + q + ")") == Some(before)
  {
    EditionShape(before, q);
    TightIsTrimmed(q);
    PeelsRound(v, before + " (" + q + ")", |before| + 1, before + " ", q);
    TrimEndDropsGap(before, " ");
  }

  /** The edition wording and the disc marks share no text. */
  ghost predicate NoDiscMarkIsEdition(v: Wording) {
    forall s :: ParseDiscGroup(s).Some? ==> !v.isEdition(s)
  }

  /** A title that ends in a bracketed disc mark ends in no edition. */
  lemma DiscBracketIsNoEdition(v: Wording, s: string)
    requires NoDiscMarkIsEdition(v) && TrimEnd(s) == s && StripParen(s).Stripped?
    ensures PeelEdition(v, s) == None
  {
  }

  lemma MarkIsStripped(head: string, mark: Mark, round: bool, s: string)
    requires ValidMark(mark) && s == head + [F.Opening(round)] + (MarkText(mark) + [F.Closing(round)])
    ensures StripParen(s).Stripped?
  {
    F.BracketedMark(mark, round);
    F.BracketedStrips(head, MarkText(mark), round, s);
  }

  lemma MarkedEndsInDisc(album: string, disc: F.Spelling)
    requires F.AlbumFolderName(album) && F.ValidSpelling(disc) && disc.Bracketed?
    ensures var marked := album + F.Suffix(disc); TrimEnd(marked) == marked && StripParen(marked).Stripped?
  {
    var marked := album + F.Suffix(disc);
    F.BracketedName(album, disc);
    MarkIsStripped(album + disc.gap, disc.mark, disc.round, marked);
    MarkedIsTight(album, disc);
    TightIsTrimmed(marked);
  }

  lemma MarkedIsTight(album: string, disc: F.Spelling)
    requires Tight(album) && F.ValidSpelling(disc) && disc.Bracketed?
    ensures Tight(album + F.Suffix(disc)) && F.Suffix(disc) != "" && album <= album + F.Suffix(disc)
  {
    var s := album + F.Suffix(disc);
    F.BracketedName(album, disc);
    assert s[0] == album[0] && s[|s| - 1] == F.Closing(disc.round);
  }

  lemma RawIsTight(marked: string, q: string)
    requires Tight(marked)
    ensures Tight(marked + " (" + q + ")") && marked <= marked + " (" + q + ")"
  {
    var raw := marked + " (" + q + ")";
    assert raw[0] == marked[0] && raw[|raw| - 1] == ')';
  }

  lemma CleanedOnce(v: Wording, s: string, withoutDisc: string, title: string)
    requires Tight(s) && StripTrailingDiscSuffix(s) == Some(withoutDisc) && Tight(title)
    requires PeelEditions(v, TrimEnd(withoutDisc)) == title && title <= s && Composed(v, s)
    ensures CleanAlbumTitle(v, s) == Some(title)
  {
    TightIsTrimmed(s);
    TightIsTrimmed(title);
  }

  /** The album's name with a bracketed disc mark that is no edition. */
  ghost predicate Marked(v: Wording, album: string, marked: string) {
    && Tight(album) && Tight(marked) && album <= marked && album != marked
    && PeelEdition(v, album) == None && PeelEdition(v, marked) == None
    && StripTrailingDiscSuffix(marked) == Some(album)
  }

  lemma SuffixMarks(v: Wording, album: string, disc: F.Spelling)
    requires F.AlbumFolderName(album) && F.ValidSpelling(disc) && disc.Bracketed?
    requires NoDiscMarkIsEdition(v) && PeelEdition(v, album) == None
    ensures Marked(v, album, album + F.Suffix(disc))
  {
    F.BracketedRollsUp(album, disc);
    MarkedIsTight(album, disc);
    MarkedEndsInDisc(album, disc);
    DiscBracketIsNoEdition(v, album + F.Suffix(disc));
  }

  /** The first cleaning takes the edition. */
  lemma EditionIsCleaned(v: Wording, marked: string, q: string)
    requires Tight(marked) && PeelEdition(v, marked) == None
    requires IsWord(q) && '(' !in q && v.isEdition(q) && NoDiscMarkIsEdition(v)
    requires Composed(v, marked + " (" + q + ")")
    ensures CleanAlbumTitle(v, marked + " (" + q + ")") == Some(marked) && Composed(v, marked)
  {
    var raw := marked + " (" + q + ")";
    EditionPeels(v, marked, q);
    EditionIsNoDisc(marked, q);
    RawIsTight(marked, q);
    CleanedOnce(v, raw, raw, marked);
    ComposedPrefix(v, marked, raw);
  }

  /** The second cleaning takes the disc mark. */
  lemma MarkIsCleaned(v: Wording, album: string, marked: string)
    requires Marked(v, album, marked) && Composed(v, marked)
    ensures CleanAlbumTitle(v, marked) == Some(album)
  {
    TightIsTrimmed(album);
    CleanedOnce(v, marked, album, album);
  }

  /** A disc mark in front of an edition outlives the first cleaning and falls to the second. */
  lemma StackedMarksNeedTwoCleanings(v: Wording, album: string, disc: F.Spelling, q: string)
    requires F.AlbumFolderName(album) && F.ValidSpelling(disc) && disc.Bracketed?
    requires IsWord(q) && '(' !in q && v.isEdition(q)
    requires NoDiscMarkIsEdition(v) && PeelEdition(v, album) == None
    requires Composed(v, album + F.Suffix(disc) + " (" + q + ")")
    ensures CleanAlbumTitle(v, album + F.Suffix(disc) + " (" + q + ")") == Some(album + F.Suffix(disc))
    ensures CleanAlbumTitle(v, album + F.Suffix(disc)) == Some(album) && album != album + F.Suffix(disc)
  {
    var marked := album + F.Suffix(disc);
    SuffixMarks(v, album, disc);
    EditionIsCleaned(v, marked, q);
    MarkIsCleaned(v, album, marked);
  }
}
