/** The edition wording that title cleaning strips, and that no disc mark reads as an edition. */
module AlbumEditions {
  import opened Common
  import opened Text
  import opened TextLemmas
  import opened AlbumName
  import opened AlbumTitle
  import F = FolderAlbum

  const EDITIONS: set<string> := {
    "deluxe", "deluxe edition", "deluxe version", "expanded edition", "expanded version", "extended edition",
    "extended version", "explicit", "clean", "clean version", "remastered", "remastered version", "remaster",
    "anniversary edition", "special edition", "collector's edition", "collectors edition", "bonus track version",
    "bonus track edition", "bonus tracks", "radio edit", "single edit", "explicit version"
  }

  const ANNIVERSARY := " anniversary"
  const ANNIVERSARY_EDITION := " anniversary edition"

  predicate EndsWith(s: string, tail: string) {
    |tail| <= |s| && s[|s| - |tail|..] == tail
  }

  predicate IsAsciiAlnum(c: char) {
    IsDigit(c) || 'a' <= c <= 'z' || 'A' <= c <= 'Z'
  }

  /** A number, perhaps with letters behind it, and the word anniversary. */
  predicate IsAnniversaryForm(lower: string) {
    && (EndsWith(lower, ANNIVERSARY_EDITION) || EndsWith(lower, ANNIVERSARY))
    && var tail := if EndsWith(lower, ANNIVERSARY_EDITION) then ANNIVERSARY_EDITION else ANNIVERSARY;
       var head := lower[..|lower| - |tail|];
       head != "" && IsDigit(head[0]) && forall c :: c in head ==> IsAsciiAlnum(c)
  }

  predicate IsEditionQualifier(inner: string) {
    var lower := Trim(Lower(inner));
    lower in EDITIONS || IsAnniversaryForm(lower)
  }

  function EditionWording(nfc: string -> string): Wording {
    Wording(s => IsEditionQualifier(s), nfc)
  }

  /** How the disc labels begin. */
  predicate IsDiscHead(a: char, b: char) {
    (a == 'd' && b == 'i') || (a == 'c' && b == 'd') || (a == 'v' && b == 'o') || (a == 'p' && b == 'a')
  }

  lemma LabelHead(word: string)
    requires word in DISC_LABELS
    ensures |word| >= 2 && IsDiscHead(word[0], word[1])
  {
  }

  lemma {:induction false} TrimEndCharIsPrefix(s: string, c: char)
    ensures TrimEndChar(s, c) <= s
  {
    if s != "" && s[|s| - 1] == c { TrimEndCharIsPrefix(s[..|s| - 1], c); }
  }

  lemma FirstWord(s: string)
    requires s != "" && !IsWhitespace(s[0])
    ensures Words(s) != [] && Words(s)[0] <= s
  {
    WordPrefixIsPrefix(s);
  }

  lemma {:induction false} LowerTrimStart(s: string)
    ensures TrimStart(Lower(s)) == Lower(TrimStart(s))
  {
    if s != "" && IsWhitespace(s[0]) {
      LowerTrimStart(s[1..]);
      assert Lower(s)[1..] == Lower(s[1..]);
    }
  }

  lemma {:induction false} LowerTrimEnd(s: string)
    ensures TrimEnd(Lower(s)) == Lower(TrimEnd(s))
  {
    if s != "" && IsWhitespace(s[|s| - 1]) {
      LowerTrimEnd(s[..|s| - 1]);
      assert Lower(s)[..|s| - 1] == Lower(s[..|s| - 1]);
    }
  }

  /** The words of a text in lower case are those of the trimmed text. */
  lemma WordsOfTrimmedLower(s: string)
    ensures Words(Trim(Lower(s))) == Words(Lower(s))
  {
    LowerTrimStart(s);
    LowerTrimEnd(TrimStart(s));
    WordsOfTrim(s);
  }

  lemma DiscGroupHead(s: string)
    requires ParseDiscGroup(s).Some?
    ensures var lower := Trim(Lower(s)); |lower| >= 2 && IsDiscHead(lower[0], lower[1])
  {
    var lower := Trim(Lower(s));
    WordsOfTrimmedLower(s);
    TrimIsTight(Lower(s));
    FirstWord(lower);
    var w := Words(lower)[0];
    TrimEndCharIsPrefix(w, '.');
    LabelHead(TrimEndChar(w, '.'));
  }

  lemma EditionHead(lower: string)
    requires lower in EDITIONS
    ensures |lower| >= 2 && !IsDiscHead(lower[0], lower[1])
  {
  }

  lemma AnniversaryHead(lower: string)
    requires IsAnniversaryForm(lower)
    ensures lower != "" && IsDigit(lower[0])
  {
  }

  /** No disc mark reads as an edition, so neither stripper takes what is the other's. */
  lemma EditionIsNoDiscMark(s: string)
    ensures !(ParseDiscGroup(s).Some? && IsEditionQualifier(s))
  {
    var lower := Trim(Lower(s));
    if ParseDiscGroup(s).Some? {
      DiscGroupHead(s);
      if lower in EDITIONS { EditionHead(lower); }
      if IsAnniversaryForm(lower) { AnniversaryHead(lower); }
    }
  }

  lemma EditionsApart(nfc: string -> string)
    ensures NoDiscMarkIsEdition(EditionWording(nfc))
  {
    forall s | ParseDiscGroup(s).Some? ensures !EditionWording(nfc).isEdition(s) { EditionIsNoDiscMark(s); }
  }

  // ---------------------------------------------------------------------------
  // Groups at the end of a title
  // ---------------------------------------------------------------------------

  /** A group in brackets behind a title, as tag editors leave it. */
  datatype Decoration = Decoration(gap: string, round: bool, inner: string)

  function Opening(round: bool): char {
    if round then '(' else '['
  }

  function Closing(round: bool): char {
    if round then ')' else ']'
  }

  function Bracketed(d: Decoration): string {
    d.gap + ([Opening(d.round)] + (d.inner + [Closing(d.round)]))
  }

  predicate ValidDecoration(d: Decoration) {
    Blank(d.gap) && Opening(d.round) !in d.inner
  }

  /** A number, perhaps with letters behind it. */
  predicate IsOrdinal(n: string) {
    n != "" && '0' <= n[0] <= '9' && forall c :: c in n ==> '0' <= c <= '9' || 'a' <= c <= 'z' || 'A' <= c <= 'Z'
  }

  /** The wordings that name an edition, in lower case. */
  predicate IsEditionWording(lower: string) {
    || lower in {"deluxe", "deluxe edition", "deluxe version"}
    || lower in {"expanded edition", "expanded version", "extended edition", "extended version"}
    || lower in {"explicit", "explicit version", "clean", "clean version"}
    || lower in {"remaster", "remastered", "remastered version"}
    || lower in {"anniversary edition", "special edition", "collector's edition", "collectors edition"}
    || lower in {"bonus tracks", "bonus track version", "bonus track edition", "radio edit", "single edit"}
  }

  /** A wording, or a numbered anniversary. */
  ghost predicate NamesEdition(lower: string) {
    || IsEditionWording(lower)
    || exists n :: IsOrdinal(n) && (lower == n + " anniversary" || lower == n + " anniversary edition")
  }

  lemma EditionWordingIff(lower: string)
    ensures lower in EDITIONS <==> IsEditionWording(lower)
  {
  }

  lemma OrdinalIff(n: string)
    ensures IsOrdinal(n) <==> n != "" && IsDigit(n[0]) && forall c :: c in n ==> IsAsciiAlnum(c)
  {
    assert forall c: char :: IsAsciiAlnum(c) <==> '0' <= c <= '9' || 'a' <= c <= 'z' || 'A' <= c <= 'Z';
  }

  lemma EndsWithIff(lower: string, tail: string)
    ensures EndsWith(lower, tail) <==> exists n :: lower == n + tail
    ensures EndsWith(lower, tail) ==> lower == lower[..|lower| - |tail|] + tail
    ensures forall n :: lower == n + tail ==> n == lower[..|lower| - |tail|]
  {
    if EndsWith(lower, tail) { assert lower == lower[..|lower| - |tail|] + tail; }
  }

  lemma AnniversaryFormIff(lower: string)
    ensures IsAnniversaryForm(lower)
            <==> exists n :: IsOrdinal(n) && (lower == n + " anniversary" || lower == n + " anniversary edition")
  {
    EndsWithIff(lower, ANNIVERSARY_EDITION);
    EndsWithIff(lower, ANNIVERSARY);
    if EndsWith(lower, ANNIVERSARY_EDITION) {
      assert lower[|lower| - 1] == 'n';
      OrdinalIff(lower[..|lower| - |ANNIVERSARY_EDITION|]);
    } else if EndsWith(lower, ANNIVERSARY) {
      OrdinalIff(lower[..|lower| - |ANNIVERSARY|]);
    }
  }

  lemma EditionQualifierIff(inner: string)
    ensures IsEditionQualifier(inner) <==> NamesEdition(Trim(Lower(inner)))
  {
    AnniversaryFormIff(Trim(Lower(inner)));
    EditionWordingIff(Trim(Lower(inner)));
  }

  lemma GroupParts(a: string, open: char, inner: string, close: char, s: string)
    requires s == a + [open] + (inner + [close])
    ensures |s| == |a| + |inner| + 2 && s[|s| - 1] == close && s[..|a|] == a && s[|a| + 1..|s| - 1] == inner
  {
  }

  lemma {:induction false} GroupShape(a: string, open: char, inner: string, close: char, s: string)
    requires s == a + [open] + (inner + [close]) && a + inner != ""
    requires open !in inner && close in ")]" && open != close
    ensures RFind(s, [open]) == Some(|a|) && TrimEnd(s) == s && ByteLength(s) >= 3
  {
    GroupParts(a, open, inner, close, s);
    LastOccurrence(a, open, inner + [close]);
    F.EndedIsTrimmed(s);
  }

  lemma BracketedParts(before: string, d: Decoration)
    ensures before + Bracketed(d)
            == (before + d.gap) + [Opening(d.round)] + (d.inner + [Closing(d.round)])
  {
  }

  lemma {:induction false} GroupPeels(v: Wording, s: string, t: string, i: nat, round: bool)
    requires TrimEnd(s) == t && i + 1 < |t| && ByteLength(t) >= 3
    requires t[|t| - 1] == Closing(round) && RFind(t, [Opening(round)]) == Some(i)
    requires v.isEdition(Trim(t[i + 1..|t| - 1]))
    ensures PeelEdition(v, s) == Some(TrimEnd(t[..i]))
  {
    if round { assert RFind(t, ['(']) == Some(i); } else { assert RFind(t, ['[']) == Some(i); }
  }

  lemma {:induction false} DecorationPeels(v: Wording, before: string, d: Decoration)
    requires before != "" && !IsWhitespace(before[|before| - 1]) && ValidDecoration(d) && v.isEdition(Trim(d.inner))
    ensures PeelEdition(v, before + Bracketed(d)) == Some(before) && before + Bracketed(d) != ""
    ensures var s := before + Bracketed(d); !IsWhitespace(s[|s| - 1])
  {
    var s, a, close := before + Bracketed(d), before + d.gap, Closing(d.round);
    BracketedParts(before, d);
    GroupParts(a, Opening(d.round), d.inner, close, s);
    GroupShape(a, Opening(d.round), d.inner, close, s);
    GroupPeels(v, s, s, |a|, d.round);
    TrimEndDropsGap(before, d.gap);
  }

  function Decorated(title: string, ds: seq<Decoration>): string {
    if ds == [] then title else Decorated(title, ds[..|ds| - 1]) + Bracketed(ds[|ds| - 1])
  }

  /** Ends in no blank and in no group that names an edition. */
  ghost predicate Undecorated(title: string) {
    && title != "" && !IsWhitespace(title[|title| - 1])
    && forall before, d :: ValidDecoration(d) && title == before + Bracketed(d) && before + d.gap + d.inner != ""
                           ==> !NamesEdition(Trim(Lower(Trim(d.inner))))
  }

  lemma NotAfterLast(s: string, c: char, i: nat, e: nat)
    requires RFind(s, [c]) == Some(i) && i < e <= |s|
    ensures c !in s[i + 1..e]
  {
    if c in s[i + 1..e] {
      var k :| 0 <= k < e - i - 1 && s[i + 1..e][k] == c;
      assert s[i + 1 + k..i + 2 + k] == [c];
      assert FoundAt(s, [c], i + 1 + k);
    }
  }

  lemma {:induction false} PeeledInside(v: Wording, s: string, t: string) returns (round: bool, i: nat)
    requires PeelEdition(v, s).Some? && TrimEnd(s) == t
    ensures i < |t| - 1 && t[i] == Opening(round) && t[|t| - 1] == Closing(round)
    ensures RFind(t, [Opening(round)]) == Some(i) && v.isEdition(Trim(t[i + 1..|t| - 1]))
  {
    round := t[|t| - 1] == ')';
    i := RFind(t, [Opening(round)]).value;
    assert t[i] == t[i..i + 1][0];
  }

  lemma SplitAround(s: string, i: nat)
    requires i < |s| - 1
    ensures s == s[..i] + [s[i]] + (s[i + 1..|s| - 1] + [s[|s| - 1]])
  {
  }

  lemma {:induction false} PeeledGroup(v: Wording, s: string) returns (before: string, d: Decoration)
    requires PeelEdition(v, s).Some? && TrimEnd(s) == s
    ensures ValidDecoration(d) && s == before + Bracketed(d) && v.isEdition(Trim(d.inner))
  {
    var round, i := PeeledInside(v, s, s);
    NotAfterLast(s, Opening(round), i, |s| - 1);
    before, d := s[..i], Decoration("", round, s[i + 1..|s| - 1]);
    SplitAround(s, i);
    assert before + d.gap == before;
    BracketedParts(before, d);
  }

  lemma PairIsNoGroup(v: Wording, round: bool)
    ensures PeelEdition(v, Bracketed(Decoration("", round, ""))) == None
  {
    assert Bracketed(Decoration("", round, "")) == [Opening(round)] + [Closing(round)];
    ByteLengthOfConcat([Opening(round)], [Closing(round)]);
  }

  lemma {:induction false} UndecoratedStays(nfc: string -> string, title: string)
    requires Undecorated(title)
    ensures PeelEdition(EditionWording(nfc), title) == None
  {
    var v := EditionWording(nfc);
    if PeelEdition(v, title).Some? {
      var before, d := PeeledGroup(v, title);
      EditionQualifierIff(Trim(d.inner));
      if before + d.gap + d.inner == "" {
        assert d == Decoration("", d.round, "") && title == Bracketed(d);
        PairIsNoGroup(v, d.round);
      }
    }
  }

  lemma {:induction false} QualifiersFall(v: Wording, title: string, ds: seq<Decoration>)
    requires title != "" && !IsWhitespace(title[|title| - 1]) && PeelEdition(v, title) == None
    requires forall d :: d in ds ==> ValidDecoration(d) && v.isEdition(Trim(d.inner))
    ensures var s := Decorated(title, ds);
            s != "" && !IsWhitespace(s[|s| - 1]) && PeelEditions(v, s) == title
  {
    if ds != [] {
      var front, d := Decorated(title, ds[..|ds| - 1]), ds[|ds| - 1];
      QualifiersFall(v, title, ds[..|ds| - 1]);
      DecorationPeels(v, front, d);
    }
  }

  /** Stripping takes every group that names an edition, stacked in any number, and no other. */
  lemma DecorationsFall(nfc: string -> string, title: string, ds: seq<Decoration>)
    requires Undecorated(title)
    requires forall d :: d in ds ==> ValidDecoration(d) && NamesEdition(Trim(Lower(Trim(d.inner))))
    ensures PeelEditions(EditionWording(nfc), TrimEnd(Decorated(title, ds))) == title
  {
    UndecoratedStays(nfc, title);
    forall d | d in ds ensures EditionWording(nfc).isEdition(Trim(d.inner)) { EditionQualifierIff(Trim(d.inner)); }
    QualifiersFall(EditionWording(nfc), title, ds);
  }

  /** With the wording of the program, a bracketed disc mark in front of a one-word edition needs two cleanings. */
  lemma MarkedEditionNeedsTwoCleanings(nfc: string -> string, album: string, disc: F.Spelling, q: string)
    requires F.AlbumFolderName(album) && F.ValidSpelling(disc) && disc.Bracketed?
    requires IsWord(q) && '(' !in q && IsEditionQualifier(q)
    requires var v := EditionWording(nfc);
             PeelEdition(v, album) == None && Composed(v, album + F.Suffix(disc) + " (" + q + ")")
    ensures var v, marked := EditionWording(nfc), album + F.Suffix(disc);
            && CleanAlbumTitle(v, marked + " (" + q + ")") == Some(marked)
            && CleanAlbumTitle(v, marked) == Some(album) && album != marked
  {
    EditionsApart(nfc);
    StackedMarksNeedTwoCleanings(EditionWording(nfc), album, disc, q);
  }
}
