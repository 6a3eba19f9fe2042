/** The folder that identifies an album, whichever way its disc folders are spelt. */
module FolderAlbum {
  import opened Common
  import opened Text
  import opened TextLemmas
  import opened AlbumName

  /** Around the last slash; the whole text is the segment when there is none. */
  function SplitLastSegment(s: string): Option<(string, string)> {
    if s == "" then None
    else
      match RFind(s, "/")
      case Some(i) => Some((s[..i], s[i + 1..]))
      case None => Some(("", s))
  }

  function Join(parent: string, name: string): string {
    if parent == "" then name else parent + "/" + name
  }

  /** The key of the folder a track is in. */
  function FolderKey(folder: string): Option<string> {
    match SplitLastSegment(folder)
    case None => Some("")
    case Some((grandparent, basename)) =>
      if IsDiscOnlyBasename(basename) then Some(grandparent)
      else
        match StripTrailingDiscSuffix(basename)
        case None => None
        case Some(stripped) =>
          if ByteLength(stripped) != ByteLength(basename) then Some(Join(grandparent, stripped)) else Some(folder)
  }

  /** The album folder key of a track path; no key where stripping the folder name stops the program. */
  function CanonicalAlbumFolder(path: string): Option<string> {
    match SplitLastSegment(TrimEndChar(Trim(path), '/'))
    case None => Some("")
    case Some((parent, _)) => FolderKey(parent)
  }

  // ---------------------------------------------------------------------------
  // The five spellings
  // ---------------------------------------------------------------------------

  datatype Spelling =
    | Subfolder(mark: Mark)
    | Bracketed(mark: Mark, gap: string, round: bool)
    | Dashed(mark: Mark, dash: char)
    | Glued(kind: string, digits: string)

  predicate ValidSpelling(sp: Spelling) {
    match sp
    case Subfolder(mark) => ValidMark(mark)
    case Bracketed(mark, gap, _) => ValidMark(mark) && Blank(gap)
    case Dashed(mark, dash) => ValidMark(mark) && dash in ['-', '\U{2013}', '\U{2014}']
    case Glued(kind, digits) => IsDiscWord(Lower(kind)) && digits != "" && AllDigits(digits)
  }

  function Opening(round: bool): char {
    if round then '(' else '['
  }

  function Closing(round: bool): char {
    if round then ')' else ']'
  }

  /** What a spelling appends to the album's name; a subfolder leaves the name as it is. */
  function Suffix(sp: Spelling): string {
    match sp
    case Subfolder(mark) => ""
    case Bracketed(mark, gap, round) => gap + ([Opening(round)] + (MarkText(mark) + [Closing(round)]))
    case Dashed(mark, dash) => " " + ([dash] + (" " + MarkText(mark)))
    case Glued(kind, digits) => " " + (kind + digits)
  }

  /** The folder of a disc of `album` below `parent`. */
  function DiscFolder(parent: string, album: string, sp: Spelling): string {
    var named := Join(parent, album + Suffix(sp));
    if sp.Subfolder? then named + "/" + MarkText(sp.mark) else named
  }

  /** A name as an album folder bears it: trimmed and within one path segment. */
  predicate AlbumFolderName(album: string) {
    Tight(album) && '/' !in album
  }

  predicate FileName(file: string) {
    !Blank(file) && '/' !in file
  }

  // ---------------------------------------------------------------------------
  // Each spelling alone
  // ---------------------------------------------------------------------------

  /** A word no disc group contains keeps a text from being one. */
  lemma ForeignWord(s: string, w: string)
    requires w in Words(Lower(s)) && !IsGroupWord(w)
    ensures ParseDiscGroup(Trim(s)) == None
  {
    WordsOfTrim(s);
    if ParseDiscGroup(Trim(s)).Some? { GroupHasGroupWords(Trim(s), w); }
  }

  lemma BracketWordIsForeign(w: string)
    requires w != "" && w[|w| - 1] in ")]"
    ensures !IsGroupWord(w)
  {
    if TrimEndChar(w, '.') in DISC_LABELS {
      LabelLetters(w);
    }
    if IsNumberText(w) { NumberChars(w); }
  }

  lemma EndsInBracket(s: string)
    requires s != "" && s[|s| - 1] in ")]"
    ensures !IsDiscOnlyBasename(s)
  {
    var lower := Lower(s);
    LastWordEnds(lower);
    var w :| w in Words(lower) && w != "" && w[|w| - 1] == lower[|lower| - 1];
    BracketWordIsForeign(w);
    ForeignWord(s, w);
  }

  lemma BracketedParts(head: string, open: char, mark: string, close: char, s: string)
    requires open !in mark && open != close && s == head + [open] + (mark + [close])
    ensures |head| + 1 < |s| && RFind(s, [open]) == Some(|head|) && s[|s| - 1] == close
    ensures s[|head| + 1..|s| - 1] == mark && s[..|head|] == head
  {
    LastOccurrence(head, open, mark + [close]);
  }

  lemma StripBeforeIs(before: string, group: string)
    requires Tight(group) && ParseDiscGroup(group).Some?
    ensures StripBefore(before, group) == Stripped(TrimEnd(before))
  {
    TightIsTrimmed(group);
  }

  lemma StripParenIs(s: string, head: string, round: bool, inner: string)
    requires |head| + 1 < |s| && s[|s| - 1] == Closing(round) && RFind(s, [Opening(round)]) == Some(|head|)
    requires s[..|head|] == head && s[|head| + 1..|s| - 1] == inner
    ensures StripParen(s) == StripBefore(head, inner)
  {
  }

  lemma BracketedStrips(head: string, mark: string, round: bool, s: string)
    requires Tight(mark) && ParseDiscGroup(mark).Some? && Opening(round) !in mark
    requires s == head + [Opening(round)] + (mark + [Closing(round)])
    ensures StripParen(s) == Stripped(TrimEnd(head))
  {
    BracketedParts(head, Opening(round), mark, Closing(round), s);
    StripParenIs(s, head, round, mark);
    StripBeforeIs(head, mark);
  }

  lemma StripsByParen(s: string, title: string)
    requires |s| >= 3 && s[|s| - 1] in ")]" && StripParen(s) == Stripped(title)
    ensures StripTrailingDiscSuffix(s) == Some(title)
  {
    EndedIsTrimmed(s);
  }

  lemma BracketedText(album: string, gap: string, open: char, mark: string, close: char)
    ensures album + (gap + ([open] + (mark + [close]))) == (album + gap) + [open] + (mark + [close])
  {
  }

  lemma BracketedTextRollsUp(album: string, gap: string, text: string, round: bool)
    requires Tight(album) && Blank(gap) && Tight(text) && ParseDiscGroup(text).Some? && Opening(round) !in text
    ensures var s := album + gap + [Opening(round)] + (text + [Closing(round)]);
            !IsDiscOnlyBasename(s) && StripTrailingDiscSuffix(s) == Some(album)
  {
    var s := album + gap + [Opening(round)] + (text + [Closing(round)]);
    assert s[|s| - 1] == Closing(round);
    BracketedStrips(album + gap, text, round, s);
    TrimEndDropsGap(album, gap);
    EndsInBracket(s);
    StripsByParen(s, album);
  }

  lemma BracketedName(album: string, sp: Spelling)
    requires sp.Bracketed?
    ensures album + Suffix(sp)
            == album + sp.gap + [Opening(sp.round)] + (MarkText(sp.mark) + [Closing(sp.round)])
  {
    BracketedText(album, sp.gap, Opening(sp.round), MarkText(sp.mark), Closing(sp.round));
  }

  lemma BracketedMark(mark: Mark, round: bool)
    requires ValidMark(mark)
    ensures var text := MarkText(mark); Tight(text) && ParseDiscGroup(text).Some? && Opening(round) !in text
  {
    MarkShape(mark);
    MarkParses(mark);
  }

  lemma BracketedRollsUp(album: string, sp: Spelling)
    requires AlbumFolderName(album) && ValidSpelling(sp) && sp.Bracketed?
    ensures !IsDiscOnlyBasename(album + Suffix(sp))
    ensures StripTrailingDiscSuffix(album + Suffix(sp)) == Some(album)
  {
    BracketedMark(sp.mark, sp.round);
    BracketedTextRollsUp(album, sp.gap, MarkText(sp.mark), sp.round);
    BracketedName(album, sp);
  }

  lemma EndedIsTrimmed(s: string)
    requires |s| >= 3 && !IsWhitespace(s[|s| - 1])
    ensures TrimEnd(s) == s && ByteLength(s) >= 3
  {
  }

  lemma DashIsForeign(dash: char)
    requires dash in ['-', '\U{2013}', '\U{2014}']
    ensures IsWord([dash]) && Lower([dash]) == [dash] && !IsGroupWord([dash]) && !IsMarkChar(dash)
  {
    if TrimEndChar([dash], '.') in DISC_LABELS {
      LabelLetters([dash]);
    }
    if IsNumberText([dash]) { NumberChars([dash]); }
  }

  lemma PastName(album: string, after: string)
    requires after != ""
    ensures forall j :: |album| < j < |album + after| ==> (album + after)[j] in after[1..]
  {
    forall j | |album| < j < |album + after| ensures (album + after)[j] in after[1..] {
      assert (album + after)[j] == after[1..][j - |album| - 1];
    }
  }

  /** A delimiter is found no later than the name's own text reaches when what follows is free of its dash. */
  lemma DelimiterInName(album: string, after: string, delim: string, dash: char)
    requires delim == [' ', dash, ' '] && dash != ' ' && after != "" && dash !in after[1..] && after[0] == ' '
    ensures RFind(album + after, delim).Some? ==> RFind(album + after, delim).value + 3 <= |album| + 1
  {
    var s := album + after;
    PastName(album, after);
    if RFind(s, delim).Some? {
      var i := RFind(s, delim).value;
      assert s[i..i + 3][1] == s[i + 1] == dash;
    }
  }

  /** A dash further left than a foreign word settles nothing. */
  lemma ForeignWordStopsDash(album: string, w: string, rest: string, delim: string, dash: char)
    requires delim == [' ', dash, ' '] && dash != ' ' && dash !in w + rest
    requires IsWord(w) && (rest == "" || IsWhitespace(rest[0])) && !IsGroupWord(Lower(w))
    ensures StripAt(album + " " + (w + rest), delim) == NoSuffix
  {
    var s := album + " " + (w + rest);
    var after := " " + (w + rest);
    assert s == album + after && after[1..] == w + rest;
    DelimiterInName(album, after, delim, dash);
    if RFind(s, delim).Some? {
      var k := RFind(s, delim).value + 3;
      WordBehindSpace(album, w, rest, k);
      ForeignWord(s[k..], Lower(w));
    }
  }

  lemma DashPosition(album: string, text: string, dash: char)
    requires dash !in text && dash != ' '
    ensures var delim, s := [' ', dash, ' '], album + " " + ([dash] + (" " + text));
            && RFind(s, delim) == Some(|album|) && s[|album| + 3..] == text && s[..|album|] == album
  {
    var delim := [' ', dash, ' '];
    var s := album + " " + ([dash] + (" " + text));
    assert s == album + delim + text;
    assert s[|album|..|album| + 3] == delim;
    forall j: nat | |album| < j ensures !FoundAt(s, delim, j) {
      if j + 3 <= |s| { assert s[j..j + 3][1] == s[j + 1]; }
    }
    RFindIs(s, delim, |album|);
  }

  lemma StripAtIs(s: string, delim: string, i: nat, before: string, group: string)
    requires RFind(s, delim) == Some(i) && i + |delim| <= |s| && s[..i] == before && s[i + |delim|..] == group
    ensures StripAt(s, delim) == StripBefore(before, group)
  {
  }

  lemma StripsTight(before: string, group: string)
    requires Tight(before) && Tight(group) && ParseDiscGroup(group).Some?
    ensures StripBefore(before, group) == Stripped(before)
  {
    StripBeforeIs(before, group);
    TightIsTrimmed(before);
  }

  lemma DashFound(album: string, text: string, dash: char)
    requires Tight(album) && Tight(text) && ParseDiscGroup(text).Some? && dash !in text && dash != ' '
    ensures StripAt(album + " " + ([dash] + (" " + text)), [' ', dash, ' ']) == Stripped(album)
  {
    DashPosition(album, text, dash);
    StripAtIs(album + " " + ([dash] + (" " + text)), [' ', dash, ' '], |album|, album, text);
    StripsTight(album, text);
  }

  lemma DelimiterOf(dash: char)
    requires dash in ['-', '\U{2013}', '\U{2014}']
    ensures [' ', dash, ' '] == if dash == '-' then HYPHEN else if dash == '\U{2013}' then EN_DASH else EM_DASH
  {
  }

  lemma DashedStrips(album: string, text: string, dash: char)
    requires Tight(album) && Tight(text) && ParseDiscGroup(text).Some?
    requires dash in ['-', '\U{2013}', '\U{2014}'] && forall c :: c in text ==> IsMarkChar(c)
    ensures StripDash(album + " " + ([dash] + (" " + text))) == Stripped(album)
  {
    DashIsForeign(dash);
    DashFound(album, text, dash);
    DelimiterOf(dash);
    if dash != '-' {
      OtherDashFails(album, text, dash, HYPHEN, '-');
      if dash != '\U{2013}' {
        OtherDashFails(album, text, dash, EN_DASH, '\U{2013}');
      }
    }
  }

  lemma OtherDashFails(album: string, text: string, dash: char, delim: string, other: char)
    requires dash in ['-', '\U{2013}', '\U{2014}'] && other != dash && delim == [' ', other, ' ']
    requires other != ' ' && other !in text
    ensures StripAt(album + " " + ([dash] + (" " + text)), delim) == NoSuffix
  {
    DashIsForeign(dash);
    ForeignWordStopsDash(album, [dash], " " + text, delim, other);
  }

  lemma DashedIsNoDisc(album: string, text: string, dash: char)
    requires dash in ['-', '\U{2013}', '\U{2014}']
    ensures !IsDiscOnlyBasename(album + " " + ([dash] + (" " + text)))
  {
    var s := album + " " + ([dash] + (" " + text));
    DashIsForeign(dash);
    WordBehindSpace(album, [dash], " " + text, 0);
    assert s[0..] == s;
    ForeignWord(s, [dash]);
  }

  lemma StripsByDash(s: string, title: string)
    requires |s| >= 3 && IsDigit(s[|s| - 1]) && StripDash(s) == Stripped(title)
    ensures StripTrailingDiscSuffix(s) == Some(title)
  {
    EndedIsTrimmed(s);
  }

  lemma DashedRollsUp(album: string, sp: Spelling)
    requires AlbumFolderName(album) && ValidSpelling(sp) && sp.Dashed?
    ensures !IsDiscOnlyBasename(album + Suffix(sp))
    ensures StripTrailingDiscSuffix(album + Suffix(sp)) == Some(album)
  {
    var text := MarkText(sp.mark);
    var s := album + " " + ([sp.dash] + (" " + text));
    SuffixText(album, [sp.dash] + (" " + text));
    MarkShape(sp.mark);
    MarkParses(sp.mark);
    assert s[|s| - 1] == text[|text| - 1];
    DashedIsNoDisc(album, text, sp.dash);
    DashedStrips(album, text, sp.dash);
    StripsByDash(s, album);
  }

  lemma SuffixText(album: string, rest: string)
    ensures album + (" " + rest) == album + " " + rest
  {
  }

  lemma GluedChars(kind: string, digits: string)
    requires Lower(kind) in DISC_LABELS && AllDigits(digits)
    ensures forall c :: c in kind + digits ==> IsMarkChar(c) && c != ' '
  {
    LabelLetters(Lower(kind));
    var w := kind + digits;
    forall c | c in w ensures IsMarkChar(c) && c != ' ' {
      var i :| 0 <= i < |w| && w[i] == c;
      if i < |kind| {
        assert Lower(kind)[i] in Lower(kind);
      } else {
        assert IsDigit(digits[i - |kind|]);
      }
    }
  }

  lemma GluedIsForeign(kind: string, digits: string)
    requires kind in DISC_LABELS && digits != "" && AllDigits(digits)
    ensures !IsGroupWord(kind + digits) && IsDigit((kind + digits)[|kind + digits| - 1])
  {
    var w := kind + digits;
    LabelLetters(kind);
    assert w[0] == kind[0] && kind[0] in kind && w[|w| - 1] == digits[|digits| - 1];
    if TrimEndChar(w, '.') in DISC_LABELS { LabelLetters(w); }
    if IsNumberText(w) { NumberChars(w); }
  }

  lemma GluedWord(kind: string, digits: string)
    requires Lower(kind) in DISC_LABELS && digits != "" && AllDigits(digits)
    ensures var w := kind + digits;
            && IsWord(w) && Lower(w) == Lower(kind) + digits && !IsGroupWord(Lower(w))
            && IsDigit(w[|w| - 1]) && forall c :: c in w ==> IsMarkChar(c)
  {
    var w := kind + digits;
    GluedChars(kind, digits);
    GluedIsForeign(Lower(kind), digits);
    LowerOfConcat(kind, digits);
    LowerIsStable(digits);
    assert w[|w| - 1] == digits[|digits| - 1];
    WordOf(w);
  }

  lemma GluedPosition(album: string, w: string)
    requires IsWord(w)
    ensures var s := album + " " + w;
            LastSpace(s) == Some(|album|) && s[|album|] == ' ' && s[|album| + 1..] == w && s[..|album|] == album
  {
    var s := album + " " + w;
    assert s[|album|] == ' ' && forall j :: |album| < j < |s| ==> s[j] == w[j - |album| - 1];
  }

  lemma GluedSplit(word: string, digits: string)
    requires word in DISC_LABELS && digits != "" && AllDigits(digits)
    ensures var lower := word + digits;
            FirstDigit(lower) == Some(|word|) && lower[|word|..] == digits && lower[..|word|] == word
  {
    LabelLetters(word);
    var lower := word + digits;
    assert forall j :: 0 <= j < |word| ==> lower[j] in word;
    assert IsDigit(lower[|word|]);
  }

  lemma SpaceIsOneByte()
    ensures ByteLength([' ']) == 1
  {
    assert [' '][1..] == "";
  }

  lemma StripGluedIs(s: string, i: nat, lower: string, d: nat)
    requires i < |s| && LastSpace(s) == Some(i) && s[i] == ' ' && lower == Lower(s[i + 1..])
    requires FirstDigit(lower) == Some(d) && 0 < d < |lower| && AllDigits(lower[d..]) && lower[..d] in DISC_LABELS
    ensures StripGlued(s) == Stripped(TrimEnd(s[..i]))
  {
    SpaceIsOneByte();
  }

  lemma GluedStrips(album: string, kind: string, digits: string)
    requires Tight(album) && Lower(kind) in DISC_LABELS && digits != "" && AllDigits(digits)
    ensures StripGlued(album + " " + (kind + digits)) == Stripped(album)
  {
    GluedWord(kind, digits);
    GluedPosition(album, kind + digits);
    GluedSplit(Lower(kind), digits);
    LabelLetters(Lower(kind));
    TightIsTrimmed(album);
    StripGluedIs(album + " " + (kind + digits), |album|, Lower(kind) + digits, |Lower(kind)|);
  }

  lemma GluedIsNoDisc(album: string, w: string)
    requires IsWord(w) && !IsGroupWord(Lower(w))
    ensures !IsDiscOnlyBasename(album + " " + w)
  {
    WordBehindSpace(album, w, "", 0);
    assert w + "" == w && (album + " " + w)[0..] == album + " " + w;
    ForeignWord(album + " " + w, Lower(w));
  }

  lemma GluedIsNoDash(album: string, w: string)
    requires IsWord(w) && !IsGroupWord(Lower(w)) && forall c :: c in w ==> IsMarkChar(c)
    ensures StripDash(album + " " + w) == NoSuffix
  {
    assert w + "" == w;
    ForeignWordStopsDash(album, w, "", HYPHEN, '-');
    ForeignWordStopsDash(album, w, "", EN_DASH, '\U{2013}');
    ForeignWordStopsDash(album, w, "", EM_DASH, '\U{2014}');
  }

  lemma StripsByGlue(s: string, title: string)
    requires |s| >= 3 && IsDigit(s[|s| - 1]) && StripDash(s) == NoSuffix && StripGlued(s) == Stripped(title)
    ensures StripTrailingDiscSuffix(s) == Some(title)
  {
    EndedIsTrimmed(s);
  }

  lemma GluedRollsUp(album: string, sp: Spelling)
    requires AlbumFolderName(album) && ValidSpelling(sp) && sp.Glued?
    ensures !IsDiscOnlyBasename(album + Suffix(sp))
    ensures StripTrailingDiscSuffix(album + Suffix(sp)) == Some(album)
  {
    var w := sp.kind + sp.digits;
    var s := album + " " + w;
    SuffixText(album, w);
    DiscWordIff(Lower(sp.kind));
    GluedWord(sp.kind, sp.digits);
    GluedStrips(album, sp.kind, sp.digits);
    GluedIsNoDisc(album, w);
    GluedIsNoDash(album, w);
    StripsByGlue(s, album);
  }

  // ---------------------------------------------------------------------------
  // All spellings together
  // ---------------------------------------------------------------------------

  lemma SplitsAtLastSlash(prefix: string, segment: string)
    requires '/' !in segment
    ensures SplitLastSegment(prefix + "/" + segment) == Some((prefix, segment))
  {
    var s := prefix + "/" + segment;
    LastOccurrence(prefix, '/', segment);
    assert s[..|prefix|] == prefix && s[|prefix| + 1..] == segment;
  }

  lemma SplitsWhole(segment: string)
    requires segment != "" && '/' !in segment
    ensures SplitLastSegment(segment) == Some(("", segment))
  {
    OccurrenceIsMember(segment, "/");
  }

  lemma TrimmedPath(folder: string, file: string)
    requires !Blank(file)
    ensures Trim(folder + "/" + file) == TrimStart(folder) + "/" + TrimEnd(file)
  {
    var tail := "/" + file;
    assert folder + "/" + file == folder + tail;
    TrimStartOfConcat(folder, tail);
    var start := TrimStart(folder) + "/";
    assert TrimStart(folder) + tail == start + file;
    TrimEndOfConcat(start, file);
  }

  lemma TrimmedFileName(file: string)
    requires FileName(file)
    ensures var name := TrimEnd(file); name != "" && '/' !in name && name[|name| - 1] != '/'
  {
    TrimEndOfConcat("", file);
    var name := TrimEnd(file);
    assert forall c :: c in name ==> c in file;
    assert name[|name| - 1] in name;
  }

  lemma NoTrailingSlash(prefix: string, name: string)
    requires name != "" && name[|name| - 1] != '/'
    ensures TrimEndChar(prefix + name, '/') == prefix + name
  {
    assert (prefix + name)[|prefix + name| - 1] == name[|name| - 1];
  }

  /** The path of a file is split into its folder, without leading blanks, and its name. */
  lemma FileIsSplitOff(folder: string, file: string)
    requires FileName(file)
    ensures SplitLastSegment(TrimEndChar(Trim(folder + "/" + file), '/')) == Some((TrimStart(folder), TrimEnd(file)))
  {
    TrimmedPath(folder, file);
    TrimmedFileName(file);
    NoTrailingSlash(TrimStart(folder) + "/", TrimEnd(file));
    SplitsAtLastSlash(TrimStart(folder), TrimEnd(file));
  }

  lemma SuffixHasNoSlash(sp: Spelling)
    requires ValidSpelling(sp)
    ensures '/' !in Suffix(sp)
  {
    match sp
    case Subfolder(_) =>
    case Bracketed(mark, gap, round) =>
      MarkShape(mark);
      NoSlashAround(gap, Opening(round), MarkText(mark), [Closing(round)]);
    case Dashed(mark, dash) =>
      MarkShape(mark);
      NoSlashAround(" ", dash, " ", MarkText(mark));
    case Glued(kind, digits) =>
      DiscWordIff(Lower(kind));
      GluedWord(kind, digits);
  }

  lemma NoSlashAround(a: string, c: char, b: string, d: string)
    requires '/' !in a && c != '/' && '/' !in b && '/' !in d
    ensures '/' !in a + ([c] + (b + d))
  {
  }

  /** A folder name that rolls up to the album's. */
  predicate RollsTo(basename: string, album: string) {
    && basename != "" && !IsWhitespace(basename[0]) && '/' !in basename
    && !IsDiscOnlyBasename(basename)
    && StripTrailingDiscSuffix(basename) == Some(album) && ByteLength(album) != ByteLength(basename)
  }

  lemma SiblingRollsUp(album: string, sp: Spelling)
    requires AlbumFolderName(album) && ValidSpelling(sp) && !sp.Subfolder?
    ensures RollsTo(album + Suffix(sp), album)
  {
    match sp {
      case Bracketed(_, _, _) => BracketedRollsUp(album, sp);
      case Dashed(_, _) => DashedRollsUp(album, sp);
      case Glued(_, _) => GluedRollsUp(album, sp);
    }
    SuffixHasNoSlash(sp);
    LongerInBytes(album, Suffix(sp));
  }

  lemma LongerInBytes(album: string, suffix: string)
    requires album != "" && suffix != ""
    ensures ByteLength(album) != ByteLength(album + suffix) && (album + suffix)[0] == album[0]
  {
    ByteLengthOfConcat(album, suffix);
  }

  /** The name of a folder that is a bare disc mark. */
  predicate IsDiscText(text: string) {
    Tight(text) && ParseDiscGroup(text).Some? && '/' !in text
  }

  lemma MarkIsDiscText(mark: Mark)
    requires ValidMark(mark)
    ensures IsDiscText(MarkText(mark))
  {
    MarkShape(mark);
    MarkParses(mark);
  }

  lemma SubfolderKey(above: string, text: string)
    requires IsDiscText(text)
    ensures FolderKey(above + "/" + text) == Some(above)
  {
    TightIsTrimmed(text);
    SplitsAtLastSlash(above, text);
  }

  /** What a track in a disc folder is keyed by. Only a parent of blanks alone keys the spellings apart. */
  function ExpectedKey(parent: string, album: string, sp: Spelling): string {
    if parent != "" && Blank(parent) && sp.Subfolder? then "/" + album else Join(TrimStart(parent), album)
  }

  lemma RootSubfolderKey(album: string, text: string)
    requires Tight(album) && IsDiscText(text)
    ensures FolderKey(TrimStart(album + "/" + text)) == Some(album)
  {
    assert album + "/" + text == album + ("/" + text);
    TrimStartOfConcat(album, "/" + text);
    TightIsTrimmed(album);
    SubfolderKey(album, text);
  }

  lemma NestedSubfolderKey(parent: string, album: string, text: string)
    requires IsDiscText(text)
    ensures FolderKey(TrimStart(parent + "/" + album + "/" + text)) == Some(TrimStart(parent) + "/" + album)
  {
    NestedText(parent, album, text);
    TrimStartOfConcat(parent, "/" + album + ("/" + text));
    NestedText(TrimStart(parent), album, text);
    SubfolderKey(TrimStart(parent) + "/" + album, text);
  }

  lemma RootSiblingKey(basename: string, album: string)
    requires RollsTo(basename, album)
    ensures FolderKey(TrimStart(basename)) == Some(album)
  {
    SplitsWhole(basename);
  }

  lemma BelowTrimmed(parent: string, basename: string)
    ensures TrimStart(parent + "/" + basename) == TrimStart(parent) + "/" + basename
  {
    assert parent + "/" + basename == parent + ("/" + basename);
    TrimStartOfConcat(parent, "/" + basename);
    assert TrimStart(parent) + "/" + basename == TrimStart(parent) + ("/" + basename);
  }

  lemma NestedSiblingKey(parent: string, basename: string, album: string)
    requires RollsTo(basename, album)
    ensures FolderKey(TrimStart(parent + "/" + basename)) == Some(Join(TrimStart(parent), album))
  {
    BelowTrimmed(parent, basename);
    SplitsAtLastSlash(TrimStart(parent), basename);
  }

  lemma SubfolderText(parent: string, album: string, sp: Spelling)
    requires sp.Subfolder?
    ensures DiscFolder(parent, album, sp) ==
            (if parent == "" then album else parent + "/" + album) + "/" + MarkText(sp.mark)
  {
    assert album + "" == album;
  }

  lemma SubfolderDiscKey(parent: string, album: string, text: string)
    requires Tight(album) && IsDiscText(text)
    ensures FolderKey(TrimStart((if parent == "" then album else parent + "/" + album) + "/" + text))
            == Some(if parent == "" then album else TrimStart(parent) + "/" + album)
  {
    if parent == "" {
      RootSubfolderKey(album, text);
    } else {
      NestedSubfolderKey(parent, album, text);
    }
  }

  lemma SubfolderExpected(parent: string, album: string, sp: Spelling)
    requires sp.Subfolder?
    ensures ExpectedKey(parent, album, sp) == if parent == "" then album else TrimStart(parent) + "/" + album
  {
    TrimStartEmptyIff(parent);
    NothingBefore(album);
  }

  lemma SiblingDiscKey(parent: string, basename: string, album: string)
    requires RollsTo(basename, album)
    ensures FolderKey(TrimStart(Join(parent, basename))) == Some(Join(TrimStart(parent), album))
  {
    if parent == "" {
      RootSiblingKey(basename, album);
    } else {
      NestedSiblingKey(parent, basename, album);
    }
  }

  lemma DiscFolderKey(parent: string, album: string, sp: Spelling)
    requires AlbumFolderName(album) && ValidSpelling(sp)
    ensures FolderKey(TrimStart(DiscFolder(parent, album, sp))) == Some(ExpectedKey(parent, album, sp))
  {
    if sp.Subfolder? {
      SubfolderText(parent, album, sp);
      MarkIsDiscText(sp.mark);
      SubfolderDiscKey(parent, album, MarkText(sp.mark));
      SubfolderExpected(parent, album, sp);
    } else {
      SiblingRollsUp(album, sp);
      SiblingDiscKey(parent, album + Suffix(sp), album);
    }
  }

  lemma NothingBefore(album: string)
    ensures "" + "/" + album == "/" + album
  {
  }

  lemma NestedText(parent: string, album: string, mark: string)
    ensures parent + "/" + album + "/" + mark == parent + ("/" + album + ("/" + mark))
  {
  }

  /** Every spelling of a disc folder rolls its tracks up to the album's own key, for every parent path. */
  lemma DiscFoldersRollUp(parent: string, album: string, sp: Spelling, file: string)
    requires AlbumFolderName(album) && ValidSpelling(sp) && FileName(file)
    ensures CanonicalAlbumFolder(DiscFolder(parent, album, sp) + "/" + file) == Some(ExpectedKey(parent, album, sp))
  {
    FileIsSplitOff(DiscFolder(parent, album, sp), file);
    DiscFolderKey(parent, album, sp);
  }

  /** Two discs of one album share a key exactly when their parent is not blanks alone, or both are spelt alike. */
  lemma DiscsShareKeyIff(parent: string, album: string, a: Spelling, b: Spelling, fileA: string, fileB: string)
    requires AlbumFolderName(album) && ValidSpelling(a) && ValidSpelling(b) && FileName(fileA) && FileName(fileB)
    ensures CanonicalAlbumFolder(DiscFolder(parent, album, a) + "/" + fileA)
              == CanonicalAlbumFolder(DiscFolder(parent, album, b) + "/" + fileB)
            <==> parent == "" || !Blank(parent) || a.Subfolder? == b.Subfolder?
  {
    DiscFoldersRollUp(parent, album, a, fileA);
    DiscFoldersRollUp(parent, album, b, fileB);
    TrimStartEmptyIff(parent);
    assert |"/" + album| != |album|;
  }

  lemma NoBlankNoDelimiter(s: string, delim: string)
    requires ' ' !in s && delim != "" && delim[0] == ' '
    ensures StripAt(s, delim) == NoSuffix
  {
    OccurrenceIsMember(s, delim);
  }

  lemma WideBlankShape(first: string, blank: char, last: string)
    requires IsWord(first) && IsWord(last) && IsWhitespace(blank) && blank as int >= 0x80
    ensures var s := first + [blank] + last;
            && |s| >= 3 && LastSpace(s) == Some(|first|) && s[|first|] == blank
            && ' ' !in s && s[|s| - 1] == last[|last| - 1]
  {
    var s := first + [blank] + last;
    assert s[|first|] == blank && forall j :: |first| < j < |s| ==> s[j] == last[j - |first| - 1];
  }

  lemma NoBlankNoDash(s: string)
    requires ' ' !in s
    ensures StripDash(s) == NoSuffix
  {
    NoBlankNoDelimiter(s, HYPHEN);
    NoBlankNoDelimiter(s, EN_DASH);
    NoBlankNoDelimiter(s, EM_DASH);
  }

  lemma WideBlankBytes(blank: char)
    requires blank as int >= 0x80
    ensures ByteLength([blank]) != 1
  {
    assert [blank][1..] == "";
  }

  /** Two words around a blank wider than one byte, such as an ideographic space, stop the program. */
  lemma WideBlankStops(first: string, blank: char, last: string)
    requires IsWord(first) && IsWord(last) && last[|last| - 1] !in ")]"
    requires IsWhitespace(blank) && blank as int >= 0x80
    ensures StripTrailingDiscSuffix(first + [blank] + last) == None
  {
    var s := first + [blank] + last;
    WideBlankShape(first, blank, last);
    NoBlankNoDash(s);
    WideBlankBytes(blank);
    StopsAtBlank(s, |first|);
  }

  lemma StopsAtBlank(s: string, i: nat)
    requires |s| >= 3 && !IsWhitespace(s[|s| - 1]) && s[|s| - 1] !in ")]" && StripDash(s) == NoSuffix
    requires i < |s| && LastSpace(s) == Some(i) && ByteLength([s[i]]) != 1
    ensures StripTrailingDiscSuffix(s) == None
  {
    EndedIsTrimmed(s);
  }

  // ---------------------------------------------------------------------------
  // Where the program stops
  // ---------------------------------------------------------------------------

  /** The last blank of the name is wider than one byte, and no bracketed or dashed disc mark ends the name. */
  predicate StopsOn(name: string) {
    var t := TrimEnd(name);
    && LastSpace(t).Some? && t[LastSpace(t).value] as int >= 0x80
    && !StripParen(t).Stripped? && !StripDash(t).Stripped?
  }

  lemma OneByteIff(c: char)
    ensures ByteLength([c]) == 1 <==> (c as int) < 0x80
  {
    assert [c][1..] == "";
  }

  lemma WideBlankIsLong(t: string, i: nat)
    requires i + 1 < |t| && t[i] as int >= 0x80
    ensures ByteLength(t) >= 3
  {
    var wide := [t[i]];
    OneByteIff(t[i]);
    assert t == t[..i] + (wide + t[i + 1..]);
    ByteLengthOfConcat(t[..i], wide + t[i + 1..]);
    ByteLengthOfConcat(wide, t[i + 1..]);
  }

  lemma GlueStopsIff(t: string)
    ensures StripGlued(t).Stops? <==> LastSpace(t).Some? && t[LastSpace(t).value] as int >= 0x80
  {
    if LastSpace(t).Some? { OneByteIff(t[LastSpace(t).value]); }
  }

  /** Stripping a name stops the program exactly on such names. */
  lemma StripStopsIff(name: string)
    ensures StripTrailingDiscSuffix(name).None? <==> StopsOn(name)
  {
    var t := TrimEnd(name);
    TrimEndIsPrefix(name);
    GlueStopsIff(t);
    if StripGlued(t).Stops? { WideBlankIsLong(t, LastSpace(t).value); }
  }

  /** The name of the folder a track is in. */
  function FolderName(path: string): Option<string> {
    match SplitLastSegment(TrimEndChar(Trim(path), '/'))
    case None => None
    case Some((parent, _)) =>
      match SplitLastSegment(parent) case None => None case Some((_, basename)) => Some(basename)
  }

  /** Keying a track stops the program exactly when its folder's name does and is no bare disc mark. */
  lemma CanonicalAlbumFolderStopsIff(path: string)
    ensures CanonicalAlbumFolder(path).None? <==>
            FolderName(path).Some? && !IsDiscOnlyBasename(FolderName(path).value) && StopsOn(FolderName(path).value)
  {
    if FolderName(path).Some? { StripStopsIff(FolderName(path).value); }
  }

  lemma FolderNameOf(parent: string, name: string, file: string)
    requires name != "" && !IsWhitespace(name[0]) && '/' !in name && FileName(file)
    ensures FolderName(Join(parent, name) + "/" + file) == Some(name)
  {
    FileIsSplitOff(Join(parent, name), file);
    if parent == "" {
      SplitsWhole(name);
    } else {
      BelowTrimmed(parent, name);
      SplitsAtLastSlash(TrimStart(parent), name);
    }
  }

  /** A track below a folder of two words parted by a wide blank stops the program, unless they are a disc mark. */
  lemma WideBlankFolderStopsIff(parent: string, first: string, blank: char, last: string, file: string)
    requires IsWord(first) && IsWord(last) && '/' !in first && '/' !in last && last[|last| - 1] !in ")]"
    requires IsWhitespace(blank) && blank as int >= 0x80 && FileName(file)
    ensures var name := first + [blank] + last;
            CanonicalAlbumFolder(Join(parent, name) + "/" + file) == None <==> !IsDiscOnlyBasename(name)
  {
    var name := first + [blank] + last;
    WideBlankStops(first, blank, last);
    StripStopsIff(name);
    assert name[0] == first[0];
    FolderNameOf(parent, name, file);
    CanonicalAlbumFolderStopsIff(Join(parent, name) + "/" + file);
  }
}
