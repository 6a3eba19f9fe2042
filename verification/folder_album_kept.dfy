/** Folder names that end like a disc mark but with a label that names no disc keep their own key. */
module FolderAlbumKept {
  import opened Common
  import opened Text
  import opened TextLemmas
  import opened AlbumName
  import opened FolderAlbum

  /** Spelt like a disc mark, with a word in the label's place that is none of the six. */
  predicate ForeignMark(m: Mark) {
    && IsWord(m.kind) && '/' !in m.kind && !IsDiscWord(TrimEndChar(Lower(m.kind), '.'))
    && IsNumberText(m.number) && (m.total.Some? ==> IsNumberText(m.total.value))
  }

  predicate ForeignSpelling(sp: Spelling) {
    match sp
    case Subfolder(mark) => ForeignMark(mark)
    case Bracketed(mark, gap, round) => ForeignMark(mark) && Blank(gap) && Opening(round) !in mark.kind
    case Dashed(mark, dash) => ForeignMark(mark) && dash in ['-', '\U{2013}', '\U{2014}']
    case Glued(kind, digits) =>
      && IsWord(kind) && '/' !in kind && kind != "+" && (forall c :: c in kind ==> !IsDigit(c))
      && !IsDiscWord(Lower(kind)) && digits != "" && AllDigits(digits)
  }

  // ---------------------------------------------------------------------------
  // Names whose words end in no disc group
  // ---------------------------------------------------------------------------

  predicate NoGroupAtEnd(words: seq<string>) {
    forall k :: 0 <= k <= |words| ==> !GroupWords(words[k..])
  }

  lemma EndOfEnd(words: seq<string>, k: nat)
    requires k <= |words| && NoGroupAtEnd(words)
    ensures !GroupWords(words[k..])
  {
  }

  lemma DashText(before: string, dash: char, rest: string)
    ensures before + [' ', dash, ' '] + rest == before + " " + ([dash] + " " + rest)
  {
  }

  lemma WordsOfThree(before: string, dash: char, rest: string)
    requires IsWord([dash]) && Lower([dash]) == [dash]
    ensures Words(Lower(before + " " + ([dash] + " " + rest))) == Words(Lower(before)) + ([[dash]] + Words(Lower(rest)))
  {
    LowerAroundSpace(before, [dash] + " " + rest);
    LowerAroundSpace([dash], rest);
    WordsAfterSpace(Lower(before), Lower([dash] + " " + rest));
    WordsAfterSpace([dash], Lower(rest));
    OneWord([dash]);
  }

  /** What stands behind a spaced dash is the end of the words. */
  lemma WordsBehindDash(before: string, dash: char, rest: string, s: string) returns (k: nat)
    requires s == before + [' ', dash, ' '] + rest && IsWord([dash]) && Lower([dash]) == [dash]
    ensures k <= |Words(Lower(s))| && Words(Lower(s))[k..] == Words(Lower(rest))
  {
    DashText(before, dash, rest);
    WordsOfThree(before, dash, rest);
    k := |Words(Lower(before))| + 1;
  }

  lemma NoGroupBehind(before: string, dash: char, rest: string, s: string)
    requires s == before + [' ', dash, ' '] + rest && IsWord([dash]) && Lower([dash]) == [dash]
    requires NoGroupAtEnd(Words(Lower(s)))
    ensures StripBefore(before, rest) == NoSuffix
  {
    var k := WordsBehindDash(before, dash, rest, s);
    EndOfEnd(Words(Lower(s)), k);
    WordsOfTrim(rest);
    DiscGroupIff(Trim(rest));
  }

  lemma NoStripAt(s: string, dash: char)
    requires NoGroupAtEnd(Words(Lower(s))) && dash in ['-', '\U{2013}', '\U{2014}']
    ensures StripAt(s, [' ', dash, ' ']) == NoSuffix
  {
    var delim := [' ', dash, ' '];
    DashIsForeign(dash);
    if RFind(s, delim).Some? {
      var i := RFind(s, delim).value;
      assert s == s[..i] + delim + s[i + 3..] by { assert s[i..i + 3] == delim; }
      NoGroupBehind(s[..i], dash, s[i + 3..], s);
      StripAtIs(s, delim, i, s[..i], s[i + 3..]);
    }
  }

  lemma NoDash(s: string)
    requires NoGroupAtEnd(Words(Lower(s)))
    ensures StripDash(s) == NoSuffix
  {
    NoStripAt(s, '-');
    NoStripAt(s, '\U{2013}');
    NoStripAt(s, '\U{2014}');
    DelimiterOf('-');
    DelimiterOf('\U{2013}');
    DelimiterOf('\U{2014}');
  }

  lemma NoDiscFolder(s: string)
    requires NoGroupAtEnd(Words(Lower(s)))
    ensures !IsDiscOnlyBasename(s)
  {
    WordsOfTrim(s);
    DiscGroupIff(Trim(s));
    assert Words(Lower(s))[0..] == Words(Lower(s));
    EndOfEnd(Words(Lower(s)), 0);
  }

  /** A name that no rule applies to. */
  predicate Kept(name: string) {
    Tight(name) && '/' !in name && !IsDiscOnlyBasename(name) && StripTrailingDiscSuffix(name) == Some(name)
  }

  lemma KeptName(s: string)
    requires Tight(s) && '/' !in s && NoGroupAtEnd(Words(Lower(s)))
    requires StripParen(s) == NoSuffix && StripGlued(s) == NoSuffix
    ensures Kept(s)
  {
    TightIsTrimmed(s);
    NoDash(s);
    NoDiscFolder(s);
  }

  // ---------------------------------------------------------------------------
  // The words of such a name
  // ---------------------------------------------------------------------------

  lemma ForeignMarkWords(m: Mark)
    requires ForeignMark(m)
    ensures Words(Lower(MarkText(m))) == [Lower(m.kind), m.number] + if m.total.Some? then ["of", m.total.value] else []
  {
    var pair := m.kind + " " + m.number;
    NumberIsLower(m.number);
    LowerAroundSpace(m.kind, m.number);
    assert IsWord(Lower(m.kind));
    WordsOfTwo(Lower(m.kind), m.number);
    if m.total.Some? {
      TotalWords(pair, m.total.value);
    } else {
      assert MarkText(m) == pair;
    }
  }

  lemma ForeignMarkIsNoGroup(m: Mark)
    requires ForeignMark(m)
    ensures NoGroupAtEnd(Words(Lower(MarkText(m)))) && ParseDiscGroup(Trim(MarkText(m))).None?
  {
    ForeignMarkWords(m);
    var words := Words(Lower(MarkText(m)));
    forall k | 0 <= k <= |words| ensures !GroupWords(words[k..]) {
      if k == 0 { assert words[k..][0] == words[0]; }
      if k == 2 { assert words[k..] == [] || words[k..][0] == "of"; OfIsNoLabel(); }
    }
    WordsOfTrim(MarkText(m));
    DiscGroupIff(Trim(MarkText(m)));
    assert words[0..] == words;
  }

  lemma OfIsNoLabel()
    ensures !IsDiscWord(TrimEndChar("of", '.'))
  {
  }

  predicate IsLastBlank(s: string, i: int) {
    0 <= i < |s| && s[i] == ' ' && forall j :: i < j < |s| ==> !IsWhitespace(s[j])
  }

  /** The last blank is a plain space, and a number follows it. */
  ghost predicate EndsInNumber(s: string) {
    exists i :: IsLastBlank(s, i) && IsNumberText(s[i + 1..])
  }

  lemma NumberAtEnd(head: string, number: string)
    requires head != "" && !IsWhitespace(head[0]) && '/' !in head && IsNumberText(number)
    ensures var t := head + " " + number;
            Tight(t) && |t| >= 3 && IsDigit(t[|t| - 1]) && '/' !in t && EndsInNumber(t)
  {
    NumberChars(number);
    NumberIsLower(number);
    var t := head + " " + number;
    assert t[|t| - 1] == number[|number| - 1] && t[|head| + 1..] == number;
    assert IsLastBlank(t, |head|);
  }

  lemma TotalAtEnd(pair: string, total: string)
    requires pair != "" && !IsWhitespace(pair[0]) && '/' !in pair && IsNumberText(total)
    ensures var t := pair + (" of " + total);
            Tight(t) && |t| >= 3 && IsDigit(t[|t| - 1]) && '/' !in t && EndsInNumber(t)
  {
    OfText(pair, total);
    NumberAtEnd(pair + " of", total);
  }

  lemma OfText(pair: string, total: string)
    requires pair != "" && '/' !in pair
    ensures pair + (" of " + total) == (pair + " of") + " " + total
    ensures (pair + " of")[0] == pair[0] && '/' !in pair + " of"
  {
    assert " of " == " of" + " ";
  }

  lemma PairHead(kind: string, number: string)
    requires IsWord(kind) && '/' !in kind && IsNumberText(number)
    ensures var pair := kind + " " + number; pair != "" && !IsWhitespace(pair[0]) && '/' !in pair
  {
    NumberChars(number);
    assert (kind + " " + number)[0] == kind[0];
  }

  lemma ForeignMarkShape(m: Mark)
    requires ForeignMark(m)
    ensures var t := MarkText(m); Tight(t) && |t| >= 3 && IsDigit(t[|t| - 1]) && '/' !in t && EndsInNumber(t)
  {
    if m.total.Some? {
      PairHead(m.kind, m.number);
      TotalAtEnd(m.kind + " " + m.number, m.total.value);
    } else {
      NumberAtEnd(m.kind, m.number);
      assert MarkText(m) == m.kind + " " + m.number;
    }
  }

  // ---------------------------------------------------------------------------
  // Spelling by spelling
  // ---------------------------------------------------------------------------

  lemma LastBlankIs(s: string, i: nat)
    requires IsLastBlank(s, i)
    ensures LastSpace(s) == Some(i)
  {
  }

  /** A number alone is glued to no label. */
  lemma NumberIsNotGlued(s: string)
    requires EndsInNumber(s)
    ensures StripGlued(s) == NoSuffix
  {
    var i :| IsLastBlank(s, i) && IsNumberText(s[i + 1..]);
    LastBlankIs(s, i);
    SpaceIsOneByte();
    NumberIsLower(s[i + 1..]);
    NumberOpens(s[i + 1..]);
  }

  lemma NumberOpens(number: string)
    requires IsNumberText(number)
    ensures FirstDigit(number).Some? && FirstDigit(number).value <= 1
    ensures number[..FirstDigit(number).value] !in DISC_LABELS
  {
    NumberChars(number);
    var d := if IsDigit(number[0]) then 0 else 1;
    assert |number| > d && IsDigit(number[d]);
  }

  lemma DigitIsNoBracket(s: string)
    requires s != "" && IsDigit(s[|s| - 1])
    ensures StripParen(s) == NoSuffix
  {
  }

  lemma KeptByNumber(s: string)
    requires Tight(s) && '/' !in s && IsDigit(s[|s| - 1]) && EndsInNumber(s) && NoGroupAtEnd(Words(Lower(s)))
    ensures Kept(s)
  {
    NumberIsNotGlued(s);
    DigitIsNoBracket(s);
    KeptName(s);
  }

  /** A bare foreign mark as a folder of its own. */
  lemma SubfolderIsKept(m: Mark)
    requires ForeignMark(m)
    ensures Kept(MarkText(m))
  {
    ForeignMarkShape(m);
    ForeignMarkIsNoGroup(m);
    KeptByNumber(MarkText(m));
  }

  lemma DashedWords(album: string, m: Mark, dash: char)
    requires ForeignMark(m) && dash in ['-', '\U{2013}', '\U{2014}']
    ensures NoGroupAtEnd(Words(Lower(album + " " + ([dash] + " " + MarkText(m)))))
  {
    DashIsForeign(dash);
    WordsOfThree(album, dash, MarkText(m));
    ForeignMarkWords(m);
    ForeignMarkIsNoGroup(m);
    BehindForeignWord(Words(Lower(album)), [dash], Words(Lower(MarkText(m))));
  }

  /** In front of a foreign word nothing new can become a disc group: it would hold the word. */
  lemma BehindForeignWord(before: seq<string>, w: string, rest: seq<string>)
    requires !IsGroupWord(w) && NoGroupAtEnd(rest)
    ensures NoGroupAtEnd(before + ([w] + rest))
  {
    var words := before + ([w] + rest);
    forall k | 0 <= k <= |words| ensures !GroupWords(words[k..]) {
      if k <= |before| {
        assert words[k..][|before| - k] == w;
        HoldsForeignWord(words[k..], |before| - k);
      } else {
        assert words[k..] == rest[k - |before| - 1..];
        EndOfEnd(rest, k - |before| - 1);
      }
    }
  }

  lemma HoldsForeignWord(words: seq<string>, i: nat)
    requires i < |words| && !IsGroupWord(words[i])
    ensures !GroupWords(words)
  {
    if GroupWords(words) { DiscWordIff(TrimEndChar(words[0], '.')); }
  }

  lemma DashedText(album: string, dash: char, text: string)
    ensures album + " " + ([dash] + (" " + text)) == (album + " " + [dash] + " ") + text
    ensures album + " " + ([dash] + (" " + text)) == album + " " + ([dash] + " " + text)
  {
  }

  lemma DashedHead(album: string, dash: char)
    requires AlbumFolderName(album) && dash in ['-', '\U{2013}', '\U{2014}']
    ensures var head := album + " " + [dash] + " "; head != "" && !IsWhitespace(head[0]) && '/' !in head
  {
    assert (album + " " + [dash] + " ")[0] == album[0];
  }

  lemma TightBehind(head: string, t: string)
    requires head != "" && !IsWhitespace(head[0]) && '/' !in head && Tight(t) && '/' !in t
    ensures Tight(head + t) && '/' !in head + t
  {
    assert (head + t)[0] == head[0] && (head + t)[|head + t| - 1] == t[|t| - 1];
  }

  lemma DashedIsKept(album: string, m: Mark, dash: char)
    requires AlbumFolderName(album) && ForeignMark(m) && dash in ['-', '\U{2013}', '\U{2014}']
    ensures Kept(album + " " + ([dash] + (" " + MarkText(m))))
  {
    DashedText(album, dash, MarkText(m));
    DashedWords(album, m, dash);
    ForeignMarkShape(m);
    DashedHead(album, dash);
    EndsAlike(album + " " + [dash] + " ", MarkText(m));
    TightBehind(album + " " + [dash] + " ", MarkText(m));
    KeptByNumber(album + " " + ([dash] + (" " + MarkText(m))));
  }

  lemma LastBlankBehind(before: string, t: string, i: nat)
    requires IsLastBlank(t, i)
    ensures IsLastBlank(before + t, |before| + i) && (before + t)[|before| + i + 1..] == t[i + 1..]
  {
    assert forall j :: |before| + i <= j < |before + t| ==> (before + t)[j] == t[j - |before|];
  }

  /** What a text ends in stays when something stands before it. */
  lemma EndsAlike(before: string, t: string)
    requires t != "" && EndsInNumber(t)
    ensures EndsInNumber(before + t) && (before + t)[|before + t| - 1] == t[|t| - 1]
  {
    var i :| IsLastBlank(t, i) && IsNumberText(t[i + 1..]);
    LastBlankBehind(before, t, i);
  }

  // Brackets.

  lemma {:induction false} LastWord(s: string) returns (before: seq<string>, w: string)
    requires s != "" && !IsWhitespace(s[|s| - 1])
    ensures Words(s) == before + [w] && w != "" && w[|w| - 1] == s[|s| - 1]
    decreases |s|
  {
    if IsWhitespace(s[0]) {
      before, w := LastWord(s[1..]);
    } else {
      var first := WordPrefix(s);
      WordPrefixIsPrefix(s);
      if |first| == |s| {
        assert s[|first|..] == "";
        before, w := [], first;
      } else {
        before, w := LastWord(s[|first|..]);
        before := [first] + before;
      }
    }
  }

  lemma NoNumberAtEnd(words: seq<string>)
    requires words != [] && !IsNumberText(words[|words| - 1])
    ensures NoGroupAtEnd(words)
  {
    forall k | 0 <= k <= |words| ensures !GroupWords(words[k..]) {
      if k < |words| { assert words[k..][|words| - k - 1] == words[|words| - 1]; }
    }
  }

  lemma NoNumberEndsSo(w: string)
    requires w != "" && !IsDigit(w[|w| - 1])
    ensures !IsNumberText(w)
  {
    if IsNumberText(w) { NumberChars(w); }
  }

  lemma LowerLast(s: string)
    requires s != "" && !IsDigit(s[|s| - 1]) && !IsWhitespace(s[|s| - 1])
    ensures var t := Lower(s); t != "" && !IsDigit(t[|t| - 1]) && !IsWhitespace(t[|t| - 1])
  {
    assert Lower(s)[|s| - 1] == LowerAscii(s[|s| - 1]);
  }

  lemma BracketAtEnd(s: string)
    requires s != "" && !IsDigit(s[|s| - 1]) && !IsWhitespace(s[|s| - 1])
    ensures NoGroupAtEnd(Words(Lower(s)))
  {
    LowerLast(s);
    NoNumberEnds(Lower(s));
  }

  lemma NoNumberEnds(t: string)
    requires t != "" && !IsDigit(t[|t| - 1]) && !IsWhitespace(t[|t| - 1])
    ensures NoGroupAtEnd(Words(t))
  {
    var before, w := LastWord(t);
    NoNumberEndsSo(w);
    NoNumberBehind(before, w);
  }

  lemma BracketIsNotGlued(s: string, i: nat)
    requires IsLastBlank(s, i) && i + 1 < |s| && !IsDigit(s[|s| - 1])
    ensures StripGlued(s) == NoSuffix
  {
    LastBlankIs(s, i);
    SpaceIsOneByte();
    var lower := Lower(s[i + 1..]);
    if FirstDigit(lower).Some? {
      var d := FirstDigit(lower).value;
      assert !IsDigit(lower[d..][|lower[d..]| - 1]);
    }
  }

  lemma MarkHasNoBracket(m: Mark, open: char)
    requires ForeignMark(m) && open !in m.kind && open in "(["
    ensures open !in MarkText(m)
  {
    NumberChars(m.number);
    if m.total.Some? { NumberChars(m.total.value); }
  }

  lemma BracketsKept(head: string, m: Mark, round: bool, s: string)
    requires ForeignMark(m) && Opening(round) !in m.kind
    requires s == head + [Opening(round)] + (MarkText(m) + [Closing(round)])
    ensures StripParen(s) == NoSuffix
  {
    MarkHasNoBracket(m, Opening(round));
    BracketedParts(head, Opening(round), MarkText(m), Closing(round), s);
    StripParenIs(s, head, round, MarkText(m));
    ForeignMarkIsNoGroup(m);
  }

  lemma LastBlankBefore(t: string, i: nat, c: char)
    requires IsLastBlank(t, i) && !IsWhitespace(c)
    ensures IsLastBlank(t + [c], i)
  {
  }

  lemma ForeignBlank(m: Mark) returns (k: nat)
    requires ForeignMark(m)
    ensures IsLastBlank(MarkText(m), k)
  {
    ForeignMarkShape(m);
    k :| IsLastBlank(MarkText(m), k) && IsNumberText(MarkText(m)[k + 1..]);
  }

  lemma BracketedBlank(head: string, m: Mark, close: char) returns (i: nat)
    requires ForeignMark(m) && !IsWhitespace(close)
    ensures i + 1 < |head + (MarkText(m) + [close])| && IsLastBlank(head + (MarkText(m) + [close]), i)
  {
    var k := ForeignBlank(m);
    i := BlankBetween(head, MarkText(m), close, k);
  }

  lemma BlankBetween(head: string, t: string, close: char, k: nat) returns (i: nat)
    requires IsLastBlank(t, k) && !IsWhitespace(close)
    ensures i + 1 < |head + (t + [close])| && IsLastBlank(head + (t + [close]), i)
  {
    LastBlankBefore(t, k, close);
    LastBlankBehind(head, t + [close], k);
    i := |head| + k;
  }

  lemma BracketedHead(album: string, gap: string, round: bool)
    requires AlbumFolderName(album) && Blank(gap)
    ensures var head := album + gap + [Opening(round)]; head != "" && !IsWhitespace(head[0]) && '/' !in head
  {
    assert (album + gap + [Opening(round)])[0] == album[0];
  }

  lemma BracketedTail(m: Mark, round: bool)
    requires ForeignMark(m)
    ensures Tight(MarkText(m) + [Closing(round)]) && '/' !in MarkText(m) + [Closing(round)]
  {
    ForeignMarkShape(m);
    ClosingIsPlain(round);
    TightBefore(MarkText(m), Closing(round));
  }

  lemma ClosingIsPlain(round: bool)
    ensures !IsWhitespace(Closing(round)) && Closing(round) != '/' && !IsDigit(Closing(round))
  {
  }

  lemma TightBefore(t: string, c: char)
    requires Tight(t) && '/' !in t && !IsWhitespace(c) && c != '/'
    ensures Tight(t + [c]) && '/' !in t + [c]
  {
    assert (t + [c])[0] == t[0];
  }

  lemma BracketedIsKept(album: string, gap: string, m: Mark, round: bool)
    requires AlbumFolderName(album) && Blank(gap) && ForeignMark(m) && Opening(round) !in m.kind
    ensures Kept(album + gap + [Opening(round)] + (MarkText(m) + [Closing(round)]))
  {
    var head := album + gap + [Opening(round)];
    BracketedHead(album, gap, round);
    BracketedTail(m, round);
    var i := BracketedBlank(head, m, Closing(round));
    BracketsKept(album + gap, m, round, head + (MarkText(m) + [Closing(round)]));
    KeptByBracket(head, MarkText(m) + [Closing(round)], i);
  }

  lemma KeptByBracket(head: string, t: string, i: nat)
    requires head != "" && !IsWhitespace(head[0]) && '/' !in head
    requires Tight(t) && '/' !in t && !IsDigit(t[|t| - 1]) && i + 1 < |head + t| && IsLastBlank(head + t, i)
    requires StripParen(head + t) == NoSuffix
    ensures Kept(head + t)
  {
    TightBehind(head, t);
    assert (head + t)[|head + t| - 1] == t[|t| - 1];
    BracketAtEnd(head + t);
    BracketIsNotGlued(head + t, i);
    KeptName(head + t);
  }

  // A label glued to its number.

  lemma ForeignGlueIsNoNumber(kind: string, digits: string)
    requires kind != "" && kind != "+" && digits != "" && forall c :: c in kind ==> !IsDigit(c)
    ensures !IsNumberText(kind + digits)
  {
    var w := kind + digits;
    assert w[0] == kind[0] && kind[0] in kind;
    if |kind| > 1 {
      assert w[1] == kind[1] && kind[1] in kind && w[1..][0] == w[1];
    }
  }

  lemma LowerOfGlue(kind: string, digits: string)
    requires IsWord(kind) && kind != "+" && (forall c :: c in kind ==> !IsDigit(c)) && AllDigits(digits)
    ensures Lower(kind + digits) == Lower(kind) + digits && Lower(kind) != "+"
    ensures IsWord(Lower(kind)) && forall c :: c in Lower(kind) ==> !IsDigit(c)
  {
    LowerOfConcat(kind, digits);
    LowerIsStable(digits);
    assert Lower(kind)[0] == LowerAscii(kind[0]) && (|kind| == 1 ==> kind == [kind[0]]);
    forall c | c in Lower(kind) ensures !IsDigit(c) {
      var i :| 0 <= i < |Lower(kind)| && Lower(kind)[i] == c;
      assert kind[i] in kind;
    }
  }

  lemma GlueSplits(kind: string, digits: string)
    requires digits != "" && AllDigits(digits) && forall c :: c in kind ==> !IsDigit(c)
    ensures FirstDigit(kind + digits) == Some(|kind|) && (kind + digits)[..|kind|] == kind
  {
    var w := kind + digits;
    assert IsDigit(w[|kind|]) && forall j :: 0 <= j < |kind| ==> w[j] in kind;
  }

  lemma ForeignGlue(album: string, kind: string, digits: string)
    requires ForeignSpelling(Glued(kind, digits))
    ensures StripGlued(album + " " + (kind + digits)) == NoSuffix && IsWord(kind + digits)
  {
    assert IsWord(kind + digits);
    GluedPosition(album, kind + digits);
    LowerOfGlue(kind, digits);
    GlueSplits(Lower(kind), digits);
    SpaceIsOneByte();
    DiscWordIff(Lower(kind));
  }

  lemma GluedWords(album: string, kind: string, digits: string)
    requires ForeignSpelling(Glued(kind, digits))
    ensures NoGroupAtEnd(Words(Lower(album + " " + (kind + digits))))
  {
    LowerOfGlue(kind, digits);
    LowerAroundSpace(album, kind + digits);
    WordsAfterSpace(Lower(album), Lower(kind + digits));
    assert IsWord(Lower(kind) + digits);
    OneWord(Lower(kind) + digits);
    ForeignGlueIsNoNumber(Lower(kind), digits);
    NoNumberBehind(Words(Lower(album)), Lower(kind) + digits);
  }

  lemma NoNumberBehind(before: seq<string>, w: string)
    requires !IsNumberText(w)
    ensures NoGroupAtEnd(before + [w])
  {
    NoNumberAtEnd(before + [w]);
  }

  lemma GluedIsKept(album: string, kind: string, digits: string)
    requires AlbumFolderName(album) && ForeignSpelling(Glued(kind, digits))
    ensures Kept(album + " " + (kind + digits))
  {
    var s := album + " " + (kind + digits);
    ForeignGlue(album, kind, digits);
    GluedWords(album, kind, digits);
    assert s[0] == album[0] && s[|s| - 1] == digits[|digits| - 1] && '/' !in s;
    DigitIsNoBracket(s);
    KeptName(s);
  }

  // ---------------------------------------------------------------------------
  // The key of such a folder
  // ---------------------------------------------------------------------------

  lemma KeptFolderKey(parent: string, name: string)
    requires Kept(name)
    ensures FolderKey(TrimStart(Join(parent, name))) == Some(TrimStart(Join(parent, name)))
  {
    if parent == "" {
      SplitsWhole(name);
      TightIsTrimmed(name);
    } else {
      BelowTrimmed(parent, name);
      SplitsAtLastSlash(TrimStart(parent), name);
    }
  }

  /** The parent of the last segment of a disc folder, and that segment. */
  lemma ForeignSegment(parent: string, album: string, sp: Spelling) returns (above: string, name: string)
    requires AlbumFolderName(album) && ForeignSpelling(sp)
    ensures Kept(name) && DiscFolder(parent, album, sp) == Join(above, name)
  {
    above, name := parent, album + Suffix(sp);
    match sp {
      case Subfolder(mark) =>
        above, name := Join(parent, album + Suffix(sp)), MarkText(mark);
        assert album + "" == album;
        SubfolderIsKept(mark);
      case Bracketed(mark, gap, round) =>
        BracketedName(album, sp);
        BracketedIsKept(album, gap, mark, round);
      case Dashed(mark, dash) =>
        SuffixText(album, [dash] + (" " + MarkText(mark)));
        DashedIsKept(album, mark, dash);
      case Glued(kind, digits) =>
        SuffixText(album, kind + digits);
        GluedIsKept(album, kind, digits);
    }
  }

  /** A suffix whose label is none of the six words leaves the track's folder as its own key, for every parent. */
  lemma ForeignLabelKeepsFolder(parent: string, album: string, sp: Spelling, file: string)
    requires AlbumFolderName(album) && ForeignSpelling(sp) && FileName(file)
    ensures CanonicalAlbumFolder(DiscFolder(parent, album, sp) + "/" + file)
            == Some(TrimStart(DiscFolder(parent, album, sp)))
  {
    var above, name := ForeignSegment(parent, album, sp);
    FileIsSplitOff(DiscFolder(parent, album, sp), file);
    KeptFolderKey(above, name);
  }
}
