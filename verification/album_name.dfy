/** Disc markers in album and folder names. */
module AlbumName {
  import opened Common
  import opened Text
  import opened TextLemmas

  /** What a stripper makes of a name; `Stops` is the slice inside a character that ends the program. */
  datatype Cut = Stripped(title: string) | NoSuffix | Stops

  const DISC_LABELS: set<string> := {"disc", "disk", "cd", "vol", "volume", "part"}

  /** A label, a number, and perhaps "of" and another number. */
  function ParseDiscGroup(inner: string): Option<nat> {
    var words := Words(Lower(inner));
    if words == [] || TrimEndChar(words[0], '.') !in DISC_LABELS then None
    else if |words| < 2 || ParseU32(words[1]).None? then None
    else if |words| == 2 || (|words| == 4 && words[2] == "of" && ParseU32(words[3]).Some?) then ParseU32(words[1])
    else None
  }

  predicate IsDiscOnlyBasename(s: string) {
    ParseDiscGroup(Trim(s)).Some?
  }

  /** The text before a disc group, when that is what the group's place holds. */
  function StripBefore(before: string, group: string): Cut {
    if ParseDiscGroup(Trim(group)).Some? then Stripped(TrimEnd(before)) else NoSuffix
  }

  function StripParen(trimmed: string): Cut {
    if trimmed == "" || trimmed[|trimmed| - 1] !in ")]" then NoSuffix
    else
      var open := if trimmed[|trimmed| - 1] == ')' then '(' else '[';
      match RFind(trimmed, [open])
      case None => NoSuffix
      case Some(i) =>
        assert trimmed[i..i + 1][0] == trimmed[i];
        StripBefore(trimmed[..i], trimmed[i + 1..|trimmed| - 1])
  }

  const HYPHEN := " - "
  const EN_DASH := " \U{2013} "
  const EM_DASH := " \U{2014} "

  function StripAt(trimmed: string, delim: string): Cut {
    match RFind(trimmed, delim)
    case None => NoSuffix
    case Some(i) => StripBefore(trimmed[..i], trimmed[i + |delim|..])
  }

  function StripDash(trimmed: string): Cut {
    var hyphen, en := StripAt(trimmed, HYPHEN), StripAt(trimmed, EN_DASH);
    if hyphen.Stripped? then hyphen
    else if en.Stripped? then en
    else StripAt(trimmed, EM_DASH)
  }

  function LastSpace(s: string): (r: Option<nat>)
    ensures r.Some? ==> r.value < |s| && IsWhitespace(s[r.value])
                        && forall j :: r.value < j < |s| ==> !IsWhitespace(s[j])
    ensures r.None? ==> forall j :: 0 <= j < |s| ==> !IsWhitespace(s[j])
  {
    if s == "" then None
    else if IsWhitespace(s[|s| - 1]) then Some(|s| - 1)
    else LastSpace(s[..|s| - 1])
  }

  function FirstDigit(s: string): (r: Option<nat>)
    ensures r.Some? ==> r.value < |s| && IsDigit(s[r.value]) && forall j :: 0 <= j < r.value ==> !IsDigit(s[j])
    ensures r.None? ==> forall j :: 0 <= j < |s| ==> !IsDigit(s[j])
  {
    if s == "" then None
    else if IsDigit(s[0]) then Some(0)
    else match FirstDigit(s[1..]) case None => None case Some(i) => Some(i + 1)
  }

  /** One byte past a whitespace character lies inside it unless it is a single byte wide. */
  function StripGlued(trimmed: string): Cut {
    match LastSpace(trimmed)
    case None => NoSuffix
    case Some(space) =>
      if ByteLength([trimmed[space]]) != 1 then Stops
      else
        var lower := Lower(trimmed[space + 1..]);
        match FirstDigit(lower)
        case None => NoSuffix
        case Some(d) =>
          if d > 0 && AllDigits(lower[d..]) && lower[..d] in DISC_LABELS then Stripped(TrimEnd(trimmed[..space]))
          else NoSuffix
  }

  function FirstStripped(whole: string, paren: Cut, dash: Cut, glued: Cut): Option<string> {
    if paren.Stripped? then Some(paren.title)
    else if dash.Stripped? then Some(dash.title)
    else match glued case Stripped(title) => Some(title) case NoSuffix => Some(whole) case Stops => None
  }

  /** The name without its trailing disc suffix, or nothing where the program stops. */
  function StripTrailingDiscSuffix(s: string): Option<string> {
    var trimmed := TrimEnd(s);
    if ByteLength(trimmed) < 3 then Some(trimmed)
    else FirstStripped(trimmed, StripParen(trimmed), StripDash(trimmed), StripGlued(trimmed))
  }

  // ---------------------------------------------------------------------------
  // Disc marks
  // ---------------------------------------------------------------------------

  /** A disc mark: its label as spelt, its number as written, and perhaps a total. */
  datatype Mark = Mark(kind: string, number: string, total: Option<string>)

  /** The six words that label a disc. */
  predicate IsDiscWord(w: string) {
    w == "disc" || w == "disk" || w == "cd" || w == "vol" || w == "volume" || w == "part"
  }

  lemma DiscWordIff(w: string)
    ensures w in DISC_LABELS <==> IsDiscWord(w)
  {
  }

  /** A label, a number, and perhaps "of" and another number, word by word. */
  predicate GroupWords(words: seq<string>) {
    && (|words| == 2 || (|words| == 4 && words[2] == "of" && IsNumberText(words[3])))
    && IsDiscWord(TrimEndChar(words[0], '.')) && IsNumberText(words[1])
  }

  lemma DiscGroupIff(inner: string)
    ensures ParseDiscGroup(inner).Some? <==> GroupWords(Words(Lower(inner)))
  {
    var words := Words(Lower(inner));
    if words != [] { DiscWordIff(TrimEndChar(words[0], '.')); }
  }

  predicate IsNumberText(s: string) {
    ParseU32(s).Some?
  }

  predicate ValidMark(m: Mark) {
    && IsDiscWord(TrimEndChar(Lower(m.kind), '.'))
    && IsNumberText(m.number) && (m.total.Some? ==> IsNumberText(m.total.value))
  }

  function MarkText(m: Mark): string {
    m.kind + " " + m.number + if m.total.Some? then " of " + m.total.value else ""
  }

  /** The characters a disc mark is written with. */
  predicate IsMarkChar(c: char) {
    'a' <= c <= 'z' || 'A' <= c <= 'Z' || IsDigit(c) || c == '+' || c == '.' || c == ' '
  }

  predicate IsLabelChar(c: char) {
    'a' <= c <= 'z' || 'A' <= c <= 'Z' || c == '.'
  }

  lemma LabelLetters(w: string)
    requires w in DISC_LABELS
    ensures w != "" && 'a' <= w[|w| - 1] <= 'z' && forall c :: c in w ==> 'a' <= c <= 'z'
  {
  }

  lemma LabelChars(kind: string)
    requires TrimEndChar(Lower(kind), '.') in DISC_LABELS
    ensures kind != "" && forall c :: c in kind ==> IsLabelChar(c)
  {
    LabelLetters(TrimEndChar(Lower(kind), '.'));
    TrimEndCharKeeps(Lower(kind), '.');
    forall c | c in kind ensures IsLabelChar(c) {
      var i :| 0 <= i < |kind| && kind[i] == c;
      assert Lower(kind)[i] in Lower(kind);
    }
  }

  lemma NumberChars(s: string)
    requires IsNumberText(s)
    ensures s != "" && IsDigit(s[|s| - 1]) && forall c :: c in s ==> IsDigit(c) || c == '+'
  {
    var digits := if |s| > 1 && s[0] == '+' then s[1..] else s;
    assert IsDigit(digits[|digits| - 1]);
    forall c | c in s ensures IsDigit(c) || c == '+' {
      var i :| 0 <= i < |s| && s[i] == c;
      if i > 0 || digits == s { assert digits[if digits == s then i else i - 1] == c; }
    }
  }

  lemma WordOf(s: string)
    requires s != "" && forall c :: c in s ==> IsMarkChar(c) && c != ' '
    ensures IsWord(s) && IsWord(Lower(s))
  {
    assert forall i :: 0 <= i < |s| ==> s[i] in s;
  }

  lemma NumberIsLower(s: string)
    requires IsNumberText(s)
    ensures Lower(s) == s && IsWord(s)
  {
    NumberChars(s);
    WordOf(s);
    LowerIsStable(s);
  }

  lemma WordsOfTwo(a: string, b: string)
    requires IsWord(a) && IsWord(b)
    ensures Words(a + " " + b) == [a, b]
  {
    WordsAfterSpace(a, b);
    OneWord(a);
    OneWord(b);
  }

  lemma PairWords(kind: string, number: string)
    requires TrimEndChar(Lower(kind), '.') in DISC_LABELS && IsNumberText(number)
    ensures Words(Lower(kind + " " + number)) == [Lower(kind), number]
  {
    LabelChars(kind);
    WordOf(kind);
    NumberIsLower(number);
    LowerAroundSpace(kind, number);
    WordsOfTwo(Lower(kind), number);
  }

  lemma TotalText(head: string, total: string)
    ensures head + (" of " + total) == head + " " + ("of" + " " + total)
  {
    assert " of " + total == " " + ("of" + " " + total);
  }

  lemma TotalWords(head: string, total: string)
    requires IsNumberText(total)
    ensures Words(Lower(head + (" of " + total))) == Words(Lower(head)) + ["of", total]
  {
    var rest := "of" + " " + total;
    TotalText(head, total);
    NumberIsLower(total);
    LowerIsStable("of");
    LowerAroundSpace("of", total);
    LowerAroundSpace(head, rest);
    WordsAfterSpace(Lower(head), rest);
    WordsOfTwo("of", total);
  }

  /** The words of a disc mark, lower-cased. */
  lemma MarkWords(m: Mark)
    requires ValidMark(m)
    ensures Words(Lower(MarkText(m))) == [Lower(m.kind), m.number] + if m.total.Some? then ["of", m.total.value] else []
  {
    DiscWordIff(TrimEndChar(Lower(m.kind), '.'));
    PairWords(m.kind, m.number);
    if m.total.Some? {
      TotalWords(m.kind + " " + m.number, m.total.value);
    } else {
      assert MarkText(m) == m.kind + " " + m.number;
    }
  }

  /** A disc mark, however its label is spelt, is a disc group with the number written. */
  lemma MarkParses(m: Mark)
    requires ValidMark(m)
    ensures ParseDiscGroup(MarkText(m)) == ParseU32(m.number)
  {
    DiscWordIff(TrimEndChar(Lower(m.kind), '.'));
    MarkWords(m);
  }

  /** Only label, number and "of" words are found in a disc group. */
  predicate IsGroupWord(w: string) {
    TrimEndChar(w, '.') in DISC_LABELS || ParseU32(w).Some? || w == "of"
  }

  lemma GroupHasGroupWords(inner: string, w: string)
    requires ParseDiscGroup(inner).Some? && w in Words(Lower(inner))
    ensures IsGroupWord(w)
  {
    var words := Words(Lower(inner));
    var k :| 0 <= k < |words| && words[k] == w;
    assert k == 0 || k == 1 || k == 2 || k == 3;
  }

  lemma PairShape(kind: string, number: string)
    requires TrimEndChar(Lower(kind), '.') in DISC_LABELS && IsNumberText(number)
    ensures var t := kind + " " + number;
            Tight(t) && |t| >= 3 && IsDigit(t[|t| - 1]) && forall c :: c in t ==> IsMarkChar(c)
  {
    LabelChars(kind);
    NumberChars(number);
    var t := kind + " " + number;
    assert t[0] == kind[0] && kind[0] in kind;
    assert t[|t| - 1] == number[|number| - 1];
    forall c | c in t ensures IsMarkChar(c) {
      assert c in kind || c in " " || c in number;
    }
  }

  lemma TotalShape(head: string, total: string)
    requires Tight(head) && |head| >= 3 && IsNumberText(total) && forall c :: c in head ==> IsMarkChar(c)
    ensures var t := head + (" of " + total);
            Tight(t) && |t| >= 3 && IsDigit(t[|t| - 1]) && forall c :: c in t ==> IsMarkChar(c)
  {
    NumberChars(total);
    var t := head + (" of " + total);
    assert t[|t| - 1] == total[|total| - 1];
    forall c | c in t ensures IsMarkChar(c) {
      assert c in head || c in " of " || c in total;
    }
  }

  lemma MarkShape(m: Mark)
    requires ValidMark(m)
    ensures var t := MarkText(m);
            Tight(t) && |t| >= 3 && IsDigit(t[|t| - 1]) && forall c :: c in t ==> IsMarkChar(c)
  {
    DiscWordIff(TrimEndChar(Lower(m.kind), '.'));
    PairShape(m.kind, m.number);
    if m.total.Some? {
      TotalShape(m.kind + " " + m.number, m.total.value);
    } else {
      assert MarkText(m) == m.kind + " " + m.number;
    }
  }
}
