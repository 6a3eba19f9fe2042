/** Artist credits: folding to keys, cleaning for display, and splitting into contributors. */
module ArtistName {
  import opened Common
  import opened Text
  import opened TextLemmas
  import opened SortedText

  /** The Unicode tables, and the acts whose names contain a delimiter. */
  datatype Tables = Tables(nfd: string -> string, nfc: string -> string, isAlnum: char -> bool,
                           lower: char -> string, singleActs: seq<string>)

  // ---------------------------------------------------------------------------
  // Folding
  // ---------------------------------------------------------------------------

  predicate IsCombiningMark(c: char) {
    0x0300 <= c as int <= 0x036F
  }

  datatype Folding = Folding(text: string, lastWasSpace: bool)

  function FoldStep(u: Tables, f: Folding, c: char): Folding {
    if IsCombiningMark(c) then f
    else if u.isAlnum(c) then Folding(f.text + u.lower(c), f.lastWasSpace && u.lower(c) == "")
    else if !f.lastWasSpace then Folding(f.text + " ", true)
    else f
  }

  function FoldAll(u: Tables, s: string): Folding {
    if s == "" then Folding("", true) else FoldStep(u, FoldAll(u, s[..|s| - 1]), s[|s| - 1])
  }

  /** Letters and digits in lower case, every other run a single space. */
  function Folded(u: Tables, s: string): string {
    var text := FoldAll(u, u.nfd(s)).text;
    if text != "" && text[|text| - 1] == ' ' then text[..|text| - 1] else text
  }

  /** Letters and digits fold to texts without a space. */
  ghost predicate LowerFreeOfSpace(u: Tables) {
    forall c :: ' ' !in u.lower(c)
  }

  /** Single spaces only, and none in front. */
  ghost predicate SingleSpaced(text: string) {
    && (text != "" ==> text[0] != ' ')
    && forall i :: 0 < i < |text| ==> !(text[i - 1] == ' ' && text[i] == ' ')
  }

  lemma {:induction false} FoldAllIsSpaced(u: Tables, s: string)
    requires LowerFreeOfSpace(u)
    ensures var f := FoldAll(u, s);
            SingleSpaced(f.text) && (f.lastWasSpace <==> f.text == "" || f.text[|f.text| - 1] == ' ')
  {
    if s != "" {
      FoldAllIsSpaced(u, s[..|s| - 1]);
      SpacedStep(u, FoldAll(u, s[..|s| - 1]), s[|s| - 1]);
    }
  }

  lemma SpacedStep(u: Tables, f: Folding, c: char)
    requires LowerFreeOfSpace(u)
    requires SingleSpaced(f.text) && (f.lastWasSpace <==> f.text == "" || f.text[|f.text| - 1] == ' ')
    ensures var g := FoldStep(u, f, c);
            SingleSpaced(g.text) && (g.lastWasSpace <==> g.text == "" || g.text[|g.text| - 1] == ' ')
  {
    var lowered := u.lower(c);
    assert forall i :: 0 <= i < |lowered| ==> lowered[i] in lowered;
    assert f.text + "" == f.text;
  }

  /** A folded text is words parted by single spaces, with none at either end. */
  lemma FoldedIsSpaced(u: Tables, s: string)
    requires LowerFreeOfSpace(u)
    ensures SingleSpaced(Folded(u, s)) && (Folded(u, s) != "" ==> Folded(u, s)[|Folded(u, s)| - 1] != ' ')
  {
    FoldAllIsSpaced(u, u.nfd(s));
  }

  method FoldAlnum(u: Tables, s: string) returns (folded: string)
    ensures folded == Folded(u, s)
  {
    var text := u.nfd(s);
    folded := "";
    var lastWasSpace := true;
    for i := 0 to |text|
      invariant Folding(folded, lastWasSpace) == FoldAll(u, text[..i])
    {
      assert text[..i + 1][..i] == text[..i];
      var c := text[i];
      if IsCombiningMark(c) { continue; }
      if u.isAlnum(c) {
        var before := folded;
        var lowered := u.lower(c);
        for j := 0 to |lowered|
          invariant folded == before + lowered[..j]
          invariant lastWasSpace == (FoldAll(u, text[..i]).lastWasSpace && j == 0)
        {
          folded := folded + [lowered[j]];
          lastWasSpace := false;
        }
        assert lowered[..|lowered|] == lowered;
      } else if !lastWasSpace {
        folded := folded + " ";
        lastWasSpace := true;
      }
    }
    assert text[..|text|] == text;
    if folded != "" && folded[|folded| - 1] == ' ' {
      folded := folded[..|folded| - 1];
    }
  }

  // ---------------------------------------------------------------------------
  // Cleaning
  // ---------------------------------------------------------------------------

  /** What stands before one trailing bracketed group that nests no other. */
  function Peel(s: string): (r: Option<string>)
    ensures r.Some? ==> |r.value| < |s|
  {
    if ByteLength(s) < 3 || s == "" || s[|s| - 1] !in ")]" then None
    else
      var close := s[|s| - 1];
      var open := if close == ')' then '(' else '[';
      match RFind(s, [open])
      case None => None
      case Some(i) =>
        assert s[i..i + 1][0] == s[i];
        var inner := s[i + 1..|s| - 1];
        if open in inner || close in inner then None else Some(TrimEnd(s[..i]))
  }

  function PeelAll(s: string): (r: string)
    ensures |r| <= |s|
    decreases |s|
  {
    var trimmed := TrimEnd(s);
    match Peel(trimmed) case None => trimmed case Some(rest) => PeelAll(rest)
  }

  /** The text without its trailing bracketed groups. */
  function Unbracketed(s: string): (r: string)
    ensures |r| <= |s|
  {
    PeelAll(Trim(s))
  }

  lemma {:induction false} PeelAllIsPeeled(s: string)
    ensures Peel(PeelAll(s)) == None && PeelAll(s) <= s
    decreases |s|
  {
    TrimEndIsPrefix(s);
    var trimmed := TrimEnd(s);
    match Peel(trimmed)
    case None =>
    case Some(rest) =>
      PeelIsPrefix(trimmed);
      PeelAllIsPeeled(rest);
  }

  lemma PeelIsPrefix(s: string)
    ensures Peel(s).Some? ==> Peel(s).value <= s
  {
    if Peel(s).Some? {
      var open := if s[|s| - 1] == ')' then '(' else '[';
      TrimEndIsPrefix(s[..RFind(s, [open]).value]);
    }
  }

  /** What is left has no trailing bracketed group that could be peeled, and begins the trimmed text. */
  lemma UnbracketedIsPeeled(s: string)
    ensures Peel(Unbracketed(s)) == None && Unbracketed(s) <= Trim(s)
  {
    PeelAllIsPeeled(Trim(s));
  }

  method StripTrailingParentheticals(s: string) returns (r: string)
    ensures r == Unbracketed(s)
  {
    var out := Trim(s);
    while true
      invariant PeelAll(out) == Unbracketed(s)
      decreases |out|
    {
      var trimmed := TrimEnd(out);
      var rest := Peel(trimmed);
      if rest.None? {
        return trimmed;
      }
      out := TrimEnd(rest.value);
      TrimEndTwice(rest.value);
    }
  }

  lemma {:induction false} TrimEndTwice(s: string)
    ensures TrimEnd(TrimEnd(s)) == TrimEnd(s) && PeelAll(TrimEnd(s)) == PeelAll(s)
  {
    if s != "" && IsWhitespace(s[|s| - 1]) { TrimEndTwice(s[..|s| - 1]); }
  }

  /** `A/A` becomes `A`; other slashes stay. */
  function CollapseSelfSlash(u: Tables, s: string): (r: string)
    ensures |r| <= |s|
  {
    match SplitOnce(s, "/")
    case None => s
    case Some((left, right)) =>
      var l, r := Trim(left), Trim(right);
      if Find(right, "/").Some? || l == "" || r == "" then s
      else if Folded(u, l) == Folded(u, r) then l
      else s
  }

  predicate HasWhitespace(s: string) {
    exists i :: 0 <= i < |s| && IsWhitespace(s[i])
  }

  /** Some character of the text is whitespace. */
  ghost predicate SeveralWords(s: string) {
    exists c :: c in s && IsWhitespace(c)
  }

  lemma SeveralWordsIff(s: string)
    ensures HasWhitespace(s) <==> SeveralWords(s)
  {
    if i :| 0 <= i < |s| && IsWhitespace(s[i]) { assert s[i] in s; }
  }

  function ReorderLastFirst(s: string): string {
    match SplitOnce(s, ",")
    case None => s
    case Some((head, tail)) =>
      var h, t := Trim(head), Trim(tail);
      if !HasWhitespace(h) && ',' !in t && h != "" && t != "" then t + " " + h else s
  }

  function WithoutWatermark(trimmed: string): (r: string)
    ensures |r| <= |trimmed|
  {
    match SplitOnce(trimmed, "|") case Some((head, _)) => Trim(head) case None => trimmed
  }

  /** A trimmed credit without watermark, trailing brackets and self-slash. */
  function Core(u: Tables, trimmed: string): (r: string)
    ensures |r| <= |trimmed|
  {
    CollapseSelfSlash(u, Unbracketed(WithoutWatermark(trimmed)))
  }

  // ---------------------------------------------------------------------------
  // Splitting
  // ---------------------------------------------------------------------------

  /** From `start` on, the pieces of `s` between the places where `guide` holds the delimiter. */
  function Raw(guide: string, s: string, delim: string, start: nat): seq<string>
    requires |guide| == |s| && delim != "" && start <= |s|
    decreases |s| - start
  {
    match FindFrom(guide, delim, start)
    case None => [s[start..]]
    case Some(end) => [s[start..end]] + Raw(guide, s, delim, end + |delim|)
  }

  /** A piece is trimmed and, unless blank, pushed. */
  function Pushed(kept: seq<string>, piece: string): seq<string> {
    if Trim(piece) == "" then kept else kept + [Trim(piece)]
  }

  function PushAll(kept: seq<string>, pieces: seq<string>): seq<string>
    decreases |pieces|
  {
    if pieces == [] then kept else PushAll(Pushed(kept, pieces[0]), pieces[1..])
  }

  /** All the pieces from `start` on, trimmed and not blank, behind those kept so far. */
  function Parts(guide: string, s: string, delim: string, start: nat, kept: seq<string>): Option<seq<string>>
    requires |guide| == |s| && delim != "" && start <= |s|
  {
    Some(PushAll(kept, Raw(guide, s, delim, start)))
  }

  function SplitOn(s: string, delim: string): Option<seq<string>>
    requires delim != ""
  {
    if Find(s, delim).None? then None else Parts(s, s, delim, 0, [])
  }

  /** The parts around a delimiter in any case, when there are two or more. */
  function PartsCi(s: string, delim: string): Option<seq<string>>
    requires delim != ""
  {
    var parts := Parts(Lower(s), s, delim, 0, []);
    if Find(Lower(s), delim).None? || |parts.value| < 2 then None else parts
  }

  lemma {:induction false} RawFits(guide: string, s: string, delim: string, start: nat, p: string)
    requires |guide| == |s| && delim != "" && start <= |s| && p in Raw(guide, s, delim, start)
    ensures |p| <= |s| - start
    decreases |s| - start
  {
    var found := FindFrom(guide, delim, start);
    if found.Some? {
      if p != s[start..found.value] { RawFits(guide, s, delim, found.value + |delim|, p); }
    }
  }

  lemma RawIsShorter(guide: string, s: string, delim: string, p: string)
    requires |guide| == |s| && delim != "" && Find(guide, delim).Some? && p in Raw(guide, s, delim, 0)
    ensures |p| < |s|
  {
    var end := Find(guide, delim).value;
    if p != s[0..end] { RawFits(guide, s, delim, end + |delim|, p); }
  }

  lemma {:induction false} PushedFrom(kept: seq<string>, pieces: seq<string>, p: string)
    requires p in PushAll(kept, pieces)
    ensures p in kept || (p != "" && exists piece :: piece in pieces && |p| <= |piece|)
    decreases |pieces|
  {
    if pieces != [] {
      PushedFrom(Pushed(kept, pieces[0]), pieces[1..], p);
      assert pieces[0] in pieces;
    }
  }

  /** Every part is non-empty, and shorter than the text where the delimiter is found. */
  lemma PartsAreShorter(guide: string, s: string, delim: string, p: string)
    requires |guide| == |s| && delim != "" && Find(guide, delim).Some? && p in Parts(guide, s, delim, 0, []).value
    ensures p != "" && |p| < |s|
  {
    PushedFrom([], Raw(guide, s, delim, 0), p);
    var piece :| piece in Raw(guide, s, delim, 0) && |p| <= |piece|;
    RawIsShorter(guide, s, delim, piece);
  }

  lemma RawUnfolds(guide: string, s: string, delim: string, start: nat, end: nat)
    requires |guide| == |s| && delim != "" && start <= end && end + |delim| <= |s|
    requires FindFrom(guide, delim, start) == Some(end)
    ensures Raw(guide, s, delim, start) == [s[start..end]] + Raw(guide, s, delim, end + |delim|)
  {
  }

  lemma PushFirst(kept: seq<string>, piece: string, rest: seq<string>)
    ensures PushAll(kept, [piece] + rest) == PushAll(Pushed(kept, piece), rest)
  {
    assert ([piece] + rest)[1..] == rest;
  }

  lemma PartsNext(guide: string, s: string, delim: string, start: nat, end: nat, kept: seq<string>)
    requires |guide| == |s| && delim != "" && start <= end && end + |delim| <= |s|
    requires FindFrom(guide, delim, start) == Some(end)
    ensures Parts(guide, s, delim, start, kept) == Parts(guide, s, delim, end + |delim|, Pushed(kept, s[start..end]))
  {
    RawUnfolds(guide, s, delim, start, end);
    PushFirst(kept, s[start..end], Raw(guide, s, delim, end + |delim|));
  }

  lemma PushOne(kept: seq<string>, piece: string)
    ensures PushAll(kept, [piece]) == Pushed(kept, piece)
  {
    assert [piece][1..] == [];
  }

  lemma PartsLast(guide: string, s: string, delim: string, start: nat, kept: seq<string>)
    requires |guide| == |s| && delim != "" && start <= |s| && FindFrom(guide, delim, start).None?
    ensures Parts(guide, s, delim, start, kept) == Some(Pushed(kept, s[start..]))
  {
    PushOne(kept, s[start..]);
    assert Raw(guide, s, delim, start) == [s[start..]];
  }

  method PushPiece(kept: seq<string>, piece: string) returns (parts: seq<string>)
    ensures parts == Pushed(kept, piece)
  {
    var part := Trim(piece);
    parts := if part != "" then kept + [part] else kept;
  }

  /** The loop both splitters run: the guide is the text in lower case, the pieces come from the text itself. */
  method CollectPieces(guide: string, s: string, delim: string) returns (parts: seq<string>)
    requires |guide| == |s| && delim != ""
    ensures Some(parts) == Parts(guide, s, delim, 0, [])
  {
    parts := [];
    var cursor := 0;
    var next := FindFrom(guide, delim, 0);
    while next.Some?
      invariant cursor <= |s| && next == FindFrom(guide, delim, cursor)
      invariant Parts(guide, s, delim, cursor, parts) == Parts(guide, s, delim, 0, [])
      decreases |s| - cursor
    {
      PartsNext(guide, s, delim, cursor, next.value, parts);
      parts := PushPiece(parts, s[cursor..next.value]);
      cursor := next.value + |delim|;
      next := FindFrom(guide, delim, cursor);
    }
    PartsLast(guide, s, delim, cursor, parts);
    parts := PushPiece(parts, s[cursor..]);
  }

  method SplitOnCi(s: string, delim: string) returns (r: Option<seq<string>>)
    requires delim != ""
    ensures r == PartsCi(s, delim)
  {
    var lower := Lower(s);
    if Find(lower, delim).None? {
      return None;
    }
    var parts := CollectPieces(lower, s, delim);
    r := if |parts| < 2 then None else Some(parts);
  }

  /** The parts a collaboration is joined from, by the first kind of delimiter that applies. */
  function SplitCollab(s: string): Option<seq<string>> {
    if SplitOn(s, ";").Some? then SplitOn(s, ";")
    else if SplitOn(s, " & ").Some? then SplitOn(s, " & ")
    else if PartsCi(s, " and ").Some? then PartsCi(s, " and ")
    else
      match SplitOnce(s, ",")
      case None => None
      case Some((head, _)) => if HasWhitespace(Trim(head)) then Parts(s, s, ",", 0, []) else None
  }

  lemma CollabPartsAreShorter(s: string, p: string)
    requires SplitCollab(s).Some? && p in SplitCollab(s).value
    ensures p != "" && |p| < |s|
  {
    if SplitOn(s, ";").Some? { PartsAreShorter(s, s, ";", p); }
    else if SplitOn(s, " & ").Some? { PartsAreShorter(s, s, " & ", p); }
    else if PartsCi(s, " and ").Some? { PartsAreShorter(Lower(s), s, " and ", p); }
    else { PartsAreShorter(s, s, ",", p); }
  }

  const FEATURING := [" feat. ", " ft. ", " feat ", " ft ", " featuring "]

  function FirstSplit(s: string, delims: seq<string>): Option<seq<string>>
    requires forall i :: 0 <= i < |delims| ==> delims[i] != ""
  {
    if delims == [] then None
    else if PartsCi(s, delims[0]).Some? then PartsCi(s, delims[0])
    else FirstSplit(s, delims[1..])
  }

  lemma {:induction false} FirstSplitIsShorter(s: string, delims: seq<string>, p: string)
    requires forall i :: 0 <= i < |delims| ==> delims[i] != ""
    requires FirstSplit(s, delims).Some? && p in FirstSplit(s, delims).value
    ensures p != "" && |p| < |s|
  {
    if PartsCi(s, delims[0]).Some? { PartsAreShorter(Lower(s), s, delims[0], p); }
    else { FirstSplitIsShorter(s, delims[1..], p); }
  }

  method SplitOnFeatFt(s: string) returns (r: Option<seq<string>>)
    ensures r == FirstSplit(s, FEATURING)
  {
    for d := 0 to |FEATURING|
      invariant FirstSplit(s, FEATURING[d..]) == FirstSplit(s, FEATURING)
    {
      assert FEATURING[d..][1..] == FEATURING[d + 1..];
      r := SplitOnCi(s, FEATURING[d]);
      if r.Some? {
        return;
      }
    }
    r := None;
  }

  /** The members whose key is not empty and not yet seen, in order. */
  function FreshBy(key: string -> string, members: seq<string>, seen: set<string>): seq<string> {
    if members == [] then []
    else if key(members[0]) == "" || key(members[0]) in seen then FreshBy(key, members[1..], seen)
    else [members[0]] + FreshBy(key, members[1..], seen + {key(members[0])})
  }

  function JoinWith(parts: seq<string>, sep: string): string {
    if parts == [] then "" else if |parts| == 1 then parts[0] else parts[0] + sep + JoinWith(parts[1..], sep)
  }

  // ---------------------------------------------------------------------------
  // Keys and display
  // ---------------------------------------------------------------------------

  function FoldPart(u: Tables, part: string): string {
    Folded(u, ReorderLastFirst(CollapseSelfSlash(u, Unbracketed(part))))
  }

  function FoldParts(u: Tables, parts: seq<string>): seq<string> {
    if parts == [] then []
    else
      var rest := FoldParts(u, parts[1..]);
      if FoldPart(u, parts[0]) == "" then rest else [FoldPart(u, parts[0])] + rest
  }

  function CollabFoldKey(u: Tables, s: string): Option<string> {
    match SplitCollab(s)
    case None => None
    case Some(parts) =>
      var folded := FoldParts(u, parts);
      if folded == [] then None else Some(JoinWith(Dedup(Sort(folded)), " & "))
  }

  const VARIOUS: set<string> := {"va", "various", "variousartists", "various artists"}

  function ArtistFoldKey(u: Tables, raw: string): string {
    var trimmed := Trim(raw);
    if trimmed == "" then ""
    else
      var core := Core(u, trimmed);
      match CollabFoldKey(u, core)
      case Some(key) => key
      case None =>
        var reordered := ReorderLastFirst(core);
        if reordered == "" then ""
        else
          var folded := Folded(u, reordered);
          if folded in VARIOUS then "various artists" else folded
  }

  function CleanParts(u: Tables, parts: seq<string>): seq<string> {
    if parts == [] then []
    else
      var rest := CleanParts(u, parts[1..]);
      var clean := Trim(ReorderLastFirst(CollapseSelfSlash(u, Unbracketed(parts[0]))));
      if clean == "" then rest else [clean] + rest
  }

  function FoldedKey(u: Tables): string -> string {
    s => Folded(u, s)
  }

  /** The display of a collaboration, when a delimiter splits it into parts that fold to something. */
  function CollapseCollab(u: Tables, s: string): Option<string> {
    match SplitCollab(s)
    case None => None
    case Some(parts) =>
      var unique := FreshBy(FoldedKey(u), CleanParts(u, parts), {});
      if unique == [] then None else Some(JoinWith(unique, ", "))
  }

  function PreprocessArtist(u: Tables, raw: string): string {
    var trimmed := Trim(raw);
    if trimmed == "" then ""
    else
      var core := Core(u, trimmed);
      match CollapseCollab(u, core) case Some(display) => display case None => ReorderLastFirst(core)
  }

  function Labelled(u: Tables, pre: string): (r: string)
    ensures pre != "" ==> r != ""
  {
    if Folded(u, pre) in VARIOUS then "Various Artists" else pre
  }

  function ArtistDisplayForm(u: Tables, raw: string): string {
    var trimmed := Trim(raw);
    if trimmed == "" then ""
    else
      var pre := PreprocessArtist(u, raw);
      if pre == "" then u.nfc(trimmed) else u.nfc(Labelled(u, pre))
  }

  // ---------------------------------------------------------------------------
  // Contributors
  // ---------------------------------------------------------------------------

  predicate IsKnownSingleAct(u: Tables, raw: string) {
    var key := ArtistFoldKey(u, raw);
    key != "" && exists i :: 0 <= i < |u.singleActs| && ArtistFoldKey(u, u.singleActs[i]) == key
  }

  function CreditParts(core: string): Option<seq<string>> {
    if SplitCollab(core).Some? then SplitCollab(core) else FirstSplit(core, FEATURING)
  }

  /** Each part a credit splits into is non-empty and strictly shorter. */
  lemma CreditPartsAreShorter(core: string)
    ensures CreditParts(core).Some? ==> forall p :: p in CreditParts(core).value ==> p != "" && |p| < |core|
  {
    if CreditParts(core).Some? {
      forall p | p in CreditParts(core).value ensures p != "" && |p| < |core| {
        if SplitCollab(core).Some? { CollabPartsAreShorter(core, p); }
        else { FirstSplitIsShorter(core, FEATURING, p); }
      }
    }
  }

  function CreditKey(u: Tables): string -> string {
    s => ArtistFoldKey(u, s)
  }

  /** The contributors of a credit. Every part split off is shorter than the credit, so splitting ends. */
  function Credits(u: Tables, raw: string): seq<string>
    decreases |raw|, 1, 0
  {
    var trimmed := Trim(raw);
    if trimmed == "" then []
    else if IsKnownSingleAct(u, trimmed) then [u.nfc(trimmed)]
    else
      CreditPartsAreShorter(Core(u, trimmed));
      match CreditParts(Core(u, trimmed))
      case None => [ArtistDisplayForm(u, trimmed)]
      case Some(parts) =>
        var members := FreshBy(CreditKey(u), CreditsOfAll(u, parts, |raw|), {});
        if members == [] then [ArtistDisplayForm(u, trimmed)] else members
  }

  function CreditsOfAll(u: Tables, parts: seq<string>, bound: nat): seq<string>
    requires forall p :: p in parts ==> |p| < bound
    decreases bound, 0, |parts|
  {
    if parts == [] then [] else Credits(u, parts[0]) + CreditsOfAll(u, parts[1..], bound)
  }
}
