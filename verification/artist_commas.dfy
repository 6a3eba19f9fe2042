/** Displayed credits whose names may hold commas: when the display keeps the key of the credit. */
module ArtistCommas {
  import opened Common
  import opened Text
  import opened TextLemmas
  import opened SortedText
  import opened ArtistName
  import opened ArtistCredit
  import opened ArtistDisplay
  import opened ArtistJoined

  // ---------------------------------------------------------------------------
  // How much text folds
  // ---------------------------------------------------------------------------

  /** What one character adds to a fold, spaces aside. */
  function LettersOf(u: Tables, c: char): nat {
    if IsCombiningMark(c) || !u.isAlnum(c) then 0 else |u.lower(c)|
  }

  function Letters(u: Tables, s: string): nat {
    if s == "" then 0 else Letters(u, s[..|s| - 1]) + LettersOf(u, s[|s| - 1])
  }

  lemma {:induction false} LettersAdd(u: Tables, a: string, b: string)
    ensures Letters(u, a + b) == Letters(u, a) + Letters(u, b)
  {
    if b == "" {
      assert a + b == a;
    } else {
      assert (a + b)[..|a + b| - 1] == a + b[..|b| - 1];
      LettersAdd(u, a, b[..|b| - 1]);
    }
  }

  function NonSpaces(text: string): nat {
    if text == "" then 0 else NonSpaces(text[..|text| - 1]) + if text[|text| - 1] == ' ' then 0 else 1
  }

  lemma {:induction false} NonSpacesAdd(a: string, b: string)
    requires ' ' !in b
    ensures NonSpaces(a + b) == NonSpaces(a) + |b|
  {
    if b == "" {
      assert a + b == a;
    } else {
      assert (a + b)[..|a + b| - 1] == a + b[..|b| - 1];
      NonSpacesAdd(a, b[..|b| - 1]);
    }
  }

  lemma {:induction false} FoldAllLetters(u: Tables, s: string)
    requires LowerFreeOfSpace(u)
    ensures NonSpaces(FoldAll(u, s).text) == Letters(u, s)
  {
    if s != "" {
      var before, c := FoldAll(u, s[..|s| - 1]), s[|s| - 1];
      FoldAllLetters(u, s[..|s| - 1]);
      NonSpacesAdd(before.text, u.lower(c));
      assert (before.text + " ")[..|before.text|] == before.text;
    }
  }

  /** The letters of a folded text. */
  function Weight(u: Tables, s: string): nat {
    NonSpaces(Folded(u, s))
  }

  lemma WeightIsLetters(u: Tables, s: string)
    requires LowerFreeOfSpace(u)
    ensures Weight(u, s) == Letters(u, u.nfd(s))
  {
    FoldAllLetters(u, u.nfd(s));
  }

  lemma {:induction false} WeightlessText(text: string)
    requires text != "" && NonSpaces(text) == 0
    ensures text[0] == ' '
  {
    if |text| > 1 { WeightlessText(text[..|text| - 1]); }
  }

  lemma FoldedHasWeight(u: Tables, s: string)
    requires LowerFreeOfSpace(u) && Folded(u, s) != ""
    ensures Weight(u, s) > 0
  {
    FoldedIsSpaced(u, s);
    if Weight(u, s) == 0 { WeightlessText(Folded(u, s)); }
  }

  /** Decomposition works on each side of a comma for itself. */
  ghost predicate NfdAtCommas(u: Tables) {
    forall a, b :: u.nfd(a + ", " + b) == u.nfd(a) + ", " + u.nfd(b)
  }

  lemma WeightsAdd(u: Tables, a: string, b: string)
    requires LowerFreeOfSpace(u) && NfdAtCommas(u)
    ensures Weight(u, a + ", " + b) >= Weight(u, a) + Weight(u, b)
  {
    WeightIsLetters(u, a);
    WeightIsLetters(u, b);
    WeightIsLetters(u, a + ", " + b);
    LettersAdd(u, u.nfd(a) + ", ", u.nfd(b));
    LettersAdd(u, u.nfd(a), ", ");
  }

  // ---------------------------------------------------------------------------
  // Names written as bits between commas
  // ---------------------------------------------------------------------------

  /** A name is given by its bits between commas. */
  type Name = seq<string>

  function TextOf(name: Name): string {
    JoinWith(name, ", ")
  }

  function Texts(names: seq<Name>): seq<string> {
    if names == [] then [] else [TextOf(names[0])] + Texts(names[1..])
  }

  /** Cleaning turns a last name of one word behind the rest. */
  function Turned(name: Name): Name {
    if |name| == 2 && !HasWhitespace(name[0]) then [name[1] + " " + name[0]] else name
  }

  function Turns(names: seq<Name>): seq<Name> {
    if names == [] then [] else [Turned(names[0])] + Turns(names[1..])
  }

  /** Every bit is a plain name, as written and as turned. */
  ghost predicate Spelled(name: Name) {
    name != [] && PlainNames(name) && PlainNames(Turned(name))
  }

  ghost predicate AllSpelled(names: seq<Name>) {
    forall n :: n in names ==> Spelled(n)
  }

  lemma TextIsFree(name: Name)
    requires name != [] && PlainNames(name)
    ensures var s := TextOf(name); Tight(s) && s[|s| - 1] !in ")]" && '/' !in s && '|' !in s && ';' !in s && '&' !in s
  {
    PlainNamesAreFree(name);
    JoinedEnds(name, ", ");
    NotInJoined(name, ", ", '/');
    NotInJoined(name, ", ", '|');
    NotInJoined(name, ", ", ';');
    NotInJoined(name, ", ", '&');
  }

  lemma FirstComma(head: string, rest: string)
    requires ',' !in head
    ensures SplitOnce(head + ", " + rest, ",") == Some((head, " " + rest))
  {
    var s := head + ", " + rest;
    CommaSpace(head, rest);
    HeadBeforeComma(head, " " + rest, s);
    assert s[|head| + 1..] == " " + rest;
    assert s[|head|] == ',';
  }

  lemma BlankBefore(rest: string)
    requires Tight(rest)
    ensures Trim(" " + rest) == rest
  {
    assert (" " + rest)[1..] == rest;
    TightIsTrimmed(rest);
  }

  lemma CommaInJoined(name: Name)
    requires |name| >= 2
    ensures ',' in TextOf(name)
  {
    var s := name[0] + ", " + JoinWith(name[1..], ", ");
    assert s[|name[0]|] == ',';
  }

  lemma OneBitText(name: Name)
    requires |name| == 1
    ensures TextOf(name) == name[0]
  {
  }

  /** Cleaning the text of a name turns the name. */
  lemma ReorderTurns(name: Name)
    requires name != [] && PlainNames(name)
    ensures ReorderLastFirst(TextOf(name)) == TextOf(Turned(name))
  {
    PlainNamesAreFree(name);
    assert name[0] in name;
    if |name| == 1 {
      NotFoundWhole(name[0], ',');
    } else {
      var rest := JoinWith(name[1..], ", ");
      FirstComma(name[0], rest);
      PlainNamesAreFree(name[1..]);
      JoinedEnds(name[1..], ", ");
      BlankBefore(rest);
      TightIsTrimmed(name[0]);
      if |name| == 2 {
        OneBitText(name[1..]);
        assert name[1] in name;
      } else {
        CommaInJoined(name[1..]);
      }
    }
  }

  lemma CleanName(u: Tables, name: Name)
    requires Spelled(name)
    ensures ReorderLastFirst(CollapseSelfSlash(u, Unbracketed(TextOf(name)))) == TextOf(Turned(name))
    ensures Trim(TextOf(Turned(name))) == TextOf(Turned(name)) != ""
  {
    TextIsFree(name);
    PlainUnbracketed(TextOf(name));
    NotFoundWhole(TextOf(name), '/');
    ReorderTurns(name);
    TextIsFree(Turned(name));
    TightIsTrimmed(TextOf(Turned(name)));
  }

  lemma {:induction false} CleanNames(u: Tables, names: seq<Name>)
    requires AllSpelled(names)
    ensures CleanParts(u, Texts(names)) == Texts(Turns(names))
  {
    if names != [] {
      assert names[0] in names;
      CleanName(u, names[0]);
      CleanNames(u, names[1..]);
      assert Texts(names)[1..] == Texts(names[1..]);
    }
  }

  lemma FoldOfName(u: Tables, name: Name)
    requires Spelled(name)
    ensures FoldPart(u, TextOf(name)) == Folded(u, TextOf(Turned(name)))
  {
    CleanName(u, name);
  }

  lemma {:induction false} TextsMember(names: seq<Name>, t: string)
    ensures t in Texts(names) <==> exists n :: n in names && TextOf(n) == t
  {
    if names != [] {
      TextsMember(names[1..], t);
      assert names == [names[0]] + names[1..];
      assert names[0] in names;
    }
  }

  lemma {:induction false} TurnsMember(names: seq<Name>, t: Name)
    ensures t in Turns(names) <==> exists n :: n in names && Turned(n) == t
  {
    if names != [] {
      TurnsMember(names[1..], t);
      assert names == [names[0]] + names[1..];
      assert names[0] in names;
    }
  }

  // ---------------------------------------------------------------------------
  // The names a display keeps
  // ---------------------------------------------------------------------------

  /** The names whose fold is not empty and not yet seen, in order. */
  function FreshNames(u: Tables, names: seq<Name>, seen: set<string>): seq<Name> {
    if names == [] then []
    else
      var fold := Folded(u, TextOf(names[0]));
      if fold == "" || fold in seen then FreshNames(u, names[1..], seen)
      else [names[0]] + FreshNames(u, names[1..], seen + {fold})
  }

  lemma {:induction false} FreshTexts(u: Tables, names: seq<Name>, seen: set<string>)
    ensures Texts(FreshNames(u, names, seen)) == FreshBy(FoldedKey(u), Texts(names), seen)
  {
    if names != [] {
      var fold := Folded(u, TextOf(names[0]));
      FoldedKeyIs(u, TextOf(names[0]));
      assert Texts(names)[1..] == Texts(names[1..]);
      if fold == "" || fold in seen {
        FreshTexts(u, names[1..], seen);
      } else {
        FreshTexts(u, names[1..], seen + {fold});
        var rest := FreshNames(u, names[1..], seen + {fold});
        assert ([names[0]] + rest)[1..] == rest;
      }
    }
  }

  lemma {:induction false} FreshNamesAreNames(u: Tables, names: seq<Name>, seen: set<string>, n: Name)
    requires n in FreshNames(u, names, seen)
    ensures n in names && Folded(u, TextOf(n)) != "" && Folded(u, TextOf(n)) !in seen
  {
    var fold := Folded(u, TextOf(names[0]));
    if fold == "" || fold in seen {
      FreshNamesAreNames(u, names[1..], seen, n);
    } else if n != names[0] {
      FreshNamesAreNames(u, names[1..], seen + {fold}, n);
    }
  }

  lemma {:induction false} FreshNamesKeepFolds(u: Tables, names: seq<Name>, seen: set<string>, n: Name)
    returns (m: Name)
    requires n in names && Folded(u, TextOf(n)) != "" && Folded(u, TextOf(n)) !in seen
    ensures m in FreshNames(u, names, seen) && Folded(u, TextOf(m)) == Folded(u, TextOf(n))
  {
    var fold := Folded(u, TextOf(names[0]));
    if fold == "" || fold in seen {
      m := FreshNamesKeepFolds(u, names[1..], seen, n);
    } else if fold == Folded(u, TextOf(n)) {
      m := names[0];
    } else {
      m := FreshNamesKeepFolds(u, names[1..], seen + {fold}, n);
    }
  }

  /** Of the names shown no two fold alike. */
  lemma {:induction false} FreshNamesDiffer(u: Tables, names: seq<Name>, seen: set<string>, a: Name, b: Name)
    requires a in FreshNames(u, names, seen) && b in FreshNames(u, names, seen)
    requires Folded(u, TextOf(a)) == Folded(u, TextOf(b))
    ensures a == b
  {
    var fold := Folded(u, TextOf(names[0]));
    if fold == "" || fold in seen {
      FreshNamesDiffer(u, names[1..], seen, a, b);
    } else {
      var rest := FreshNames(u, names[1..], seen + {fold});
      if a in rest { FreshNamesAreNames(u, names[1..], seen + {fold}, a); }
      if b in rest { FreshNamesAreNames(u, names[1..], seen + {fold}, b); }
      if a in rest && b in rest { FreshNamesDiffer(u, names[1..], seen + {fold}, a, b); }
    }
  }

  function Flat(names: seq<Name>): seq<string> {
    if names == [] then [] else names[0] + Flat(names[1..])
  }

  lemma {:induction false} FlatMember(names: seq<Name>, bit: string)
    ensures bit in Flat(names) <==> exists n :: n in names && bit in n
  {
    if names != [] {
      FlatMember(names[1..], bit);
      assert names == [names[0]] + names[1..];
      assert names[0] in names;
    }
  }

  lemma {:induction false} JoinOfTwo(a: seq<string>, b: seq<string>, sep: string)
    requires a != [] && b != []
    ensures JoinWith(a + b, sep) == JoinWith(a, sep) + sep + JoinWith(b, sep)
    decreases |a|
  {
    assert (a + b)[1..] == a[1..] + b;
    if |a| == 1 {
      assert a[1..] + b == b;
    } else {
      JoinOfTwo(a[1..], b, sep);
      FourTexts(a[0], sep, JoinWith(a[1..], sep), JoinWith(b, sep));
    }
  }

  lemma FourTexts(head: string, sep: string, middle: string, last: string)
    ensures head + sep + (middle + sep + last) == (head + sep + middle) + sep + last
  {
  }

  ghost predicate NoneEmpty(names: seq<Name>) {
    forall n :: n in names ==> |n| > 0
  }

  lemma NoneEmptyRest(names: seq<Name>)
    requires names != [] && NoneEmpty(names)
    ensures names[0] != [] && NoneEmpty(names[1..])
  {
    assert names[0] in names;
    forall n | n in names[1..] ensures |n| > 0 { assert n in names; }
  }

  lemma {:induction false} FlatText(names: seq<Name>)
    requires names != [] && NoneEmpty(names)
    ensures Flat(names) != [] && TextOf(Flat(names)) == JoinWith(Texts(names), ", ")
    decreases |names|
  {
    NoneEmptyRest(names);
    if |names| == 1 {
      assert names[0] + [] == names[0];
      assert Texts(names) == [TextOf(names[0])];
    } else {
      FlatText(names[1..]);
      JoinOfTwo(names[0], Flat(names[1..]), ", ");
      assert Texts(names)[1..] == Texts(names[1..]);
    }
  }

  lemma {:induction false} FlatIsLong(names: seq<Name>)
    requires NoneEmpty(names)
    ensures |Flat(names)| >= |names|
  {
    if names != [] {
      NoneEmptyRest(names);
      FlatIsLong(names[1..]);
    }
  }

  // ---------------------------------------------------------------------------
  // The folds of the bits against the folds of the names
  // ---------------------------------------------------------------------------

  ghost predicate AllBitsFold(u: Tables, names: seq<Name>) {
    forall n :: n in names ==> AllFold(u, n)
  }

  /** A name of several bits weighs more than each of them. */
  lemma {:induction false} NameOutweighsBit(u: Tables, name: Name, bit: string)
    requires LowerFreeOfSpace(u) && NfdAtCommas(u) && AllFold(u, name) && bit in name
    ensures Weight(u, TextOf(name)) >= Weight(u, bit)
    ensures |name| > 1 ==> Weight(u, TextOf(name)) > Weight(u, bit)
    decreases |name|
  {
    if |name| > 1 {
      var rest := name[1..];
      assert name[0] in name && rest[0] in rest;
      assert forall p :: p in rest ==> p in name;
      WeightsAdd(u, name[0], TextOf(rest));
      FoldedHasWeight(u, name[0]);
      NameOutweighsBit(u, rest, rest[0]);
      FoldedHasWeight(u, rest[0]);
      if bit != name[0] { NameOutweighsBit(u, rest, bit); }
    }
  }

  ghost predicate Heaviest(u: Tables, names: seq<Name>, m: Name) {
    && m in names && |m| > 1
    && forall n :: n in names && |n| > 1 ==> Weight(u, TextOf(n)) <= Weight(u, TextOf(m))
  }

  lemma {:induction false} SomeHeaviest(u: Tables, names: seq<Name>, some: Name) returns (m: Name)
    requires some in names && |some| > 1
    ensures Heaviest(u, names, m)
    decreases |names|
  {
    var rest := names[1..];
    assert forall n :: n in names <==> n == names[0] || n in rest;
    if other :| other in rest && |other| > 1 {
      m := SomeHeaviest(u, rest, other);
      if |names[0]| > 1 && Weight(u, TextOf(names[0])) > Weight(u, TextOf(m)) { m := names[0]; }
    } else {
      m := some;
    }
  }

  ghost predicate FoldOfBit(u: Tables, names: seq<Name>, x: string) {
    exists bit :: bit in Flat(names) && Folded(u, bit) == x
  }

  ghost predicate FoldOfSome(u: Tables, names: seq<Name>, x: string) {
    exists n :: n in names && Folded(u, TextOf(n)) == x
  }

  /** The names shown fold apart. */
  ghost predicate FoldApart(u: Tables, names: seq<Name>) {
    forall a, b :: a in names && b in names && Folded(u, TextOf(a)) == Folded(u, TextOf(b)) ==> a == b
  }

  lemma LighterFoldsApart(u: Tables, a: string, b: string)
    requires Weight(u, a) != Weight(u, b)
    ensures Folded(u, a) != Folded(u, b)
  {
  }

  lemma HeaviestOutweighs(u: Tables, names: seq<Name>, m: Name, n: Name)
    requires Heaviest(u, names, m) && n in names && |n| > 1
    ensures Weight(u, TextOf(n)) <= Weight(u, TextOf(m))
  {
  }

  lemma BitOfManyIsLighter(u: Tables, names: seq<Name>, m: Name, n: Name, bit: string)
    requires LowerFreeOfSpace(u) && NfdAtCommas(u) && Heaviest(u, names, m)
    requires n in names && |n| > 1 && bit in n && AllFold(u, n)
    ensures Folded(u, bit) != Folded(u, TextOf(m))
  {
    NameOutweighsBit(u, n, bit);
    HeaviestOutweighs(u, names, m, n);
    LighterFoldsApart(u, bit, TextOf(m));
  }

  lemma LongerFoldsApart(u: Tables, names: seq<Name>, m: Name, n: Name)
    requires FoldApart(u, names) && m in names && n in names && |m| != |n|
    ensures Folded(u, TextOf(n)) != Folded(u, TextOf(m))
  {
  }

  /** The heaviest name of several bits folds to no bit. */
  lemma HeaviestIsNotTheBit(u: Tables, names: seq<Name>, m: Name, n: Name, bit: string)
    requires LowerFreeOfSpace(u) && NfdAtCommas(u) && FoldApart(u, names) && Heaviest(u, names, m)
    requires n in names && bit in n && AllFold(u, n)
    ensures Folded(u, bit) != Folded(u, TextOf(m))
  {
    if |n| > 1 {
      BitOfManyIsLighter(u, names, m, n, bit);
    } else {
      LongerFoldsApart(u, names, m, n);
      OnlyBit(n, bit);
    }
  }

  lemma OnlyBit(name: Name, bit: string)
    requires |name| == 1 && bit in name
    ensures TextOf(name) == bit == name[0]
  {
    OneBitText(name);
  }

  lemma HeaviestIsNoBit(u: Tables, names: seq<Name>, m: Name)
    requires LowerFreeOfSpace(u) && NfdAtCommas(u) && AllBitsFold(u, names) && FoldApart(u, names)
    requires Heaviest(u, names, m)
    ensures !FoldOfBit(u, names, Folded(u, TextOf(m)))
  {
    forall bit | bit in Flat(names) ensures Folded(u, bit) != Folded(u, TextOf(m)) {
      FlatMember(names, bit);
      var n :| n in names && bit in n;
      HeaviestIsNotTheBit(u, names, m, n, bit);
    }
  }

  /** The bits fold to what the names fold to exactly when every name is one bit. */
  lemma SameFoldsOfBitsIff(u: Tables, names: seq<Name>)
    requires LowerFreeOfSpace(u) && NfdAtCommas(u) && AllBitsFold(u, names) && FoldApart(u, names) && NoneEmpty(names)
    ensures (forall x :: FoldOfBit(u, names, x) <==> FoldOfSome(u, names, x)) <==> OneBitEach(names)
  {
    if OneBitEach(names) {
      forall x ensures FoldOfBit(u, names, x) <==> FoldOfSome(u, names, x) { SingleBits(u, names, x); }
    } else {
      var some :| some in names && |some| != 1;
      var m := SomeHeaviest(u, names, some);
      HeaviestIsNoBit(u, names, m);
      assert FoldOfSome(u, names, Folded(u, TextOf(m)));
    }
  }

  ghost predicate OneBitEach(names: seq<Name>) {
    forall n :: n in names ==> |n| == 1
  }

  lemma BitIsName(u: Tables, names: seq<Name>, bit: string)
    requires OneBitEach(names) && bit in Flat(names)
    ensures FoldOfSome(u, names, Folded(u, bit))
  {
    FlatMember(names, bit);
    var n :| n in names && bit in n;
    OnlyBit(n, bit);
  }

  lemma NameIsBit(u: Tables, names: seq<Name>, n: Name)
    requires OneBitEach(names) && n in names
    ensures FoldOfBit(u, names, Folded(u, TextOf(n)))
  {
    OnlyBit(n, n[0]);
    FlatMember(names, n[0]);
  }

  lemma SingleBits(u: Tables, names: seq<Name>, x: string)
    requires OneBitEach(names)
    ensures FoldOfBit(u, names, x) <==> FoldOfSome(u, names, x)
  {
    if bit :| bit in Flat(names) && Folded(u, bit) == x { BitIsName(u, names, bit); }
    if n :| n in names && Folded(u, TextOf(n)) == x { NameIsBit(u, names, n); }
  }

  // ---------------------------------------------------------------------------
  // The key of the display
  // ---------------------------------------------------------------------------

  /** A credit of spelled names of which two fold differently, joined by any delimiter. */
  ghost predicate CommaCredit(u: Tables, names: seq<Name>, j: Joiner) {
    && AllSpelled(names) && AllBitsFold(u, Turns(names)) && PlainlyJoined(Texts(names), j)
    && exists a, b :: a in Turns(names) && b in Turns(names) && Folded(u, TextOf(a)) != Folded(u, TextOf(b))
  }

  /** What the display has before its first comma. */
  function FirstBit(names: seq<Name>): string {
    if names == [] || Turned(names[0]) == [] then "" else Turned(names[0])[0]
  }

  function ShownNames(u: Tables, names: seq<Name>): seq<Name> {
    FreshNames(u, Turns(names), {})
  }

  lemma TurnsAreSpelled(u: Tables, names: seq<Name>, n: Name)
    requires AllSpelled(names) && n in Turns(names)
    ensures n != [] && PlainNames(n)
  {
    TurnsMember(names, n);
    var m :| m in names && Turned(m) == n;
    assert Spelled(m);
  }

  lemma NameFolds(u: Tables, n: Name)
    requires LowerFreeOfSpace(u) && NfdAtCommas(u) && n != [] && AllFold(u, n)
    ensures Folded(u, TextOf(n)) != ""
  {
    assert n[0] in n;
    NameOutweighsBit(u, n, n[0]);
    FoldedHasWeight(u, n[0]);
  }

  /** What the names shown are like. */
  lemma ShownShape(u: Tables, names: seq<Name>)
    requires LowerFreeOfSpace(u) && NfdAtCommas(u) && AllSpelled(names) && AllBitsFold(u, Turns(names))
    ensures var shown := ShownNames(u, names);
            && NoneEmpty(shown) && AllBitsFold(u, shown) && FoldApart(u, shown)
            && PlainNames(Flat(shown)) && AllFold(u, Flat(shown))
  {
    var shown := ShownNames(u, names);
    forall n | n in shown ensures n in Turns(names) && |n| > 0 && PlainNames(n) {
      FreshNamesAreNames(u, Turns(names), {}, n);
      TurnsAreSpelled(u, names, n);
    }
    forall a, b | a in shown && b in shown && Folded(u, TextOf(a)) == Folded(u, TextOf(b)) ensures a == b {
      FreshNamesDiffer(u, Turns(names), {}, a, b);
    }
    forall bit | bit in Flat(shown) ensures PlainName(bit) && Folded(u, bit) != "" {
      FlatMember(shown, bit);
      var n :| n in shown && bit in n;
      assert AllFold(u, n);
    }
  }

  /** Shown or not, the names have the same folds. */
  lemma ShownFoldAlikeNames(u: Tables, names: seq<Name>, x: string)
    requires LowerFreeOfSpace(u) && NfdAtCommas(u) && AllSpelled(names) && AllBitsFold(u, Turns(names))
    ensures x in FoldParts(u, Texts(names)) <==> FoldOfSome(u, ShownNames(u, names), x)
  {
    FoldPartsMembers(u, Texts(names), x);
    if p :| x != "" && p in Texts(names) && FoldPart(u, p) == x { ShownForPart(u, names, p); }
    if n :| n in ShownNames(u, names) && Folded(u, TextOf(n)) == x { PartForShown(u, names, n); }
  }

  lemma ShownForPart(u: Tables, names: seq<Name>, p: string)
    requires AllSpelled(names) && p in Texts(names) && FoldPart(u, p) != ""
    ensures FoldOfSome(u, ShownNames(u, names), FoldPart(u, p))
  {
    TextsMember(names, p);
    var n :| n in names && TextOf(n) == p;
    FoldOfName(u, n);
    TurnsMember(names, Turned(n));
    var m := FreshNamesKeepFolds(u, Turns(names), {}, Turned(n));
  }

  lemma PartForShown(u: Tables, names: seq<Name>, n: Name)
    requires AllSpelled(names) && n in ShownNames(u, names)
    ensures Folded(u, TextOf(n)) != ""
    ensures exists p :: p in Texts(names) && FoldPart(u, p) == Folded(u, TextOf(n))
  {
    FreshNamesAreNames(u, Turns(names), {}, n);
    TurnsMember(names, n);
    var m :| m in names && Turned(m) == n;
    FoldOfName(u, m);
    TextsMember(names, TextOf(m));
  }

  /** The bits shown fold to what the parts of the credit fold to exactly when every name shown is one bit. */
  lemma SameFoldsAsShownIff(u: Tables, names: seq<Name>)
    requires LowerFreeOfSpace(u) && NfdAtCommas(u) && AllSpelled(names) && AllBitsFold(u, Turns(names))
    ensures SameFolds(u, Flat(ShownNames(u, names)), Texts(names))
            <==> OneBitEach(ShownNames(u, names))
  {
    var shown := ShownNames(u, names);
    ShownShape(u, names);
    forall x
      ensures x in FoldParts(u, Flat(shown)) <==> FoldOfBit(u, shown, x)
      ensures x in FoldParts(u, Texts(names)) <==> FoldOfSome(u, shown, x)
    {
      FoldsOfPlain(u, Flat(shown), x);
      ShownFoldAlikeNames(u, names, x);
    }
    SameFoldsOfBitsIff(u, shown);
  }

  lemma TwoMembers(names: seq<Name>, x: Name, y: Name)
    requires x in names && y in names && x != y
    ensures |names| >= 2
  {
  }

  lemma TwoFoldsTwoNames(u: Tables, turns: seq<Name>, a: Name, b: Name)
    requires a in turns && Folded(u, TextOf(a)) != "" && b in turns && Folded(u, TextOf(b)) != ""
    requires Folded(u, TextOf(a)) != Folded(u, TextOf(b))
    ensures |FreshNames(u, turns, {})| >= 2
  {
    var x := FreshNamesKeepFolds(u, turns, {}, a);
    var y := FreshNamesKeepFolds(u, turns, {}, b);
    TwoMembers(FreshNames(u, turns, {}), x, y);
  }

  lemma TurnHasFold(u: Tables, names: seq<Name>, t: Name)
    requires LowerFreeOfSpace(u) && NfdAtCommas(u) && AllSpelled(names) && AllBitsFold(u, Turns(names))
    requires t in Turns(names)
    ensures t != [] && Folded(u, TextOf(t)) != ""
  {
    TurnsAreSpelled(u, names, t);
    NameFolds(u, t);
  }

  lemma CreditShows(u: Tables, names: seq<Name>, j: Joiner)
    requires LowerFreeOfSpace(u) && NfdAtCommas(u) && CommaCredit(u, names, j)
    ensures |ShownNames(u, names)| >= 2
  {
    var turns := Turns(names);
    var a, b :| a in turns && b in turns && Folded(u, TextOf(a)) != Folded(u, TextOf(b));
    TurnHasFold(u, names, a);
    TurnHasFold(u, names, b);
    TwoFoldsTwoNames(u, turns, a, b);
  }

  /** The first name is always shown. */
  lemma FirstIsShown(u: Tables, names: seq<Name>, j: Joiner)
    requires LowerFreeOfSpace(u) && NfdAtCommas(u) && CommaCredit(u, names, j)
    ensures |names| > 0 && |Turned(names[0])| > 0 && |ShownNames(u, names)| > 0
    ensures ShownNames(u, names)[0] == Turned(names[0])
  {
    var turns := Turns(names);
    assert turns[0] in turns;
    TurnHasFold(u, names, turns[0]);
  }

  /** The display of the credit before composition: the names shown, joined by commas. */
  lemma CreditPreprocessed(u: Tables, names: seq<Name>, j: Joiner)
    requires LowerFreeOfSpace(u) && NfdAtCommas(u) && CommaCredit(u, names, j)
    ensures var raw := JoinWith(Texts(names), JoinText(j));
            Trim(raw) == raw != "" && PreprocessArtist(u, raw) == JoinWith(Texts(ShownNames(u, names)), ", ")
  {
    var raw := JoinWith(Texts(names), JoinText(j));
    CreditShows(u, names, j);
    PlainlyJoinedIsPlain(Texts(names), j);
    PlainIsItsCore(u, raw);
    JoinedBySplits(Texts(names), j);
    CleanNames(u, names);
    FreshTexts(u, Turns(names), {});
  }

  /** The text a credit is displayed as. */
  function DisplayOf(u: Tables, names: seq<Name>): string {
    TextOf(Flat(ShownNames(u, names)))
  }

  lemma CreditDisplayed(u: Tables, names: seq<Name>, j: Joiner)
    requires LowerFreeOfSpace(u) && NfdAtCommas(u) && CommaCredit(u, names, j)
    requires Folded(u, DisplayOf(u, names)) !in VARIOUS && u.nfc(DisplayOf(u, names)) == DisplayOf(u, names)
    ensures ArtistDisplayForm(u, JoinWith(Texts(names), JoinText(j))) == DisplayOf(u, names)
  {
    CreditPreprocessed(u, names, j);
    CreditShows(u, names, j);
    ShownShape(u, names);
    FlatText(ShownNames(u, names));
    TextIsFree(Flat(ShownNames(u, names)));
  }

  /** The bits shown, as the display cuts them. */
  lemma DisplayBits(u: Tables, names: seq<Name>, j: Joiner)
    requires LowerFreeOfSpace(u) && NfdAtCommas(u) && CommaCredit(u, names, j)
    ensures var bits := Flat(ShownNames(u, names));
            |bits| >= 2 && PlainNames(bits) && AllFold(u, bits) && bits[0] == FirstBit(names)
  {
    var shown := ShownNames(u, names);
    CreditShows(u, names, j);
    FirstIsShown(u, names, j);
    ShownShape(u, names);
    FlatIsLong(shown);
    assert Flat(shown)[0] == shown[0][0];
  }

  lemma BitsFoldToSomething(u: Tables, bits: seq<string>)
    requires bits != [] && PlainNames(bits) && AllFold(u, bits)
    ensures FoldParts(u, bits) != []
  {
    assert bits[0] in bits;
    FoldsOfPlain(u, bits, Folded(u, bits[0]));
  }

  lemma PartsFoldToSomething(u: Tables, names: seq<Name>, j: Joiner)
    requires LowerFreeOfSpace(u) && NfdAtCommas(u) && CommaCredit(u, names, j)
    ensures exists x, y :: x in FoldParts(u, Texts(names)) && y in FoldParts(u, Texts(names)) && x != y
  {
    var turns := Turns(names);
    var a, b :| a in turns && b in turns && Folded(u, TextOf(a)) != Folded(u, TextOf(b));
    TurnFolds(u, names, a);
    TurnFolds(u, names, b);
  }

  lemma TurnFolds(u: Tables, names: seq<Name>, t: Name)
    requires LowerFreeOfSpace(u) && NfdAtCommas(u) && AllSpelled(names) && AllBitsFold(u, Turns(names))
    requires t in Turns(names)
    ensures Folded(u, TextOf(t)) in FoldParts(u, Texts(names))
  {
    TurnsMember(names, t);
    var n :| n in names && Turned(n) == t;
    TurnsAreSpelled(u, names, t);
    NameFolds(u, t);
    FoldOfName(u, n);
    TextsMember(names, TextOf(n));
    FoldPartsMembers(u, Texts(names), Folded(u, TextOf(t)));
  }

  /** Where the display splits again, its key is that of its bits. */
  lemma KeyOfSplitBits(u: Tables, names: seq<Name>, j: Joiner)
    requires LowerFreeOfSpace(u) && NfdAtCommas(u) && LowerFreeOfAmpersand(u) && CommaCredit(u, names, j)
    requires HasWhitespace(FirstBit(names))
    ensures ArtistFoldKey(u, DisplayOf(u, names)) == ArtistFoldKey(u, JoinWith(Texts(names), JoinText(j)))
            <==> OneBitEach(ShownNames(u, names))
  {
    var bits := Flat(ShownNames(u, names));
    DisplayBits(u, names, j);
    DisplaySplitsIff(bits);
    DisplayIsPlain(bits);
    BitsFoldToSomething(u, bits);
    PartsFoldToSomething(u, names, j);
    KeyOfSplit(u, DisplayOf(u, names), bits);
    WholeKeyOfJoinedBy(u, Texts(names), j);
    KeysOfFoldsIff(u, bits, Texts(names));
    SameFoldsAsShownIff(u, names);
  }

  /** Where it does not, the key is that of one artist. */
  lemma KeyOfUnsplitBits(u: Tables, names: seq<Name>, j: Joiner)
    requires LowerFreeOfSpace(u) && NfdAtCommas(u) && LowerFreeOfAmpersand(u) && CommaCredit(u, names, j)
    requires !HasWhitespace(FirstBit(names))
    ensures ArtistFoldKey(u, DisplayOf(u, names)) != ArtistFoldKey(u, JoinWith(Texts(names), JoinText(j)))
  {
    var bits := Flat(ShownNames(u, names));
    DisplayBits(u, names, j);
    DisplaySplitsIff(bits);
    DisplayIsPlain(bits);
    OneArtistKeyIsFree(u, DisplayOf(u, names));
    PartsFoldToSomething(u, names, j);
    var x, y :| x in FoldParts(u, Texts(names)) && y in FoldParts(u, Texts(names)) && x != y;
    WholeKeyOfJoinedBy(u, Texts(names), j);
    TwoKeysHaveAmpersand(FoldParts(u, Texts(names)), x, y);
  }

  /**
   Whatever joins the credit and whatever commas its names hold, the key of the display is the key of
   the credit exactly when what the display has before its first comma is several words and no name it
   shows holds a comma.
   */
  lemma CommaDisplayKeepsKeyIff(u: Tables, names: seq<Name>, j: Joiner)
    requires LowerFreeOfSpace(u) && NfdAtCommas(u) && LowerFreeOfAmpersand(u) && CommaCredit(u, names, j)
    requires Folded(u, DisplayOf(u, names)) !in VARIOUS && u.nfc(DisplayOf(u, names)) == DisplayOf(u, names)
    ensures var raw := JoinWith(Texts(names), JoinText(j));
            ArtistFoldKey(u, ArtistDisplayForm(u, raw)) == ArtistFoldKey(u, raw)
            <==> SeveralWords(FirstBit(names)) && OneBitEach(ShownNames(u, names))
  {
    SeveralWordsIff(FirstBit(names));
    CreditDisplayed(u, names, j);
    if HasWhitespace(FirstBit(names)) {
      KeyOfSplitBits(u, names, j);
    } else {
      KeyOfUnsplitBits(u, names, j);
    }
  }
}
