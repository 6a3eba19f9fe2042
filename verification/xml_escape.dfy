/** The DLNA client's XML escaping and unescaping, each done by five successive replacements. */
module XmlEscape {

  /** Replace every occurrence of `pat`, left to right, without overlap. */
  function Replace(s: string, pat: string, rep: string): string
    requires pat != ""
  {
    if |s| < |pat| then s
    else if s[..|pat|] == pat then rep + Replace(s[|pat|..], pat, rep)
    else [s[0]] + Replace(s[1..], pat, rep)
  }

  function Escape(s: string): string {
    var s1 := Replace(s, "&", "&amp;");
    var s2 := Replace(s1, "<", "&lt;");
    var s3 := Replace(s2, ">", "&gt;");
    var s4 := Replace(s3, "\"", "&quot;");
    Replace(s4, "'", "&apos;")
  }

  function Unescape(s: string): string {
    var s1 := Replace(s, "&quot;", "\"");
    var s2 := Replace(s1, "&apos;", "'");
    var s3 := Replace(s2, "&lt;", "<");
    var s4 := Replace(s3, "&gt;", ">");
    Replace(s4, "&amp;", "&")
  }

  /** The predefined entity of a markup character, the character itself otherwise. */
  function Entity(c: char): string {
    if c == '&' then "&amp;"
    else if c == '<' then "&lt;"
    else if c == '>' then "&gt;"
    else if c == '"' then "&quot;"
    else if c == '\'' then "&apos;"
    else [c]
  }

  /** One pass over the text, character by character. */
  function EscapeEach(s: string): string {
    if s == "" then "" else Entity(s[0]) + EscapeEach(s[1..])
  }

  // ---------------------------------------------------------------------------
  // Escaping is a single pass
  // ---------------------------------------------------------------------------

  lemma ReplaceCharStep(s: string, c: char, rep: string)
    requires s != ""
    ensures Replace(s, [c], rep) == (if s[0] == c then rep else [s[0]]) + Replace(s[1..], [c], rep)
  {
    assert s[..1] == [s[0]];
  }

  lemma ReplaceCharCons(x: char, rest: string, c: char, rep: string)
    ensures Replace([x] + rest, [c], rep) == (if x == c then rep else [x]) + Replace(rest, [c], rep)
  {
    ReplaceCharStep([x] + rest, c, rep);
    assert ([x] + rest)[1..] == rest;
  }

  lemma {:induction false} ReplaceCharConcat(s: string, t: string, c: char, rep: string)
    ensures Replace(s + t, [c], rep) == Replace(s, [c], rep) + Replace(t, [c], rep)
  {
    if s == "" {
      assert s + t == t;
    } else {
      var x, rest := s[0], s[1..];
      ReplaceCharConcat(rest, t, c, rep);
      ReplaceCharCons(x, rest, c, rep);
      ReplaceCharCons(x, rest + t, c, rep);
      assert s == [x] + rest && s + t == [x] + (rest + t);
    }
  }

  lemma {:induction false} ReplaceCharAbsent(s: string, c: char, rep: string)
    requires c !in s
    ensures Replace(s, [c], rep) == s
  {
    if s != "" {
      assert s[..1] == [s[0]];
      ReplaceCharAbsent(s[1..], c, rep);
    }
  }

  lemma EscapeConcat(s: string, t: string)
    ensures Escape(s + t) == Escape(s) + Escape(t)
  {
    ReplaceCharConcat(s, t, '&', "&amp;");
    var s1, t1 := Replace(s, "&", "&amp;"), Replace(t, "&", "&amp;");
    ReplaceCharConcat(s1, t1, '<', "&lt;");
    var s2, t2 := Replace(s1, "<", "&lt;"), Replace(t1, "<", "&lt;");
    ReplaceCharConcat(s2, t2, '>', "&gt;");
    var s3, t3 := Replace(s2, ">", "&gt;"), Replace(t2, ">", "&gt;");
    ReplaceCharConcat(s3, t3, '"', "&quot;");
    var s4, t4 := Replace(s3, "\"", "&quot;"), Replace(t3, "\"", "&quot;");
    ReplaceCharConcat(s4, t4, '\'', "&apos;");
  }

  lemma ReplaceOne(x: char, c: char, rep: string)
    ensures Replace([x], [c], rep) == if x == c then rep else [x]
  {
    assert [x][..1] == [x] && [x][1..] == [];
    assert Replace([], [c], rep) == [];
  }

  lemma EscapeOne(x: char)
    ensures Escape([x]) == Entity(x)
  {
    ReplaceOne(x, '&', "&amp;");
    if x == '&' { LaterPassesKeep("&amp;"); } else {
      ReplaceOne(x, '<', "&lt;");
      if x == '<' { QuotePassesKeep("&lt;"); } else {
        ReplaceOne(x, '>', "&gt;");
        if x == '>' { QuotePassesKeep("&gt;"); } else {
          ReplaceOne(x, '"', "&quot;");
          if x == '"' { ReplaceCharAbsent("&quot;", '\'', "&apos;"); } else {
            ReplaceOne(x, '\'', "&apos;");
          }
        }
      }
    }
  }

  lemma QuotePassesKeep(e: string)
    requires '>' !in e && '"' !in e && '\'' !in e
    ensures Replace(e, ">", "&gt;") == e && Replace(e, "\"", "&quot;") == e && Replace(e, "'", "&apos;") == e
  {
    ReplaceCharAbsent(e, '>', "&gt;");
    ReplaceCharAbsent(e, '"', "&quot;");
    ReplaceCharAbsent(e, '\'', "&apos;");
  }

  lemma LaterPassesKeep(e: string)
    requires '<' !in e && '>' !in e && '"' !in e && '\'' !in e
    ensures Replace(e, "<", "&lt;") == e && Replace(e, ">", "&gt;") == e
    ensures Replace(e, "\"", "&quot;") == e && Replace(e, "'", "&apos;") == e
  {
    ReplaceCharAbsent(e, '<', "&lt;");
    QuotePassesKeep(e);
  }

  /** The five passes equal one pass that writes each character's entity. */
  lemma {:induction false} EscapeIsSinglePass(s: string)
    ensures Escape(s) == EscapeEach(s)
  {
    if s != "" {
      EscapeIsSinglePass(s[1..]);
      EscapeOne(s[0]);
      EscapeConcat([s[0]], s[1..]);
      assert [s[0]] + s[1..] == s;
    }
  }

  // ---------------------------------------------------------------------------
  // Unescaping takes one entity back per pass
  // ---------------------------------------------------------------------------

  /** The unescape pass that takes a character's entity back, 0 for plain characters. */
  function PassOf(c: char): nat {
    if c == '"' then 1 else if c == '\'' then 2 else if c == '<' then 3
    else if c == '>' then 4 else if c == '&' then 5 else 0
  }

  function MarkupOf(pass: nat): char
    requires 1 <= pass <= 5
  {
    if pass == 1 then '"' else if pass == 2 then '\'' else if pass == 3 then '<'
    else if pass == 4 then '>' else '&'
  }

  /** A character's text after the first `pass` unescape passes. */
  function Atom(pass: nat, c: char): string {
    if PassOf(c) <= pass then [c] else Entity(c)
  }

  function Partly(pass: nat, s: string): string {
    if s == "" then "" else Atom(pass, s[0]) + Partly(pass, s[1..])
  }

  /** Text without an ampersand is passed over. */
  lemma {:induction false} SkipPlain(t: string, rest: string, pat: string, rep: string)
    requires pat != "" && pat[0] == '&' && '&' !in t
    ensures Replace(t + rest, pat, rep) == t + Replace(rest, pat, rep)
  {
    if t == "" {
      assert t + rest == rest;
    } else {
      SkipPlain(t[1..], rest, pat, rep);
      var s := t + rest;
      assert s[1..] == t[1..] + rest;
      if |s| >= |pat| {
        assert s[..|pat|][0] == t[0];
        assert Replace(s, pat, rep) == [t[0]] + Replace(s[1..], pat, rep);
      } else {
        assert |rest| < |pat| && |t[1..] + rest| < |pat|;
        assert Replace(s, pat, rep) == s;
      }
      assert t == [t[0]] + t[1..];
    }
  }

  lemma EntityShape(c: char)
    requires PassOf(c) > 0
    ensures |Entity(c)| >= 4 && Entity(c)[0] == '&' && '&' !in Entity(c)[1..]
  {
  }

  /** No entity is the beginning of another entity's text. */
  lemma EntitiesDiffer(c: char, d: char, rest: string)
    requires PassOf(c) > 0 && PassOf(d) > 0 && c != d
    requires |Entity(c) + rest| >= |Entity(d)|
    ensures (Entity(c) + rest)[..|Entity(d)|] != Entity(d)
  {
    var s, e := Entity(c) + rest, Entity(d);
    assert s[1] == Entity(c)[1] && s[2] == Entity(c)[2];
    assert s[..|e|][1] == s[1] && s[..|e|][2] == s[2];
    assert Entity(c)[1] != e[1] || Entity(c)[2] != e[2];
  }

  /** Text whose one ampersand does not start the pattern is passed over. */
  lemma SkipUnmatched(e: string, rest: string, pat: string, rep: string)
    requires pat != "" && pat[0] == '&' && e != "" && '&' !in e[1..]
    requires |e + rest| >= |pat| ==> (e + rest)[..|pat|] != pat
    ensures Replace(e + rest, pat, rep) == e + Replace(rest, pat, rep)
  {
    var s := e + rest;
    SkipPlain(e[1..], rest, pat, rep);
    assert s[1..] == e[1..] + rest;
    if |s| < |pat| {
      assert Replace(s, pat, rep) == s && Replace(rest, pat, rep) == rest;
    } else {
      assert Replace(s, pat, rep) == [e[0]] + Replace(s[1..], pat, rep);
      SplitHead(e, Replace(rest, pat, rep));
    }
  }

  lemma SplitHead(e: string, rest: string)
    requires e != ""
    ensures [e[0]] + (e[1..] + rest) == e + rest
  {
  }

  lemma OtherEntityKept(c: char, d: char, rest: string)
    requires PassOf(c) > 0 && PassOf(d) > 0 && c != d
    ensures Replace(Entity(c) + rest, Entity(d), [d]) == Entity(c) + Replace(rest, Entity(d), [d])
  {
    EntityShape(c);
    EntityShape(d);
    if |Entity(c) + rest| >= |Entity(d)| { EntitiesDiffer(c, d, rest); }
    SkipUnmatched(Entity(c), rest, Entity(d), [d]);
  }

  lemma OwnEntityTaken(d: char, rest: string)
    requires PassOf(d) > 0
    ensures Replace(Entity(d) + rest, Entity(d), [d]) == [d] + Replace(rest, Entity(d), [d])
  {
    var s := Entity(d) + rest;
    assert s[..|Entity(d)|] == Entity(d) && s[|Entity(d)|..] == rest;
  }

  /** The pass that takes one character's entity back. */
  function TakeBack(d: char, s: string): string
    requires PassOf(d) > 0
  {
    Replace(s, Entity(d), [d])
  }

  lemma UnescapeIsFivePasses(s: string)
    ensures Unescape(s) == TakeBack('&', TakeBack('>', TakeBack('<', TakeBack('\'', TakeBack('"', s)))))
  {
  }

  /** Each pass takes back exactly the entities of its own character. */
  lemma {:induction false} PassTakesOneBack(pass: nat, s: string)
    requires 1 <= pass <= 5
    ensures TakeBack(MarkupOf(pass), Partly(pass - 1, s)) == Partly(pass, s)
  {
    var d := MarkupOf(pass);
    if s != "" {
      PassTakesOneBack(pass, s[1..]);
      var c, rest := s[0], Partly(pass - 1, s[1..]);
      if PassOf(c) < pass {
        assert c != '&';
        EntityShape(d);
        SkipPlain([c], rest, Entity(d), [d]);
      } else if PassOf(c) == pass {
        OwnEntityTaken(d, rest);
      } else {
        OtherEntityKept(c, d, rest);
      }
    }
  }

  lemma {:induction false} PartlyEnds(s: string)
    ensures Partly(0, s) == EscapeEach(s) && Partly(5, s) == s
  {
    if s != "" {
      PartlyEnds(s[1..]);
      assert [s[0]] + s[1..] == s;
    }
  }

  /** For every text, the five unescape passes undo the five escape passes. */
  lemma UnescapeUndoesEscape(s: string)
    ensures Unescape(Escape(s)) == s
  {
    EscapeIsSinglePass(s);
    PartlyEnds(s);
    UnescapeIsFivePasses(EscapeEach(s));
    PassTakesOneBack(1, s);
    PassTakesOneBack(2, s);
    PassTakesOneBack(3, s);
    PassTakesOneBack(4, s);
    PassTakesOneBack(5, s);
  }
}
