/**
 The captive-portal body rewriter: one pass over the bytes that swaps every upstream host for
 the session prefix and puts the prefix before every path-absolute URL.
 */
module BodyRewriter {
  import opened Common

  newtype byte = b: int | 0 <= b < 256

  type Bytes = seq<byte>

  const SLASH: byte := 0x2F
  const DOUBLE_QUOTE: byte := 0x22
  const SINGLE_QUOTE: byte := 0x27
  const PAREN: byte := 0x28
  const EQUALS: byte := 0x3D

  predicate IsWordByte(b: byte) {
    || 0x30 <= b <= 0x39 || 0x41 <= b <= 0x5A || 0x61 <= b <= 0x7A
    || b == 0x5F || b == 0x24
  }

  /** The upstream host stands at `i`. An empty host stands nowhere. */
  predicate HostAt(body: Bytes, host: Bytes, i: nat) {
    host != [] && i + |host| <= |body| && body[i..i + |host|] == host
  }

  /** The byte before `i`, zero at the start. */
  function Before(body: Bytes, i: nat): byte
    requires i <= |body|
  {
    if i == 0 then 0 else body[i - 1]
  }

  /** The slash at `i` opens a path-absolute URL. */
  predicate UrlSlashAt(body: Bytes, i: nat)
    requires i < |body|
  {
    && body[i] == SLASH
    && !(i + 1 < |body| && body[i + 1] == SLASH)
    && var prev := Before(body, i);
       || prev == PAREN || prev == EQUALS
       || ((prev == DOUBLE_QUOTE || prev == SINGLE_QUOTE)
           && var b := if i < 2 then 0 else body[i - 2];
              b == EQUALS || b == PAREN || !IsWordByte(b))
  }

  /**
   In byte values: a slash that no slash follows, behind an opening parenthesis or an equals sign, or
   behind a quote whose own predecessor is missing or no letter, digit, underscore or dollar sign.
   */
  predicate OpensUrl(body: Bytes, i: nat)
    requires i < |body|
  {
    && body[i] == 0x2F && (i + 1 == |body| || body[i + 1] != 0x2F) && i > 0
    && (|| body[i - 1] == 0x28 || body[i - 1] == 0x3D
        || ((body[i - 1] == 0x22 || body[i - 1] == 0x27)
            && (i == 1
                || !(|| 0x30 <= body[i - 2] <= 0x39 || 0x41 <= body[i - 2] <= 0x5A
                     || 0x61 <= body[i - 2] <= 0x7A || body[i - 2] == 0x5F || body[i - 2] == 0x24))))
  }

  lemma OpensUrlIff(body: Bytes, i: nat)
    requires i < |body|
    ensures UrlSlashAt(body, i) <==> OpensUrl(body, i)
  {
  }

  // ---------------------------------------------------------------------------
  // The marked edits
  // ---------------------------------------------------------------------------

  /** What the scan does at one position: swap a host, mark a URL slash, or copy a byte. */
  datatype Edit = Swap | Prefixed | Copy(b: byte)

  /** The edit at a position, and where the scan goes on. */
  function EditAt(body: Bytes, host: Bytes, i: nat): (r: (Edit, nat))
    requires i < |body|
    ensures i < r.1 <= |body|
  {
    if HostAt(body, host, i) then (Swap, i + |host|)
    else if UrlSlashAt(body, i) then (Prefixed, i + 1)
    else (Copy(body[i]), i + 1)
  }

  function Edits(body: Bytes, host: Bytes, i: nat): seq<Edit>
    requires i <= |body|
    decreases |body| - i
  {
    if i == |body| then []
    else
      var (e, next) := EditAt(body, host, i);
      [e] + Edits(body, host, next)
  }

  function Rendered(e: Edit, prefix: Bytes): Bytes {
    match e
    case Swap => prefix
    case Prefixed => prefix + [SLASH]
    case Copy(b) => [b]
  }

  function Render(edits: seq<Edit>, prefix: Bytes): Bytes {
    if edits == [] then [] else Rendered(edits[0], prefix) + Render(edits[1..], prefix)
  }

  /** The text an edit replaced. */
  function Original(e: Edit, host: Bytes): Bytes {
    match e
    case Swap => host
    case Prefixed => [SLASH]
    case Copy(b) => [b]
  }

  function Undo(edits: seq<Edit>, host: Bytes): Bytes {
    if edits == [] then [] else Original(edits[0], host) + Undo(edits[1..], host)
  }

  lemma RenderCons(e: Edit, rest: seq<Edit>, prefix: Bytes)
    ensures Render([e] + rest, prefix) == Rendered(e, prefix) + Render(rest, prefix)
  {
    assert ([e] + rest)[1..] == rest;
  }

  /** One more edit rendered onto what is already written. */
  lemma RenderNext(out: Bytes, e: Edit, rest: seq<Edit>, prefix: Bytes)
    ensures out + Render([e] + rest, prefix) == (out + Rendered(e, prefix)) + Render(rest, prefix)
  {
    RenderCons(e, rest, prefix);
  }

  /** What is written once the edits from `i` on follow what is already written. */
  ghost function Written(out: Bytes, body: Bytes, host: Bytes, prefix: Bytes, i: nat): Option<Bytes>
    requires i <= |body|
  {
    Some(out + Render(Edits(body, host, i), prefix))
  }

  lemma WriteNext(out: Bytes, body: Bytes, host: Bytes, prefix: Bytes, i: nat, next: nat, e: Edit)
    requires i <= |body| && next <= |body| && Edits(body, host, i) == [e] + Edits(body, host, next)
    ensures Written(out + Rendered(e, prefix), body, host, prefix, next) == Written(out, body, host, prefix, i)
  {
    RenderNext(out, e, Edits(body, host, next), prefix);
  }

  lemma NothingLeftToWrite(out: Bytes, body: Bytes, host: Bytes, prefix: Bytes)
    ensures Written(out, body, host, prefix, |body|) == Some(out)
  {
    assert out + [] == out;
  }

  lemma WriteFromStart(body: Bytes, host: Bytes, prefix: Bytes)
    ensures Written([], body, host, prefix, 0) == Some(Render(Edits(body, host, 0), prefix))
  {
    assert [] + Render(Edits(body, host, 0), prefix) == Render(Edits(body, host, 0), prefix);
  }

  lemma EditsFromHere(body: Bytes, host: Bytes, i: nat, e: Edit, next: nat)
    requires i < |body| && EditAt(body, host, i) == (e, next)
    ensures Edits(body, host, i) == [e] + Edits(body, host, next)
  {
  }

  lemma RenderFromHere(body: Bytes, host: Bytes, prefix: Bytes, i: nat, e: Edit, next: nat)
    requires i < |body| && EditAt(body, host, i) == (e, next)
    ensures Render(Edits(body, host, i), prefix) == Rendered(e, prefix) + Render(Edits(body, host, next), prefix)
  {
    EditsFromHere(body, host, i, e, next);
    RenderCons(e, Edits(body, host, next), prefix);
  }

  /** The byte tests on either side of a slash. */
  method InUrlContext(body: Bytes, i: nat) returns (inside: bool)
    requires i < |body| && body[i] == SLASH
    ensures inside <==> UrlSlashAt(body, i)
    ensures inside <==> OpensUrl(body, i)
  {
    OpensUrlIff(body, i);
    var isDoubleSlash := i + 1 < |body| && body[i + 1] == SLASH;
    if isDoubleSlash {
      return false;
    }
    var prev := if i == 0 then 0 else body[i - 1];
    if prev == DOUBLE_QUOTE || prev == SINGLE_QUOTE {
      var beforeQuote := if i < 2 then 0 else body[i - 2];
      return beforeQuote == EQUALS || beforeQuote == PAREN || !IsWordByte(beforeQuote);
    }
    inside := prev == PAREN || prev == EQUALS;
  }

  method RewriteBody(body: Bytes, host: Bytes, prefix: Bytes) returns (out: Bytes)
    ensures out == Render(Edits(body, host, 0), prefix)
    ensures Hostless(body, host) ==> RewrittenInPlace(out, body, prefix)
  {
    out := [];
    var i := 0;
    while i < |body|
      invariant 0 <= i <= |body|
      invariant Written(out, body, host, prefix, i) == Written([], body, host, prefix, 0)
      decreases |body| - i
    {
      EditsFromHere(body, host, i, EditAt(body, host, i).0, EditAt(body, host, i).1);
      if host != [] && i + |host| <= |body| && body[i..i + |host|] == host {
        WriteNext(out, body, host, prefix, i, i + |host|, Swap);
        out := out + prefix;
        i := i + |host|;
        continue;
      }
      if body[i] == SLASH {
        var marked := InUrlContext(body, i);
        if marked {
          WriteNext(out, body, host, prefix, i, i + 1, Prefixed);
          out := out + (prefix + [SLASH]);
          i := i + 1;
          continue;
        }
      }
      WriteNext(out, body, host, prefix, i, i + 1, Copy(body[i]));
      out := out + [body[i]];
      i := i + 1;
    }
    NothingLeftToWrite(out, body, host, prefix);
    WriteFromStart(body, host, prefix);
    HostlessIsRewritten(body, host, prefix);
  }

  // ---------------------------------------------------------------------------
  // A body without the host, byte by byte
  // ---------------------------------------------------------------------------

  ghost predicate Hostless(body: Bytes, host: Bytes) {
    host == [] || forall from: nat, to: nat :: from <= to <= |body| ==> body[from..to] != host
  }

  /** Where the byte at `i` comes to stand, or its prefix when it gets one. */
  function Place(body: Bytes, prefix: Bytes, i: nat): nat
    requires i <= |body|
  {
    if i == 0 then 0 else Place(body, prefix, i - 1) + if OpensUrl(body, i - 1) then |prefix| + 1 else 1
  }

  /** The byte at `i` is written once, behind exactly one prefix if it opens a URL and behind none if not. */
  predicate StandsRewritten(out: Bytes, body: Bytes, prefix: Bytes, i: nat)
    requires i < |body|
  {
    var from, to := Place(body, prefix, i), Place(body, prefix, i + 1);
    to <= |out| && out[from..to] == (if OpensUrl(body, i) then prefix else []) + [body[i]]
  }

  /** Every byte of the body stands in its place, and nothing else is written. */
  ghost predicate RewrittenInPlace(out: Bytes, body: Bytes, prefix: Bytes) {
    && |out| == Place(body, prefix, |body|)
    && forall i: nat :: i < |body| ==> StandsRewritten(out, body, prefix, i)
  }

  function EditOf(body: Bytes, i: nat): Edit
    requires i < |body|
  {
    if OpensUrl(body, i) then Prefixed else Copy(body[i])
  }

  lemma HostlessEdits(body: Bytes, host: Bytes, i: nat)
    requires i < |body| && Hostless(body, host)
    ensures Edits(body, host, i) ==
            [EditOf(body, i)] + Edits(body, host, i + 1)
  {
    OpensUrlIff(body, i);
  }

  lemma {:induction false} RewrittenLength(body: Bytes, host: Bytes, prefix: Bytes, i: nat)
    requires i <= |body| && Hostless(body, host)
    ensures |Render(Edits(body, host, i), prefix)| == Place(body, prefix, |body|) - Place(body, prefix, i)
    decreases |body| - i
  {
    if i < |body| {
      RewrittenLength(body, host, prefix, i + 1);
      HostlessEdits(body, host, i);
      RenderCons(EditOf(body, i), Edits(body, host, i + 1), prefix);
    }
  }

  lemma Behind(written: Bytes, piece: Bytes, rest: Bytes)
    ensures (written + piece + rest)[|written|..|written| + |piece|] == piece
  {
  }

  /** What is written before the byte at `i` ends where that byte's place begins. */
  lemma {:induction false} WrittenUpTo(body: Bytes, host: Bytes, prefix: Bytes, i: nat) returns (written: Bytes)
    requires i <= |body| && Hostless(body, host)
    ensures Written(written, body, host, prefix, i) == Written([], body, host, prefix, 0)
    ensures |written| == Place(body, prefix, i)
  {
    written := [];
    if i > 0 {
      var before := WrittenUpTo(body, host, prefix, i - 1);
      HostlessEdits(body, host, i - 1);
      WriteNext(before, body, host, prefix, i - 1, i, EditOf(body, i - 1));
      written := before + Rendered(EditOf(body, i - 1), prefix);
    }
  }

  /** In a body without the host a slash gets one prefix exactly when it opens a URL; nothing else is touched. */
  lemma SlashGetsPrefixIff(body: Bytes, host: Bytes, prefix: Bytes, i: nat)
    requires i < |body| && Hostless(body, host)
    ensures StandsRewritten(Render(Edits(body, host, 0), prefix), body, prefix, i)
  {
    var written := WrittenUpTo(body, host, prefix, i);
    var piece := Rendered(EditOf(body, i), prefix);
    HostlessEdits(body, host, i);
    WriteNext(written, body, host, prefix, i, i + 1, EditOf(body, i));
    WriteFromStart(body, host, prefix);
    Behind(written, piece, Render(Edits(body, host, i + 1), prefix));
  }

  lemma HostlessIsRewritten(body: Bytes, host: Bytes, prefix: Bytes)
    ensures Hostless(body, host) ==> RewrittenInPlace(Render(Edits(body, host, 0), prefix), body, prefix)
  {
    if Hostless(body, host) {
      RewrittenLength(body, host, prefix, 0);
      forall i: nat | i < |body| ensures StandsRewritten(Render(Edits(body, host, 0), prefix), body, prefix, i) {
        SlashGetsPrefixIff(body, host, prefix, i);
      }
    }
  }

  lemma UndoCons(e: Edit, rest: seq<Edit>, host: Bytes)
    ensures Undo([e] + rest, host) == Original(e, host) + Undo(rest, host)
  {
    assert ([e] + rest)[1..] == rest;
  }

  lemma CutAt(body: Bytes, i: nat, next: nat)
    requires i <= next <= |body|
    ensures body[i..next] + body[next..] == body[i..]
  {
  }

  lemma EditAtReplaces(body: Bytes, host: Bytes, i: nat)
    requires i < |body|
    ensures var (e, next) := EditAt(body, host, i); Original(e, host) == body[i..next]
  {
  }

  lemma UndoStep(body: Bytes, host: Bytes, i: nat, next: nat, e: Edit, rest: seq<Edit>)
    requires i <= next <= |body| && Original(e, host) == body[i..next] && Undo(rest, host) == body[next..]
    ensures Undo([e] + rest, host) == body[i..]
  {
    UndoCons(e, rest, host);
    CutAt(body, i, next);
  }

  /** Undoing the marked edits gives back the input, byte for byte. */
  lemma {:induction false} UndoGivesBackInput(body: Bytes, host: Bytes, i: nat)
    requires i <= |body|
    ensures Undo(Edits(body, host, i), host) == body[i..]
    decreases |body| - i
  {
    if i < |body| {
      var (e, next) := EditAt(body, host, i);
      EditAtReplaces(body, host, i);
      UndoGivesBackInput(body, host, next);
      UndoStep(body, host, i, next, e, Edits(body, host, next));
      EditsFromHere(body, host, i, e, next);
    }
  }

  // ---------------------------------------------------------------------------
  // Which positions are edited
  // ---------------------------------------------------------------------------

  /**
   The chosen host occurrences, left to right: disjoint, and leaving out only occurrences that
   start inside a chosen one.
   */
  ghost predicate LeftmostMatches(body: Bytes, host: Bytes, starts: set<nat>) {
    && (forall p :: p in starts ==> HostAt(body, host, p))
    && (forall p, q :: p in starts && q in starts && p < q ==> p + |host| <= q)
    && (forall q: nat :: HostAt(body, host, q) && q !in starts ==> exists p :: p in starts && p < q < p + |host|)
  }

  ghost predicate Covered(host: Bytes, starts: set<nat>, i: nat) {
    exists p :: p in starts && p <= i < p + |host|
  }

  /** Only one choice of host occurrences is leftmost. */
  lemma LeftmostMatchesUnique(body: Bytes, host: Bytes, a: set<nat>, b: set<nat>)
    requires LeftmostMatches(body, host, a) && LeftmostMatches(body, host, b)
    ensures a == b
  {
    forall p ensures p in a <==> p in b { LeftmostAgree(body, host, a, b, p); }
  }

  lemma {:induction false} LeftmostAgree(body: Bytes, host: Bytes, a: set<nat>, b: set<nat>, p: nat)
    requires LeftmostMatches(body, host, a) && LeftmostMatches(body, host, b)
    ensures p in a <==> p in b
    decreases p
  {
    if p in a && p !in b {
      var q :| q in b && q < p < q + |host|;
      LeftmostAgree(body, host, a, b, q);
    } else if p in b && p !in a {
      var q :| q in a && q < p < q + |host|;
      LeftmostAgree(body, host, a, b, q);
    }
  }

  /** The start positions of the swaps the scan makes from `i` on. */
  function SwapStarts(body: Bytes, host: Bytes, i: nat): set<nat>
    requires i <= |body|
    decreases |body| - i
  {
    if i == |body| then {}
    else if HostAt(body, host, i) then {i} + SwapStarts(body, host, i + |host|)
    else SwapStarts(body, host, i + 1)
  }

  lemma {:induction false} SwapStartsAreLeftmost(body: Bytes, host: Bytes, i: nat)
    requires i <= |body|
    ensures var s := SwapStarts(body, host, i);
            && (forall p :: p in s ==> i <= p && HostAt(body, host, p))
            && (forall p, q :: p in s && q in s && p < q ==> p + |host| <= q)
            && (forall q: nat :: i <= q && HostAt(body, host, q) && q !in s ==>
                  exists p :: p in s && p < q < p + |host|)
    decreases |body| - i
  {
    if i < |body| {
      if HostAt(body, host, i) {
        SwapStartsAreLeftmost(body, host, i + |host|);
        assert i in SwapStarts(body, host, i);
      } else {
        SwapStartsAreLeftmost(body, host, i + 1);
      }
    }
  }

  /** The edits from `i` on are decided position by position. */
  ghost predicate Declared(body: Bytes, host: Bytes, starts: set<nat>, i: nat, edits: seq<Edit>)
    requires i <= |body|
    decreases |edits|
  {
    if edits == [] then i == |body|
    else
      && i < |body|
      && (edits[0].Swap? <==> i in starts)
      && (edits[0].Prefixed? <==> i !in starts && OpensUrl(body, i))
      && (edits[0].Copy? ==> edits[0].b == body[i])
      && var next := i + |Original(edits[0], host)|;
         i < next <= |body| && (!edits[0].Swap? ==> !Covered(host, starts, i))
         && Declared(body, host, starts, next, edits[1..])
  }

  lemma DeclaredNext(body: Bytes, host: Bytes, starts: set<nat>, i: nat, next: nat, e: Edit, rest: seq<Edit>)
    requires i < |body| && i < next <= |body| && next == i + |Original(e, host)|
    requires (e.Swap? <==> i in starts) && (e.Prefixed? <==> i !in starts && OpensUrl(body, i))
    requires e.Copy? ==> e.b == body[i]
    requires !e.Swap? ==> !Covered(host, starts, i)
    requires Declared(body, host, starts, next, rest)
    ensures Declared(body, host, starts, i, [e] + rest)
  {
    assert ([e] + rest)[0] == e && ([e] + rest)[1..] == rest;
  }

  /** No chosen occurrence that began before `i` reaches past it. */
  ghost predicate PastStarts(host: Bytes, starts: set<nat>, i: nat) {
    forall p :: p in starts && p < i ==> p + |host| <= i
  }

  lemma StartIffHost(body: Bytes, host: Bytes, starts: set<nat>, i: nat)
    requires LeftmostMatches(body, host, starts) && PastStarts(host, starts, i)
    ensures i in starts <==> HostAt(body, host, i)
    ensures i !in starts ==> !Covered(host, starts, i) && PastStarts(host, starts, i + 1)
    ensures i in starts ==> PastStarts(host, starts, i + |host|)
  {
  }

  lemma EditAtIsDeclared(body: Bytes, host: Bytes, starts: set<nat>, i: nat, rest: seq<Edit>)
    requires i < |body| && (i in starts <==> HostAt(body, host, i)) && (i !in starts ==> !Covered(host, starts, i))
    requires Declared(body, host, starts, EditAt(body, host, i).1, rest)
    ensures Declared(body, host, starts, i, [EditAt(body, host, i).0] + rest)
  {
    var (e, next) := EditAt(body, host, i);
    OpensUrlIff(body, i);
    DeclaredNext(body, host, starts, i, next, e, rest);
  }

  lemma {:induction false} ScanIsDeclared(body: Bytes, host: Bytes, starts: set<nat>, i: nat)
    requires i <= |body| && LeftmostMatches(body, host, starts) && PastStarts(host, starts, i)
    ensures Declared(body, host, starts, i, Edits(body, host, i))
    decreases |body| - i
  {
    if i < |body| {
      var (e, next) := EditAt(body, host, i);
      StartIffHost(body, host, starts, i);
      ScanIsDeclared(body, host, starts, next);
      EditAtIsDeclared(body, host, starts, i, Edits(body, host, next));
      EditsFromHere(body, host, i, e, next);
    }
  }

  /**
   The one-pass scan equals its declarative reading: hosts are swapped at the leftmost disjoint
   occurrences; outside them a slash gets one prefix exactly when it is a single slash in URL
   context; every other byte is copied in order.
   */
  lemma ScanMatchesDeclaration(body: Bytes, host: Bytes)
    ensures LeftmostMatches(body, host, SwapStarts(body, host, 0))
    ensures Declared(body, host, SwapStarts(body, host, 0), 0, Edits(body, host, 0))
  {
    SwapStartsAreLeftmost(body, host, 0);
    ScanIsDeclared(body, host, SwapStarts(body, host, 0), 0);
  }

  /** A protocol-relative reference keeps both of its slashes unmarked. */
  lemma DoubleSlashIsLeftAlone(body: Bytes, i: nat)
    requires i + 1 < |body| && body[i] == SLASH && body[i + 1] == SLASH
    ensures !UrlSlashAt(body, i) && !UrlSlashAt(body, i + 1)
  {
    assert Before(body, i + 1) == SLASH;
  }
}
