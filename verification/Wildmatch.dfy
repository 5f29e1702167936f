/** Matching a path against a pattern whose only wildcard is `*`: the greedy scan is exact. */
module Wildmatch {
  import opened Wrappers

  /**
   What a match is: `*` stands for any run of characters, `/` included, every other character for
   itself, and the whole path is consumed.
   */
  predicate Matches(pattern: string, path: string)
    decreases |pattern|
  {
    if pattern == "" then path == ""
    else if pattern[0] == '*' then exists k :: 0 <= k <= |path| && Matches(pattern[1..], path[k..])
    else path != "" && path[0] == pattern[0] && Matches(pattern[1..], path[1..])
  }

  /** The pattern uses a metacharacter that the scan does not reproduce. */
  predicate Unsupported(pattern: string) {
    '?' in pattern || '[' in pattern || '\\' in pattern || ":(" <= pattern
  }

  // ----- How matching treats literals and stars -----

  lemma {:induction false} LiteralThen(literal: string, rest: string, path: string)
    requires '*' !in literal
    ensures Matches(literal + rest, path) <==> literal <= path && Matches(rest, path[|literal|..])
    decreases |literal|
  {
    if literal == "" {
      assert literal + rest == rest && path[0..] == path;
    } else {
      assert (literal + rest)[1..] == literal[1..] + rest;
      if path != "" && path[0] == literal[0] {
        LiteralThen(literal[1..], rest, path[1..]);
        assert literal <= path <==> literal[1..] <= path[1..];
        assert literal <= path ==> path[1..][|literal| - 1..] == path[|literal|..];
      }
    }
  }

  /** A pattern that starts with a star matches whatever has a matching suffix. */
  lemma StarAbsorbs(pattern: string, path: string, k: nat)
    requires pattern != "" && pattern[0] == '*' && k <= |path|
    ensures Matches(pattern, path[k..]) ==> Matches(pattern, path)
  {
    if Matches(pattern, path[k..]) {
      var m :| 0 <= m <= |path[k..]| && Matches(pattern[1..], path[k..][m..]);
      assert path[k..][m..] == path[k + m..];
    }
  }

  predicate Occurs(literal: string, path: string, k: int) {
    0 <= k && k + |literal| <= |path| && path[k..k + |literal|] == literal
  }

  /** `literal` occurs at `k`, and `rest` matches what follows it. */
  predicate OccursThen(literal: string, rest: string, path: string, k: int) {
    Occurs(literal, path, k) && Matches(rest, path[k + |literal|..])
  }

  lemma LeadingStarUnfolds(pattern: string, path: string)
    requires pattern != "" && pattern[0] == '*'
    ensures Matches(pattern, path) <==> exists k :: 0 <= k <= |path| && Matches(pattern[1..], path[k..])
  {
  }

  lemma StarMatchesAll(path: string)
    ensures Matches("*", path)
  {
    assert path[|path|..] == "" && "*"[1..] == "";
    assert Matches("", path[|path|..]);
  }

  lemma StarLiteralThen(literal: string, rest: string, path: string)
    requires '*' !in literal
    ensures Matches("*" + literal + rest, path) <==> exists k :: OccursThen(literal, rest, path, k)
  {
    var tail := literal + rest;
    assert "*" + literal + rest == ['*'] + tail;
    assert (['*'] + tail)[1..] == tail;
    forall k | 0 <= k <= |path| ensures Matches(tail, path[k..]) <==> OccursThen(literal, rest, path, k) {
      LiteralThen(literal, rest, path[k..]);
      if k + |literal| <= |path| {
        assert path[k..][..|literal|] == path[k..k + |literal|];
        assert path[k..][|literal|..] == path[k + |literal|..];
      }
    }
  }

  // ----- Pieces between the stars -----

  /** The pieces of a pattern between its stars. */
  function Split(pattern: string): (pieces: seq<string>)
    ensures |pieces| >= 1 && (|pieces| == 1 <==> '*' !in pattern)
    ensures forall p :: p in pieces ==> '*' !in p
  {
    if pattern == "" then [""]
    else
      var rest := Split(pattern[1..]);
      if pattern[0] == '*' then [""] + rest else [[pattern[0]] + rest[0]] + rest[1..]
  }

  function NonEmpty(pieces: seq<string>): (literals: seq<string>)
    ensures forall p :: p in literals ==> p in pieces && p != ""
  {
    if pieces == [] then []
    else (if pieces[0] == "" then [] else [pieces[0]]) + NonEmpty(pieces[1..])
  }

  predicate EndsWithStar(pattern: string) {
    pattern != "" && pattern[|pattern| - 1] == '*'
  }

  /** One star before each literal, and one at the end if `starred`. */
  function Stars(literals: seq<string>, starred: bool): string {
    if literals == [] then (if starred then "*" else "") else "*" + literals[0] + Stars(literals[1..], starred)
  }

  lemma StarsStartWithStar(literals: seq<string>, starred: bool)
    requires literals != [] || starred
    ensures Stars(literals, starred) != "" && Stars(literals, starred)[0] == '*'
  {
  }

  lemma SplitStep(pattern: string)
    requires pattern != ""
    ensures var rest := Split(pattern[1..]);
            Split(pattern)[1..] == if pattern[0] == '*' then rest else rest[1..]
  {
  }

  lemma NonEmptyStep(pieces: seq<string>)
    requires pieces != [] && NonEmpty(pieces) == []
    ensures pieces[0] == "" && NonEmpty(pieces[1..]) == []
  {
  }

  /** A pattern without literals after its first piece ends with a star, if it has one. */
  lemma {:induction false} NoLiteralsMeansStar(pattern: string)
    requires '*' in pattern && NonEmpty(Split(pattern)[1..]) == []
    ensures EndsWithStar(pattern)
    decreases |pattern|
  {
    hide Split, NonEmpty;
    SplitStep(pattern);
    if pattern[0] != '*' {
      NoLiteralsMeansStar(pattern[1..]);
    } else if |pattern| > 1 {
      NonEmptyStep(Split(pattern[1..]));
      EmptyFirstPiece(pattern[1..]);
      NoLiteralsMeansStar(pattern[1..]);
    }
  }

  lemma EmptyFirstPiece(pattern: string)
    requires pattern != "" && Split(pattern)[0] == ""
    ensures pattern[0] == '*'
  {
  }

  /** The form the scan works on: a first piece, then stars before the non-empty literals. */
  predicate PiecesMatch(pattern: string, path: string) {
    var pieces := Split(pattern);
    && pieces[0] <= path
    && if |pieces| == 1 then path == pieces[0]
       else Matches(Stars(NonEmpty(pieces[1..]), EndsWithStar(pattern)), path[|pieces[0]|..])
  }

  lemma {:induction false} PiecesAreExact(pattern: string, path: string)
    ensures Matches(pattern, path) <==> PiecesMatch(pattern, path)
    decreases |pattern|
  {
    if pattern == "" {
    } else if pattern[0] == '*' {
      LeadingStar(pattern, path);
    } else {
      var tail := pattern[1..];
      assert Split(pattern)[1..] == Split(tail)[1..];
      assert tail != "" ==> EndsWithStar(pattern) == EndsWithStar(tail);
      if path != "" && path[0] == pattern[0] {
        PiecesAreExact(tail, path[1..]);
        LeadingLiteral(pattern, path);
      }
    }
  }

  lemma LeadingLiteral(pattern: string, path: string)
    requires pattern != "" && pattern[0] != '*' && path != "" && path[0] == pattern[0]
    ensures PiecesMatch(pattern, path) <==> PiecesMatch(pattern[1..], path[1..])
  {
    hide Matches, NonEmpty, Stars;
    var tail := pattern[1..];
    var first := Split(tail)[0];
    assert Split(pattern)[0] == [pattern[0]] + first;
    assert Split(pattern)[1..] == Split(tail)[1..];
    assert [pattern[0]] + first <= path <==> first <= path[1..];
    if first <= path[1..] {
      assert path[1..][|first|..] == path[1 + |first|..];
      assert path == [path[0]] + path[1..];
    }
    if tail == "" {
      assert |Split(tail)| == 1;
    }
  }

  lemma LeadingStar(pattern: string, path: string)
    requires pattern != "" && pattern[0] == '*'
    ensures Matches(pattern, path) <==> PiecesMatch(pattern, path)
    decreases |pattern|, 0
  {
    var tail := pattern[1..];
    var pieces := Split(tail);
    assert Split(pattern) == [""] + pieces;
    assert tail != "" ==> EndsWithStar(pattern) == EndsWithStar(tail);
    hide Matches, Split, NonEmpty, Stars;
    LeadingStarUnfolds(pattern, path);
    forall k | 0 <= k <= |path| ensures Matches(tail, path[k..]) <==> PiecesMatch(tail, path[k..]) {
      PiecesAreExact(tail, path[k..]);
    }
    assert path[0..] == path;
    assert Split(pattern)[1..] == pieces;
    hide PiecesMatch;
    LeadingEmptyPiece(pattern, path);
    if tail == "" {
      assert pattern == "*";
      LoneStar(path);
    } else if pieces[0] == "" {
      StarsBehindStar(tail, path);
    } else {
      StarBeforePiece(tail, path);
    }
  }

  lemma LeadingEmptyPiece(pattern: string, path: string)
    requires pattern != "" && pattern[0] == '*'
    ensures PiecesMatch(pattern, path)
            <==> Matches(Stars(NonEmpty(Split(pattern[1..])), EndsWithStar(pattern)), path)
  {
    hide Matches, NonEmpty, Stars;
    assert Split(pattern)[1..] == Split(pattern[1..]);
    assert path[0..] == path;
  }

  lemma LoneStar(path: string)
    ensures Matches("*", path) && PiecesMatch("*", path)
  {
    StarMatchesAll(path);
    assert "*"[1..] == "" && NonEmpty([""]) == [] && [""][1..] == [];
    assert path[0..] == path;
  }

  lemma StarsBehindStar(tail: string, path: string)
    requires tail != "" && Split(tail)[0] == ""
    ensures var form := Stars(NonEmpty(Split(tail)), EndsWithStar(tail));
            Matches(form, path) <==> exists k :: 0 <= k <= |path| && PiecesMatch(tail, path[k..])
  {
    EmptyFirstPiece(tail);
    assert NonEmpty(Split(tail)) == NonEmpty(Split(tail)[1..]);
    var form := Stars(NonEmpty(Split(tail)), EndsWithStar(tail));
    if NonEmpty(Split(tail)[1..]) == [] {
      NoLiteralsMeansStar(tail);
    }
    StarsStartWithStar(NonEmpty(Split(tail)), EndsWithStar(tail));
    forall k | 0 <= k <= |path|
      ensures PiecesMatch(tail, path[k..]) <==> Matches(form, path[k..])
      ensures Matches(form, path[k..]) ==> Matches(form, path)
    {
      assert path[k..][0..] == path[k..];
      StarAbsorbs(form, path, k);
    }
    assert path[0..] == path;
  }

  lemma PieceAt(tail: string, path: string, k: nat)
    requires k <= |path|
    ensures var pieces := Split(tail);
            PiecesMatch(tail, path[k..])
            <==> OccursThen(pieces[0], Stars(NonEmpty(pieces[1..]), EndsWithStar(tail)), path, k)
  {
    var pieces := Split(tail);
    var first := pieces[0];
    assert Matches("", "");
    assert forall t | t != "" :: !Matches("", t);
    if |pieces| == 1 {
      assert pieces[1..] == [];
      assert Stars([], false) == "";
    }
    hide Matches, Split, NonEmpty, Stars;
    if k + |first| <= |path| {
      assert path[k..][..|first|] == path[k..k + |first|];
      assert path[k..][|first|..] == path[k + |first|..];
    }
  }

  lemma StarBeforePiece(tail: string, path: string)
    requires Split(tail)[0] != ""
    ensures var form := Stars(NonEmpty(Split(tail)), EndsWithStar(tail));
            Matches(form, path) <==> exists k :: 0 <= k <= |path| && PiecesMatch(tail, path[k..])
  {
    var pieces := Split(tail);
    var first, rest := pieces[0], Stars(NonEmpty(pieces[1..]), EndsWithStar(tail));
    assert NonEmpty(pieces) == [first] + NonEmpty(pieces[1..]);
    assert ([first] + NonEmpty(pieces[1..]))[1..] == NonEmpty(pieces[1..]);
    assert Stars(NonEmpty(pieces), EndsWithStar(tail)) == "*" + first + rest;
    assert first in pieces;
    hide Matches, Split, NonEmpty, Stars, PiecesMatch, OccursThen;
    StarLiteralThen(first, rest, path);
    forall k | 0 <= k <= |path| ensures PiecesMatch(tail, path[k..]) <==> OccursThen(first, rest, path, k) {
      PieceAt(tail, path, k);
    }
    if k :| OccursThen(first, rest, path, k) {
      OccursInside(first, rest, path, k);
    }
  }

  lemma OccursInside(literal: string, rest: string, path: string, k: int)
    requires OccursThen(literal, rest, path, k)
    ensures 0 <= k <= |path|
  {
  }

  // ----- The scan -----

  /** The earliest occurrence of a piece. */
  method Find(text: string, piece: string) returns (r: Option<nat>)
    ensures r.Some? ==> Occurs(piece, text, r.value) && forall k :: 0 <= k < r.value ==> !Occurs(piece, text, k)
    ensures r.None? ==> forall k :: !Occurs(piece, text, k)
  {
    var k := 0;
    while k + |piece| <= |text|
      invariant forall m :: 0 <= m < k ==> !Occurs(piece, text, m)
    {
      if text[k..k + |piece|] == piece {
        return Some(k);
      }
      k := k + 1;
    }
    return None;
  }

  /** Taking the earliest occurrence of a middle literal never loses a match. */
  lemma EarliestIsEnough(literal: string, rest: string, text: string, found: nat)
    requires '*' !in literal && rest != "" && rest[0] == '*'
    requires Occurs(literal, text, found) && forall k :: 0 <= k < found ==> !Occurs(literal, text, k)
    ensures Matches("*" + literal + rest, text) <==> Matches(rest, text[found + |literal|..])
  {
    hide Matches;
    StarLiteralThen(literal, rest, text);
    if Matches(rest, text[found + |literal|..]) {
      assert OccursThen(literal, rest, text, found);
    }
    if k :| OccursThen(literal, rest, text, k) {
      assert k >= found;
      var after := text[found + |literal|..];
      assert after[k - found..] == text[k + |literal|..];
      StarAbsorbs(rest, after, k - found);
    }
  }

  lemma NoOccurrence(literal: string, rest: string, text: string)
    requires '*' !in literal && forall k :: !Occurs(literal, text, k)
    ensures !Matches("*" + literal + rest, text)
  {
    hide Matches;
    StarLiteralThen(literal, rest, text);
  }

  /** The last literal: anywhere before a final star, otherwise at the very end. */
  lemma LastLiteral(literal: string, starred: bool, text: string)
    requires '*' !in literal
    ensures Matches(Stars([literal], starred), text)
            <==> if starred then exists k :: Occurs(literal, text, k) else Occurs(literal, text, |text| - |literal|)
  {
    var rest := Stars([], starred);
    assert Stars([literal], starred) == "*" + literal + rest;
    assert forall t | t != "" :: !Matches("", t);
    assert Matches("", text[|text|..]);
    hide Matches, Stars;
    StarLiteralThen(literal, rest, text);
    forall k | Occurs(literal, text, k)
      ensures OccursThen(literal, rest, text, k) <==> starred || k == |text| - |literal|
    {
      StarMatchesAll(text[k + |literal|..]);
    }
  }

  /** The greedy scan decides `Matches`, and refuses exactly the patterns with other metacharacters. */
  method WildmatchStar(pattern: string, path: string) returns (r: Result<bool, string>)
    ensures r.Failure? <==> Unsupported(pattern)
    ensures r.Success? ==> r.value == Matches(pattern, path)
  {
    hide Matches, Split, NonEmpty, Stars;
    if Unsupported(pattern) {
      return Failure("pathspec uses metacharacters beyond *");
    }
    PiecesAreExact(pattern, path);
    var pieces := Split(pattern);
    var first := pieces[0];
    if !(first <= path) {
      return Success(false);
    }
    var rest := path[|first|..];
    var literals := NonEmpty(pieces[1..]);
    var starred := EndsWithStar(pattern);
    if literals == [] {
      NoLiteralsLeft(pattern, rest);
      assert path == first + rest;
      return Success('*' in pattern || rest == "");
    }
    assert |pieces| > 1 by {
      LiteralsNeedPieces(pieces);
    }
    LiteralsHoldNoStar(pattern, literals);
    var i := 0;
    assert literals[0..] == literals;
    while i < |literals| - 1
      invariant 0 <= i < |literals|
      invariant Matches(pattern, path) <==> Matches(Stars(literals[i..], starred), rest)
    {
      var segment := literals[i];
      var found := Find(rest, segment);
      StarsStep(literals, starred, i);
      if found.None? {
        NoOccurrence(segment, Stars(literals[i + 1..], starred), rest);
        return Success(false);
      }
      StarsStartWithStar(literals[i + 1..], starred);
      EarliestIsEnough(segment, Stars(literals[i + 1..], starred), rest, found.value);
      rest := rest[found.value + |segment|..];
      i := i + 1;
    }
    var last := literals[i];
    assert literals[i..] == [last];
    LastLiteral(last, starred, rest);
    if starred {
      var found := Find(rest, last);
      return Success(found.Some?);
    }
    assert |last| <= |rest| ==> rest[|rest| - |last|..] == rest[|rest| - |last|..|rest| - |last| + |last|];
    return Success(|last| <= |rest| && rest[|rest| - |last|..] == last);
  }

  lemma StarsStep(literals: seq<string>, starred: bool, i: nat)
    requires i < |literals|
    ensures Stars(literals[i..], starred) == "*" + literals[i] + Stars(literals[i + 1..], starred)
  {
    assert literals[i..][1..] == literals[i + 1..];
  }

  lemma LiteralsHoldNoStar(pattern: string, literals: seq<string>)
    requires literals == NonEmpty(Split(pattern)[1..])
    ensures forall k :: 0 <= k < |literals| ==> '*' !in literals[k]
  {
    hide Split, NonEmpty;
    var pieces := Split(pattern);
    forall k | 0 <= k < |literals| ensures '*' !in literals[k] {
      assert literals[k] in literals && literals[k] in pieces[1..];
    }
  }

  lemma LiteralsNeedPieces(pieces: seq<string>)
    requires |pieces| >= 1 && NonEmpty(pieces[1..]) != []
    ensures |pieces| > 1
  {
  }

  lemma NoLiteralsLeft(pattern: string, rest: string)
    requires NonEmpty(Split(pattern)[1..]) == []
    ensures '*' in pattern ==> Matches(Stars(NonEmpty(Split(pattern)[1..]), EndsWithStar(pattern)), rest)
  {
    if '*' in pattern {
      NoLiteralsMeansStar(pattern);
      StarMatchesAll(rest);
    }
  }
}
