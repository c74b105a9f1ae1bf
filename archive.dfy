/** Splitting a multi-game PGN archive into games (Database_Game_Review.py,
    `extract_games_from_pgn`): `re.split` with the zero-width pattern
    `(?=\[Event\s+".*?"\])`, then `strip()` of every piece, dropping blank ones. */
module Archive {
  import opened Text
  import opened Scans

  /** The literal start of the Event tag of the Seven Tag Roster (PGN standard, section 8.1.1). */
  const EventOpen: string := "[Event"

  /** The end of the run of whitespace starting at `i` (what a greedy `\s*` consumes). */
  function SkipSpaces(s: string, i: nat): (k: nat)
    requires i <= |s|
    ensures i <= k <= |s|
    decreases |s| - i
  {
    if i < |s| && IsSpace(s[i]) then SkipSpaces(s, i + 1) else i
  }

  /** The run is all whitespace, and it is maximal: what follows it is not whitespace. */
  lemma {:induction false} SkipSpacesSound(s: string, i: nat)
    requires i <= |s|
    ensures forall j :: i <= j < SkipSpaces(s, i) ==> IsSpace(s[j])
    ensures SkipSpaces(s, i) == |s| || !IsSpace(s[SkipSpaces(s, i)])
    decreases |s| - i
  {
    if i < |s| && IsSpace(s[i]) {
      SkipSpacesSound(s, i + 1);
    }
  }

  /** Whether `.*?"\]` can match from `i`: a `"]` follows before any newline. */
  function ClosesOnLine(s: string, i: nat): bool
    requires i <= |s|
    decreases |s| - i
  {
    if i + 2 > |s| then false
    else if s[i] == '"' && s[i + 1] == ']' then true
    else if s[i] == '\n' then false
    else ClosesOnLine(s, i + 1)
  }

  /** Whether the lookahead `(?=\[Event\s+".*?"\])` succeeds at position `p`. Nothing
      anchors it to the start of a line. */
  function HeaderAt(s: string, p: nat): bool
    requires p <= |s|
  {
    StartsWith(s[p..], EventOpen) &&
    var k := SkipSpaces(s, p + |EventOpen|);
    p + |EventOpen| < k < |s| && s[k] == '"' && ClosesOnLine(s, k + 1)
  }

  /** Reference reading of the pattern, one regular-expression element at a time. */
  ghost predicate SpacesThenQuote(s: string, a: int, k: int) {
    0 <= a < k < |s| && s[k] == '"' && forall j :: a <= j < k ==> IsSpace(s[j])
  }

  ghost predicate LineClose(s: string, i: int, m: int) {
    0 <= i <= m && m + 2 <= |s| && s[m] == '"' && s[m + 1] == ']'
    && forall j :: i <= j < m ==> s[j] != '\n'
  }

  /** `.*?"\]` matches from `i`, ending with the `"]` at some `m`. */
  ghost predicate ClosesSomewhere(s: string, i: int) {
    exists m :: LineClose(s, i, m)
  }

  /** After the `[Event` at `p`, whitespace up to an opening quote at `k`, closed on the same line. */
  ghost predicate QuotedAfter(s: string, p: int, k: int) {
    SpacesThenQuote(s, p + |EventOpen|, k) && ClosesSomewhere(s, k + 1)
  }

  /** `\[Event` then `\s+` then `"` then `.*?` (no newline) then `"\]`, starting at `p`. */
  ghost predicate EventHeaderMatch(s: string, p: int) {
    0 <= p && p + |EventOpen| <= |s| && s[p..p + |EventOpen|] == EventOpen
    && exists k :: QuotedAfter(s, p, k)
  }

  lemma {:induction false} ClosesOnLineIff(s: string, i: nat)
    requires i <= |s|
    ensures ClosesOnLine(s, i) <==> ClosesSomewhere(s, i)
    decreases |s| - i
  {
    if i + 2 > |s| {
    } else if s[i] == '"' && s[i + 1] == ']' {
      assert LineClose(s, i, i);
    } else if s[i] == '\n' {
    } else {
      ClosesOnLineIff(s, i + 1);
      if ClosesSomewhere(s, i) {
        var m :| LineClose(s, i, m);
        assert m != i;
        assert LineClose(s, i + 1, m);
      }
      if ClosesSomewhere(s, i + 1) {
        var m :| LineClose(s, i + 1, m);
        assert LineClose(s, i, m);
      }
    }
  }

  /** The scanning test and the element-by-element reading of the pattern agree. */
  lemma HeaderAtIff(s: string, p: nat)
    requires p <= |s|
    ensures HeaderAt(s, p) <==> EventHeaderMatch(s, p)
  {
    var a := p + |EventOpen|;
    if p + |EventOpen| <= |s| {
      assert s[p..][..|EventOpen|] == s[p..a];
      var k := SkipSpaces(s, a);
      SkipSpacesSound(s, a);
      if k < |s| {
        ClosesOnLineIff(s, k + 1);
      }
      if EventHeaderMatch(s, p) {
        var k' :| QuotedAfter(s, p, k');
        assert k == k';
      }
      if HeaderAt(s, p) {
        assert QuotedAfter(s, p, k);
      }
    }
  }

  /** The positions from `i` on where the split pattern matches, in increasing order:
      exactly the positions `re.split` cuts at. */
  function HeaderPositions(s: string, i: nat): seq<nat>
    requires i <= |s|
    decreases |s| - i
  {
    if i == |s| then []
    else if HeaderAt(s, i) then [i] + HeaderPositions(s, i + 1)
    else HeaderPositions(s, i + 1)
  }

  /** Every split point from `i` on is a position where the pattern matches, and they
      come in strictly increasing order. */
  lemma {:induction false} HeaderPositionsSound(s: string, i: nat)
    requires i <= |s|
    ensures forall k :: 0 <= k < |HeaderPositions(s, i)| ==>
      i <= HeaderPositions(s, i)[k] < |s| && HeaderAt(s, HeaderPositions(s, i)[k])
    ensures forall k, l :: 0 <= k < l < |HeaderPositions(s, i)| ==>
      HeaderPositions(s, i)[k] < HeaderPositions(s, i)[l]
    decreases |s| - i
  {
    if i < |s| {
      HeaderPositionsSound(s, i + 1);
      var rest := HeaderPositions(s, i + 1);
      if HeaderAt(s, i) {
        assert HeaderPositions(s, i) == [i] + rest;
      } else {
        assert HeaderPositions(s, i) == rest;
      }
    }
  }

  /** Where the pattern never matches, there is no cut point. */
  lemma {:induction false} HeaderPositionsNone(s: string, i: nat)
    requires i <= |s| && forall p :: i <= p < |s| ==> !HeaderAt(s, p)
    ensures HeaderPositions(s, i) == []
    decreases |s| - i
  {
    if i < |s| {
      HeaderPositionsNone(s, i + 1);
    }
  }

  /** No match is missed: every position from `i` on where the pattern matches is a
      cut point. */
  lemma {:induction false} HeaderPositionsComplete(s: string, i: nat)
    requires i <= |s|
    ensures forall p :: i <= p < |s| && HeaderAt(s, p) ==> p in HeaderPositions(s, i)
    decreases |s| - i
  {
    if i < |s| {
      HeaderPositionsComplete(s, i + 1);
    }
  }

  predicate Ascending(lo: nat, ps: seq<nat>, hi: nat) {
    && (forall k :: 0 <= k < |ps| ==> lo <= ps[k] <= hi)
    && (forall k, l :: 0 <= k < l < |ps| ==> ps[k] <= ps[l])
  }

  /** The piece before the `k`-th cut point (the last piece runs to the end). */
  function PieceEnd(s: string, ps: seq<nat>, k: nat): nat {
    if k < |ps| then ps[k] else |s|
  }

  /** Cuts `s[lo..]` at each of the positions `ps`; a cut point belongs to the piece after it. */
  function Cut(s: string, lo: nat, ps: seq<nat>): (r: seq<string>)
    requires lo <= |s| && Ascending(lo, ps, |s|)
    ensures |r| == |ps| + 1
    decreases |ps|
  {
    if ps == [] then [s[lo..]] else [s[lo..ps[0]]] + Cut(s, ps[0], ps[1..])
  }

  /** Cutting at `k` ascending points gives `k + 1` pieces: the first runs from `lo` to
      the first point, each later one from its point to the next (the last to the end). */
  lemma {:induction false} CutPieces(s: string, lo: nat, ps: seq<nat>)
    requires lo <= |s| && Ascending(lo, ps, |s|)
    ensures Cut(s, lo, ps)[0] == s[lo..PieceEnd(s, ps, 0)]
    ensures forall k :: 1 <= k < |Cut(s, lo, ps)| ==>
      ps[k - 1] <= PieceEnd(s, ps, k) && Cut(s, lo, ps)[k] == s[ps[k - 1]..PieceEnd(s, ps, k)]
    decreases |ps|
  {
    if ps != [] {
      var rest := Cut(s, ps[0], ps[1..]);
      CutPieces(s, ps[0], ps[1..]);
      assert Cut(s, lo, ps) == [s[lo..ps[0]]] + rest;
      forall k | 1 <= k < |Cut(s, lo, ps)|
        ensures ps[k - 1] <= PieceEnd(s, ps, k) && Cut(s, lo, ps)[k] == s[ps[k - 1]..PieceEnd(s, ps, k)]
      {
        if k > 1 {
          assert ps[1..][k - 2] == ps[k - 1] && PieceEnd(s, ps[1..], k - 1) == PieceEnd(s, ps, k);
        }
      }
    }
  }

  function Concat(pieces: seq<string>): string {
    if pieces == [] then [] else pieces[0] + Concat(pieces[1..])
  }

  lemma {:induction false} CutConcat(s: string, lo: nat, ps: seq<nat>)
    requires lo <= |s| && Ascending(lo, ps, |s|)
    ensures Concat(Cut(s, lo, ps)) == s[lo..]
    decreases |ps|
  {
    if ps != [] {
      CutConcat(s, ps[0], ps[1..]);
      assert Cut(s, lo, ps)[1..] == Cut(s, ps[0], ps[1..]);
      assert s[lo..ps[0]] + s[ps[0]..] == s[lo..];
    }
  }

  /** The list `re.split(r'(?=\[Event\s+".*?"\])', content)` returns. */
  function Pieces(content: string): (pieces: seq<string>)
    ensures |pieces| == |HeaderPositions(content, 0)| + 1
  {
    HeaderPositionsSound(content, 0);
    Cut(content, 0, HeaderPositions(content, 0))
  }

  /** `[game.strip() for game in games if game.strip()]`. */
  function StripNonBlank(pieces: seq<string>): (games: seq<string>)
    ensures |games| <= |pieces|
  {
    if pieces == [] then []
    else
      var g := Strip(pieces[0]);
      (if g != [] then [g] else []) + StripNonBlank(pieces[1..])
  }

  /** Every game the comprehension keeps is non-empty and stripped. */
  lemma {:induction false} StripNonBlankGames(pieces: seq<string>)
    ensures forall g :: g in StripNonBlank(pieces) ==> g != [] && IsStripped(g)
    decreases |pieces|
  {
    if pieces != [] {
      var g := Strip(pieces[0]);
      StripStripped(pieces[0]);
      StripNonBlankGames(pieces[1..]);
      var head := if g != [] then [g] else [];
      assert StripNonBlank(pieces) == head + StripNonBlank(pieces[1..]);
      forall x | x in StripNonBlank(pieces)
        ensures x != [] && IsStripped(x)
      {
        if x !in head {
          assert x in StripNonBlank(pieces[1..]);
        }
      }
    }
  }

  /** `extract_games_from_pgn` on the text the file held. */
  function ExtractGames(content: string): seq<string> {
    StripNonBlank(Pieces(content))
  }

  /** Every extracted game is non-empty and stripped. */
  lemma ExtractGamesStripped(content: string)
    ensures forall g :: g in ExtractGames(content) ==> g != [] && IsStripped(g)
  {
    StripNonBlankGames(Pieces(content));
  }

  /** The pieces tile the archive: joined in order they give it back unchanged. */
  lemma PiecesConcat(content: string)
    ensures Concat(Pieces(content)) == content
  {
    HeaderPositionsSound(content, 0);
    CutConcat(content, 0, HeaderPositions(content, 0));
  }

  /** Every piece after the first starts at a split position and so with `[Event`;
      the first runs from the start of the archive to the first split position. */
  lemma PiecesStartAtHeaders(content: string)
    ensures var ps := HeaderPositions(content, 0);
      PieceEnd(content, ps, 0) <= |content| && Pieces(content)[0] == content[..PieceEnd(content, ps, 0)]
    ensures forall k :: 1 <= k < |Pieces(content)| ==> StartsWith(Pieces(content)[k], EventOpen)
  {
    HeaderPositionsSound(content, 0);
    CutPieces(content, 0, HeaderPositions(content, 0));
    forall k | 1 <= k < |Pieces(content)|
      ensures StartsWith(Pieces(content)[k], EventOpen)
    {
      PieceStartsWithEvent(content, k);
    }
  }

  lemma PieceStartsWithEvent(content: string, k: nat)
    requires 1 <= k < |Pieces(content)|
    ensures StartsWith(Pieces(content)[k], EventOpen)
  {
    var ps := HeaderPositions(content, 0);
    HeaderPositionsSound(content, 0);
    var pieces := Cut(content, 0, ps);
    CutPieces(content, 0, ps);
    assert Pieces(content) == pieces;
    var p := ps[k - 1];
    var e := PieceEnd(content, ps, k);
    assert pieces[k] == content[p..e];
    if k < |ps| {
      EventTagsDoNotOverlap(content, p, ps[k]);
    }
    SliceKeepsPrefix(content, p, e, EventOpen);
  }

  /** `[Event` holds only one `[`, so two occurrences are at least its length apart. */
  lemma EventTagsDoNotOverlap(s: string, p: nat, q: nat)
    requires p < q <= |s|
    requires StartsWith(s[p..], EventOpen) && StartsWith(s[q..], EventOpen)
    ensures p + |EventOpen| <= q
  {
    assert s[q] == s[q..][..|EventOpen|][0] == '[';
    assert forall j :: p < j < p + |EventOpen| && j < |s| ==> s[j] == s[p..][..|EventOpen|][j - p] != '[';
  }

  lemma SliceKeepsPrefix(s: string, p: nat, e: nat, prefix: string)
    requires p + |prefix| <= e <= |s| && StartsWith(s[p..], prefix)
    ensures StartsWith(s[p..e], prefix)
  {
    assert s[p..e][..|prefix|] == s[p..][..|prefix|];
  }

  lemma {:induction false} StripNonBlankKeepsEvent(pieces: seq<string>)
    requires forall k :: 0 <= k < |pieces| ==> StartsWith(pieces[k], EventOpen)
    ensures forall g :: g in StripNonBlank(pieces) ==> StartsWith(g, EventOpen)
    decreases |pieces|
  {
    if pieces != [] {
      StripKeepsPrefix(pieces[0], EventOpen);
      StripNonBlankKeepsEvent(pieces[1..]);
    }
  }

  /** The games keep the order of the pieces: filtering a concatenation of pieces is
      filtering each part, in the same order. */
  lemma {:induction false} StripNonBlankAppend(a: seq<string>, b: seq<string>)
    ensures StripNonBlank(a + b) == StripNonBlank(a) + StripNonBlank(b)
    decreases |a|
  {
    if a != [] {
      var head := if Strip(a[0]) != [] then [Strip(a[0])] else [];
      StripNonBlankStep(a, b);
      StripNonBlankAppend(a[1..], b);
      AppendAssoc(head, StripNonBlank(a[1..]), StripNonBlank(b));
    } else {
      assert a + b == b;
    }
  }

  lemma StripNonBlankStep(a: seq<string>, b: seq<string>)
    requires a != []
    ensures StripNonBlank(a + b) == (if Strip(a[0]) != [] then [Strip(a[0])] else []) + StripNonBlank(a[1..] + b)
  {
    assert (a + b)[1..] == a[1..] + b;
    assert (a + b)[0] == a[0];
  }

  /** One piece gives its stripped text as a game, unless that is empty. */
  lemma StripNonBlankSingle(piece: string)
    ensures StripNonBlank([piece]) == if AllSpace(piece) then [] else [Strip(piece)]
  {
    StripEmptyIff(piece);
    assert [piece][1..] == [];
  }

  /** Every extracted game but the first begins with `[Event`; only text before the
      first Event tag can yield a game that does not. */
  lemma GamesAfterFirstStartWithEvent(content: string)
    ensures var games := ExtractGames(content);
      forall k :: 1 <= k < |games| ==> StartsWith(games[k], EventOpen)
  {
    var pieces := Pieces(content);
    PiecesStartAtHeaders(content);
    StripNonBlankKeepsEvent(pieces[1..]);
    var g := Strip(pieces[0]);
    var games := ExtractGames(content);
    assert games == (if g != [] then [g] else []) + StripNonBlank(pieces[1..]);
    forall k | 1 <= k < |games|
      ensures StartsWith(games[k], EventOpen)
    {
      assert games[k] in StripNonBlank(pieces[1..]);
    }
  }

  /** An archive in which the pattern never matches is one game, unless it is blank. */
  lemma NoHeaderIsOneGame(content: string)
    requires forall p :: 0 <= p < |content| ==> !HeaderAt(content, p)
    ensures ExtractGames(content) == if AllSpace(content) then [] else [Strip(content)]
  {
    HeaderPositionsNone(content, 0);
    StripEmptyIff(content);
    assert content[0..] == content;
  }
}
