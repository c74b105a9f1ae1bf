/** Archives written as well-formed games joined by line breaks: what
    `extract_games_from_pgn` (Database_Game_Review.py) gives back for them. */
module ArchiveRecords {
  import opened Text
  import opened Archive
  import opened Scans

  /** A game as it sits in a well-formed archive: stripped, opening with its Event tag,
      and with no other position where the split pattern matches. */
  predicate IsRecord(r: string) {
    && |r| > 0 && IsStripped(r) && HeaderAt(r, 0)
    && forall p :: 0 < p < |r| ==> !HeaderAt(r, p)
  }

  /** `"\n".join(records)`: an archive written one game after another, with a single
      line break between games (no blank line). */
  function JoinLines(records: seq<string>): string
    decreases |records|
  {
    if |records| == 0 then []
    else if |records| == 1 then records[0]
    else records[0] + "\n" + JoinLines(records[1..])
  }

  /** Writing well-formed games into an archive and extracting them gives back exactly
      those games, in the same order. */
  lemma {:induction false} ExtractGamesOfRecords(records: seq<string>)
    requires forall k :: 0 <= k < |records| ==> IsRecord(records[k])
    ensures ExtractGames(JoinLines(records)) == records
    decreases |records|
  {
    if |records| == 0 {
      ExtractGamesEmpty();
    } else if |records| == 1 {
      ExtractGamesOfOne(records);
    } else {
      ExtractGamesOfRecords(records[1..]);
      ExtractGamesJoinStep(records);
    }
  }

  /** One more game in front of an archive of well-formed games gives one more game in
      front of what is extracted. */
  lemma ExtractGamesJoinStep(records: seq<string>)
    requires |records| > 1 && IsRecord(records[0]) && IsRecord(records[1])
    requires ExtractGames(JoinLines(records[1..])) == records[1..]
    ensures ExtractGames(JoinLines(records)) == records
  {
    var r, t := records[0], JoinLines(records[1..]);
    assert JoinLines(records) == r + "\n" + t;
    JoinLinesStartsWithHeader(records[1..]);
    ExtractGamesCons(r, t);
    HeadThenTail(records);
  }

  lemma ExtractGamesOfOne(records: seq<string>)
    requires |records| == 1 && IsRecord(records[0])
    ensures ExtractGames(JoinLines(records)) == records
  {
    assert JoinLines(records) == records[0];
    ExtractGamesOfRecord(records[0]);
    Singleton(records);
  }

  lemma ConsTwo<T>(x: T, y: T, z: seq<T>)
    ensures [x] + ([y] + z) == [x, y] + z
  {
  }

  lemma Singleton<T>(xs: seq<T>)
    requires |xs| == 1
    ensures [xs[0]] == xs
  {
  }

  lemma HeadThenTail<T>(xs: seq<T>)
    requires xs != []
    ensures [xs[0]] + xs[1..] == xs
  {
  }

  /** An empty archive has no games. */
  lemma ExtractGamesEmpty()
    ensures ExtractGames(JoinLines([])) == []
  {
    assert Pieces([]) == [[]];
    StripNonBlankSingle([]);
  }

  /** An archive of well-formed games matches the split pattern at its start. */
  lemma JoinLinesStartsWithHeader(records: seq<string>)
    requires |records| > 0 && IsRecord(records[0])
    ensures SplitAtStart(JoinLines(records))
  {
    if |records| > 1 {
      var x := "\n" + JoinLines(records[1..]);
      assert JoinLines(records) == records[0] + x;
      HeaderAtExtend(records[0], x, 0);
    }
    HeaderAtSplitsAtStart(JoinLines(records));
  }

  /** The text opens with `[` and its first split point is its start. */
  predicate SplitAtStart(t: string) {
    |t| > 0 && t[0] == '[' && HeaderPositions(t, 0) == [0] + HeaderPositions(t, 1)
  }

  lemma HeaderAtSplitsAtStart(t: string)
    requires HeaderAt(t, 0)
    ensures SplitAtStart(t)
  {
    assert t[0..][..|EventOpen|] == EventOpen;
    HeaderPositionsStep(t, 0);
  }

  /** One well-formed game on its own is extracted as itself. */
  lemma ExtractGamesOfRecord(r: string)
    requires IsRecord(r)
    ensures ExtractGames(r) == [r]
  {
    assert HeaderPositions(r, 0) == [0] by {
      HeaderPositionsNone(r, 1);
      HeaderPositionsStep(r, 0);
    }
    var pieces := Pieces(r);
    assert pieces == [[], r] by {
      CutFirst(r, 0, [0]);
      assert r[0..0] == [] && r[0..] == r;
    }
    DropEmptyHead(pieces);
    var y := pieces[1..];
    assert y == [r];
    KeepStrippedHead(r, y);
    assert y[1..] == [];
  }

  /** A well-formed game followed by a line break and more of the archive contributes
      itself, then the games of the rest. */
  lemma ExtractGamesCons(r: string, t: string)
    ensures IsRecord(r) && SplitAtStart(t) ==> ExtractGames(r + "\n" + t) == [r] + ExtractGames(t)
  {
    HeaderPositionsCons(r, t);
    var rest := PiecesCons(r, t);
    if IsRecord(r) {
      ExtractAfter(r + "\n" + t, r, t, rest);
    }
  }

  /** Stripping the pieces `[]`, `r + "\n"`, then those of `t` after its empty first one. */
  lemma ExtractAfter(s: string, r: string, t: string, rest: seq<string>)
    requires r != [] && IsStripped(r)
    ensures Pieces(s) == [[], r + "\n"] + rest && Pieces(t) == [[]] + rest ==>
      ExtractGames(s) == [r] + ExtractGames(t)
  {
    StripGamePieces(r, rest);
  }

  /** The empty piece gives no game, the game with its line break gives the game. */
  lemma StripGamePieces(r: string, rest: seq<string>)
    requires r != [] && IsStripped(r)
    ensures StripNonBlank([[], r + "\n"] + rest) == [r] + StripNonBlank(rest)
    ensures StripNonBlank([[]] + rest) == StripNonBlank(rest)
  {
    var x := [[], r + "\n"] + rest;
    DropEmptyHead(x);
    var y := x[1..];
    assert y[0] == r + "\n";
    KeepGameHead(r, y);
    assert y[1..] == rest;
    var z := [[]] + rest;
    DropEmptyHead(z);
    assert z[1..] == rest;
  }

  /** A leading empty piece gives no game. */
  lemma DropEmptyHead(x: seq<string>)
    requires x != [] && x[0] == []
    ensures StripNonBlank(x) == StripNonBlank(x[1..])
  {
    assert Strip(x[0]) == [];
  }

  /** A leading stripped game gives itself. */
  lemma KeepStrippedHead(r: string, y: seq<string>)
    requires r != [] && IsStripped(r) && y != [] && y[0] == r
    ensures StripNonBlank(y) == [r] + StripNonBlank(y[1..])
  {
    StripOfStripped(r);
  }

  /** A leading game with its line break gives the game. */
  lemma KeepGameHead(r: string, y: seq<string>)
    requires r != [] && IsStripped(r) && y != [] && y[0] == r + "\n"
    ensures StripNonBlank(y) == [r] + StripNonBlank(y[1..])
  {
    StripLineBreak(r);
  }

  /** The pieces of a game, a line break and more archive: an empty piece before the
      match at 0, the game with its line break, then the pieces of the rest after its
      own empty first piece. */
  lemma PiecesCons(r: string, t: string) returns (rest: seq<string>)
    ensures SplitAtStart(t) && HeaderPositions(r + "\n" + t, 0) == [0] + Shift(HeaderPositions(t, 0), |r| + 1) ==>
      Pieces(r + "\n" + t) == [[], r + "\n"] + rest && Pieces(t) == [[]] + rest
  {
    var s := r + "\n" + t;
    var a := r + "\n";
    assert s[..|a|] == a && s[|a|..] == t;
    rest := PiecesAfter(s, a, t);
  }

  /** The same, for a text `s` whose first `|a|` characters are `a` and whose rest is `t`. */
  lemma PiecesAfter(s: string, a: string, t: string) returns (rest: seq<string>)
    requires 0 < |a| && |s| == |a| + |t| && s[..|a|] == a && s[|a|..] == t
    ensures SplitAtStart(t) && HeaderPositions(s, 0) == [0] + Shift(HeaderPositions(t, 0), |a|) ==>
      Pieces(s) == [[], a] + rest && Pieces(t) == [[]] + rest
  {
    rest := [];
    if SplitAtStart(t) && HeaderPositions(s, 0) == [0] + Shift(HeaderPositions(t, 0), |a|) {
      var qs := HeaderPositions(t, 1);
      PiecesAtStart(t);
      ShiftCons(0, qs, |a|);
      PiecesShifted(s, a, t, qs);
      rest := Cut(t, 0, qs);
    }
  }

  /** An archive that splits at its start: an empty first piece, then the cuts at the
      later split points. */
  lemma PiecesAtStart(t: string)
    requires SplitAtStart(t)
    ensures Ascending(0, HeaderPositions(t, 1), |t|)
    ensures Pieces(t) == [[]] + Cut(t, 0, HeaderPositions(t, 1))
  {
    var ps := HeaderPositions(t, 0);
    HeaderPositionsSound(t, 0);
    HeaderPositionsSound(t, 1);
    CutFirst(t, 0, ps);
    assert ps[1..] == HeaderPositions(t, 1);
    assert t[0..0] == [];
  }

  /** A text `s` made of `a` and then `t`, split at its start, at `|a|` and at the later
      split points `qs` of `t` moved past `a`: the empty piece, `a`, then the cuts of `t`. */
  lemma PiecesShifted(s: string, a: string, t: string, qs: seq<nat>)
    requires 0 < |a| && |s| == |a| + |t| && s[..|a|] == a && s[|a|..] == t
    requires Ascending(0, qs, |t|)
    requires HeaderPositions(s, 0) == [0] + ([|a|] + Shift(qs, |a|))
    ensures Pieces(s) == [[], a] + Cut(t, 0, qs)
  {
    assert s[0..|a|] == a && s[0..0] == [];
    var ps := HeaderPositions(s, 0);
    var sh := Shift(qs, |a|);
    HeaderPositionsSound(s, 0);
    CutFirst(s, 0, ps);
    assert ps[1..] == [|a|] + sh;
    CutFirst(s, 0, [|a|] + sh);
    assert ([|a|] + sh)[1..] == sh;
    CutShift(s, |a|, t, 0, qs);
    ConsTwo(s[0..0], s[0..|a|], Cut(s, |a|, sh));
  }

  /** Cutting at a first point `ps[0]` and then at the rest. */
  lemma CutFirst(s: string, lo: nat, ps: seq<nat>)
    requires lo <= |s| && Ascending(lo, ps, |s|) && ps != []
    ensures Ascending(ps[0], ps[1..], |s|)
    ensures Cut(s, lo, ps) == [s[lo..ps[0]]] + Cut(s, ps[0], ps[1..])
  {
  }

  /** The split points of a game, a line break and more archive: the start, then the
      split points of the rest moved past the game and its line break. */
  lemma HeaderPositionsCons(r: string, t: string)
    ensures IsRecord(r) && |t| > 0 && t[0] == '[' ==>
      HeaderPositions(r + "\n" + t, 0) == [0] + Shift(HeaderPositions(t, 0), |r| + 1)
  {
    ConsMatches(r, t);
    SplitPointsCons(r + "\n" + t, t, |r| + 1);
  }

  /** Where the split pattern matches in a game, a line break and more archive: at the
      start, nowhere else in the game or on its line break (the game is well formed, and
      the `[` opening the rest stops a match running into it), and after it exactly where
      it matches in the rest. */
  lemma ConsMatches(r: string, t: string)
    ensures IsRecord(r) && |t| > 0 && t[0] == '[' ==>
      ConsShape(Matches(r + "\n" + t), Matches(t), |r| + 1)
  {
    if IsRecord(r) && |t| > 0 && t[0] == '[' {
      ConsMatchesOf(r, t);
    }
  }

  lemma ConsMatchesOf(r: string, t: string)
    requires IsRecord(r) && |t| > 0 && t[0] == '['
    ensures ConsShape(Matches(r + "\n" + t), Matches(t), |r| + 1)
  {
    var s := r + "\n" + t;
    var a := r + "\n";
    assert s == r + ("\n" + t) && s == a + t;
    MatchesAt(s);
    MatchesAt(t);
    HeaderAtExtend(r, "\n" + t, 0);
    forall p | 0 < p < |a|
      ensures !Matches(s)[p]
    {
      NoHeaderInRecordTail(r, t, p);
    }
    forall p | 0 <= p < |t|
      ensures Matches(s)[p + |a|] == Matches(t)[p]
    {
      HeaderAtShift(a, t, p);
    }
  }

  /** A text matching at 0, nowhere else before `d`, and from `d` on exactly where `t`
      does, has split points 0 and those of `t` moved by `d`. */
  lemma SplitPointsCons(s: string, t: string, d: nat)
    ensures ConsShape(Matches(s), Matches(t), d) ==>
      HeaderPositions(s, 0) == [0] + Shift(HeaderPositions(t, 0), d)
  {
    if ConsShape(Matches(s), Matches(t), d) {
      MarkedCons(Matches(s), Matches(t), d);
      MarkedMatches(s);
      MarkedMatches(t);
    }
  }

  /** Where the split pattern matches, position by position. */
  function Matches(s: string): seq<bool> {
    Tabulate((p: nat) => p <= |s| && HeaderAt(s, p), 0, |s|)
  }

  /** Entry `p` of the row says whether the pattern matches at `p`. */
  lemma MatchesAt(s: string)
    ensures |Matches(s)| == |s|
    ensures forall p :: 0 <= p < |s| ==> Matches(s)[p] == HeaderAt(s, p)
  {
    var f := (p: nat) => p <= |s| && HeaderAt(s, p);
    TabulateAt(f, 0, |s|);
    forall p | 0 <= p < |s|
      ensures Matches(s)[p] == HeaderAt(s, p)
    {
      assert Matches(s)[p] == Tabulate(f, 0, |s|)[p] == f(0 + p);
    }
  }

  /** The split points are the positions where the pattern matches. */
  lemma MarkedMatches(s: string)
    ensures Marked(Matches(s), 0) == HeaderPositions(s, 0)
  {
    MatchesAt(s);
    MarkedMatchesFrom(s, 0);
  }

  lemma {:induction false} MarkedMatchesFrom(s: string, i: nat)
    requires i <= |s| && |Matches(s)| == |s|
    requires forall p :: 0 <= p < |s| ==> Matches(s)[p] == HeaderAt(s, p)
    ensures Marked(Matches(s), i) == HeaderPositions(s, i)
    decreases |s| - i
  {
    if i < |s| {
      MarkedMatchesFrom(s, i + 1);
    }
  }

  /** One step of the scan for split points. */
  lemma HeaderPositionsStep(s: string, i: nat)
    requires i < |s|
    ensures HeaderPositions(s, i) == (if HeaderAt(s, i) then [i] else []) + HeaderPositions(s, i + 1)
  {
  }

  /** No position inside a well-formed game, nor its line break, matches the pattern
      in the joined archive, as long as the next game opens with `[`. */
  lemma NoHeaderInRecordTail(r: string, t: string, p: nat)
    requires IsRecord(r) && 0 < p <= |r| && |t| > 0 && t[0] == '['
    ensures !HeaderAt(r + "\n" + t, p)
  {
    var s := r + "\n" + t;
    if p < |r| {
      HeaderAtIff(s, p);
      HeaderAtIff(r, p);
      MatchStaysInRecord(r, t, p);
    } else {
      assert s[p..][0] == '\n' != EventOpen[0];
    }
  }

  /** A match of the pattern that starts inside a stripped game ends inside it: the
      line break after the game stops `.*?`, and the `[` opening the next game stops `\s+`. */
  lemma MatchStaysInRecord(r: string, t: string, p: nat)
    requires IsStripped(r) && p < |r| && |t| > 0 && t[0] == '['
    ensures EventHeaderMatch(r + "\n" + t, p) ==> EventHeaderMatch(r, p)
  {
    var s := r + "\n" + t;
    if EventHeaderMatch(s, p) {
      assert forall j :: 0 <= j < |r| ==> s[j] == r[j];
      assert s[|r|] == '\n' && s[|r| + 1] == '[';
      var e := p + |EventOpen|;
      assert e <= |r|;
      assert r[p..e] == s[p..e];
      var k :| QuotedAfter(s, p, k);
      assert k < |r|;
      var m :| LineClose(s, k + 1, m);
      assert m + 2 <= |r|;
      assert LineClose(r, k + 1, m);
      assert QuotedAfter(r, p, k);
    }
  }

  /** A match stays a match when text is appended. */
  lemma HeaderAtExtend(r: string, x: string, p: nat)
    requires p <= |r| && HeaderAt(r, p)
    ensures HeaderAt(r + x, p)
  {
    var s := r + x;
    HeaderAtIff(r, p);
    HeaderAtIff(s, p);
    var k :| QuotedAfter(r, p, k);
    var m :| LineClose(r, k + 1, m);
    assert s[p..p + |EventOpen|] == r[p..p + |EventOpen|];
    assert LineClose(s, k + 1, m);
    assert QuotedAfter(s, p, k);
  }

  /** The whitespace run after `i` in `b` is the one after `|a| + i` in `a + b`. */
  lemma {:induction false} SkipSpacesShift(a: string, b: string, i: nat)
    requires i <= |b|
    ensures SkipSpaces(a + b, |a| + i) == |a| + SkipSpaces(b, i)
    decreases |b| - i
  {
    if i < |b| {
      assert (a + b)[|a| + i] == b[i];
      if IsSpace(b[i]) {
        SkipSpacesShift(a, b, i + 1);
      }
    }
  }

  /** Whether `.*?"\]` matches from a position depends only on what follows it. */
  lemma {:induction false} ClosesOnLineShift(a: string, b: string, i: nat)
    requires i <= |b|
    ensures ClosesOnLine(a + b, |a| + i) == ClosesOnLine(b, i)
    decreases |b| - i
  {
    if i + 2 <= |b| {
      assert (a + b)[|a| + i] == b[i] && (a + b)[|a| + i + 1] == b[i + 1];
      ClosesOnLineShift(a, b, i + 1);
    }
  }

  /** Whether the pattern matches at a position depends only on what follows it. */
  lemma HeaderAtShift(a: string, b: string, p: nat)
    requires p <= |b|
    ensures HeaderAt(a + b, |a| + p) == HeaderAt(b, p)
  {
    assert (a + b)[|a| + p..] == b[p..];
    var e := p + |EventOpen|;
    if e <= |b| {
      SkipSpacesShift(a, b, e);
      var k := SkipSpaces(b, e);
      if k < |b| {
        assert (a + b)[|a| + k] == b[k];
        ClosesOnLineShift(a, b, k + 1);
      }
    }
  }


  /** Cutting a text past its first `d` characters at moved points gives the pieces
      of the rest. */
  lemma {:induction false} CutShift(s: string, d: nat, b: string, lo: nat, ps: seq<nat>)
    requires |s| == d + |b| && s[d..] == b && lo <= |b| && Ascending(lo, ps, |b|)
    ensures Ascending(d + lo, Shift(ps, d), |s|)
    ensures Cut(s, d + lo, Shift(ps, d)) == Cut(b, lo, ps)
    decreases |ps|
  {
    AscendingShift(lo, ps, |b|, d);
    if ps == [] {
      assert s[d + lo..] == s[d..][lo..];
    } else {
      CutFirst(b, lo, ps);
      CutShift(s, d, b, ps[0], ps[1..]);
      CutShiftStep(s, d, b, lo, ps);
    }
  }

  /** The step of `CutShift`: once the later pieces agree, so do all of them, since the
      first piece of the suffix is the same slice in both texts. */
  lemma CutShiftStep(s: string, d: nat, b: string, lo: nat, ps: seq<nat>)
    requires |s| == d + |b| && s[d..] == b && lo <= |b| && Ascending(lo, ps, |b|) && ps != []
    requires Ascending(d + lo, Shift(ps, d), |s|)
    requires Ascending(ps[0], ps[1..], |b|) && Ascending(d + ps[0], Shift(ps[1..], d), |s|)
    requires Cut(s, d + ps[0], Shift(ps[1..], d)) == Cut(b, ps[0], ps[1..])
    ensures Cut(s, d + lo, Shift(ps, d)) == Cut(b, lo, ps)
  {
    var sh := Shift(ps, d);
    assert sh[0] == d + ps[0] && sh[1..] == Shift(ps[1..], d) by {
      assert ps == [ps[0]] + ps[1..];
      ShiftCons(ps[0], ps[1..], d);
    }
    CutFirst(b, lo, ps);
    CutFirst(s, d + lo, sh);
    SliceOfSuffix(s, d, lo, ps[0]);
  }

  lemma AscendingShift(lo: nat, ps: seq<nat>, hi: nat, d: nat)
    requires Ascending(lo, ps, hi)
    ensures Ascending(d + lo, Shift(ps, d), d + hi)
  {
    ShiftAt(ps, d);
  }

  lemma SliceOfSuffix(s: string, d: nat, i: nat, j: nat)
    requires i <= j && d + j <= |s|
    ensures s[d..][i..j] == s[d + i..d + j]
  {
    assert forall k :: 0 <= k < j - i ==> s[d..][i..j][k] == s[d + i + k] == s[d + i..d + j][k];
  }
}
