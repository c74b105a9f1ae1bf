/** The think-time recurrence of `extract_player_results` (Database_Game_Review.py):
    walk the plies of one game, keep those of the player's side, and turn the clock
    reading after each of them into the time that move took. */
module ThinkTime {
  import opened Wrappers
  import opened ReviewClasses

  /** The three lists `extract_player_results` returns, in ply order. */
  datatype PlayerResults = PlayerResults(
    classificationList: seq<string>,
    timeStampsList: seq<real>,
    turnTimeList: seq<real>)

  /** Ply `j` is the player's own when `j % 2 == color` (0 for White, 1 for Black). */
  predicate OwnPly(j: int, color: int) {
    j % 2 == color
  }

  /** The indices below `n` of the player's own plies, in increasing order. */
  function OwnPlies(n: nat, color: int): (ps: seq<nat>)
    ensures forall k :: 0 <= k < |ps| ==> ps[k] < n
  {
    if n == 0 then []
    else OwnPlies(n - 1, color) + (if OwnPly(n - 1, color) then [n - 1] else [])
  }

  /** `OwnPlies` lists exactly the own plies below `n`, in increasing order. */
  lemma {:induction false} OwnPliesExact(n: nat, color: int)
    ensures forall k :: 0 <= k < |OwnPlies(n, color)| ==> OwnPly(OwnPlies(n, color)[k], color)
    ensures forall j :: 0 <= j < n && OwnPly(j, color) ==> j in OwnPlies(n, color)
    ensures forall k, l :: 0 <= k < l < |OwnPlies(n, color)| ==> OwnPlies(n, color)[k] < OwnPlies(n, color)[l]
  {
    if n > 0 {
      OwnPliesExact(n - 1, color);
    }
  }

  /** The elements of `xs` at the positions `ps`, in that order. */
  function Select<T>(xs: seq<T>, ps: seq<nat>): (r: seq<T>)
    requires forall k :: 0 <= k < |ps| ==> ps[k] < |xs|
    ensures |r| == |ps|
    ensures forall k :: 0 <= k < |ps| ==> r[k] == xs[ps[k]]
  {
    seq(|ps|, k requires 0 <= k < |ps| => xs[ps[k]])
  }

  /** The time each of the player's moves took: the clock before the move (the start
      time for the first one, the previous reading otherwise) plus the increment,
      minus the reading after the move. */
  function TurnTimes(startTime: real, increment: real, own: seq<real>): (r: seq<real>)
    ensures |r| == |own|
  {
    seq(|own|, k requires 0 <= k < |own| => (if k == 0 then startTime else own[k - 1]) + increment - own[k])
  }

  /** Every own ply below `n` has a clock reading. */
  predicate StampsCover(ps: seq<nat>, count: nat) {
    forall k :: 0 <= k < |ps| ==> ps[k] < count
  }

  /** What `extract_player_results` computes: the player's labels and clock readings,
      and their think times; IndexError when an own ply has no clock reading. */
  function PlayerResultsOf(classes: seq<string>, stamps: seq<real>, color: int, startTime: int, increment: int)
    : (r: Result<PlayerResults>)
  {
    var ps := OwnPlies(|classes|, color);
    if StampsCover(ps, |stamps|) then
      var own := Select(stamps, ps);
      Ok(PlayerResults(Select(classes, ps), own, TurnTimes(startTime as real, increment as real, own)))
    else
      Err(IndexError)
  }

  /** `extract_player_results(game_results, color, start_time, increment)`. */
  method ExtractPlayerResults(gameResults: GameResults, color: int, startTime: int, increment: int)
    returns (r: Result<PlayerResults>)
    ensures r == PlayerResultsOf(gameResults.classificationList, gameResults.GetTimeStampsList(), color, startTime, increment)
  {
    var classes := gameResults.classificationList;
    var stamps := gameResults.GetTimeStampsList();
    var playerClassificationList: seq<string> := [];
    var playerTimeStampsList: seq<real> := [];
    var playerTurnTimeList: seq<real> := [];
    var currentTime: real := (startTime + increment) as real;
    for j := 0 to |classes|
      invariant StampsCover(OwnPlies(j, color), |stamps|)
      invariant playerClassificationList == Select(classes, OwnPlies(j, color))
      invariant playerTimeStampsList == Select(stamps, OwnPlies(j, color))
      invariant playerTurnTimeList == TurnTimes(startTime as real, increment as real, playerTimeStampsList)
      invariant currentTime == ClockBefore(startTime as real, playerTimeStampsList) + increment as real
    {
      OwnPliesStep(j, color);
      if j % 2 == color {
        if j >= |stamps| {
          MissingStamp(|classes|, color, j, |stamps|);
          return Err(IndexError);
        }
        var turnStamp := stamps[j];
        SelectSnoc(classes, OwnPlies(j, color), j);
        SelectSnoc(stamps, OwnPlies(j, color), j);
        TurnTimesSnoc(startTime as real, increment as real, playerTimeStampsList, turnStamp);
        playerClassificationList := playerClassificationList + [classes[j]];
        playerTimeStampsList := playerTimeStampsList + [turnStamp];
        playerTurnTimeList := playerTurnTimeList + [currentTime - turnStamp];
        currentTime := turnStamp + increment as real;
      }
    }
    return Ok(PlayerResults(playerClassificationList, playerTimeStampsList, playerTurnTimeList));
  }

  /** The clock before the next own move, less the increment: the start time, or the
      last reading. */
  function ClockBefore(startTime: real, own: seq<real>): real {
    if own == [] then startTime else own[|own| - 1]
  }

  lemma OwnPliesStep(j: nat, color: int)
    ensures OwnPlies(j + 1, color) == OwnPlies(j, color) + (if OwnPly(j, color) then [j] else [])
  {
  }

  /** An own ply at or past the last reading leaves the readings short. */
  lemma MissingStamp(n: nat, color: int, j: nat, count: nat)
    requires j < n && OwnPly(j, color) && count <= j
    ensures !StampsCover(OwnPlies(n, color), count)
  {
    var ps := OwnPlies(n, color);
    OwnPliesExact(n, color);
    assert j in ps;
    var k :| 0 <= k < |ps| && ps[k] == j;
  }

  lemma SelectSnoc<T>(xs: seq<T>, ps: seq<nat>, j: nat)
    requires StampsCover(ps, |xs|) && j < |xs|
    ensures Select(xs, ps + [j]) == Select(xs, ps) + [xs[j]]
  {
  }

  lemma TurnTimesSnoc(startTime: real, increment: real, own: seq<real>, x: real)
    ensures TurnTimes(startTime, increment, own + [x])
      == TurnTimes(startTime, increment, own) + [ClockBefore(startTime, own) + increment - x]
  {
  }

  /** One more ply adds one own ply exactly when it has the player's parity, and that
      ply is `2 * count + color`. */
  lemma OwnCountStep(n: nat, color: int)
    ensures OwnCount(n + 1, color) == OwnCount(n, color) + (if OwnPly(n, color) then 1 else 0)
    ensures OwnPly(n, color) ==> n == 2 * OwnCount(n, color) + color
  {
    if color == 0 || color == 1 {
      if n % 2 == 0 {
        assert n == 2 * (n / 2);
      } else {
        assert n == 2 * (n / 2) + 1;
      }
    }
  }

  /** The number of own plies in a game of `n` plies: the ceiling of n/2 for White,
      the floor for Black, none for any other color. */
  function OwnCount(n: nat, color: int): nat {
    if color == 0 then (n + 1) / 2 else if color == 1 then n / 2 else 0
  }

  /** There are `OwnCount` own plies. */
  lemma {:induction false} OwnPliesLength(n: nat, color: int)
    ensures |OwnPlies(n, color)| == OwnCount(n, color)
  {
    if n > 0 {
      OwnPliesLength(n - 1, color);
      OwnCountStep(n - 1, color);
    }
  }

  /** The k-th own ply is ply `2k + color`. */
  lemma {:induction false} OwnPliesAt(n: nat, color: int)
    ensures forall k :: 0 <= k < |OwnPlies(n, color)| ==> OwnPlies(n, color)[k] == 2 * k + color
  {
    if n > 0 {
      OwnPliesAt(n - 1, color);
      OwnPliesLength(n - 1, color);
      OwnCountStep(n - 1, color);
      var ps := OwnPlies(n - 1, color);
      var qs := OwnPlies(n, color);
      if OwnPly(n - 1, color) {
        assert qs == ps + [n - 1];
        assert n - 1 == 2 * |ps| + color;
        forall k | 0 <= k < |qs| ensures qs[k] == 2 * k + color {
          if k < |ps| {
            assert qs[k] == ps[k];
          }
        }
      } else {
        assert qs == ps;
      }
    }
  }

  /** The three lists have one entry per own ply; the labels and readings are those
      of the own plies, in order. */
  lemma PlayerResultsShape(classes: seq<string>, stamps: seq<real>, color: int, startTime: int, increment: int)
    requires PlayerResultsOf(classes, stamps, color, startTime, increment).Ok?
    ensures var pr := PlayerResultsOf(classes, stamps, color, startTime, increment).value;
      && |pr.classificationList| == OwnCount(|classes|, color)
      && |pr.timeStampsList| == OwnCount(|classes|, color)
      && |pr.turnTimeList| == OwnCount(|classes|, color)
      && (forall k :: 0 <= k < |pr.classificationList| ==>
            && 0 <= 2 * k + color < |classes| && 2 * k + color < |stamps|
            && pr.classificationList[k] == classes[2 * k + color]
            && pr.timeStampsList[k] == stamps[2 * k + color])
  {
    var ps := OwnPlies(|classes|, color);
    OwnPliesLength(|classes|, color);
    OwnPliesAt(|classes|, color);
    assert StampsCover(ps, |stamps|);
    var pr := PlayerResultsOf(classes, stamps, color, startTime, increment).value;
    assert pr.classificationList == Select(classes, ps) && pr.timeStampsList == Select(stamps, ps);
    forall k | 0 <= k < |pr.classificationList|
      ensures && 0 <= 2 * k + color < |classes| && 2 * k + color < |stamps|
              && pr.classificationList[k] == classes[2 * k + color]
              && pr.timeStampsList[k] == stamps[2 * k + color]
    {
      assert ps[k] == 2 * k + color && ps[k] < |classes| && ps[k] < |stamps|;
      assert pr.classificationList[k] == classes[ps[k]];
      assert pr.timeStampsList[k] == stamps[ps[k]];
    }
  }

  /** IndexError exactly when some own ply has no clock reading. */
  lemma PlayerResultsFails(classes: seq<string>, stamps: seq<real>, color: int, startTime: int, increment: int)
    ensures PlayerResultsOf(classes, stamps, color, startTime, increment).Err?
      <==> exists j :: 0 <= j < |classes| && OwnPly(j, color) && j >= |stamps|
    ensures PlayerResultsOf(classes, stamps, color, startTime, increment).Err? ==>
      PlayerResultsOf(classes, stamps, color, startTime, increment).error == IndexError
  {
    var ps := OwnPlies(|classes|, color);
    OwnPliesExact(|classes|, color);
    if !StampsCover(ps, |stamps|) {
      var k :| 0 <= k < |ps| && ps[k] >= |stamps|;
      assert OwnPly(ps[k], color);
    }
  }

  /** The first think time is start + increment - first reading; each later one is
      previous reading + increment - reading. */
  lemma TurnTimeRecurrence(classes: seq<string>, stamps: seq<real>, color: int, startTime: int, increment: int, k: nat)
    requires PlayerResultsOf(classes, stamps, color, startTime, increment).Ok?
    requires k < |PlayerResultsOf(classes, stamps, color, startTime, increment).value.turnTimeList|
    ensures var t := PlayerResultsOf(classes, stamps, color, startTime, increment).value.turnTimeList;
      && 0 <= color <= 1 && 2 * k + color < |stamps|
      && t[k] == (if k == 0 then (startTime + increment) as real - stamps[color]
                  else stamps[2 * k - 2 + color] + increment as real - stamps[2 * k + color])
  {
    var ps := OwnPlies(|classes|, color);
    OwnPliesLength(|classes|, color);
    OwnPliesAt(|classes|, color);
    assert StampsCover(ps, |stamps|);
    var own := Select(stamps, ps);
    assert PlayerResultsOf(classes, stamps, color, startTime, increment).value.turnTimeList
      == TurnTimes(startTime as real, increment as real, own);
    assert ps[k] == 2 * k + color;
    assert own[k] == stamps[ps[k]];
    if k > 0 {
      assert own[k - 1] == stamps[ps[k - 1]];
    }
  }

  function Sum(xs: seq<real>): real {
    if xs == [] then 0.0 else Sum(xs[..|xs| - 1]) + xs[|xs| - 1]
  }

  /** The think times of m moves add up to start + m * increment - last reading. */
  lemma {:induction false} TurnTimesTelescope(startTime: real, increment: real, own: seq<real>)
    requires |own| > 0
    ensures Sum(TurnTimes(startTime, increment, own)) == startTime + |own| as real * increment - own[|own| - 1]
  {
    var t := TurnTimes(startTime, increment, own);
    var n := |own|;
    if n > 1 {
      var front := own[..n - 1];
      TurnTimesTelescope(startTime, increment, front);
      assert t[..n - 1] == TurnTimes(startTime, increment, front);
    } else {
      assert t[..0] == [];
    }
  }

  /** The labels and readings of the opponent's plies make no difference. */
  lemma OpponentPliesIgnored(c1: seq<string>, s1: seq<real>, c2: seq<string>, s2: seq<real>,
                             color: int, startTime: int, increment: int)
    requires |c1| == |c2| && |s1| == |s2|
    requires forall j :: 0 <= j < |c1| && OwnPly(j, color) ==> c1[j] == c2[j]
    requires forall j :: 0 <= j < |c1| && j < |s1| && OwnPly(j, color) ==> s1[j] == s2[j]
    ensures PlayerResultsOf(c1, s1, color, startTime, increment) == PlayerResultsOf(c2, s2, color, startTime, increment)
  {
    var ps := OwnPlies(|c1|, color);
    OwnPliesExact(|c1|, color);
    if StampsCover(ps, |s1|) {
      assert Select(c1, ps) == Select(c2, ps);
      assert Select(s1, ps) == Select(s2, ps);
    }
  }

  /** Worked example: labels [book, best], readings [5.0, 3.0], 10 s + 2 s. White's
      one move took 7 seconds. Black's clock still starts from 10 + 2, since White's
      ply does not move it, so Black's move took 9 seconds. */
  lemma WorkedExample()
    ensures PlayerResultsOf(["book", "best"], [5.0, 3.0], 0, 10, 2) == Ok(PlayerResults(["book"], [5.0], [7.0]))
    ensures PlayerResultsOf(["book", "best"], [5.0, 3.0], 1, 10, 2) == Ok(PlayerResults(["best"], [3.0], [9.0]))
  {
    assert OwnPlies(1, 0) == [0] && OwnPlies(2, 0) == [0];
    assert OwnPlies(1, 1) == [] && OwnPlies(2, 1) == [1];
    assert Select(["book", "best"], [0]) == ["book"];
    assert Select(["book", "best"], [1]) == ["best"];
    assert Select([5.0, 3.0], [0]) == [5.0];
    assert Select([5.0, 3.0], [1]) == [3.0];
    assert TurnTimes(10.0, 2.0, [5.0]) == [7.0];
    assert TurnTimes(10.0, 2.0, [3.0]) == [9.0];
  }
}
