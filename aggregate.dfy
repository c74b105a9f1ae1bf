/** `classify_time_stamps` (Database_Game_Review.py): file each non-zero think time of
    a player under its move category in a speed bucket, and mark the bucket analysed. */
module Aggregate {
  import opened Wrappers
  import opened ReviewClasses
  import opened ThinkTime
  import opened Scans

  /** The think times filed under `category`, in ply order: those of plies carrying that
      category whose time is not zero. */
  function Filtered(classes: seq<string>, times: seq<real>, category: string): (r: seq<real>)
    requires |classes| <= |times|
    ensures |r| <= |classes|
    ensures 0.0 !in r
    decreases |classes|
  {
    if classes == [] then []
    else
      var n := |classes| - 1;
      Filtered(classes[..n], times, category) + (if classes[n] == category && times[n] != 0.0 then [times[n]] else [])
  }

  /** The bucket's lists after one call: each category's list extended by its filtered
      times. */
  function Accumulate(categories: map<string, seq<real>>, classes: seq<string>, times: seq<real>)
    : (r: map<string, seq<real>>)
    requires |classes| <= |times|
    ensures r.Keys == categories.Keys
  {
    map k | k in categories :: categories[k] + Filtered(classes, times, k)
  }

  /** The list of one label after a call. */
  lemma AccumulateAt(categories: map<string, seq<real>>, classes: seq<string>, times: seq<real>, k: string)
    requires |classes| <= |times| && k in categories
    ensures Accumulate(categories, classes, times)[k] == categories[k] + Filtered(classes, times, k)
  {
  }

  /** A call only appends: every list keeps what it held, in front. */
  lemma AccumulateExtends(categories: map<string, seq<real>>, classes: seq<string>, times: seq<real>)
    requires categories.Keys == Labels && |classes| <= |times|
    ensures forall k :: k in Labels ==> categories[k] <= Accumulate(categories, classes, times)[k]
  {
    forall k | k in Labels ensures categories[k] <= Accumulate(categories, classes, times)[k] {
      AccumulateAt(categories, classes, times, k);
    }
  }

  /** `classify_time_stamps(player_results, move_classification_obj)`. A turn-time
      list shorter than the category list raises IndexError before the bucket is touched. */
  method ClassifyTimeStamps(playerResults: PlayerResults, bucket: MoveClassification) returns (r: Outcome)
    requires bucket.Valid()
    modifies bucket
    ensures bucket.Valid()
    ensures r == Pass <==> |playerResults.classificationList| <= |playerResults.turnTimeList|
    ensures r.Fail? ==> r.error == IndexError && bucket.categories == old(bucket.categories)
    ensures r.Fail? ==> bucket.thisTimeControlWasAnalysed == old(bucket.thisTimeControlWasAnalysed)
    ensures r == Pass ==> bucket.thisTimeControlWasAnalysed
    ensures r == Pass ==>
      bucket.categories == Accumulate(old(bucket.categories), playerResults.classificationList, playerResults.turnTimeList)
    ensures bucket.timeControlStr == old(bucket.timeControlStr)
  {
    var classes := playerResults.classificationList;
    var times := playerResults.turnTimeList;
    var blunderList: seq<real> := [];
    var mistakeList: seq<real> := [];
    var inaccuracyList: seq<real> := [];
    var goodList: seq<real> := [];
    var excellentList: seq<real> := [];
    var bestList: seq<real> := [];
    var bookList: seq<real> := [];
    for j := 0 to |classes|
      invariant j <= |times|
      invariant unchanged(bucket)
      invariant blunderList == Filtered(classes[..j], times, "blunder")
      invariant mistakeList == Filtered(classes[..j], times, "mistake")
      invariant inaccuracyList == Filtered(classes[..j], times, "inaccuracy")
      invariant goodList == Filtered(classes[..j], times, "good")
      invariant excellentList == Filtered(classes[..j], times, "excellent")
      invariant bestList == Filtered(classes[..j], times, "best")
      invariant bookList == Filtered(classes[..j], times, "book")
    {
      if j >= |times| {
        return Fail(IndexError);
      }
      FilteredStep(classes, times, j);
      blunderList, mistakeList, inaccuracyList, goodList, excellentList, bestList, bookList :=
        FilePly(classes[j], times[j], blunderList, mistakeList, inaccuracyList, goodList, excellentList, bestList, bookList);
    }
    assert classes[..|classes|] == classes;
    ExtendEachIsAccumulate(bucket.categories, classes, times);
    bucket.categories :=
      ExtendEach(bucket.categories, blunderList, mistakeList, inaccuracyList, goodList, excellentList, bestList, bookList);
    bucket.thisTimeControlWasAnalysed := true;
    r := Pass;
  }

  /** The seven `extend` calls: each label's list grows by the local list collected for
      it. */
  function ExtendEach(categories: map<string, seq<real>>, blunder: seq<real>, mistake: seq<real>,
                      inaccuracy: seq<real>, good: seq<real>, excellent: seq<real>, best: seq<real>,
                      book: seq<real>): (r: map<string, seq<real>>)
    ensures r.Keys == categories.Keys
  {
    map k | k in categories :: categories[k] +
      if k == "blunder" then blunder
      else if k == "mistake" then mistake
      else if k == "inaccuracy" then inaccuracy
      else if k == "good" then good
      else if k == "excellent" then excellent
      else if k == "best" then best
      else if k == "book" then book
      else []
  }

  /** A map with the bucket's keys that holds, under each label, the old list followed by
      that label's local list, is what the seven `extend` calls leave. */
  lemma ExtendEachIs(categories: map<string, seq<real>>, blunder: seq<real>, mistake: seq<real>,
                     inaccuracy: seq<real>, good: seq<real>, excellent: seq<real>, best: seq<real>,
                     book: seq<real>, after: map<string, seq<real>>)
    requires categories.Keys == Labels && after.Keys == Labels
    requires after["blunder"] == categories["blunder"] + blunder
    requires after["mistake"] == categories["mistake"] + mistake
    requires after["inaccuracy"] == categories["inaccuracy"] + inaccuracy
    requires after["good"] == categories["good"] + good
    requires after["excellent"] == categories["excellent"] + excellent
    requires after["best"] == categories["best"] + best
    requires after["book"] == categories["book"] + book
    ensures ExtendEach(categories, blunder, mistake, inaccuracy, good, excellent, best, book) == after
  {
  }

  /** Extending each label by its filtered times is `Accumulate`. */
  lemma ExtendEachIsAccumulate(categories: map<string, seq<real>>, classes: seq<string>, times: seq<real>)
    requires categories.Keys == Labels && |classes| <= |times|
    ensures
      ExtendEach(categories, Filtered(classes, times, "blunder"), Filtered(classes, times, "mistake"),
        Filtered(classes, times, "inaccuracy"), Filtered(classes, times, "good"), Filtered(classes, times, "excellent"),
        Filtered(classes, times, "best"), Filtered(classes, times, "book"))
      == Accumulate(categories, classes, times)
  {
    AccumulateAt(categories, classes, times, "blunder");
    AccumulateAt(categories, classes, times, "mistake");
    AccumulateAt(categories, classes, times, "inaccuracy");
    AccumulateAt(categories, classes, times, "good");
    AccumulateAt(categories, classes, times, "excellent");
    AccumulateAt(categories, classes, times, "best");
    AccumulateAt(categories, classes, times, "book");
    ExtendEachIs(categories, Filtered(classes, times, "blunder"), Filtered(classes, times, "mistake"),
      Filtered(classes, times, "inaccuracy"), Filtered(classes, times, "good"), Filtered(classes, times, "excellent"),
      Filtered(classes, times, "best"), Filtered(classes, times, "book"), Accumulate(categories, classes, times));
  }

  /** One pass of the loop body: the ply's time goes to the list of its category, when
      that is one of the seven and the time is not zero. */
  method FilePly(move: string, time: real, blunderList: seq<real>, mistakeList: seq<real>, inaccuracyList: seq<real>,
                 goodList: seq<real>, excellentList: seq<real>, bestList: seq<real>, bookList: seq<real>)
    returns (blunder: seq<real>, mistake: seq<real>, inaccuracy: seq<real>, good: seq<real>, excellent: seq<real>,
             best: seq<real>, book: seq<real>)
    ensures blunder == blunderList + Filed(move, time, "blunder")
    ensures mistake == mistakeList + Filed(move, time, "mistake")
    ensures inaccuracy == inaccuracyList + Filed(move, time, "inaccuracy")
    ensures good == goodList + Filed(move, time, "good")
    ensures excellent == excellentList + Filed(move, time, "excellent")
    ensures best == bestList + Filed(move, time, "best")
    ensures book == bookList + Filed(move, time, "book")
  {
    LabelsDistinct();
    blunder, mistake, inaccuracy, good, excellent, best, book :=
      blunderList, mistakeList, inaccuracyList, goodList, excellentList, bestList, bookList;
    if move == "blunder" && time != 0.0 { blunder := blunder + [time]; }
    else if move == "mistake" && time != 0.0 { mistake := mistake + [time]; }
    else if move == "inaccuracy" && time != 0.0 { inaccuracy := inaccuracy + [time]; }
    else if move == "good" && time != 0.0 { good := good + [time]; }
    else if move == "excellent" && time != 0.0 { excellent := excellent + [time]; }
    else if move == "best" && time != 0.0 { best := best + [time]; }
    else if move == "book" && time != 0.0 { book := book + [time]; }
  }

  /** The seven labels are pairwise different. */
  lemma LabelsDistinct()
    ensures "blunder" != "mistake" && "blunder" != "inaccuracy" && "blunder" != "good"
    ensures "blunder" != "excellent" && "blunder" != "best" && "blunder" != "book"
    ensures "mistake" != "inaccuracy" && "mistake" != "good" && "mistake" != "excellent"
    ensures "mistake" != "best" && "mistake" != "book" && "inaccuracy" != "good"
    ensures "inaccuracy" != "excellent" && "inaccuracy" != "best" && "inaccuracy" != "book"
    ensures "good" != "excellent" && "good" != "best" && "good" != "book"
    ensures "excellent" != "best" && "excellent" != "book" && "best" != "book"
  {
  }

  /** What one ply adds to the list of `category`. */
  function Filed(move: string, time: real, category: string): seq<real> {
    if move == category && time != 0.0 then [time] else []
  }

  /** One more ply extends the list of its own category, if its time is not zero, and
      no other list. */
  lemma FilteredStep(classes: seq<string>, times: seq<real>, j: nat)
    requires j < |classes| && j < |times|
    ensures forall category :: Filtered(classes[..j + 1], times, category) == Filtered(classes[..j], times, category) + Filed(classes[j], times[j], category)
  {
    assert classes[..j + 1][..j] == classes[..j];
  }

  /** A time is filed under `category` exactly when some ply with that category took it and
      it is not zero. */
  lemma {:induction false} FilteredMembers(classes: seq<string>, times: seq<real>, category: string, x: real)
    requires |classes| <= |times|
    ensures x in Filtered(classes, times, category)
      <==> x != 0.0 && exists j :: 0 <= j < |classes| && classes[j] == category && times[j] == x
    decreases |classes|
  {
    if classes != [] {
      var n := |classes| - 1;
      FilteredMembers(classes[..n], times, category, x);
      if x in Filtered(classes[..n], times, category) {
        var j :| 0 <= j < n && classes[..n][j] == category && times[j] == x;
        assert classes[j] == category;
      }
      if exists j :: 0 <= j < |classes| && classes[j] == category && times[j] == x {
        var j :| 0 <= j < |classes| && classes[j] == category && times[j] == x;
        if j < n {
          assert classes[..n][j] == category;
        }
      }
    }
  }

  /** A category that no ply carries gets nothing. */
  lemma {:induction false} FilteredAbsent(classes: seq<string>, times: seq<real>, category: string)
    requires |classes| <= |times| && category !in classes
    ensures Filtered(classes, times, category) == []
    decreases |classes|
  {
    if classes != [] {
      var n := |classes| - 1;
      assert category !in classes[..n];
      FilteredAbsent(classes[..n], times, category);
    }
  }

  /** Filing two timelines one after the other files their concatenation: each list
      keeps timeline order. */
  lemma {:induction false} FilteredAppend(c1: seq<string>, t1: seq<real>, c2: seq<string>, t2: seq<real>, category: string)
    requires |c1| == |t1| && |c2| <= |t2|
    ensures Filtered(c1 + c2, t1 + t2, category) == Filtered(c1, t1, category) + Filtered(c2, t2, category)
    decreases |c2|
  {
    if c2 == [] {
      assert c1 + c2 == c1;
      FilteredTimesPrefix(c1, t1, t1 + t2, category);
    } else {
      var n := |c2| - 1;
      FilteredAppend(c1, t1, c2[..n], t2, category);
      assert (c1 + c2)[..|c1| + n] == c1 + c2[..n];
      assert (c1 + c2)[|c1| + n] == c2[n] && (t1 + t2)[|c1| + n] == t2[n];
      var last := if c2[n] == category && t2[n] != 0.0 then [t2[n]] else [];
      AppendAssoc(Filtered(c1, t1, category), Filtered(c2[..n], t2, category), last);
    }
  }

  /** Times past the last category are never read. */
  lemma {:induction false} FilteredTimesPrefix(classes: seq<string>, t: seq<real>, u: seq<real>, category: string)
    requires |classes| <= |t| <= |u| && t == u[..|t|]
    ensures Filtered(classes, t, category) == Filtered(classes, u, category)
    decreases |classes|
  {
    if classes != [] {
      FilteredTimesPrefix(classes[..|classes| - 1], t, u, category);
    }
  }

  /** Two calls, one per game, leave the bucket as one call on the two timelines
      joined. */
  lemma AccumulateTwice(categories: map<string, seq<real>>, c1: seq<string>, t1: seq<real>, c2: seq<string>, t2: seq<real>)
    requires categories.Keys == Labels && |c1| == |t1| && |c2| <= |t2|
    ensures Accumulate(Accumulate(categories, c1, t1), c2, t2) == Accumulate(categories, c1 + c2, t1 + t2)
  {
    var once := Accumulate(categories, c1, t1);
    var twice := Accumulate(once, c2, t2);
    var joined := Accumulate(categories, c1 + c2, t1 + t2);
    forall k | k in Labels ensures twice[k] == joined[k] {
      AccumulateTwiceAt(categories, c1, t1, c2, t2, k);
    }
    assert twice.Keys == joined.Keys;
  }

  lemma AccumulateTwiceAt(categories: map<string, seq<real>>, c1: seq<string>, t1: seq<real>, c2: seq<string>, t2: seq<real>,
                          k: string)
    requires |c1| == |t1| && |c2| <= |t2| && k in categories
    ensures Accumulate(Accumulate(categories, c1, t1), c2, t2)[k] == Accumulate(categories, c1 + c2, t1 + t2)[k]
  {
    var once := Accumulate(categories, c1, t1);
    AccumulateAt(categories, c1, t1, k);
    AccumulateAt(once, c2, t2, k);
    AccumulateAt(categories, c1 + c2, t1 + t2, k);
    FilteredAppend(c1, t1, c2, t2, k);
    AppendAssoc(categories[k], Filtered(c1, t1, k), Filtered(c2, t2, k));
  }

  /** Feeding two games in either order files the same times under every category, up
      to order. */
  lemma OrderIndependent(categories: map<string, seq<real>>, c1: seq<string>, t1: seq<real>, c2: seq<string>, t2: seq<real>)
    requires categories.Keys == Labels && |c1| <= |t1| && |c2| <= |t2|
    ensures forall k :: k in Labels ==>
      multiset(Accumulate(Accumulate(categories, c1, t1), c2, t2)[k])
        == multiset(Accumulate(Accumulate(categories, c2, t2), c1, t1)[k])
  {
  }

  /** A ply whose category is none of the seven, or whose time is zero, changes nothing. */
  lemma DroppedPly(categories: map<string, seq<real>>, classes: seq<string>, times: seq<real>, move: string, time: real)
    requires categories.Keys == Labels && |classes| == |times|
    requires move !in Labels || time == 0.0
    ensures Accumulate(categories, classes + [move], times + [time]) == Accumulate(categories, classes, times)
  {
    var longer := Accumulate(categories, classes + [move], times + [time]);
    var shorter := Accumulate(categories, classes, times);
    forall k | k in categories ensures longer[k] == shorter[k] {
      DroppedPlyAt(categories, classes, times, move, time, k);
    }
  }

  lemma DroppedPlyAt(categories: map<string, seq<real>>, classes: seq<string>, times: seq<real>, move: string, time: real,
                     k: string)
    requires |classes| == |times| && k in categories && (move != k || time == 0.0)
    ensures Accumulate(categories, classes + [move], times + [time])[k] == Accumulate(categories, classes, times)[k]
  {
    AccumulateAt(categories, classes + [move], times + [time], k);
    AccumulateAt(categories, classes, times, k);
    assert (classes + [move])[..|classes|] == classes;
    FilteredTimesPrefix(classes, times, times + [time], k);
  }
}
