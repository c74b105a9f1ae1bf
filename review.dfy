/** Which side the reviewed player had (`get_player_color`) and one pass of the main
    loop of Database_Game_Review.py: read the game's time control, skip or review it,
    and file the player's think times in the bucket of its speed class. */
module Review {
  import opened Wrappers
  import opened Text
  import opened TimeControl
  import opened ReviewClasses
  import opened ThinkTime
  import opened Aggregate

  /** The literal White tag for a player, `[White "name"]`. */
  function WhiteTag(playerName: string): string {
    "[White \"" + playerName + "\"]"
  }

  /** Anything that holds the White tag of a name holds the name. */
  lemma WhiteTagHasName(pgn: string, playerName: string)
    ensures Contains(pgn, WhiteTag(playerName)) ==> Contains(pgn, playerName)
  {
    if Contains(pgn, WhiteTag(playerName)) {
      ContainsInfix("[White \"", playerName, "\"]");
      ContainsTransitive(pgn, WhiteTag(playerName), playerName);
    }
  }

  /** `get_player_color(pgn_data, player_name)`: KeyError when the name occurs nowhere
      in the text, 0 (White) when its White tag occurs, and 1 (Black) whenever the
      name occurs anywhere else, even outside any player tag. */
  function GetPlayerColor(pgn: string, playerName: string): (r: Result<int>)
    ensures r == Err(KeyError) <==> !Contains(pgn, playerName)
    ensures r == Ok(0) <==> Contains(pgn, WhiteTag(playerName))
    ensures r == Ok(1) <==> Contains(pgn, playerName) && !Contains(pgn, WhiteTag(playerName))
  {
    OccursIff(playerName, pgn);
    OccursIff(WhiteTag(playerName), pgn);
    WhiteTagHasName(pgn, playerName);
    if Occurs(playerName, pgn) then
      if Occurs(WhiteTag(playerName), pgn) then Ok(0) else Ok(1)
    else
      Err(KeyError)
  }

  /** What one pass of the loop decides for a game: skip it, or file the player's
      results under a speed class. */
  datatype Decision = Skipped | Reviewed(speed: string, results: PlayerResults)

  /** The decision of one pass, given the analyser's labels and clock readings for
      the game. The time control is read and classified first; a game without the
      tag therefore raises TypeError in the classification, before the guard that
      skips games whose base time is 0 can act. A reviewed game's label and think
      time lists line up. */
  function PlanReview(game: string, playerName: string, classes: seq<string>, stamps: seq<real>): (r: Result<Decision>)
    ensures r.Ok? && r.value.Reviewed? ==> |r.value.results.classificationList| == |r.value.results.turnTimeList|
  {
    match ExtractTimeControl(game)
    case Err(e) => Err(e)
    case Ok(NoTag) => Err(DetermineTimeControl(None).error)
    case Ok(Tag(startTime, increment)) =>
      if startTime == 0 then Ok(Skipped)
      else PlanPlayer(game, playerName, classes, stamps, DetermineTimeControl(Some(startTime)).value, startTime, increment)
  }

  /** The part of the decision after a timed game passed the zero guard: find the
      player's side, extract the player's results, and file them under `speed`. */
  function PlanPlayer(game: string, playerName: string, classes: seq<string>, stamps: seq<real>,
                      speed: string, startTime: int, increment: int): (r: Result<Decision>)
    ensures r.Ok? && r.value.Reviewed? ==> |r.value.results.classificationList| == |r.value.results.turnTimeList|
  {
    match GetPlayerColor(game, playerName)
    case Err(e) => Err(e)
    case Ok(color) =>
      match PlayerResultsOf(classes, stamps, color, startTime, increment)
      case Err(e) => Err(e)
      case Ok(pr) =>
        ResultListsAlign(classes, stamps, color, startTime, increment);
        Ok(Reviewed(speed, pr))
  }

  /** A malformed tag raises ValueError, a missing one TypeError, and a player whose
      name occurs nowhere in a timed game KeyError. */
  lemma PlanReviewErrors(game: string, playerName: string, classes: seq<string>, stamps: seq<real>)
    ensures ExtractTimeControl(game).Err? ==> PlanReview(game, playerName, classes, stamps) == Err(ValueError)
    ensures ExtractTimeControl(game) == Ok(NoTag) ==> PlanReview(game, playerName, classes, stamps) == Err(TypeError)
    ensures PlanReview(game, playerName, classes, stamps) == Err(KeyError) <==>
      (&& ExtractTimeControl(game).Ok? && ExtractTimeControl(game).value.Tag?
       && ExtractTimeControl(game).value.startTime != 0 && !Contains(game, playerName))
  {
    match ExtractTimeControl(game)
    case Err(_) =>
    case Ok(NoTag) =>
    case Ok(Tag(startTime, increment)) =>
      if startTime != 0 {
        PlanPlayerKeyError(game, playerName, classes, stamps, DetermineTimeControl(Some(startTime)).value, startTime, increment);
      }
  }

  /** After the zero guard, KeyError comes exactly from a name that occurs nowhere. */
  lemma PlanPlayerKeyError(game: string, playerName: string, classes: seq<string>, stamps: seq<real>,
                           speed: string, startTime: int, increment: int)
    ensures PlanPlayer(game, playerName, classes, stamps, speed, startTime, increment) == Err(KeyError)
      <==> !Contains(game, playerName)
  {
    var color := GetPlayerColor(game, playerName);
    if color.Ok? {
      assert PlayerResultsOf(classes, stamps, color.value, startTime, increment) != Err(KeyError);
    }
  }

  /** A game is skipped exactly when its tag gives a base time of 0. */
  lemma PlanReviewSkips(game: string, playerName: string, classes: seq<string>, stamps: seq<real>)
    ensures PlanReview(game, playerName, classes, stamps) == Ok(Skipped) <==>
      (ExtractTimeControl(game).Ok? && ExtractTimeControl(game).value.Tag? && ExtractTimeControl(game).value.startTime == 0)
  {
  }

  /** A reviewed game is filed under the speed class of its tag's base time. */
  lemma PlanReviewSpeed(game: string, playerName: string, classes: seq<string>, stamps: seq<real>)
    requires PlanReview(game, playerName, classes, stamps).Ok?
    requires PlanReview(game, playerName, classes, stamps).value.Reviewed?
    ensures ExtractTimeControl(game).Ok? && ExtractTimeControl(game).value.Tag?
    ensures PlanReview(game, playerName, classes, stamps).value.speed in SpeedNames
    ensures Ok(PlanReview(game, playerName, classes, stamps).value.speed)
      == DetermineTimeControl(Some(ExtractTimeControl(game).value.startTime))
  {
    var tag := ExtractTimeControl(game).value;
    PlanPlayerSpeed(game, playerName, classes, stamps, DetermineTimeControl(Some(tag.startTime)).value, tag.startTime, tag.increment);
  }

  /** The player step files under the speed class it is given. */
  lemma PlanPlayerSpeed(game: string, playerName: string, classes: seq<string>, stamps: seq<real>,
                        speed: string, startTime: int, increment: int)
    requires PlanPlayer(game, playerName, classes, stamps, speed, startTime, increment).Ok?
    ensures PlanPlayer(game, playerName, classes, stamps, speed, startTime, increment) != Ok(Skipped)
    ensures PlanPlayer(game, playerName, classes, stamps, speed, startTime, increment).value.speed == speed
  {
  }

  /** The three lists `extract_player_results` returns have the same length. */
  lemma ResultListsAlign(classes: seq<string>, stamps: seq<real>, color: int, startTime: int, increment: int)
    requires PlayerResultsOf(classes, stamps, color, startTime, increment).Ok?
    ensures var pr := PlayerResultsOf(classes, stamps, color, startTime, increment).value;
      |pr.classificationList| == |pr.timeStampsList| == |pr.turnTimeList|
  {
  }

  /** Whether the decision files results under `speed`. */
  predicate RoutesTo(plan: Result<Decision>, speed: string) {
    plan.Ok? && plan.value.Reviewed? && plan.value.speed == speed
  }

  /** A bucket's lists after the player's results are filed in it. */
  function AccumulateResults(categories: map<string, seq<real>>, results: PlayerResults): map<string, seq<real>>
    requires |results.classificationList| <= |results.turnTimeList|
  {
    Accumulate(categories, results.classificationList, results.turnTimeList)
  }

  /** The `match` on the speed class: `classify_time_stamps` into the one bucket of
      that class; a name outside the four files nothing. */
  method Route(speed: string, playerResults: PlayerResults,
               bullet: MoveClassification, blitz: MoveClassification,
               rapid: MoveClassification, classic: MoveClassification)
    requires bullet.Valid() && blitz.Valid() && rapid.Valid() && classic.Valid()
    requires bullet != blitz && bullet != rapid && bullet != classic
    requires blitz != rapid && blitz != classic && rapid != classic
    requires |playerResults.classificationList| <= |playerResults.turnTimeList|
    modifies bullet, blitz, rapid, classic
    ensures bullet.Valid() && blitz.Valid() && rapid.Valid() && classic.Valid()
    ensures speed == "bullet" ==> bullet.categories == AccumulateResults(old(bullet.categories), playerResults)
    ensures speed != "bullet" ==> bullet.categories == old(bullet.categories)
    ensures speed == "blitz" ==> blitz.categories == AccumulateResults(old(blitz.categories), playerResults)
    ensures speed != "blitz" ==> blitz.categories == old(blitz.categories)
    ensures speed == "rapid" ==> rapid.categories == AccumulateResults(old(rapid.categories), playerResults)
    ensures speed != "rapid" ==> rapid.categories == old(rapid.categories)
    ensures speed == "classic" ==> classic.categories == AccumulateResults(old(classic.categories), playerResults)
    ensures speed != "classic" ==> classic.categories == old(classic.categories)
    ensures bullet.thisTimeControlWasAnalysed == (old(bullet.thisTimeControlWasAnalysed) || speed == "bullet")
    ensures blitz.thisTimeControlWasAnalysed == (old(blitz.thisTimeControlWasAnalysed) || speed == "blitz")
    ensures rapid.thisTimeControlWasAnalysed == (old(rapid.thisTimeControlWasAnalysed) || speed == "rapid")
    ensures classic.thisTimeControlWasAnalysed == (old(classic.thisTimeControlWasAnalysed) || speed == "classic")
    ensures bullet.timeControlStr == old(bullet.timeControlStr) && blitz.timeControlStr == old(blitz.timeControlStr)
    ensures rapid.timeControlStr == old(rapid.timeControlStr) && classic.timeControlStr == old(classic.timeControlStr)
  {
    var outcome: Outcome;
    if speed == "bullet" {
      outcome := ClassifyTimeStamps(playerResults, bullet);
    } else if speed == "blitz" {
      outcome := ClassifyTimeStamps(playerResults, blitz);
    } else if speed == "rapid" {
      outcome := ClassifyTimeStamps(playerResults, rapid);
    } else if speed == "classic" {
      outcome := ClassifyTimeStamps(playerResults, classic);
    }
  }

  /** The decision for the game and the analyser's result. */
  function PlanFor(game: string, playerName: string, analysis: GameResults): Result<Decision>
    reads analysis
  {
    PlanReview(game, playerName, analysis.classificationList, analysis.GetTimeStampsList())
  }

  /** One pass of the main loop for `game`. `analysis` stands for the engine review
      of the game. The result is the exception raised, or whether the game was
      reviewed (false: skipped for a zero base time). Exactly the bucket of the game's
      speed class changes. */
  method ReviewGame(game: string, playerName: string, analysis: GameResults,
                    bullet: MoveClassification, blitz: MoveClassification,
                    rapid: MoveClassification, classic: MoveClassification)
    returns (r: Result<bool>)
    requires bullet.Valid() && blitz.Valid() && rapid.Valid() && classic.Valid()
    requires bullet != blitz && bullet != rapid && bullet != classic
    requires blitz != rapid && blitz != classic && rapid != classic
    modifies bullet, blitz, rapid, classic
    ensures bullet.Valid() && blitz.Valid() && rapid.Valid() && classic.Valid()
    ensures PlanFor(game, playerName, analysis).Err? ==> r == Err(PlanFor(game, playerName, analysis).error)
    ensures PlanFor(game, playerName, analysis).Ok? ==> r == Ok(PlanFor(game, playerName, analysis).value.Reviewed?)
    ensures RoutesTo(PlanFor(game, playerName, analysis), "bullet") ==>
      bullet.categories == AccumulateResults(old(bullet.categories), PlanFor(game, playerName, analysis).value.results)
    ensures !RoutesTo(PlanFor(game, playerName, analysis), "bullet") ==> bullet.categories == old(bullet.categories)
    ensures RoutesTo(PlanFor(game, playerName, analysis), "blitz") ==>
      blitz.categories == AccumulateResults(old(blitz.categories), PlanFor(game, playerName, analysis).value.results)
    ensures !RoutesTo(PlanFor(game, playerName, analysis), "blitz") ==> blitz.categories == old(blitz.categories)
    ensures RoutesTo(PlanFor(game, playerName, analysis), "rapid") ==>
      rapid.categories == AccumulateResults(old(rapid.categories), PlanFor(game, playerName, analysis).value.results)
    ensures !RoutesTo(PlanFor(game, playerName, analysis), "rapid") ==> rapid.categories == old(rapid.categories)
    ensures RoutesTo(PlanFor(game, playerName, analysis), "classic") ==>
      classic.categories == AccumulateResults(old(classic.categories), PlanFor(game, playerName, analysis).value.results)
    ensures !RoutesTo(PlanFor(game, playerName, analysis), "classic") ==> classic.categories == old(classic.categories)
    ensures bullet.thisTimeControlWasAnalysed
      == (old(bullet.thisTimeControlWasAnalysed) || RoutesTo(PlanFor(game, playerName, analysis), "bullet"))
    ensures blitz.thisTimeControlWasAnalysed
      == (old(blitz.thisTimeControlWasAnalysed) || RoutesTo(PlanFor(game, playerName, analysis), "blitz"))
    ensures rapid.thisTimeControlWasAnalysed
      == (old(rapid.thisTimeControlWasAnalysed) || RoutesTo(PlanFor(game, playerName, analysis), "rapid"))
    ensures classic.thisTimeControlWasAnalysed
      == (old(classic.thisTimeControlWasAnalysed) || RoutesTo(PlanFor(game, playerName, analysis), "classic"))
    ensures bullet.timeControlStr == old(bullet.timeControlStr) && blitz.timeControlStr == old(blitz.timeControlStr)
    ensures rapid.timeControlStr == old(rapid.timeControlStr) && classic.timeControlStr == old(classic.timeControlStr)
  {
    var plan := DecideReview(game, playerName, analysis);
    match plan
    case Err(e) =>
      r := Err(e);
    case Ok(Skipped) =>
      r := Ok(false);
    case Ok(Reviewed(speed, playerResults)) =>
      Route(speed, playerResults, bullet, blitz, rapid, classic);
      r := Ok(true);
  }

  /** The steps of one pass before any bucket is touched: read and classify the time
      control, skip a zero base time, find the player's side and extract the player's
      results. They compute exactly the decision `PlanFor` describes. */
  method DecideReview(game: string, playerName: string, analysis: GameResults) returns (plan: Result<Decision>)
    ensures plan == PlanFor(game, playerName, analysis)
  {
    match ExtractTimeControl(game)
    case Err(e) =>
      plan := Err(e);
    case Ok(NoTag) =>
      var timeControl := DetermineTimeControl(None);
      plan := Err(timeControl.error);
    case Ok(Tag(startTime, increment)) =>
      var timeControl := DetermineTimeControl(Some(startTime));
      if startTime == 0 {
        plan := Ok(Skipped);
      } else {
        plan := DecidePlayer(game, playerName, analysis, timeControl.value, startTime, increment);
      }
  }

  /** The steps after the zero guard: the player's side, then the player's results. */
  method DecidePlayer(game: string, playerName: string, analysis: GameResults, speed: string, startTime: int, increment: int)
    returns (plan: Result<Decision>)
    ensures plan == PlanPlayer(game, playerName, analysis.classificationList, analysis.GetTimeStampsList(), speed, startTime, increment)
  {
    var color := GetPlayerColor(game, playerName);
    if color.Err? {
      return Err(color.error);
    }
    var playerResults := ExtractPlayerResults(analysis, color.value, startTime, increment);
    if playerResults.Err? {
      return Err(playerResults.error);
    }
    return Ok(Reviewed(speed, playerResults.value));
  }
}
