/** The two records of Database_Game_Review_Classes.py: the analyser's per-game
    result (`GameResults`, only its time-control part) and the per-speed bucket of
    think times keyed by move label (`MoveClassification`). */
module ReviewClasses {
  import opened Wrappers

  /** The seven move labels a bucket keeps a list for. */
  const Labels: set<string> := {"blunder", "mistake", "inaccuracy", "good", "excellent", "best", "book"}

  /** The names a bucket may be created with (case matters). */
  const TimeControlNames: set<string> := {"Bullet", "Blitz", "Rapid", "Classic"}

  /** Every label mapped to an empty list. */
  function EmptyCategories(): (m: map<string, seq<real>>)
    ensures m.Keys == Labels
    ensures forall k :: k in m ==> m[k] == []
  {
    map k | k in Labels :: []
  }

  /** The analyser's result for one game. The engine-derived fields (moves, scores,
      Elo estimates, accuracies, centipawn losses, best moves, reviews) are only
      stored by the source and are not part of this model. */
  class GameResults {
    var classificationList: seq<string>
    /** `[start_time, time_increment, time_stamps_list]`. */
    var timeControl: (int, int, seq<real>)

    constructor (classificationList: seq<string>, startTime: int, timeIncrement: int, timeStampsList: seq<real>)
      ensures this.classificationList == classificationList
      ensures timeControl == (startTime, timeIncrement, timeStampsList)
    {
      this.classificationList := classificationList;
      timeControl := (startTime, timeIncrement, timeStampsList);
    }

    function GetStartTime(): int
      reads this
    {
      timeControl.0
    }

    function GetTimeIncrement(): int
      reads this
    {
      timeControl.1
    }

    function GetTimeStampsList(): seq<real>
      reads this
    {
      timeControl.2
    }
  }

  /** The three getters of a freshly built `GameResults` give back what it was built with. */
  method GettersReturnArguments(classificationList: seq<string>, startTime: int, timeIncrement: int, timeStampsList: seq<real>)
    returns (s: int, i: int, ts: seq<real>)
    ensures s == startTime && i == timeIncrement && ts == timeStampsList
  {
    var results := new GameResults(classificationList, startTime, timeIncrement, timeStampsList);
    s, i, ts := results.GetStartTime(), results.GetTimeIncrement(), results.GetTimeStampsList();
  }

  /** The think times of one speed class, one list per move label. */
  class MoveClassification {
    var categories: map<string, seq<real>>
    var thisTimeControlWasAnalysed: bool
    var timeControlStr: string

    /** The key set is always exactly the seven labels. */
    ghost predicate Valid()
      reads this
    {
      categories.Keys == Labels
    }

    /** `MoveClassification(time_control)` for an accepted name; `New` covers the raise. */
    constructor (timeControl: string)
      requires timeControl in TimeControlNames
      ensures Valid()
      ensures categories == EmptyCategories()
      ensures !thisTimeControlWasAnalysed
      ensures timeControlStr == timeControl
    {
      categories := EmptyCategories();
      thisTimeControlWasAnalysed := false;
      timeControlStr := timeControl;
    }

    /** Construction with the name check: a name outside the four raises KeyError. */
    static method New(timeControl: string) returns (r: Result<MoveClassification>)
      ensures r.Err? <==> timeControl !in TimeControlNames
      ensures r.Err? ==> r.error == KeyError
      ensures r.Ok? ==> fresh(r.value) && r.value.Valid() && r.value.categories == EmptyCategories()
      ensures r.Ok? ==> !r.value.thisTimeControlWasAnalysed && r.value.timeControlStr == timeControl
    {
      if timeControl in TimeControlNames {
        var bucket := new MoveClassification(timeControl);
        r := Ok(bucket);
      } else {
        r := Err(KeyError);
      }
    }

    /** `bucket[key]`: the list stored for a label, KeyError for anything else. */
    function Get(key: string): (r: Result<seq<real>>)
      reads this
      ensures Valid() ==> (r.Ok? <==> key in Labels)
      ensures r.Ok? ==> key in categories && r.value == categories[key]
      ensures r.Err? ==> r.error == KeyError
    {
      if key in categories then Ok(categories[key]) else Err(KeyError)
    }

    /** `bucket[key] = value`: replaces the list of one label; any other key raises
        KeyError and changes nothing. */
    method Set(key: string, value: seq<real>) returns (r: Outcome)
      requires Valid()
      modifies this
      ensures Valid()
      ensures r == Pass <==> key in Labels
      ensures r.Fail? ==> r.error == KeyError && categories == old(categories)
      ensures r == Pass ==> categories == old(categories)[key := value]
      ensures thisTimeControlWasAnalysed == old(thisTimeControlWasAnalysed)
      ensures timeControlStr == old(timeControlStr)
    {
      if key in categories {
        categories := categories[key := value];
        r := Pass;
      } else {
        r := Fail(KeyError);
      }
    }
  }
}
