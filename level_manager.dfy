/** Level navigation: a cursor over an ordered list of levels. */
module Levels {
  import opened Types

  /** The position of the first level with identifier `id` in `levels` at or after
      `from`. */
  function FirstWithIdFrom(levels: seq<Level>, id: string, from: nat): (r: Option<nat>)
    requires from <= |levels|
    ensures r.Some? ==> from <= r.value < |levels| && levels[r.value].id == id
    ensures r.Some? ==> forall j :: from <= j < r.value ==> levels[j].id != id
    ensures r.None? ==> forall j :: from <= j < |levels| ==> levels[j].id != id
    decreases |levels| - from
  {
    if from == |levels| then None
    else if levels[from].id == id then Some(from)
    else FirstWithIdFrom(levels, id, from + 1)
  }

  /** The position of the first level with identifier `id`: `findIndex`. */
  function FirstWithId(levels: seq<Level>, id: string): (r: Option<nat>)
    ensures r.Some? <==> exists j :: 0 <= j < |levels| && levels[j].id == id
    ensures r.Some? ==> r.value < |levels| && levels[r.value].id == id &&
                        forall j :: 0 <= j < r.value ==> levels[j].id != id
  {
    FirstWithIdFrom(levels, id, 0)
  }

  class LevelManager {
    const levels: seq<Level>
    var currentLevelIndex: int

    /** The cursor lies on a level, or at 0 when there is none. */
    ghost predicate Valid()
      reads this
    {
      0 <= currentLevelIndex && (currentLevelIndex < |levels| || currentLevelIndex == 0)
    }

    constructor (levels: seq<Level>)
      ensures Valid() && this.levels == levels && currentLevelIndex == 0
    {
      this.levels := levels;
      currentLevelIndex := 0;
    }

    /** getCurrentLevel: the level under the cursor (undefined for an empty list). */
    method GetCurrentLevel() returns (r: Option<Level>)
      requires Valid()
      ensures r.Some? <==> |levels| > 0
      ensures r.Some? ==> r.value == levels[currentLevelIndex]
    {
      if currentLevelIndex < |levels| {
        r := Some(levels[currentLevelIndex]);
      } else {
        r := None;
      }
    }

    /** getLevelById: the first level carrying `id`. */
    method GetLevelById(id: string) returns (r: Option<Level>)
      ensures var k := FirstWithId(levels, id);
              r == if k.Some? then Some(levels[k.value]) else None
    {
      var i := 0;
      while i < |levels|
        invariant 0 <= i <= |levels|
        invariant forall j :: 0 <= j < i ==> levels[j].id != id
      {
        if levels[i].id == id {
          return Some(levels[i]);
        }
        i := i + 1;
      }
      return None;
    }

    /** hasNextLevel: there is no next level exactly when the list is empty or the
        cursor is on its last level. */
    function HasNextLevel(): (b: bool)
      reads this
      requires Valid()
      ensures b ==> currentLevelIndex + 1 < |levels|
      ensures !b <==> |levels| == 0 || currentLevelIndex == |levels| - 1
    {
      currentLevelIndex < |levels| - 1
    }

    /** loadLevel: on a known id, move the cursor to its first occurrence and return
        that level; otherwise return nothing and leave the cursor alone. */
    method LoadLevel(id: string) returns (r: Option<Level>)
      requires Valid()
      modifies this
      ensures Valid()
      ensures var k := FirstWithId(levels, id);
              (k.Some? ==> r == Some(levels[k.value]) && currentLevelIndex == k.value) &&
              (k.None? ==> r.None? && currentLevelIndex == old(currentLevelIndex))
    {
      r := GetLevelById(id);
      if r.Some? {
        var index := -1;
        var i := 0;
        while i < |levels| && index == -1
          invariant 0 <= i <= |levels|
          invariant index == -1 ==> forall j :: 0 <= j < i ==> levels[j].id != id
          invariant index != -1 ==> FirstWithId(levels, id) == Some(index)
        {
          if levels[i].id == id {
            index := i;
          }
          i := i + 1;
        }
        if index != -1 {
          currentLevelIndex := index;
        }
      }
    }

    /** loadNextLevel: advance the cursor by one when a next level exists. */
    method LoadNextLevel() returns (r: Option<Level>)
      requires Valid()
      modifies this
      ensures Valid()
      ensures r.Some? <==> old(HasNextLevel())
      ensures old(HasNextLevel()) ==> currentLevelIndex == old(currentLevelIndex) + 1 &&
                                      r == Some(levels[currentLevelIndex])
      ensures !old(HasNextLevel()) ==> currentLevelIndex == old(currentLevelIndex)
    {
      if currentLevelIndex < |levels| - 1 {
        currentLevelIndex := currentLevelIndex + 1;
        r := GetCurrentLevel();
        return;
      }
      r := None;
    }

    function GetCurrentLevelIndex(): (i: int)
      reads this
      requires Valid()
      ensures 0 <= i && (|levels| > 0 ==> i < |levels|)
    {
      currentLevelIndex
    }

    function GetTotalLevels(): (n: nat)
      ensures n == |levels|
    {
      |levels|
    }
  }

  /** With distinct identifiers, looking up the identifier of the level at i finds
      exactly position i, so loadLevel moves the cursor there. */
  lemma {:induction false} DistinctIdsLookup(levels: seq<Level>, i: nat, from: nat)
    requires from <= i < |levels|
    requires forall a, b :: 0 <= a < b < |levels| ==> levels[a].id != levels[b].id
    ensures FirstWithIdFrom(levels, levels[i].id, from) == Some(i)
    decreases i - from
  {
    if from < i {
      DistinctIdsLookup(levels, i, from + 1);
    }
  }
}
