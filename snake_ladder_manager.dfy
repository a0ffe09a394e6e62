/** The registry of snakes and ladders: the configured list and the lookup
    table built from it (Assets/Scripts/SnakeLadderManager.cs). */
module SnakeLadderManager {

  import opened Wrappers
  import opened SnakeLadderData

  /** The table that `InitializeSnakesAndLadders` builds from `list`: entries are
      taken in list order, an invalid entry is skipped and so is any entry whose
      start square is already in the table. */
  function BuildMap(list: seq<SnakeLadder>): (m: map<int, SnakeLadder>)
    decreases |list|
  {
    if list == [] then map[]
    else
      var m := BuildMap(list[..|list| - 1]);
      var sl := list[|list| - 1];
      if sl.IsValid() && sl.startSquare !in m then m[sl.startSquare := sl] else m
  }

  /** `list[k]` is a valid entry for square `s` and no earlier entry is one. */
  ghost predicate FirstValidAt(list: seq<SnakeLadder>, k: int, s: int) {
    && 0 <= k < |list|
    && list[k].IsValid() && list[k].startSquare == s
    && forall j :: 0 <= j < k ==> !(list[j].IsValid() && list[j].startSquare == s)
  }

  ghost predicate HasValidEntryFor(list: seq<SnakeLadder>, s: int) {
    exists k :: 0 <= k < |list| && list[k].IsValid() && list[k].startSquare == s
  }

  /** A square is in the table exactly when some valid entry starts there,
      and it then maps to the first such entry in list order. */
  lemma {:induction false} BuildMapFirstWins(list: seq<SnakeLadder>, s: int)
    ensures s in BuildMap(list) <==> HasValidEntryFor(list, s)
    ensures forall k :: FirstValidAt(list, k, s) ==> s in BuildMap(list) && BuildMap(list)[s] == list[k]
    decreases |list|
  {
    if list != [] {
      var init := list[..|list| - 1];
      var last := list[|list| - 1];
      BuildMapFirstWins(init, s);
      assert forall k :: 0 <= k < |init| ==> init[k] == list[k];
      if HasValidEntryFor(list, s) && !HasValidEntryFor(init, s) {
        var k :| 0 <= k < |list| && list[k].IsValid() && list[k].startSquare == s;
        assert k == |list| - 1;
      }
      forall k | FirstValidAt(list, k, s)
        ensures s in BuildMap(list) && BuildMap(list)[s] == list[k]
      {
        if k < |init| {
          assert FirstValidAt(init, k, s);
        } else {
          assert !HasValidEntryFor(init, s);
        }
      }
    }
  }

  /** Every table entry is keyed by its own start square, is valid, and comes from the list. */
  lemma {:induction false} BuildMapEntries(list: seq<SnakeLadder>)
    ensures forall s :: s in BuildMap(list) ==>
      BuildMap(list)[s].startSquare == s && BuildMap(list)[s].IsValid() && BuildMap(list)[s] in list
    decreases |list|
  {
    if list != [] {
      BuildMapEntries(list[..|list| - 1]);
    }
  }

  /** The table never holds more entries than the list. */
  lemma {:induction false} BuildMapSize(list: seq<SnakeLadder>)
    ensures |BuildMap(list)| <= |list|
    decreases |list|
  {
    if list != [] {
      BuildMapSize(list[..|list| - 1]);
    }
  }

  /** A valid entry for a square not yet in the table is added. */
  lemma BuildMapAppendNew(init: seq<SnakeLadder>, last: SnakeLadder)
    requires last.IsValid() && last.startSquare !in BuildMap(init)
    ensures BuildMap(init + [last]) == BuildMap(init)[last.startSquare := last]
  {
    assert (init + [last])[..|init|] == init;
  }

  /** With valid entries on distinct start squares, nothing is skipped:
      the table has one entry per list element, keyed by the start squares. */
  lemma {:induction false} BuildMapDistinct(list: seq<SnakeLadder>)
    requires forall k :: 0 <= k < |list| ==> list[k].IsValid()
    requires forall j, k :: 0 <= j < k < |list| ==> list[j].startSquare != list[k].startSquare
    ensures |BuildMap(list)| == |list|
    ensures BuildMap(list).Keys == set k | 0 <= k < |list| :: list[k].startSquare
    decreases |list|
  {
    if list != [] {
      var init := list[..|list| - 1];
      var last := list[|list| - 1];
      assert forall k :: 0 <= k < |init| ==> init[k] == list[k];
      BuildMapDistinct(init);
      StartSquaresOf(list);
      BuildMapAppendNew(init, last);
    }
  }

  /** The start squares of a list, split into those of all but the last entry and the last. */
  lemma StartSquaresOf(list: seq<SnakeLadder>)
    requires list != []
    requires forall j, k :: 0 <= j < k < |list| ==> list[j].startSquare != list[k].startSquare
    ensures var init := list[..|list| - 1];
            list == init + [list[|list| - 1]]
            && list[|list| - 1].startSquare !in (set k | 0 <= k < |init| :: init[k].startSquare)
            && (set k | 0 <= k < |list| :: list[k].startSquare)
               == (set k | 0 <= k < |init| :: init[k].startSquare) + {list[|list| - 1].startSquare}
  {
    var init := list[..|list| - 1];
    assert forall k :: 0 <= k < |init| ==> init[k] == list[k];
  }

  /** The fixed arrangement `CreateTraditionalSnakesAndLadders` installs: seven ladders, then eight snakes. */
  function TraditionalLayout(): (t: seq<SnakeLadder>)
    ensures |t| == 15
  {
    [ NewSnakeLadder(2, 23, true), NewSnakeLadder(8, 34, true), NewSnakeLadder(20, 77, true),
      NewSnakeLadder(32, 68, true), NewSnakeLadder(41, 79, true), NewSnakeLadder(74, 88, true),
      NewSnakeLadder(82, 100, true),
      NewSnakeLadder(29, 9, false), NewSnakeLadder(38, 15, false), NewSnakeLadder(47, 5, false),
      NewSnakeLadder(53, 33, false), NewSnakeLadder(62, 37, false), NewSnakeLadder(86, 54, false),
      NewSnakeLadder(92, 70, false), NewSnakeLadder(97, 25, false) ]
  }

  /** The traditional layout holds 7 ladders followed by 8 snakes, every one valid,
      with both ends inside 1..100. */
  lemma TraditionalLayoutKinds()
    ensures forall k :: 0 <= k < 7 ==> TraditionalLayout()[k].isLadder
    ensures forall k :: 7 <= k < 15 ==> !TraditionalLayout()[k].isLadder
    ensures forall k :: 0 <= k < 15 ==> TraditionalLayout()[k].IsValid()
    ensures forall k :: 0 <= k < 15 ==>
      1 <= TraditionalLayout()[k].startSquare <= 100 && 1 <= TraditionalLayout()[k].endSquare <= 100
  {
  }

  /** The position of a start square in the traditional layout, or -1. */
  function TraditionalIndexOf(square: int): int {
    if square == 2 then 0 else if square == 8 then 1 else if square == 20 then 2
    else if square == 32 then 3 else if square == 41 then 4 else if square == 74 then 5
    else if square == 82 then 6 else if square == 29 then 7 else if square == 38 then 8
    else if square == 47 then 9 else if square == 53 then 10 else if square == 62 then 11
    else if square == 86 then 12 else if square == 92 then 13 else if square == 97 then 14
    else -1
  }

  /** Every start square of the traditional layout is recognised at its own position,
      and no end square is recognised at all. */
  lemma TraditionalIndexOfLayout()
    ensures forall k :: 0 <= k < 15 ==> TraditionalIndexOf(TraditionalLayout()[k].startSquare) == k
    ensures forall k :: 0 <= k < 15 ==> TraditionalIndexOf(TraditionalLayout()[k].endSquare) == -1
  {
    var t := TraditionalLayout();
    forall k | 0 <= k < 15
      ensures TraditionalIndexOf(t[k].startSquare) == k && TraditionalIndexOf(t[k].endSquare) == -1
    {
      if k < 8 {
        if k < 4 { assert k == 0 || k == 1 || k == 2 || k == 3; }
        else { assert k == 4 || k == 5 || k == 6 || k == 7; }
      } else {
        if k < 12 { assert k == 8 || k == 9 || k == 10 || k == 11; }
        else { assert k == 12 || k == 13 || k == 14; }
      }
    }
  }

  /** No two entries of the traditional layout share a start square, and no entry
      ends where another starts, so one shortcut never leads onto another. */
  lemma TraditionalLayoutNoClashes()
    ensures forall j, k :: 0 <= j < k < 15 ==> TraditionalLayout()[j].startSquare != TraditionalLayout()[k].startSquare
    ensures forall j, k :: 0 <= j < 15 && 0 <= k < 15 ==> TraditionalLayout()[j].endSquare != TraditionalLayout()[k].startSquare
  {
    var t := TraditionalLayout();
    TraditionalIndexOfLayout();
    forall j, k | 0 <= j < k < 15
      ensures t[j].startSquare != t[k].startSquare
    {
      assert TraditionalIndexOf(t[j].startSquare) != TraditionalIndexOf(t[k].startSquare);
    }
    forall j, k | 0 <= j < 15 && 0 <= k < 15
      ensures t[j].endSquare != t[k].startSquare
    {
      assert TraditionalIndexOf(t[j].endSquare) != TraditionalIndexOf(t[k].startSquare);
    }
  }

  /** Built from the traditional layout, the table holds all 15 entries. */
  lemma TraditionalTableSize()
    ensures |BuildMap(TraditionalLayout())| == 15
  {
    TraditionalLayoutKinds();
    TraditionalLayoutNoClashes();
    BuildMapDistinct(TraditionalLayout());
  }

  /** The list after `AddSnakeLadder`: extended by `sl` exactly when `sl` is valid. */
  function Appended(list: seq<SnakeLadder>, sl: SnakeLadder): seq<SnakeLadder>
  {
    if sl.IsValid() then list + [sl] else list
  }

  class SnakeLadderManager {
    /** The configured list, in order. */
    var snakesAndLadders: seq<SnakeLadder>
    /** The lookup table: start square to entry. */
    var squareMap: map<int, SnakeLadder>

    /** A component with a configured list and an empty table, as before its first initialisation. */
    constructor (configured: seq<SnakeLadder>)
      ensures snakesAndLadders == configured && squareMap == map[]
    {
      snakesAndLadders := configured;
      squareMap := map[];
    }

    /** The table is the one the current list builds. */
    ghost predicate Consistent()
      reads this
    {
      squareMap == BuildMap(snakesAndLadders)
    }

    /** Clears the table and refills it from the list, skipping invalid entries
        and later duplicates of a start square. */
    method InitializeSnakesAndLadders()
      modifies this
      ensures snakesAndLadders == old(snakesAndLadders)
      ensures squareMap == BuildMap(snakesAndLadders)
    {
      squareMap := map[];
      var i := 0;
      while i < |snakesAndLadders|
        invariant 0 <= i <= |snakesAndLadders|
        invariant snakesAndLadders == old(snakesAndLadders)
        invariant squareMap == BuildMap(snakesAndLadders[..i])
      {
        var sl := snakesAndLadders[i];
        assert snakesAndLadders[..i + 1][..i] == snakesAndLadders[..i];
        if sl.IsValid() {
          if sl.startSquare !in squareMap {
            squareMap := squareMap[sl.startSquare := sl];
          }
        }
        i := i + 1;
      }
      assert snakesAndLadders[..i] == snakesAndLadders;
    }

    /** Whether a snake or ladder starts on `square`. */
    predicate HasSnakeOrLadder(square: int)
      reads this
      ensures Consistent() ==> (HasSnakeOrLadder(square) <==> HasValidEntryFor(snakesAndLadders, square))
    {
      BuildMapFirstWins(snakesAndLadders, square);
      square in squareMap
    }

    /** Where a piece landing on `square` ends up: the entry's end square,
        or `square` itself when nothing starts there. */
    function GetDestination(square: int): (dest: int)
      reads this
      ensures Consistent() ==> (dest != square <==> HasSnakeOrLadder(square))
      ensures Consistent() && HasSnakeOrLadder(square) ==>
        (squareMap[square].isLadder ==> dest > square) && (!squareMap[square].isLadder ==> dest < square)
      ensures forall k :: Consistent() && FirstValidAt(snakesAndLadders, k, square) ==>
        dest == snakesAndLadders[k].endSquare
    {
      BuildMapEntries(snakesAndLadders);
      BuildMapFirstWins(snakesAndLadders, square);
      if square in squareMap then squareMap[square].endSquare else square
    }

    /** The entry starting on `square`, or none (the source's null). */
    function GetSnakeLadder(square: int): (r: Option<SnakeLadder>)
      reads this
      ensures r.Some? <==> HasSnakeOrLadder(square)
      ensures Consistent() && r.Some? ==> r.value.startSquare == square && r.value.IsValid()
      ensures forall k :: Consistent() && FirstValidAt(snakesAndLadders, k, square) ==>
        r == Some(snakesAndLadders[k])
    {
      BuildMapEntries(snakesAndLadders);
      BuildMapFirstWins(snakesAndLadders, square);
      if square in squareMap then Some(squareMap[square]) else None
    }

    /** Appends a new entry and rebuilds the table when the entry is valid;
        an invalid entry changes nothing, not even a stale table. */
    method AddSnakeLadder(startSquare: int, endSquare: int, isLadder: bool)
      modifies this
      ensures snakesAndLadders == Appended(old(snakesAndLadders), NewSnakeLadder(startSquare, endSquare, isLadder))
      ensures NewSnakeLadder(startSquare, endSquare, isLadder).IsValid() ==> Consistent()
      ensures !NewSnakeLadder(startSquare, endSquare, isLadder).IsValid() ==> squareMap == old(squareMap)
    {
      var sl := NewSnakeLadder(startSquare, endSquare, isLadder);
      if sl.IsValid() {
        snakesAndLadders := snakesAndLadders + [sl];
        InitializeSnakesAndLadders();
      }
    }

    /** Replaces the list with the traditional layout and rebuilds the table. */
    method CreateTraditionalSnakesAndLadders()
      modifies this
      ensures snakesAndLadders == TraditionalLayout()
      ensures Consistent()
    {
      snakesAndLadders := [];
      AddTraditionalLadders();
      AddTraditionalSnakes();
      assert TraditionalLayout() == TraditionalLayout()[..7] + TraditionalLayout()[7..];
      InitializeSnakesAndLadders();
    }

    /** The first group of `CreateTraditionalSnakesAndLadders`: the seven ladders. */
    method AddTraditionalLadders()
      modifies this
      ensures snakesAndLadders == old(snakesAndLadders) + TraditionalLayout()[..7]
    {
      ghost var before := snakesAndLadders;
      AddSnakeLadder(2, 23, true);
      AddSnakeLadder(8, 34, true);
      AddSnakeLadder(20, 77, true);
      assert snakesAndLadders == before + TraditionalLayout()[..3];
      AddSnakeLadder(32, 68, true);
      AddSnakeLadder(41, 79, true);
      AddSnakeLadder(74, 88, true);
      AddSnakeLadder(82, 100, true);
    }

    /** The second group of `CreateTraditionalSnakesAndLadders`: the eight snakes. */
    method AddTraditionalSnakes()
      modifies this
      ensures snakesAndLadders == old(snakesAndLadders) + TraditionalLayout()[7..]
    {
      ghost var before := snakesAndLadders;
      AddSnakeLadder(29, 9, false);
      AddSnakeLadder(38, 15, false);
      AddSnakeLadder(47, 5, false);
      AddSnakeLadder(53, 33, false);
      assert snakesAndLadders == before + TraditionalLayout()[7..11];
      AddSnakeLadder(62, 37, false);
      AddSnakeLadder(86, 54, false);
      AddSnakeLadder(92, 70, false);
      AddSnakeLadder(97, 25, false);
    }

    /** Empties both the list and the table. */
    method ClearAllSnakesAndLadders()
      modifies this
      ensures snakesAndLadders == [] && squareMap == map[]
      ensures Consistent()
    {
      snakesAndLadders := [];
      squareMap := map[];
    }
  }
}
