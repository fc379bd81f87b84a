/** Shared constants of the behaviour-tree code: status codes, the
    "do nothing" action and the compass maps between direction names and
    movement codes. */
module Utils {

  /** Status codes returned by every node (an int, as in the source). */
  const SUCCESS: int := 1
  const FAILURE: int := 0
  const RUNNING: int := -1

  /** The "do nothing" action. */
  const STAND: int := 4

  /** Compass name to movement code, numbered clockwise from north. */
  const DirToIdx: map<string, int> := map["north" := 0, "east" := 1, "south" := 2, "west" := 3]

  /** Movement code to compass name. */
  const IdxToDir: map<int, string> := map[0 := "north", 1 := "east", 2 := "south", 3 := "west"]

  /** The four movement codes. */
  predicate IsMoveCode(a: int) { 0 <= a < 4 }

  /** The three status values are pairwise distinct. */
  lemma StatusDistinct()
    ensures SUCCESS != FAILURE && SUCCESS != RUNNING && FAILURE != RUNNING
  {
  }

  /** The two direction maps are inverse bijections between the four names
      and the four movement codes. */
  lemma DirMapsInverse()
    ensures forall d :: d in DirToIdx ==> DirToIdx[d] in IdxToDir && IdxToDir[DirToIdx[d]] == d
    ensures forall i :: i in IdxToDir ==> IdxToDir[i] in DirToIdx && DirToIdx[IdxToDir[i]] == i
  {
    assert DirToIdx.Keys == {"north", "east", "south", "west"};
    assert IdxToDir.Keys == {0, 1, 2, 3};
  }

  /** The names of one table are the values of the other, and back. */
  lemma DirMapsSameSets()
    ensures DirToIdx.Keys == IdxToDir.Values && IdxToDir.Keys == DirToIdx.Values
  {
    assert DirToIdx.Keys == {"north", "east", "south", "west"};
    assert IdxToDir.Keys == {0, 1, 2, 3};
  }

  /** The direction indices are exactly the movement codes. */
  lemma IndicesAreMoveCodes()
    ensures forall i :: i in IdxToDir <==> IsMoveCode(i)
  {
    assert IdxToDir.Keys == {0, 1, 2, 3};
  }

  /** The numbering runs clockwise: each code plus one (mod 4) is the next
      direction clockwise, and the code plus two is the opposite direction. */
  lemma DirectionsClockwise()
    ensures DirToIdx["north"] == 0
    ensures IdxToDir[(DirToIdx["north"] + 1) % 4] == "east"
    ensures IdxToDir[(DirToIdx["east"] + 1) % 4] == "south"
    ensures IdxToDir[(DirToIdx["south"] + 1) % 4] == "west"
    ensures IdxToDir[(DirToIdx["west"] + 1) % 4] == "north"
    ensures IdxToDir[(DirToIdx["north"] + 2) % 4] == "south"
    ensures IdxToDir[(DirToIdx["east"] + 2) % 4] == "west"
  {
  }

  /** STAND is not a movement code, while every direction maps to one. */
  lemma StandIsNotAMove()
    ensures !IsMoveCode(STAND)
    ensures forall d :: d in DirToIdx ==> IsMoveCode(DirToIdx[d])
    ensures forall d :: d in DirToIdx ==> DirToIdx[d] != STAND
  {
  }
}
