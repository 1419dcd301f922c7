/** The list of free-text extra points: add a blank point, remove one, edit one. */
module ExtraPoints {
  import opened Optional
  import ListEdit

  function AddPoint(points: seq<string>): (r: seq<string>)
    ensures |r| == |points| + 1 && r[..|points|] == points && r[|points|] == ""
  {
    var r := points + [""];
    assert r[..|points|] == points;
    r
  }

  /** Removes the point at `index`; any other index leaves the list as it is. */
  function RemovePoint(points: seq<string>, index: int): (r: seq<string>)
    ensures 0 <= index < |points| ==> r == points[..index] + points[index + 1..]
    ensures !(0 <= index < |points|) ==> r == points
  {
    ListEdit.RemoveAt(points, index)
  }

  /** `newPoints[index] = value` on a copy of the list; see `ListEdit.SetAt`
      for indices outside the list. */
  function UpdatePoint(points: seq<string>, index: int, value: string): (r: Option<seq<string>>)
    ensures r.None? <==> index > |points|
    ensures 0 <= index < |points| ==> r.Some? && |r.value| == |points| && r.value[index] == value
    ensures r.Some? ==> |r.value| >= |points|
    ensures r.Some? ==> forall i | 0 <= i < |points| && i != index :: r.value[i] == points[i]
    ensures index == |points| ==> r == Some(AddPoint(points)[index := value])
    ensures index < 0 ==> r == Some(points)
  {
    var r := ListEdit.SetAt(points, index, value);
    assert index == |points| ==> r.value == AddPoint(points)[index := value];
    r
  }

  /** Adding a point and removing it again restores the list. */
  lemma AddThenRemove(points: seq<string>)
    ensures RemovePoint(AddPoint(points), |points|) == points
  {
    ListEdit.RemoveAppended(points, "");
  }

  /** Typing into the point just added is the same as appending the text. */
  lemma AddThenUpdate(points: seq<string>, value: string)
    ensures UpdatePoint(AddPoint(points), |points|, value) == Some(points + [value])
  {
    assert AddPoint(points)[|points| := value] == points + [value];
  }

  /** Editing a point back to its old text undoes the edit. */
  lemma UpdateRestore(points: seq<string>, index: int, value: string)
    requires 0 <= index < |points|
    ensures UpdatePoint(UpdatePoint(points, index, value).value, index, points[index]) == Some(points)
  {
    ListEdit.SetAtRestore(points, index, value);
  }
}
