/** The array edits both list editors perform on a copy of their list:
    append, remove-by-position (`filter` on the index) and positional update. */
module ListEdit {
  import opened Optional

  /** `xs.filter((_, i) => i !== index)`: the elements whose position is not
      `index`; positions outside the list remove nothing. */
  function RemoveAt<T>(xs: seq<T>, index: int): (ys: seq<T>)
    ensures 0 <= index < |xs| ==> ys == xs[..index] + xs[index + 1..]
    ensures !(0 <= index < |xs|) ==> ys == xs
    decreases |xs|
  {
    if |xs| == 0 then []
    else
      var rest := RemoveAt(xs[1..], index - 1);
      if index == 0 then rest else [xs[0]] + rest
  }

  /** Removal keeps the order of the survivors and closes the gap. */
  lemma RemoveAtShifts<T>(xs: seq<T>, index: int, i: int)
    requires 0 <= index < |xs| && 0 <= i < |xs| - 1
    ensures |RemoveAt(xs, index)| == |xs| - 1
    ensures RemoveAt(xs, index)[i] == if i < index then xs[i] else xs[i + 1]
  {
  }

  /** Removal only drops elements: whatever is left was in the list before. */
  lemma RemoveAtKeepsMembers<T>(xs: seq<T>, index: int)
    ensures forall i | 0 <= i < |RemoveAt(xs, index)| :: RemoveAt(xs, index)[i] in xs
  {
    forall i | 0 <= i < |RemoveAt(xs, index)|
      ensures RemoveAt(xs, index)[i] in xs
    {
      if 0 <= index < |xs| {
        RemoveAtShifts(xs, index, i);
      }
    }
  }

  /** Appending an element and removing it again restores the list. */
  lemma RemoveAppended<T>(xs: seq<T>, x: T)
    ensures RemoveAt(xs + [x], |xs|) == xs
  {
    assert (xs + [x])[..|xs|] == xs;
  }

  /** `copy[index] = value` on a JavaScript array copy. A position inside the
      list is replaced, the position just past the end appends, a negative
      position sets a non-element property and leaves the elements alone.
      A position further out would leave holes, which a sequence cannot
      hold: `None`. */
  function SetAt<T>(xs: seq<T>, index: int, value: T): (r: Option<seq<T>>)
    ensures r.None? <==> index > |xs|
    ensures r.Some? ==> |r.value| == (if index == |xs| then |xs| + 1 else |xs|)
    ensures r.Some? && index >= 0 ==> r.value[index] == value
    ensures r.Some? ==> forall i | 0 <= i < |xs| && i != index :: r.value[i] == xs[i]
    ensures index < 0 ==> r == Some(xs)
  {
    if index < 0 then Some(xs)
    else if index < |xs| then Some(xs[index := value])
    else if index == |xs| then Some(xs + [value])
    else None
  }

  /** Writing back the old value undoes an update inside the list. */
  lemma SetAtRestore<T>(xs: seq<T>, index: int, value: T)
    requires 0 <= index < |xs|
    ensures SetAt(xs, index, value).Some?
    ensures SetAt(SetAt(xs, index, value).value, index, xs[index]) == Some(xs)
  {
    assert xs[index := value][index := xs[index]] == xs;
  }

  /** Of two updates at the same position the later one wins. */
  lemma SetAtTwice<T>(xs: seq<T>, index: int, first: T, second: T)
    requires 0 <= index < |xs|
    ensures SetAt(SetAt(xs, index, first).value, index, second) == SetAt(xs, index, second)
  {
    assert xs[index := first][index := second] == xs[index := second];
  }
}
