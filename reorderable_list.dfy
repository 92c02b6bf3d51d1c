/**
  Keyboard reordering in the front end's reorderable list: the items and an
  optional active index. Clicking an item's handle toggles it as the active
  item; ArrowDown and ArrowUp swap the active item with its neighbour in place
  and move the active index along with it.
*/
module ReorderableList {
  import opened Wrappers

  datatype Key = ArrowDown | ArrowUp | OtherKey

  /** `Vec::swap(i, j)` on a sequence. */
  function Swapped<T>(s: seq<T>, i: nat, j: nat): (r: seq<T>)
    requires i < |s| && j < |s|
    ensures |r| == |s| && r[i] == s[j] && r[j] == s[i]
    ensures forall k :: 0 <= k < |s| && k != i && k != j ==> r[k] == s[k]
  {
    s[i := s[j]][j := s[i]]
  }

  /** Swapping two items permutes the list. */
  lemma SwappedPermutes<T>(s: seq<T>, i: nat, j: nat)
    requires i < |s| && j < |s|
    ensures multiset(Swapped(s, i, j)) == multiset(s)
  {
    var t := s[i := s[j]];
    assert multiset(t) == multiset(s) - multiset{s[i]} + multiset{s[j]};
    assert multiset(t[j := s[i]]) == multiset(t) - multiset{t[j]} + multiset{s[i]};
  }

  /** Swapping the same two items twice restores the list. */
  lemma SwappedTwice<T>(s: seq<T>, i: nat, j: nat)
    requires i < |s| && j < |s|
    ensures Swapped(Swapped(s, i, j), i, j) == s
  {
  }

  /** The list and its active index. */
  datatype ListState<T> = ListState(items: seq<T>, active: Option<nat>)

  /** An active index, if any, names an item of the list. */
  predicate InBounds<T>(st: ListState<T>) {
    st.active.Some? ==> st.active.value < |st.items|
  }

  /**
    The key handler's effect: with an active item, ArrowDown swaps it with
    the next one unless it is the last, ArrowUp swaps it with the previous one
    unless it is the first, and every other key does nothing. `None` is a
    panic: ArrowUp on an active index past the end of the list.
  */
  function AfterKey<T>(st: ListState<T>, key: Key): (r: Option<ListState<T>>)
    ensures r.None? <==> key.ArrowUp? && st.active.Some? && 0 < st.active.value && st.active.value >= |st.items|
    ensures r.Some? ==> |r.value.items| == |st.items| && multiset(r.value.items) == multiset(st.items)
    ensures r.Some? && InBounds(st) ==> InBounds(r.value)
  {
    match st.active
    case None => Some(st)
    case Some(i) =>
      match key
      case ArrowDown =>
        if i + 1 < |st.items| then
          SwappedPermutes(st.items, i, i + 1);
          Some(ListState(Swapped(st.items, i, i + 1), Some(i + 1)))
        else Some(st)
      case ArrowUp =>
        if i > 0 then
          if i < |st.items| then
            SwappedPermutes(st.items, i - 1, i);
            Some(ListState(Swapped(st.items, i - 1, i), Some(i - 1)))
          else None
        else Some(st)
      case OtherKey => Some(st)
  }

  /**
    Without an active item, for any other key, and at the ends of the list
    (ArrowDown on the last item, ArrowUp on the first) nothing changes.
  */
  lemma StillKeys<T>(st: ListState<T>, key: Key)
    requires || st.active.None? || key.OtherKey?
             || (key.ArrowDown? && st.active.value + 1 >= |st.items|)
             || (key.ArrowUp? && st.active.value == 0)
    ensures AfterKey(st, key) == Some(st)
  {
  }

  /** ArrowDown and then ArrowUp on an active item that is not the last restore list and index. */
  lemma DownThenUpRestores<T>(items: seq<T>, i: nat)
    requires i + 1 < |items|
    ensures AfterKey(ListState(items, Some(i)), ArrowDown).Some?
    ensures AfterKey(AfterKey(ListState(items, Some(i)), ArrowDown).value, ArrowUp)
      == Some(ListState(items, Some(i)))
  {
    var down := AfterKey(ListState(items, Some(i)), ArrowDown);
    assert down == Some(ListState(Swapped(items, i, i + 1), Some(i + 1)));
    SwappedTwice(items, i, i + 1);
  }

  /** ArrowUp and then ArrowDown on an active item that is not the first restore list and index. */
  lemma UpThenDownRestores<T>(items: seq<T>, i: nat)
    requires 0 < i < |items|
    ensures AfterKey(ListState(items, Some(i)), ArrowUp).Some?
    ensures AfterKey(AfterKey(ListState(items, Some(i)), ArrowUp).value, ArrowDown)
      == Some(ListState(items, Some(i)))
  {
    var up := AfterKey(ListState(items, Some(i)), ArrowUp);
    assert up == Some(ListState(Swapped(items, i - 1, i), Some(i - 1)));
    SwappedTwice(items, i - 1, i);
  }

  /** A moved item keeps travelling with the active index. */
  lemma ActiveItemMoves<T>(st: ListState<T>, key: Key)
    requires InBounds(st) && st.active.Some?
    ensures AfterKey(st, key).Some?
    ensures var r := AfterKey(st, key).value;
      r.active.Some? && r.items[r.active.value] == st.items[st.active.value]
  {
  }

  /** The list component's state: its items and the `active_input` signal. */
  class ReorderableList<T> {
    var items: seq<T>
    var active: Option<nat>

    constructor (items: seq<T>)
      ensures this.items == items && active.None?
    {
      this.items := items;
      active := None;
    }

    /** The click handler of item `i`'s handle: deselects `i` if it was active, else makes it active. */
    method Click(i: nat)
      modifies this`active
      ensures active == if old(active) == Some(i) then None else Some(i)
    {
      if active == Some(i) {
        active := None;
      } else {
        active := Some(i);
      }
    }

    /** The key handler; `panicked` reports an out-of-range swap, which leaves everything as it was. */
    method KeyDown(key: Key) returns (panicked: bool)
      modifies this
      ensures var r := AfterKey(old(ListState(items, active)), key);
        panicked == r.None? && (r.Some? ==> ListState(items, active) == r.value)
      ensures panicked ==> items == old(items) && active == old(active)
    {
      panicked := false;
      if active.Some? {
        var i := active.value;
        match key {
          case ArrowDown =>
            if i + 1 < |items| {
              items := items[i := items[i + 1]][i + 1 := items[i]];
              active := Some(i + 1);
            }
          case ArrowUp =>
            if i > 0 {
              if i < |items| {
                items := items[i - 1 := items[i]][i := items[i - 1]];
                active := Some(i - 1);
              } else {
                panicked := true;
              }
            }
          case OtherKey =>
        }
      }
    }
  }
}
