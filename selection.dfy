/** The selection list shown by the image adapter: an ordered list of image
    URIs that the user reorders by dragging and shortens with a remove button.
    The list object is shared between the adapter and the main screen. */
module Selection {

  /** An opaque image reference (a content URI). */
  datatype Uri = Uri(path: string)

  /** RecyclerView.NO_POSITION: the position of a holder that is not bound to an item. */
  const NO_POSITION: int := -1

  // ---------------------------------------------------------------------------
  // Value-level specification of the list operations
  // ---------------------------------------------------------------------------

  /** The list after `removeAt(i)`. */
  function Removed<T>(s: seq<T>, i: nat): seq<T>
    requires i < |s|
  {
    s[..i] + s[i + 1..]
  }

  /** The list after `add(i, x)`. */
  function Inserted<T>(s: seq<T>, i: nat, x: T): seq<T>
    requires i <= |s|
  {
    s[..i] + [x] + s[i..]
  }

  /** The list after `moveItem(from, to)` with both positions in range:
      remove the element at `from`, then insert it at `to`. */
  function Moved<T>(s: seq<T>, from: nat, to: nat): seq<T>
    requires from < |s| && to < |s|
  {
    Inserted(Removed(s, from), to, s[from])
  }

  /** Where each element of a moved list comes from, stated without reference
      to removal or insertion: the target slot holds the moved element, the
      slots between the two positions are shifted by one towards `from`, and
      every other slot is untouched. */
  function MovedSource(from: nat, to: nat, k: nat): nat
  {
    if k == to then from
    else if from < to && from <= k < to then k + 1
    else if to < k <= from then k - 1
    else k
  }

  lemma RemovedAt<T>(s: seq<T>, i: nat, k: nat)
    requires i < |s| && k < |s| - 1
    ensures |Removed(s, i)| == |s| - 1
    ensures Removed(s, i)[k] == if k < i then s[k] else s[k + 1]
  {
  }

  /** Removing keeps the other elements, in their original order, and loses
      exactly one occurrence of the removed element. */
  lemma RemovedMultiset<T>(s: seq<T>, i: nat)
    requires i < |s|
    ensures multiset(Removed(s, i)) + multiset{s[i]} == multiset(s)
  {
    assert s == s[..i] + [s[i]] + s[i + 1..];
  }

  lemma InsertedAt<T>(s: seq<T>, i: nat, x: T, k: nat)
    requires i <= |s| && k <= |s|
    ensures |Inserted(s, i, x)| == |s| + 1
    ensures Inserted(s, i, x)[k] == if k < i then s[k] else if k == i then x else s[k - 1]
  {
  }

  /** Every slot of a moved list holds the element named by `MovedSource`. */
  lemma MovedAt<T>(s: seq<T>, from: nat, to: nat, k: nat)
    requires from < |s| && to < |s| && k < |s|
    ensures |Moved(s, from, to)| == |s|
    ensures MovedSource(from, to, k) < |s|
    ensures Moved(s, from, to)[k] == s[MovedSource(from, to, k)]
  {
  }

  /** A valid move keeps the length and the multiset of elements: it is a permutation. */
  lemma MovedIsPermutation<T>(s: seq<T>, from: nat, to: nat)
    requires from < |s| && to < |s|
    ensures |Moved(s, from, to)| == |s|
    ensures multiset(Moved(s, from, to)) == multiset(s)
  {
    var r := Removed(s, from);
    RemovedMultiset(s, from);
    assert Inserted(r, to, s[from]) == r[..to] + [s[from]] + r[to..];
    assert r == r[..to] + r[to..];
  }

  /** Moving an element onto its own position changes nothing. */
  lemma MovedToSelf<T>(s: seq<T>, i: nat)
    requires i < |s|
    ensures Moved(s, i, i) == s
  {
  }

  /** Moving back from `to` to `from` restores the original list. */
  lemma MovedBack<T>(s: seq<T>, from: nat, to: nat)
    requires from < |s| && to < |s|
    ensures Moved(Moved(s, from, to), to, from) == s
  {
    var m := Moved(s, from, to);
    MovedAt(s, from, to, 0);
    forall k | 0 <= k < |s|
      ensures Moved(m, to, from)[k] == s[k]
    {
      MovedAt(m, to, from, k);
      MovedAt(s, from, to, MovedSource(to, from, k));
    }
  }

  // ---------------------------------------------------------------------------
  // The mutable list shared by the adapter and the main screen
  // ---------------------------------------------------------------------------

  /** Kotlin's `MutableList<Uri>`, reduced to the operations the core uses. */
  class UriList {
    var items: seq<Uri>

    constructor ()
      ensures items == []
    {
      items := [];
    }

    /** `removeAt(index)`: returns the element and closes the gap. */
    method RemoveAt(index: nat) returns (x: Uri)
      requires index < |items|
      modifies this
      ensures x == old(items[index])
      ensures items == Removed(old(items), index)
    {
      x := items[index];
      items := items[..index] + items[index + 1..];
    }

    /** `add(index, element)`: inserts before the element currently at `index`. */
    method Add(index: nat, x: Uri)
      requires index <= |items|
      modifies this
      ensures items == Inserted(old(items), index, x)
    {
      items := items[..index] + [x] + items[index..];
    }

    method Clear()
      modifies this
      ensures items == []
    {
      items := [];
    }

    method AddAll(xs: seq<Uri>)
      modifies this
      ensures items == old(items) + xs
    {
      items := items + xs;
    }
  }

  /** What the remove button's click handler did. */
  datatype RemoveOutcome =
    | RemovedItem(position: nat)  // the item was removed and notifyItemRemoved sent
    | NotBound                    // the holder was at NO_POSITION: nothing happens
    | IndexOutOfBounds            // removeAt threw (uncaught in the source); the list is unchanged

  /** The list adapter. It holds the very list object of the main screen, so
      its changes are the selection's changes. */
  class ImageAdapter {
    const imageUris: UriList

    constructor (imageUris: UriList)
      ensures this.imageUris == imageUris
    {
      this.imageUris := imageUris;
    }

    /** `getItemCount()`: the number of rows the view shows. */
    function GetItemCount(): (n: int)
      reads imageUris
      ensures n == |imageUris.items|
    {
      |imageUris.items|
    }

    /** Drag-and-drop reordering: out-of-range positions are ignored; otherwise
        the item at `fromPosition` is removed and re-inserted at `toPosition`. */
    method MoveItem(fromPosition: int, toPosition: int)
      modifies imageUris
      ensures var n := |old(imageUris.items)|;
        if 0 <= fromPosition < n && 0 <= toPosition < n
        then imageUris.items == Moved(old(imageUris.items), fromPosition, toPosition)
        else imageUris.items == old(imageUris.items)
      ensures GetItemCount() == old(GetItemCount())
      ensures multiset(imageUris.items) == multiset(old(imageUris.items))
    {
      if fromPosition < 0 || fromPosition >= |imageUris.items| ||
         toPosition < 0 || toPosition >= |imageUris.items| {
        return;
      }
      ghost var before := imageUris.items;
      var movedItem := imageUris.RemoveAt(fromPosition);
      imageUris.Add(toPosition, movedItem);
      MovedIsPermutation(before, fromPosition, toPosition);
    }

    /** The remove button of the row at `currentPosition` (the holder's adapter
        position at click time). */
    method OnRemoveClicked(currentPosition: int) returns (outcome: RemoveOutcome)
      modifies imageUris
      ensures currentPosition == NO_POSITION <==> outcome == NotBound
      ensures outcome.RemovedItem? <==> 0 <= currentPosition < |old(imageUris.items)|
      ensures outcome.RemovedItem? ==>
                outcome.position == currentPosition &&
                imageUris.items == Removed(old(imageUris.items), currentPosition) &&
                GetItemCount() == old(GetItemCount()) - 1
      ensures !outcome.RemovedItem? ==> imageUris.items == old(imageUris.items)
    {
      if currentPosition != NO_POSITION {
        if 0 <= currentPosition < |imageUris.items| {
          var _ := imageUris.RemoveAt(currentPosition);
          outcome := RemovedItem(currentPosition);
        } else {
          outcome := IndexOutOfBounds;
        }
      } else {
        outcome := NotBound;
      }
    }
  }
}
