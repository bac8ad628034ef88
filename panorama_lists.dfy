/**
 * The two image lists of the panorama dialog: the left list holds every
 * loaded image name, the right list the images to stitch, in stitching
 * order. The buttons move names between the lists and reorder the right
 * list. The row a button acts on is the list's current row when it is
 * clicked; where Qt moves the selection after an item is taken out is not
 * modelled, except where the handler sets it itself.
 */
module PanoramaLists {
  /** The sequence with position i removed (`takeItem(i)`). */
  function RemoveAt<T>(s: seq<T>, i: nat): (r: seq<T>)
    requires i < |s|
    ensures |r| == |s| - 1
    ensures forall k :: 0 <= k < i ==> r[k] == s[k]
    ensures forall k :: i <= k < |r| ==> r[k] == s[k + 1]
    ensures multiset(r) + multiset{s[i]} == multiset(s)
  {
    assert s == s[..i] + [s[i]] + s[i + 1..];
    s[..i] + s[i + 1..]
  }

  /** The sequence with x inserted before position i (`insertItem(i, x)`). */
  function InsertAt<T>(s: seq<T>, i: nat, x: T): (r: seq<T>)
    requires i <= |s|
    ensures |r| == |s| + 1 && r[i] == x
    ensures forall k :: 0 <= k < i ==> r[k] == s[k]
    ensures forall k :: i < k < |r| ==> r[k] == s[k - 1]
    ensures multiset(r) == multiset(s) + multiset{x}
  {
    assert s == s[..i] + s[i..];
    s[..i] + [x] + s[i..]
  }

  /** The enabled state of the dialog's four move buttons. */
  datatype Buttons = Buttons(up: bool, down: bool, add: bool, remove: bool)

  /**
   * `update_button_status`. A list has a selection only when its current
   * row is one of its items. Up is enabled exactly when a right item other
   * than the first is selected, Down when one other than the last is, and
   * the two move buttons when their list has a selected item: each enabled
   * button's handler then has the row it needs.
   */
  function ButtonStatus(leftCount: nat, leftRow: int, leftSelected: bool,
                        rightCount: nat, rightRow: int, rightSelected: bool): (b: Buttons)
    requires leftSelected ==> 0 <= leftRow < leftCount
    requires rightSelected ==> 0 <= rightRow < rightCount
    ensures b.up <==> rightSelected && 0 < rightRow < rightCount
    ensures b.down <==> rightSelected && 0 <= rightRow < rightCount - 1
    ensures b.add <==> leftSelected && 0 <= leftRow < leftCount
    ensures b.remove <==> rightSelected && 0 <= rightRow < rightCount
  {
    Buttons(!(!rightSelected || rightRow == 0),
            !(!rightSelected || rightRow == rightCount - 1),
            !(!leftSelected || leftCount == 0),
            !(!rightSelected || rightCount == 0))
  }

  class ImageLists {
    /** "All images". */
    var left: seq<string>
    /** "Images to stitch", in stitching order. */
    var right: seq<string>

    /** The dialog opens with every image name on the left, in the given order. */
    constructor (names: seq<string>)
      ensures left == names && right == []
    {
      left := names;
      right := [];
    }

    /** The names on both sides together. */
    ghost function Names(): multiset<string>
      reads this
    {
      multiset(left) + multiset(right)
    }

    /** `button_add_clicked`: the left item at the row moves to the end of the right list. */
    method Add(row: int)
      requires 0 <= row < |left|
      modifies this
      ensures left == RemoveAt(old(left), row) && right == old(right) + [old(left[row])]
      ensures Names() == old(Names())
    {
      var item := left[row];
      left := RemoveAt(left, row);
      right := right + [item];
    }

    /** `button_remove_clicked`: the right item at the row moves to the end of the left list. */
    method Remove(row: int)
      requires 0 <= row < |right|
      modifies this
      ensures right == RemoveAt(old(right), row) && left == old(left) + [old(right[row])]
      ensures Names() == old(Names())
    {
      var item := right[row];
      right := RemoveAt(right, row);
      left := left + [item];
    }

    /** `button_add_all_clicked`: the whole left list moves, in order, behind the right one. */
    method AddAll()
      modifies this
      ensures left == [] && right == old(right) + old(left)
      ensures Names() == old(Names())
    {
      var n := |left|;
      for i := 0 to n
        invariant left == old(left)[i..] && right == old(right) + old(left)[..i]
      {
        assert old(left)[..i + 1] == old(left)[..i] + [left[0]];
        right := right + [left[0]];
        left := RemoveAt(left, 0);
        assert left == old(left)[i + 1..];
      }
      assert old(left)[..n] == old(left);
    }

    /** `button_remove_all_clicked`: the whole right list moves, in order, behind the left one. */
    method RemoveAll()
      modifies this
      ensures right == [] && left == old(left) + old(right)
      ensures Names() == old(Names())
    {
      var n := |right|;
      for i := 0 to n
        invariant right == old(right)[i..] && left == old(left) + old(right)[..i]
      {
        assert old(right)[..i + 1] == old(right)[..i] + [right[0]];
        left := left + [right[0]];
        right := RemoveAt(right, 0);
        assert right == old(right)[i + 1..];
      }
      assert old(right)[..n] == old(right);
    }

    /**
     * `button_up_clicked`: the selected right item changes places with the
     * one above it, every other position is unchanged, and the selection
     * follows the item.
     */
    method Up(row: int) returns (selected: int)
      requires 0 < row < |right|
      modifies this`right
      ensures right == old(right)[row - 1 := old(right[row])][row := old(right[row - 1])]
      ensures multiset(right) == multiset(old(right))
      ensures selected == row - 1
    {
      var item := right[row];
      right := InsertAt(RemoveAt(right, row), row - 1, item);
      selected := row - 1;
    }

    /**
     * `button_down_clicked`: the selected right item changes places with the
     * one below it, every other position is unchanged, and the selection
     * follows the item.
     */
    method Down(row: int) returns (selected: int)
      requires 0 <= row < |right| - 1
      modifies this`right
      ensures right == old(right)[row := old(right[row + 1])][row + 1 := old(right[row])]
      ensures multiset(right) == multiset(old(right))
      ensures selected == row + 1
    {
      var item := right[row];
      right := InsertAt(RemoveAt(right, row), row + 1, item);
      selected := row + 1;
    }
  }
}
