/**
 * The growable arrays of bk.c: a struct with `items`, `len` and `cap`, grown by the `push_da`
 * and `print_string` macros. `realloc` is modelled as allocating a larger array and copying
 * the items in use; the capacity arithmetic is the source's.
 */
module Buffer {

  class DynArray<T(0)>
  {
    var items: array<T>
    var len: nat
    var cap: nat

    /** `items` holds `cap` slots, of which the first `len` are in use. */
    ghost predicate Valid()
      reads this
    {
      items.Length == cap && len <= cap
    }

    /** The items in use, in order. */
    function Contents(): seq<T>
      reads this, items
      requires Valid()
    {
      items[..len]
    }

    /** A zero-initialised array, as `= {0}` leaves it: nothing in use and no capacity. */
    constructor Empty()
      ensures Valid() && fresh(items)
      ensures Contents() == [] && cap == 0
    {
      items := new T[0];
      len, cap := 0, 0;
    }

    /** realloc: move the items in use into a fresh array of `newCap` slots. */
    method Realloc(newCap: nat)
      requires Valid() && len <= newCap
      modifies this
      ensures len == old(len) && cap == old(cap)
      ensures fresh(items) && items.Length == newCap
      ensures items[..len] == old(items[..len])
    {
      var grown := new T[newCap];
      var i := 0;
      while i < len
        invariant 0 <= i <= len <= grown.Length
        invariant grown[..i] == items[..i]
        modifies grown
      {
        grown[i] := items[i];
        i := i + 1;
      }
      items := grown;
    }

    /**
     * push_da: when the slot after the last one in use is the last slot or beyond, double the
     * capacity (2 when it was 0); then store `item` at index `len` and bump `len`.
     */
    method PushDa(item: T)
      requires Valid()
      modifies this, items
      ensures Valid()
      ensures Contents() == old(Contents()) + [item]
      ensures old(len) + 1 >= old(cap) ==> cap == (if old(cap) > 0 then 2 * old(cap) else 2)
      ensures old(len) + 1 < old(cap) ==> cap == old(cap)
      ensures old(len) < old(cap) || old(cap) == 0 ==> len < cap
    {
      if len + 1 >= cap {
        var newCap := if cap > 0 then cap * 2 else 2;
        Realloc(newCap);
        cap := newCap;
      }
      items[len] := item;
      len := len + 1;
    }

    /**
     * print_string, with the formatted text `s` given: when `cap <= len + |s|`, grow by
     * `|s| + 8 - |s| % 8`; then copy `s` after the items in use, without a terminator.
     */
    method PrintString(s: seq<T>)
      requires Valid()
      modifies this, items
      ensures Valid() && (items == old(items) || fresh(items))
      ensures Contents() == old(Contents()) + s
      ensures old(cap) <= old(len) + |s| ==> cap == old(cap) + |s| + 8 - |s| % 8
      ensures old(cap) > old(len) + |s| ==> cap == old(cap)
      ensures cap > len
    {
      if cap <= |s| + len {
        var newCap := cap + |s| + 8 - |s| % 8;
        Realloc(newCap);
        cap := newCap;
      }
      ghost var before := old(Contents());
      assert items[..len] == before;
      var i := 0;
      while i < |s|
        invariant 0 <= i <= |s| && len + |s| < items.Length
        invariant items[..len + i] == before + s[..i]
        modifies items
      {
        items[len + i] := s[i];
        assert s[..i + 1] == s[..i] + [s[i]];
        i := i + 1;
      }
      assert s[..i] == s;
      len := len + |s|;
    }
  }
}
