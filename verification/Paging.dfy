/** LIMIT and OFFSET: one window function behind SQL paging, sortAndLimit's slicing and RelatedAsOf's loop. */
module Paging {
  /** Skip offset elements, then keep at most limit of them; limit 0 keeps them all. */
  function Window<T>(s: seq<T>, offset: nat, limit: nat): seq<T> {
    if offset >= |s| then []
    else if limit == 0 || offset + limit >= |s| then s[offset..]
    else s[offset..offset + limit]
  }

  /** The first count pages of the given size, one after another. */
  function Pages<T>(s: seq<T>, size: nat, count: nat): seq<T> {
    if count == 0 then [] else Pages(s, size, count - 1) + Window(s, (count - 1) * size, size)
  }

  /** Consecutive pages tile the list: no gap, no overlap, nothing past the end. */
  lemma {:induction false} PagesTile<T>(s: seq<T>, size: nat, count: nat)
    requires 0 < size
    ensures Pages(s, size, count) == if count * size <= |s| then s[..count * size] else s
  {
    if count > 0 {
      PagesTile(s, size, count - 1);
      assert count * size == (count - 1) * size + size;
    }
  }

  /** The window is one slice. */
  lemma WindowIsSlice<T>(s: seq<T>, offset: nat, limit: nat)
    ensures var from := if offset >= |s| then |s| else offset;
            var to := if 0 < limit < |s| - from then from + limit else |s|;
            Window(s, offset, limit) == s[from..to]
  {
  }

  lemma WindowGrows<T>(m: seq<T>, x: T, offset: nat)
    ensures Window(m + [x], offset, 0) == if |m| < offset then [] else Window(m, offset, 0) + [x]
    ensures |m| < offset ==> Window(m, offset, 0) == []
  {
  }

  /** Once the open window is full, what comes later does not matter. */
  lemma WindowIsFull<T>(m: seq<T>, all: seq<T>, offset: nat, limit: nat)
    requires m <= all && 0 < limit == |Window(m, offset, 0)|
    ensures Window(all, offset, limit) == Window(m, offset, 0)
  {
  }
}
