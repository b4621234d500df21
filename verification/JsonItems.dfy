/** The container behind lists and objects: an array that grows when there is no room left. */
module JsonItems {
  const MAX_ROOM := 60000

  class Items<T(0)> {
    var l: array<T>
    var lsize: nat
    var lremain: nat

    /** The 16-bit counter of free places is exact, and far from overflowing. */
    ghost predicate Valid()
      reads this
    {
      lsize + lremain == l.Length && lremain <= MAX_ROOM < 0x10000
    }

    function Contents(): seq<T>
      requires Valid()
      reads this, l
    {
      l[..lsize]
    }

    constructor ()
      ensures Valid() && Contents() == [] && fresh(l)
    {
      l, lsize, lremain := new T[0], 0, 0;
    }

    method EmplaceBack(v: T)
      requires Valid()
      modifies this, l
      ensures Valid() && Contents() == old(Contents()) + [v] && (l == old(l) || fresh(l))
    {
      if lremain == 0 {
        var newSize := lsize + lsize;
        if newSize - lsize > MAX_ROOM {
          newSize := lsize + MAX_ROOM;
        }
        if newSize < 4 {
          newSize := 4;
        }
        var p := new T[newSize];
        for i := 0 to lsize
          invariant p[..i] == l[..i]
          modifies p
        {
          p[i] := l[i];
        }
        l := p;
        lremain := newSize - lsize;
      }
      l[lsize] := v;
      lsize := lsize + 1;
      lremain := lremain - 1;
    }
  }
}
