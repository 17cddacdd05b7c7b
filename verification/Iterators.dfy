/** The Iterator interface (include/leveldb/iterator.h) over a sorted list of entries. */
module Iterators {
  import opened Keys
  import opened Version

  datatype Direction = Forward | Reverse

  /** The Iterator interface over a sorted list: `pos` is the current entry, None
      stands for !Valid(). */
  class Iterator {
    const es: seq<Entry>
    var pos: Option<nat>

    ghost predicate Valid()
      reads this
    {
      pos.Some? ==> pos.value < |es|
    }

    constructor (es: seq<Entry>)
      ensures this.es == es && pos == None
    {
      this.es := es;
      pos := None;
    }

    method Next()
      requires Valid() && pos.Some?
      modifies this
      ensures Valid() && pos == if old(pos.value) + 1 < |es| then Some(old(pos.value) + 1) else None
    {
      pos := if pos.value + 1 < |es| then Some(pos.value + 1) else None;
    }

    method Prev()
      requires Valid() && pos.Some?
      modifies this
      ensures Valid() && pos == if old(pos.value) == 0 then None else Some(old(pos.value) - 1)
    {
      pos := if pos.value == 0 then None else Some(pos.value - 1);
    }

    method SeekToFirst()
      modifies this
      ensures Valid() && pos == if es == [] then None else Some(0)
    {
      pos := if es == [] then None else Some(0);
    }

    method SeekToLast()
      modifies this
      ensures Valid() && pos == if es == [] then None else Some(|es| - 1)
    {
      pos := if es == [] then None else Some(|es| - 1);
    }

    /** The first entry at or after the target. */
    method Seek(target: IKey)
      modifies this
      ensures Valid()
      ensures forall i :: 0 <= i < (if pos.Some? then pos.value else |es|) ==> ILess(es[i].key, target)
      ensures pos.Some? ==> !ILess(es[pos.value].key, target)
    {
      var i := 0;
      while i < |es| && ILess(es[i].key, target)
        invariant i <= |es| && forall j :: 0 <= j < i ==> ILess(es[j].key, target)
      {
        i := i + 1;
      }
      pos := if i < |es| then Some(i) else None;
    }
  }
}
