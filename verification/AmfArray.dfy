/**
  AMFArray of net/brpc/amf.h: four fields inside the object, the others in a deque.  The class is
  proved to behave as a plain sequence of fields.
*/
module AmfArray {
  import opened Basics
  import opened AmfCodec

  const INLINE: nat := 4

  /** Items left by assigning `rhs` over `lhs`, which is not shorter. */
  function Assigned(lhs: seq<Field>, rhs: seq<Field>): (r: seq<Field>)
    requires |rhs| <= |lhs|
  {
    rhs + lhs[|rhs|..|rhs| + (|lhs| - |rhs|) / 2]
  }

  /**
    The trimming loop of the assignment compares its counter with the size it is shrinking, so it
    removes only half of the surplus: the copy is right exactly when at most one item is surplus.
  */
  lemma AssignedRightIff(lhs: seq<Field>, rhs: seq<Field>)
    requires |rhs| <= |lhs|
    ensures Assigned(lhs, rhs) == rhs <==> |lhs| <= |rhs| + 1
  {
    assert |Assigned(lhs, rhs)| == |rhs| + (|lhs| - |rhs|) / 2;
  }

  class AmfArray {
    var size: nat
    const fields: array<Field>
    var more: seq<Field>

    ghost predicate Valid()
      reads this, fields
    {
      && fields.Length == INLINE
      && |more| == (if size > INLINE then size - INLINE else 0)
      && forall i :: size <= i < INLINE ==> fields[i] == Undefined
    }

    ghost function Items(): (s: seq<Field>)
      reads this, fields
      requires Valid()
      ensures |s| == size
    {
      fields[..Min(size, INLINE)] + more
    }

    constructor ()
      ensures Valid() && fresh(fields) && Items() == []
    {
      size, more := 0, [];
      fields := new Field[INLINE](_ => Undefined);
    }

    /** Copy construction: the inline part first, the deque only when it is in use. */
    constructor Copy(rhs: AmfArray)
      requires rhs.Valid()
      ensures Valid() && fresh(fields) && Items() == rhs.Items()
    {
      size, more := rhs.size, [];
      fields := new Field[INLINE](_ => Undefined);
      new;
      var n := Min(size, INLINE);
      for i := 0 to n
        invariant fields[..i] == rhs.fields[..i] && rhs.Valid() && rhs.Items() == old(rhs.Items())
        invariant forall k :: i <= k < INLINE ==> fields[k] == Undefined
        modifies fields
      {
        fields[i] := rhs.fields[i];
      }
      if size > INLINE {
        more := rhs.more;
      }
    }

    /** operator[] */
    method At(i: nat) returns (f: Field)
      requires Valid() && i < size
      ensures f == Items()[i]
    {
      f := if i < INLINE then fields[i] else more[i - INLINE];
    }

    method Set(i: nat, f: Field)
      requires Valid() && i < size
      modifies this, fields
      ensures Valid() && size == old(size) && Items() == old(Items())[i := f]
    {
      if i < INLINE {
        fields[i] := f;
      } else {
        more := more[i - INLINE := f];
      }
    }

    method Clear()
      requires Valid()
      modifies this, fields
      ensures Valid() && Items() == []
    {
      var n := Min(size, INLINE);
      for i := 0 to n
        invariant forall k :: 0 <= k < i ==> fields[k] == Undefined
        invariant forall k :: size <= k < INLINE ==> fields[k] == Undefined
        modifies fields
      {
        fields[i] := Undefined;
      }
      size, more := 0, [];
    }

    /** AddField: the new last slot, which is always found undefined. */
    method AddField() returns (i: nat)
      requires Valid()
      modifies this
      ensures Valid() && i == old(size) && Items() == old(Items()) + [Undefined]
    {
      i := size;
      if size < INLINE {
        size := size + 1;
        return;
      }
      var moreSize := size - INLINE;
      if moreSize >= |more| {
        more := more + [Undefined];
      }
      size := size + 1;
    }

    /** AddNumber, AddString, AddObject and the like. */
    method Add(f: Field)
      requires Valid()
      modifies this, fields
      ensures Valid() && Items() == old(Items()) + [f]
    {
      var i := AddField();
      Set(i, f);
    }

    method RemoveLastField()
      requires Valid()
      modifies this, fields
      ensures Valid() && Items() == if old(size) == 0 then [] else old(Items())[..old(size) - 1]
    {
      if size == 0 {
        return;
      }
      if size <= INLINE {
        size := size - 1;
        fields[size] := Undefined;
        return;
      }
      more := more[..|more| - 1];
      size := size - 1;
    }

    /** operator=: a growing assignment rebuilds; the other copies in place, then trims. */
    method Assign(rhs: AmfArray)
      requires Valid() && rhs.Valid() && (rhs == this || rhs.fields != fields)
      modifies this, fields
      ensures Valid()
      ensures rhs != this ==> rhs.Valid() && rhs.Items() == old(rhs.Items())
      ensures old(size) < rhs.size ==> Items() == rhs.Items()
      ensures rhs != this && old(size) >= rhs.size ==> Items() == Assigned(old(Items()), rhs.Items())
      ensures rhs == this ==> Items() == seq(old(size), _ => Undefined)
    {
      if size < rhs.size {
        Clear();
        CopyFrom(rhs);
        return;
      }
      if rhs == this {
        ClearSlots();
      } else {
        var n := rhs.size;
        CopySlots(rhs);
        Trim(n);
      }
    }

    /** The copying loop of the assignment. */
    method CopySlots(rhs: AmfArray)
      requires Valid() && rhs.Valid() && rhs != this && rhs.fields != fields && rhs.size <= size
      modifies this, fields
      ensures Valid() && rhs.Valid() && rhs.Items() == old(rhs.Items()) && size == old(size)
      ensures Items() == rhs.Items() + old(Items())[rhs.size..]
    {
      hide AmfArray.Items;
      ghost var lhs, src := Items(), rhs.Items();
      for i := 0 to rhs.size
        invariant Valid() && size == |lhs| && rhs.Valid() && rhs.Items() == src
        invariant Items() == src[..i] + lhs[i..]
      {
        var f := rhs.At(i);
        Set(i, f);
        assert (src[..i] + lhs[i..])[i := src[i]] == src[..i + 1] + lhs[i + 1..];
      }
      assert src[..|src|] == src;
    }

    /** The same loop over an alias of the target: assigning a field to itself clears it first. */
    method ClearSlots()
      requires Valid()
      modifies this, fields
      ensures Valid() && Items() == seq(old(size), _ => Undefined)
    {
      ghost var lhs := Items();
      for i := 0 to size
        invariant Valid() && size == |lhs| && Items() == seq(i, _ => Undefined) + lhs[i..]
      {
        Set(i, Undefined);
      }
    }

    /** The trimming loop of the assignment, whose bound shrinks under it. */
    method Trim(n: nat)
      requires Valid() && n <= size
      modifies this, fields
      ensures Valid() && Items() == old(Items())[..n + (old(size) - n) / 2]
    {
      var i := n;
      while i < size
        invariant Valid() && n <= i <= size + 1 && i - n == old(size) - size
        invariant Items() == old(Items())[..size]
        decreases size - i
      {
        RemoveLastField();
        i := i + 1;
      }
    }

    /** The placement copy inside a growing assignment, over a cleared object. */
    method CopyFrom(rhs: AmfArray)
      requires Valid() && rhs.Valid() && size == 0 && rhs != this && rhs.fields != fields
      modifies this, fields
      ensures Valid() && rhs.Valid() && rhs.Items() == old(rhs.Items()) && Items() == rhs.Items()
    {
      var n := Min(rhs.size, INLINE);
      for i := 0 to n
        invariant fields[..i] == rhs.fields[..i]
        invariant forall k :: i <= k < INLINE ==> fields[k] == Undefined
        modifies fields
      {
        fields[i] := rhs.fields[i];
      }
      size := rhs.size;
      if size > INLINE {
        more := rhs.more;
      }
    }
  }
}
