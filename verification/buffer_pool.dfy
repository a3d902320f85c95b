/** The pool of result-set wires and their buffers (`unidirectional_simple_wires`): wires are
    attached to buffers on `acquire`, detached on `release`, and one spare buffer is kept. */
module BufferPool {
  import opened Wrappers

  /** A buffer's handle; zero is no buffer. */
  type Handle = nat

  // ----- Counting -----

  /** How many of the handles are attached. */
  function Attached(hs: seq<Handle>): nat {
    if hs == [] then 0 else Attached(hs[..|hs| - 1]) + (if hs[|hs| - 1] != 0 then 1 else 0)
  }

  lemma {:induction false} AttachedUpdate(hs: seq<Handle>, i: nat, h: Handle)
    requires i < |hs|
    ensures Attached(hs[i := h]) == Attached(hs) + (if h != 0 then 1 else 0) - (if hs[i] != 0 then 1 else 0)
  {
    var front := hs[..|hs| - 1];
    if i < |hs| - 1 {
      assert hs[i := h][..|hs| - 1] == front[i := h];
      AttachedUpdate(front, i, h);
    } else {
      assert hs[i := h][..|hs| - 1] == front;
    }
  }

  /** Pigeonhole: with fewer attached than wires, one is free; with none free, all count. */
  lemma {:induction false} FreeExists(hs: seq<Handle>)
    ensures Attached(hs) <= |hs|
    ensures Attached(hs) < |hs| <==> exists i :: 0 <= i < |hs| && hs[i] == 0
  {
    if hs != [] {
      var front := hs[..|hs| - 1];
      FreeExists(front);
      if i :| 0 <= i < |front| && front[i] == 0 {
        assert hs[i] == 0;
      }
    }
  }

  lemma {:induction false} NoneAttached(hs: seq<Handle>)
    ensures Attached(hs) == 0 <==> forall i :: 0 <= i < |hs| ==> hs[i] == 0
  {
    if hs != [] {
      NoneAttached(hs[..|hs| - 1]);
    }
  }

  lemma {:induction false} AttachedPrefix(hs: seq<Handle>, n: nat)
    requires n <= |hs| && forall i :: n <= i < |hs| ==> hs[i] == 0
    ensures Attached(hs) == Attached(hs[..n])
    decreases |hs|
  {
    if n < |hs| {
      assert hs[..|hs| - 1][..n] == hs[..n];
      AttachedPrefix(hs[..|hs| - 1], n);
    } else {
      assert hs[..n] == hs;
    }
  }

  // ----- The pool -----

  ghost predicate Distinct(hs: seq<Handle>) {
    forall i, j :: 0 <= i < j < |hs| && hs[i] != 0 && hs[j] != 0 ==> hs[i] != hs[j]
  }

  ghost function Handles(hs: seq<Handle>): set<Handle> {
    set i | 0 <= i < |hs| && hs[i] != 0 :: hs[i]
  }

  ghost function Spare(reserved: Handle): set<Handle> {
    if reserved == 0 then {} else {reserved}
  }

  lemma HandlesAttach(hs: seq<Handle>, i: nat, h: Handle)
    requires i < |hs| && hs[i] == 0 && h != 0
    ensures Handles(hs[i := h]) == Handles(hs) + {h}
  {
    var hs' := hs[i := h];
    forall x | x in Handles(hs) + {h}
      ensures x in Handles(hs')
    {
      if x == h {
        assert hs'[i] == x;
      } else {
        var j :| 0 <= j < |hs| && hs[j] != 0 && hs[j] == x;
        assert hs'[j] == x;
      }
    }
  }

  lemma HandlesDetach(hs: seq<Handle>, i: nat)
    requires i < |hs| && hs[i] != 0 && Distinct(hs)
    ensures Handles(hs[i := 0]) == Handles(hs) - {hs[i]} && Distinct(hs[i := 0])
  {
    var hs' := hs[i := 0];
    forall x | x in Handles(hs) - {hs[i]}
      ensures x in Handles(hs')
    {
      var j :| 0 <= j < |hs| && hs[j] != 0 && hs[j] == x;
      assert hs'[j] == x;
    }
  }

  class Wires {
    var wires: seq<Handle>
    var reserved: Handle
    var countUsing: nat
    var nextIndex: nat
    ghost var live: set<Handle>

    /** Attached buffers are pairwise different and none is the spare one; the buffers alive are
        exactly the attached and the spare one; the count is the number attached; wires from
        `nextIndex` on were never used; and with no wire in use the spare buffer is there. */
    ghost predicate Valid()
      reads this
    {
      && Distinct(wires) && reserved !in Handles(wires)
      && live == Handles(wires) + Spare(reserved) && 0 !in live
      && countUsing == Attached(wires)
      && countUsing <= nextIndex <= |wires|
      && (forall i :: nextIndex <= i < |wires| ==> wires[i] == 0)
      && (countUsing == 0 ==> reserved != 0)
    }

    constructor (count: nat, buffer: Handle)
      requires buffer != 0
      ensures Valid() && |wires| == count && countUsing == 0 && live == {buffer}
    {
      wires := seq(count, _ => 0);
      reserved, countUsing, nextIndex, live := buffer, 0, 0, {buffer};
      new;
      NoneAttached(wires);
    }

    /** `search_free_wire`: never reaches its abort. */
    method SearchFreeWire() returns (index: nat)
      requires Valid() && countUsing < |wires|
      modifies this`countUsing, this`nextIndex
      ensures index < nextIndex <= |wires| && wires[index] == 0
      ensures countUsing == old(countUsing) + 1
      ensures nextIndex == (if old(countUsing) == old(nextIndex) then old(nextIndex) + 1 else old(nextIndex))
      ensures old(countUsing) == old(nextIndex) ==> index == old(nextIndex)
      ensures old(countUsing) < old(nextIndex) ==> forall i :: 0 <= i < index ==> wires[i] != 0
    {
      if countUsing == nextIndex {
        countUsing := countUsing + 1;
        index := nextIndex;
        nextIndex := nextIndex + 1;
        return;
      }
      AttachedPrefix(wires, nextIndex);
      FreeExists(wires[..nextIndex]);
      index := 0;
      while index < nextIndex
        invariant index <= nextIndex && forall i :: 0 <= i < index ==> wires[i] != 0
        invariant countUsing == old(countUsing) && nextIndex == old(nextIndex)
      {
        if wires[index] == 0 {
          countUsing := countUsing + 1;
          return;
        }
        index := index + 1;
      }
      assert false;
    }

    /** `search_wire`: the wire whose handle it is, never its abort. */
    method SearchWire(handle: Handle) returns (index: nat)
      requires Valid() && handle in Handles(wires)
      ensures index < |wires| && wires[index] == handle
    {
      index := 0;
      while index < nextIndex
        invariant index <= nextIndex && forall i :: 0 <= i < index ==> wires[i] != handle
      {
        if wires[index] == handle {
          return;
        }
        index := index + 1;
      }
      assert false;
    }

    /** `attach_buffer` on a free wire. */
    method Attach(i: nat, buffer: Handle)
      requires i < |wires| && wires[i] == 0 && buffer != 0 && Distinct(wires) && buffer !in Handles(wires)
      modifies this`wires
      ensures wires == old(wires)[i := buffer] && Distinct(wires)
      ensures Handles(wires) == old(Handles(wires)) + {buffer} && Attached(wires) == old(Attached(wires)) + 1
    {
      AttachedUpdate(wires, i, buffer);
      HandlesAttach(wires, i, buffer);
      wires := wires[i := buffer];
    }

    /** `acquire`; `memory` is what the allocator would give, `None` if it has nothing left. */
    method Acquire(memory: Option<Handle>) returns (index: Option<nat>)
      requires Valid() && countUsing < |wires|
      requires memory.Some? ==> memory.value != 0 && memory.value !in live
      modifies this
      ensures Valid() && |wires| == |old(wires)|
      ensures index.None? <==> old(countUsing) > 0 && old(reserved) == 0 && memory.None?
      ensures index.None? ==> wires == old(wires) && reserved == old(reserved) && live == old(live)
      ensures index.Some? ==>
                && index.value < |wires| && old(wires)[index.value] == 0 && wires[index.value] != 0
                && wires == old(wires)[index.value := wires[index.value]]
                && countUsing == old(countUsing) + 1 && reserved == 0
                && (if old(reserved) != 0 then wires[index.value] == old(reserved) && live == old(live)
                    else memory.Some? && wires[index.value] == memory.value && live == old(live) + {memory.value})
    {
      if countUsing == 0 {
        NoneAttached(wires);
        Attach(0, reserved);
        countUsing, nextIndex := 1, 1;
        reserved := 0;
        return Some(0);
      }
      var buffer: Handle;
      if reserved != 0 {
        buffer := reserved;
      } else if memory.Some? {
        buffer := memory.value;
      } else {
        return None;
      }
      var i := SearchFreeWire();
      Attach(i, buffer);
      live := live + {buffer};
      reserved := 0;
      return Some(i);
    }

    /** `release`: the buffer becomes the spare one, or is freed if there is one already. */
    method Release(handle: Handle)
      requires Valid() && handle in Handles(wires)
      modifies this
      ensures Valid() && |wires| == |old(wires)| && countUsing == old(countUsing) - 1
      ensures Handles(wires) == old(Handles(wires)) - {handle}
      ensures reserved == (if old(reserved) == 0 then handle else old(reserved))
      ensures live == (if old(reserved) == 0 then old(live) else old(live) - {handle})
    {
      var i := SearchWire(handle);
      AttachedUpdate(wires, i, 0);
      HandlesDetach(wires, i);
      wires := wires[i := 0];
      if reserved == 0 {
        reserved := handle;
      } else {
        live := live - {handle};
      }
      countUsing := countUsing - 1;
    }
  }
}
