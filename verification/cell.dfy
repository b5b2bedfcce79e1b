/**
 * The `&mut self` operations of `Zom`. A `ZomCell` is a place holding a
 * `Zom<T>`. `Take`, `ToVec`, `Pop`, `ShrinkToFit`, `Extend` and `ExtendAll`
 * take the current value out of it (leaving `Zero`), compute the new value
 * from the old one and write it back; `Push` from `Zero`, `Clear`,
 * `CloneFrom` and `SetAt` assign in place, as the source does. `Take`,
 * `ToVec` and `SetAt` state their new state in their own `ensures`; every
 * other operation is proved to leave exactly the state its specification
 * function in `Zoms` describes.
 */
module ZomCells {
  import opened Options
  import opened Zoms

  class ZomCell<T> {
    var state: Zom<T>

    constructor (init: Zom<T>)
      ensures state == init
    {
      state := init;
    }

    /** `take`: returns the old state and leaves `Zero`. */
    method Take() returns (prev: Zom<T>)
      modifies this
      ensures prev == old(state) && state == Zero
    {
      prev := state;
      state := Zero;
    }

    /** `to_vec`: forces the `Many` variant, keeping the content, and hands back a copy of that vector. */
    method ToVec() returns (v: seq<T>)
      modifies this
      ensures v == View(old(state)) && state == Many(v)
    {
      var prev := Take();
      v := match prev
        case Zero => []
        case One(x) => [x]
        case Many(many) => many;
      state := Many(v);
    }

    /** `push`: `Zero` becomes `One(val)`; otherwise the value is appended through `to_vec`. */
    method Push(val: T)
      modifies this
      ensures state == Pushed(old(state), val)
    {
      if state.Zero? {
        state := One(val);
      } else {
        var v := ToVec();
        state := Many(v + [val]);
      }
    }

    /** `pop`: removes and returns the last element; `Many` stays `Many`. */
    method Pop() returns (r: Option<T>)
      modifies this
      ensures (r, state) == Popped(old(state))
    {
      var prev := Take();
      match prev
      case Zero =>
        r := None;
      case One(x) =>
        r := Some(x);
      case Many(many) =>
        if |many| == 0 {
          r := None;
        } else {
          r := Some(many[|many| - 1]);
          many := many[..|many| - 1];
        }
        state := Many(many);
    }

    /** `clear`: `Many` is emptied in place; `One` becomes `Zero`. */
    method Clear()
      modifies this
      ensures state == Cleared(old(state))
    {
      match state
      case Many(_) => state := Many([]);
      case One(_) => state := Zero;
      case Zero =>
    }

    /** `shrink_to_fit`: collapses a `Many` holding fewer than two elements. */
    method ShrinkToFit()
      modifies this
      ensures state == Shrunk(old(state))
    {
      var prev := Take();
      var next := match prev
        case Many(many) =>
          if |many| == 0 then Zero
          else if |many| == 1 then One(many[0])
          else Many(many)
        case _ => prev;
      state := next;
    }

    /** `clone_from`; `dstCapacity` is the capacity of the vector the cell holds when it is `Many`. */
    method CloneFrom(src: Zom<T>, dstCapacity: nat)
      requires state.Many? ==> dstCapacity >= |state.many|
      modifies this
      ensures state == ClonedFrom(old(state), src, dstCapacity)
    {
      if state.Many? && src.Many? && (dstCapacity >= |src.many| || |src.many| > 1) {
        state := Many(src.many);
      } else if src.Many? {
        var rhs := src.many;
        if |rhs| == 0 {
          state := Zero;
        } else if |rhs| == 1 {
          state := One(rhs[0]);
        } else {
          state := Many(rhs);
        }
      } else {
        state := Clone(src);
      }
    }

    /** `extend`, as written: after the first element, `Zero` does not drain the input. */
    method Extend(iter: seq<T>)
      modifies this
      ensures state == Extended(old(state), iter)
    {
      if |iter| > 0 {
        var first := iter[0];
        var rest := iter[1..];
        var prev := Take();
        var next: Zom<T>;
        match prev {
          case Zero =>
            next := One(first);
          case One(one) =>
            var many := ExtendVec([one, first], rest);
            next := Many(many);
          case Many(many) =>
            var grown := ExtendVec(many + [first], rest);
            next := Many(grown);
        }
        state := next;
      }
    }

    /** `extend` with its `Zero` arm corrected to collect the whole input, not only its first element. */
    method ExtendAll(iter: seq<T>)
      modifies this
      ensures state == ExtendedAll(old(state), iter)
    {
      if |iter| > 0 {
        var first := iter[0];
        var rest := iter[1..];
        var prev := Take();
        var next: Zom<T>;
        match prev {
          case Zero =>
            next := FromIter([first] + rest);
            MinimalUnique(next, Collapse(iter));
          case One(one) =>
            var many := ExtendVec([one, first], rest);
            next := Many(many);
          case Many(many) =>
            var grown := ExtendVec(many + [first], rest);
            next := Many(grown);
        }
        state := next;
      }
    }

    /** Writing element `i` through the mutable slice view (`deref_mut`); the variant does not change. */
    method SetAt(i: nat, x: T)
      requires i < |View(state)|
      modifies this
      ensures View(state) == View(old(state))[i := x]
      ensures state.Zero? == old(state).Zero? && state.One? == old(state).One?
    {
      match state
      case One(_) => state := One(x);
      case Many(many) => state := Many(many[i := x]);
    }
  }

  /** Push, pop and shrink in sequence: the exact variants the state passes through. */
  method PushPopShrinkScenario()
  {
    var zom := new ZomCell<int>(Zero);
    zom.Push(0);
    assert zom.state == One(0);
    zom.Push(1);
    assert zom.state == Many([0, 1]);
    zom.Push(2);
    assert zom.state == Many([0, 1, 2]);

    var r := zom.Pop();
    assert r == Some(2) && zom.state == Many([0, 1]);
    r := zom.Pop();
    assert r == Some(1) && zom.state == Many([0]);
    r := zom.Pop();
    assert r == Some(0) && zom.state == Many([]);
    r := zom.Pop();
    assert r == None && zom.state == Many([]);

    zom.Push(0);
    assert zom.state == Many([0]);
    zom.Push(1);
    assert zom.state == Many([0, 1]);
    zom.ShrinkToFit();
    assert zom.state == Many([0, 1]);
    r := zom.Pop();
    assert r == Some(1) && zom.state == Many([0]);
    zom.ShrinkToFit();
    assert zom.state == One(0);

    zom.Push(1);
    assert zom.state == Many([0, 1]);
    zom.ShrinkToFit();
    assert zom.state == Many([0, 1]);

    zom.Clear();
    assert zom.state == Many([]);
    zom.ShrinkToFit();
    assert zom.state == Zero;
  }

  /** Collect, extend and collect again: the exact variants, and the round trip through the view. */
  method ExtendCollectScenario()
  {
    var z := FromIter<int>([]);
    assert z == Zero by { MinimalUnique(z, Zero); }
    var zom := new ZomCell(z);
    zom.Extend([]);
    assert zom.state == Zero;
    zom.Extend([0]);
    assert zom.state == One(0);
    zom.Extend([1]);
    assert zom.state == Many([0, 1]);
    zom.Extend([2, 3]);
    assert zom.state == Many([0, 1, 2, 3]);

    var zom2 := FromIter(View(zom.state));
    assert zom2 == zom.state by { MinimalUnique(zom2, zom.state); }
  }
}
