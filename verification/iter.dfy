/**
 * `IntoIter<T>`, the consuming iterator of `Zom<T>`. Its state mirrors the
 * three variants of the collection; the standard vector iterator inside the
 * `Many` variant is modelled as the sequence of elements it has not yet
 * yielded.
 */
module ZomIters {
  import opened Options
  import Zoms

  datatype IntoIterInner<T> = Zero | One(one: T) | Many(rest: seq<T>)

  class IntoIter<T> {
    var inner: IntoIterInner<T>

    /** `Zom::into_iter`: consumes the collection; the iterator starts in the matching variant with the whole view left. */
    constructor (z: Zoms.Zom<T>)
      ensures AsSlice() == Zoms.View(z)
      ensures inner.Zero? == z.Zero? && inner.One? == z.One? && inner.Many? == z.Many?
    {
      match z
      case Zero => inner := Zero;
      case One(x) => inner := One(x);
      case Many(many) => inner := Many(many);
    }

    /** `as_slice`: the elements not yet yielded, in order. */
    function AsSlice(): (s: seq<T>)
      reads this
      ensures inner.Many? || |s| <= 1
      ensures inner.One? ==> s == [inner.one]
    {
      match inner
      case Zero => []
      case One(x) => Zoms.SliceFromRef(x)
      case Many(rest) => rest
    }

    /**
     * `next`: yields the first remaining element and drops it, or `None`
     * exactly when nothing remains, and then nothing changes. `One` becomes
     * `Zero` once it has yielded; `Many` stays `Many`.
     */
    method Next() returns (r: Option<T>)
      modifies this
      ensures r.None? <==> old(AsSlice()) == []
      ensures r.Some? ==> r.value == old(AsSlice())[0] && AsSlice() == old(AsSlice())[1..]
      ensures r.None? ==> inner == old(inner)
      ensures inner.Many? == old(inner).Many?
    {
      var prev := inner;
      inner := Zero;
      match prev
      case Zero =>
        r := None;
      case One(x) =>
        r := Some(x);
      case Many(rest) =>
        if |rest| == 0 {
          r := None;
        } else {
          r := Some(rest[0]);
          rest := rest[1..];
        }
        inner := Many(rest);
    }

    /** `ExactSizeIterator::len`: the number of elements not yet yielded. */
    function Len(): (n: nat)
      reads this
      ensures n == |AsSlice()|
      ensures inner.Many? || n <= 1
    {
      |AsSlice()|
    }

    /** `size_hint`: both bounds are exact. */
    function SizeHint(): (r: (nat, Option<nat>))
      reads this
      ensures r.0 == Len() && r.1 == Some(Len())
    {
      var len := |AsSlice()|;
      (len, Some(len))
    }

    /**
     * Runs the iterator to the end, as a `for` loop over it does: every
     * remaining element comes out exactly once, in order, `Len()` of them in
     * all, and the iterator is left with nothing.
     */
    method Drain() returns (out: seq<T>)
      modifies this
      ensures out == old(AsSlice()) && |out| == old(Len())
      ensures AsSlice() == []
    {
      out := [];
      while true
        invariant old(AsSlice()) == out + AsSlice()
        decreases |AsSlice()|
      {
        var x := Next();
        if x.None? {
          break;
        }
        out := out + [x.value];
      }
    }
  }

  /** Consuming collections of each variant: exactly their views come out, and then `None` for good. */
  method IntoIterScenario()
  {
    var it := new IntoIter<int>(Zoms.One(7));
    var r := it.Next();
    assert r == Some(7) && it.inner == Zero;
    r := it.Next();
    assert r == None && it.inner == Zero;

    it := new IntoIter<int>(Zoms.Many([1, 2]));
    assert it.SizeHint() == (2, Some(2));
    r := it.Next();
    assert r == Some(1) && it.inner == Many([2]);
    r := it.Next();
    assert r == Some(2) && it.inner == Many([]);
    r := it.Next();
    assert r == None && it.inner == Many([]);

    it := new IntoIter<int>(Zoms.Many([3, 4, 5]));
    var all := it.Drain();
    assert all == [3, 4, 5];
  }
}
