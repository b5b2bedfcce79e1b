/**
 * `Zom<T>`: a collection of zero, one or many elements, as a value.
 *
 * Two layers are kept apart throughout: the content of a `Zom` is its slice
 * view `View(z)`; its representation is which of the three variants holds
 * that content. `Many` may hold any number of elements, including zero or one,
 * so one content has several representations. `IsMinimal` picks out the
 * representation that uses `Many` only when it must, and `Collapse(s)` is that
 * representation for the content `s`.
 *
 * The mutating operations of the collection are specified here as functions
 * from the old state to the new one (`Pushed`, `Popped`, `Cleared`, `Shrunk`,
 * `ClonedFrom`, `Extended`); the methods of `ZomCells.ZomCell` are proved
 * against them.
 */
module Zoms {
  import opened Options

  /** A collection of zero, one or many elements. */
  datatype Zom<T> = Zero | One(one: T) | Many(many: seq<T>)

  /** A single element viewed as a slice of length one. */
  function SliceFromRef<T>(x: T): (s: seq<T>)
    ensures |s| == 1 && s[0] == x
  {
    [x]
  }

  /** The slice view (`Deref`): the content of the collection, whatever its variant. */
  function View<T>(z: Zom<T>): (s: seq<T>)
    ensures z.Zero? ==> s == []
    ensures z.One? ==> s == [z.one]
    ensures z.Many? ==> s == z.many
  {
    match z
    case Zero => []
    case One(x) => SliceFromRef(x)
    case Many(v) => v
  }

  /** `z` uses `Many` only when its content has two or more elements. */
  predicate IsMinimal<T>(z: Zom<T>)
  {
    !z.Many? || |z.many| >= 2
  }

  /** The minimal representation of the content `s`. */
  function Collapse<T>(s: seq<T>): (r: Zom<T>)
    ensures View(r) == s && IsMinimal(r)
  {
    if |s| == 0 then Zero else if |s| == 1 then One(s[0]) else Many(s)
  }

  /** Content determines the minimal representation: two minimal collections with one view are the same value. */
  lemma MinimalUnique<T>(a: Zom<T>, b: Zom<T>)
    requires IsMinimal(a) && IsMinimal(b) && View(a) == View(b)
    ensures a == b
  {
    match a
    case Zero =>
    case One(x) => assert View(b)[0] == x;
    case Many(v) =>
  }

  /** A collection is minimal exactly when collapsing its own view gives it back. */
  lemma CollapseOwnView<T>(z: Zom<T>)
    ensures Collapse(View(z)) == z <==> IsMinimal(z)
  {
    if IsMinimal(z) {
      MinimalUnique(Collapse(View(z)), z);
    }
  }

  /** `Default`: the empty collection, in its minimal variant. */
  function Default<T>(): (r: Zom<T>)
    ensures View(r) == [] && IsMinimal(r)
  {
    Zero
  }

  /** `From<T>`: a single value becomes `One`. */
  function FromValue<T>(x: T): (r: Zom<T>)
    ensures r.One? && View(r) == [x]
  {
    One(x)
  }

  /** `From<Vec<T>>`: a vector becomes `Many`, whatever its length; nothing is collapsed. */
  function FromVec<T>(v: seq<T>): (r: Zom<T>)
    ensures r.Many? && View(r) == v
  {
    Many(v)
  }

  /** `From<Vec<T>>` and collecting the same elements agree in content but differ in variant below two elements. */
  lemma FromVecVersusCollect<T>(v: seq<T>)
    ensures View(FromVec(v)) == View(Collapse(v))
    ensures FromVec(v) == Collapse(v) <==> |v| >= 2
  {
    CollapseOwnView(FromVec(v));
  }

  /** `Clone`: the same content in the minimal variant. */
  function Clone<T>(z: Zom<T>): (r: Zom<T>)
    ensures View(r) == View(z) && IsMinimal(r)
    ensures IsMinimal(z) ==> r == z
  {
    match z
    case Zero => Zero
    case One(x) => One(x)
    case Many(v) =>
      if |v| == 0 then Zero
      else if |v| == 1 then One(v[0])
      else Many(v)
  }

  /**
   * `Vec::extend`: drains `iter` onto the end of `many`, one element at a
   * time, in order.
   */
  method ExtendVec<T>(many: seq<T>, iter: seq<T>) returns (r: seq<T>)
    ensures r == many + iter
  {
    r := many;
    var i := 0;
    while i < |iter|
      invariant 0 <= i <= |iter|
      invariant r == many + iter[..i]
    {
      r := r + [iter[i]];
      i := i + 1;
    }
    assert iter[..i] == iter;
  }

  /**
   * `FromIterator`: pulls a first and a second element off the input; stops
   * with `Zero` or `One` if there are none, otherwise drains the rest into a
   * vector behind them.
   */
  method FromIter<T>(iter: seq<T>) returns (z: Zom<T>)
    ensures View(z) == iter && IsMinimal(z)
  {
    if |iter| == 0 {
      return Zero;
    }
    var first := iter[0];
    if |iter| == 1 {
      return One(first);
    }
    var second := iter[1];
    var many := ExtendVec([first, second], iter[2..]);
    assert [first, second] + iter[2..] == iter;
    z := Many(many);
  }

  /** Collecting a collection's own view gives an equal collection, and exactly its clone. */
  lemma CollectOwnView<T>(z: Zom<T>)
    ensures View(Collapse(View(z))) == View(z)
    ensures Collapse(View(z)) == Clone(z)
  {
    MinimalUnique(Collapse(View(z)), Clone(z));
  }

  /** The state after `push(val)`. */
  function Pushed<T>(z: Zom<T>, val: T): (r: Zom<T>)
    ensures View(r) == View(z) + [val]
    ensures z.Zero? ==> r == One(val)
    ensures !z.Zero? ==> r.Many?
  {
    match z
    case Zero => One(val)
    case _ => Many(View(z) + [val])
  }

  /** The value returned by `pop()` and the state after it. */
  function Popped<T>(z: Zom<T>): (r: (Option<T>, Zom<T>))
    ensures r.0.None? <==> View(z) == []
    ensures r.0.Some? ==> View(z) == View(r.1) + [r.0.value]
    ensures r.0.None? ==> r.1 == z
    ensures r.1.Many? <==> z.Many?
  {
    match z
    case Zero => (None, Zero)
    case One(x) => (Some(x), Zero)
    case Many(v) =>
      if |v| == 0 then (None, Many(v))
      else (Some(v[|v| - 1]), Many(v[..|v| - 1]))
  }

  /** Pushing then popping gives back the pushed value and the old content; the variant survives unless it was `One`. */
  lemma PopAfterPush<T>(z: Zom<T>, val: T)
    ensures Popped(Pushed(z, val)).0 == Some(val)
    ensures View(Popped(Pushed(z, val)).1) == View(z)
    ensures Popped(Pushed(z, val)).1 == z <==> !z.One?
  {
    var r := Popped(Pushed(z, val));
    assert View(z) + [val] == View(r.1) + [r.0.value];
    assert View(z) == (View(z) + [val])[..|View(z)|];
    if z.One? {
      assert r.1.Many?;
    }
  }

  /** The state after `clear()`: empty, and `Many` exactly when it was `Many`. */
  function Cleared<T>(z: Zom<T>): (r: Zom<T>)
    ensures View(r) == []
    ensures r.Many? <==> z.Many?
  {
    match z
    case Many(_) => Many([])
    case One(_) => Zero
    case Zero => Zero
  }

  /** The state after `shrink_to_fit()`. */
  function Shrunk<T>(z: Zom<T>): (r: Zom<T>)
    ensures View(r) == View(z) && IsMinimal(r)
    ensures IsMinimal(z) ==> r == z
  {
    match z
    case Many(v) =>
      if |v| == 0 then Zero
      else if |v| == 1 then One(v[0])
      else Many(v)
    case _ => z
  }

  /** `shrink_to_fit` is idempotent, and its result is exactly the clone of the old state. */
  lemma ShrunkIsClone<T>(z: Zom<T>)
    ensures Shrunk(z) == Clone(z)
    ensures Shrunk(Shrunk(z)) == Shrunk(z)
  {
    MinimalUnique(Shrunk(z), Clone(z));
  }

  /** `clear()` then `shrink_to_fit()` always leaves `Zero`. */
  lemma ShrunkAfterCleared<T>(z: Zom<T>)
    ensures Shrunk(Cleared(z)) == Zero
  {
  }

  /**
   * The state after `clone_from(src)`. When both sides are `Many` and the
   * existing vector is reused (it has room for `src`, or `src` has two or more
   * elements), the target takes `src`'s elements in `Many`; otherwise it gets
   * the minimal clone of `src`. `dstCapacity` is the capacity of the target's
   * vector, which the content does not determine.
   */
  function ClonedFrom<T>(dst: Zom<T>, src: Zom<T>, dstCapacity: nat): (r: Zom<T>)
    requires dst.Many? ==> dstCapacity >= |dst.many|
    ensures View(r) == View(src)
    ensures r == src || r == Clone(src)
    ensures r == Clone(src) <==> !(dst.Many? && src.Many? && |src.many| <= 1 && dstCapacity >= |src.many|)
  {
    if dst.Many? && src.Many? && (dstCapacity >= |src.many| || |src.many| > 1) then
      Many(src.many)
    else if src.Many? then
      if |src.many| == 0 then Zero
      else if |src.many| == 1 then One(src.many[0])
      else Many(src.many)
    else
      Clone(src)
  }

  /**
   * The state after `extend(iter)`, as written: an empty input leaves the
   * state untouched; otherwise `Zero` becomes `One` of the first element (and
   * the rest of the input is not used), while `One` and `Many` become `Many`
   * with the input appended.
   */
  function Extended<T>(z: Zom<T>, iter: seq<T>): (r: Zom<T>)
    ensures iter == [] ==> r == z
    ensures iter != [] && z.Zero? ==> r == One(iter[0])
    ensures iter != [] && !z.Zero? ==> r.Many? && View(r) == View(z) + iter
  {
    if iter == [] then z
    else
      match z
      case Zero => One(iter[0])
      case One(x) => Many([x] + iter)
      case Many(v) => Many(v + iter)
  }

  /** `extend` keeps every element of its input exactly when it does not start from `Zero` with two or more elements. */
  lemma ExtendedKeepsInputIff<T>(z: Zom<T>, iter: seq<T>)
    ensures View(Extended(z, iter)) == View(z) + iter <==> !(z.Zero? && |iter| >= 2)
  {
    if z.Zero? && |iter| >= 2 {
      assert |View(Extended(z, iter))| == 1;
    }
  }

  /** The input that shows the loss: extending an empty collection with `[0, 1]` leaves only `0`. */
  lemma ExtendZeroDropsTail()
    ensures Extended(Zero, [0, 1]) == One(0)
    ensures View(Extended(Zero, [0, 1])) != View(Zero) + [0, 1]
  {
    assert |View(Extended(Zero, [0, 1]))| == 1;
  }

  /**
   * `extend` as the `Extend` trait intends it: every input element is
   * appended in order; from `Zero` the collection takes the minimal variant
   * for the input, as collecting it would.
   */
  function ExtendedAll<T>(z: Zom<T>, iter: seq<T>): (r: Zom<T>)
    ensures View(r) == View(z) + iter
    ensures iter == [] ==> r == z
    ensures z.Zero? ==> IsMinimal(r)
    ensures !z.Zero? && iter != [] ==> r.Many?
  {
    if iter == [] then z
    else
      match z
      case Zero => Collapse(iter)
      case One(x) => Many([x] + iter)
      case Many(v) => Many(v + iter)
  }

  /** The intended `extend` differs from the written one only when starting from `Zero` with two or more elements. */
  lemma ExtendedAllAgrees<T>(z: Zom<T>, iter: seq<T>)
    ensures ExtendedAll(z, iter) == Extended(z, iter) <==> !(z.Zero? && |iter| >= 2)
  {
    if z.Zero? && |iter| >= 2 {
      assert ExtendedAll(z, iter).Many?;
    }
  }
}
