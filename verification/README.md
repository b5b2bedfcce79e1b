# Zom: a verified model

`Zom<T>` is a collection of zero, one or many elements. It holds nothing, a
single element inline, or a heap vector of any length, so the common cases of
zero or one element need no allocation. `IntoIter<T>` is its consuming
iterator, with the same three states.

The model keeps two layers apart:

- the **content** of a collection is its slice view, `Zoms.View`;
- the **representation** is which variant holds that content.

Equality, ordering and hashing see only the content. The mutating operations
decide the representation, and they deliberately disagree:

- `pop` never leaves `Many`;
- `clear` keeps `Many` as an empty `Many`;
- `From<Vec>` always builds `Many`;
- `clone`, `shrink_to_fit` and collecting pick the minimal variant (`Zoms.IsMinimal`: `Many` only for two or more elements).

Every contract states the variant exactly, not only the view. An equality
check cannot tell `One(0)` from `Many([0])`, so this is where the model says
more than an equality check can.

Layout:

- `option.dfy`: module `Options`, the `Option` returned by `pop` and `next`.
- `zom.dfy`: module `Zoms`. It holds the datatype, the view, the pure
  operations (`Clone`, `Default`, the `From` conversions, `FromIter`) and
  `ExtendVec`, which models `Vec::extend` draining an input into a vector. It
  also holds a specification function for each mutating operation except
  `take`, `to_vec` and the element write, giving the new state from the old
  one, and the lemmas that relate them.
- `ord.dfy`: module `ZomOrd`, with `PartialEq`, `Ord`, `PartialOrd` and `Hash`.
  All of them are defined on the view. Ordering is taken at `int`.
- `cell.dfy`: module `ZomCells`, with the class `ZomCell`. It holds one
  `var state: Zom<T>`, and each `&mut self` operation is a method. `Take`,
  `ToVec`, `Pop`, `ShrinkToFit`, `Extend` and `ExtendAll` take the state out,
  leaving `Zero`, and write the new state back. `Push` from `Zero`, `Clear`,
  `CloneFrom` and `SetAt` assign in place, as the source does. `Take`, `ToVec`
  and `SetAt` state their new state in their own `ensures`; every other method
  is proved to leave exactly the state its specification function describes. The
  file also has two client methods that replay the repository's test scenarios
  with the exact variants.
- `iter.dfy`: module `ZomIters`, with the class `IntoIter`: `next`, `as_slice`,
  `len` and `size_hint`. `Drain` is a client that runs the iterator to the end.

Input iterators passed to `from_iter` and `extend` are modelled as finite
sequences. An iterator's `next` takes the first element.

## Model

| member | source | states |
|---|---|---|
| `Zoms.SliceFromRef` | src/lib.rs:383-385 | one element viewed as a slice of length one holding it |
| `Zoms.View` | src/lib.rs:150-156 | the slice view is `[]` for `Zero`, `[x]` for `One(x)`, and the vector for `Many` |
| `Zoms.Collapse` | src/lib.rs:318-336 | the variant chosen for a content by length (0, 1, ≥2) has exactly that view and is minimal |
| `Zoms.MinimalUnique` | src/lib.rs:18-22 | two minimal collections with the same view are the same value, so content fixes the minimal variant |
| `Zoms.CollapseOwnView` | src/lib.rs:121-125 | a collection equals the minimal variant of its own view exactly when it is minimal |
| `Zoms.Default` | src/lib.rs:193-198 | the default collection is empty and in its minimal variant |
| `Zoms.FromValue` | src/lib.rs:368-373 | a single value converts to `One` holding it |
| `Zoms.FromVec` | src/lib.rs:375-380 | a vector converts to `Many` with that content, whatever its length |
| `Zoms.FromVecVersusCollect` | src/lib.rs:375-380 | `From<Vec>` and collecting agree on the view, and agree on the variant iff the vector has two or more elements |
| `Zoms.Clone` | src/lib.rs:117-127 | a clone has the same view and is minimal; a minimal collection clones to itself |
| `Zoms.ExtendVec` | src/lib.rs:356-360 | draining the input onto a vector appends every element in order |
| `Zoms.FromIter` | src/lib.rs:318-336 | collecting gives exactly the input as view, in the minimal variant (`Zero`, `One`, or `Many` for two or more) |
| `Zoms.CollectOwnView` | src/tests.rs:58-59 | collecting a collection's own view gives an equal collection, which is exactly its clone |
| `Zoms.Pushed` | src/lib.rs:26-31 | push appends to the view; `Zero` becomes `One(val)`, anything else becomes `Many` |
| `Zoms.Popped` | src/lib.rs:35-45 | pop returns `None` iff the view is empty, leaving the state unchanged; otherwise it returns the last element and the view without it; the result is `Many` iff the state was `Many` |
| `Zoms.PopAfterPush` | src/lib.rs:26-45 | popping right after a push returns the pushed value and the old view; the old variant comes back unless it was `One`, which ends as `Many` |
| `Zoms.Cleared` | src/lib.rs:63-69 | clear empties the view; the result is `Many` iff the state was `Many` |
| `Zoms.Shrunk` | src/lib.rs:74-87 | shrink keeps the view and yields the minimal variant; a minimal state is left untouched |
| `Zoms.ShrunkIsClone` | src/lib.rs:74-87 | shrinking gives exactly the clone of the state, and is idempotent |
| `Zoms.ShrunkAfterCleared` | src/tests.rs:39-42 | clear then shrink always leaves `Zero` |
| `Zoms.ClonedFrom` | src/lib.rs:129-143 | for a target whose capacity covers its own length: after `clone_from` the view is the source's. The result is the source's variant or its minimal clone. It is the clone unless both sides are `Many`, the source has at most one element and the target's capacity covers it |
| `Zoms.Extended` | src/lib.rs:341-365 | extend with nothing changes nothing; from `Zero` it gives `One(first)`; from `One` or `Many` it gives `Many` with the input appended to the view |
| `Zoms.ExtendedKeepsInputIff` | src/lib.rs:346-348 | extend appends the whole input iff it does not start from `Zero` with two or more elements |
| `Zoms.ExtendZeroDropsTail` | src/lib.rs:346-348 | extending `Zero` with `[0, 1]` gives `One(0)`, not the view `[0, 1]` |
| `Zoms.ExtendedAll` | src/lib.rs:341-365 | intended extend: the view is the old view followed by the whole input; nothing changes on empty input; from `Zero` the result is minimal |
| `Zoms.ExtendedAllAgrees` | src/lib.rs:346-348 | the intended and the written extend differ exactly when starting from `Zero` with two or more elements |
| `ZomOrd.LexCmp` | src/lib.rs:172-177 | the slice order answers `Equal` iff the slices are equal |
| `ZomOrd.LexCmpReverse` | src/lib.rs:172-177 | swapping the slices reverses the order's answer |
| `ZomOrd.LexCmpTransitive` | src/lib.rs:172-177 | the slice order is transitive |
| `ZomOrd.LexCmpPrefix` | src/lib.rs:172-177 | the order is lexicographic: a proper prefix is less than the slice it begins |
| `ZomOrd.LexCmpFirstDiff` | src/lib.rs:172-177 | the order is lexicographic: when the slices agree before position `k` and differ there, the smaller element at `k` makes its slice less |
| `ZomOrd.LexCmpLessCases` | src/lib.rs:172-177 | conversely, one slice is less than another only as a proper prefix or by a smaller element at the first difference |
| `ZomOrd.Eq` | src/lib.rs:179-184 | two collections are equal iff their clones (minimal forms) are the same value |
| `ZomOrd.EqIgnoresVariant` | src/lib.rs:179-184 | `One(x)` equals `Many([x])`, and `Zero` equals `Many([])`, though they are different values |
| `ZomOrd.Cmp` | src/lib.rs:172-177 | `cmp` answers `Equal` iff the collections are equal |
| `ZomOrd.PartialCmp` | src/lib.rs:186-191 | `partial_cmp` always answers, and answers `Equal` iff the collections are equal |
| `ZomOrd.CmpReverse` | src/lib.rs:172-177 | `cmp` is antisymmetric: swapping the arguments reverses the answer |
| `ZomOrd.CmpTransitive` | src/lib.rs:172-177 | `cmp` is transitive |
| `ZomOrd.CmpIgnoresVariant` | src/lib.rs:172-177 | every collection compares as its minimal clone does |
| `ZomOrd.Hash` | src/lib.rs:200-205 | the hash of a collection is the hasher applied to its view, and so equals the hash of its minimal clone |
| `ZomOrd.HashRespectsEq` | src/lib.rs:200-205 | equal collections hash equally under any hasher, whatever their variants |
| `ZomCells.ZomCell.Take` | src/lib.rs:90-92 | take returns the old state and leaves `Zero` |
| `ZomCells.ZomCell.ToVec` | src/lib.rs:49-60 | to_vec leaves `Many` with the unchanged view and returns a copy of that vector (see Left out) |
| `ZomCells.ZomCell.Push` | src/lib.rs:26-31 | the new state is `Pushed` of the old one |
| `ZomCells.ZomCell.Pop` | src/lib.rs:35-45 | the returned value and the new state are `Popped` of the old state |
| `ZomCells.ZomCell.Clear` | src/lib.rs:63-69 | the new state is `Cleared` of the old one |
| `ZomCells.ZomCell.ShrinkToFit` | src/lib.rs:74-87 | the new state is `Shrunk` of the old one |
| `ZomCells.ZomCell.CloneFrom` | src/lib.rs:129-143 | the new state is `ClonedFrom` of the old state, the source and the target's capacity |
| `ZomCells.ZomCell.Extend` | src/lib.rs:341-365 | the new state is `Extended` of the old state and the input (as written) |
| `ZomCells.ZomCell.ExtendAll` | src/lib.rs:341-365 | with the `Zero` arm corrected, the new state is `ExtendedAll` of the old state and the input |
| `ZomCells.ZomCell.SetAt` | src/lib.rs:159-167 | writing element `i` through the mutable view changes that element only, and the variant stays the same |
| `ZomIters.IntoIter.constructor` | src/lib.rs:105-113 | `into_iter` starts with the whole view remaining, in the matching variant |
| `ZomIters.IntoIter.AsSlice` | src/lib.rs:238-244 | the remaining slice has at most one element unless the iterator is `Many`; `One(x)` leaves `[x]` |
| `ZomIters.IntoIter.Next` | src/lib.rs:260-270 | next returns `None` iff nothing remains, and then nothing changes. Otherwise it returns the first remaining element and drops it. `Many` stays `Many`; `One` leaves `Zero` |
| `ZomIters.IntoIter.Len` | src/lib.rs:279-284 | len is the number of remaining elements, at most one unless the iterator is `Many` |
| `ZomIters.IntoIter.SizeHint` | src/lib.rs:272-276 | both bounds of the size hint equal `len` |
| `ZomIters.IntoIter.Drain` | src/lib.rs:256-277 | running the iterator to the end yields each remaining element exactly once, in order, `len` of them, and leaves it empty |

## Left out

- Vector capacity and allocation are not modelled: `Vec::with_capacity`, `reserve` and the vector's own `shrink_to_fit` (src/lib.rs:80, 331, 350, 357). None of them changes content or variant.
- ZomCells.ZomCell.ToVec: the returned `&mut Vec` is modelled as a copy of the vector, so writes to it do not reach the state. Writes through it, such as the `push` in src/lib.rs:29, are modelled by assigning `Many(...)` back to the state (`ZomCells.ZomCell.Push`).
- ZomCells.ZomCell.CloneFrom: the capacity of the target's vector is passed in as `dstCapacity`; the cell does not track it. As for any real vector, it must be at least the target's length.
- A panic in the input iterator (or in `T::clone` inside `clone_from`) is not modelled. Input sequences cannot fail. In the source, `extend` has already called `take()` (src/lib.rs:347) when it drains the input (src/lib.rs:353, 359), so such a panic leaves the collection `Zero` and drops its old elements.
- Input iterators are finite sequences. Their `size_hint`, laziness and infinite iterators are not modelled.
- Element cloning (`T: Clone`) is the identity, because elements are values. Element equality is value equality; a `T::eq` that is not structural (custom, or not reflexive) is not modelled.
- `Hash` feeds the view to a foreign `Hasher`. A hasher is modelled as an arbitrary function of the sequence it is fed (`ZomOrd.Hash`). The byte stream it sees is not modelled.
- Ordering is proved for `int` elements only. `PartialOrd` over element types that are only partially ordered, such as floats, is not modelled.
- `iter`, `as_ref` and `IntoIterator for &Zom` only borrow the view. They are `Zoms.View` and have no separate member.
- `iter_mut`, `as_mut`, `IntoIterator for &mut Zom`, `slice_from_mut` and `IntoIter::as_mut_slice` hand out mutable references that alias the collection. They are left out. `deref_mut` is reduced to `ZomCells.ZomCell.SetAt`, which writes one element.
- `Debug` (derived formatting) and the `Eq` marker trait have no behaviour to model.
- Allocation failure, which aborts in the source, is not modelled.

## Findings

| source | as written | input that shows it | evidently intended | confidence | as-written member | corrected member |
|---|---|---|---|---|---|---|
| src/lib.rs:346-348 | `extend` on `Zero` becomes `One(first)` and never drains the rest of the input | extending `Zero` with `[0, 1]` gives `One(0)`, and `1` is lost | every input element is appended (`Many([0, 1])`), as for `One` and `Many` and as the `Extend` trait promises | high; not executed | `Zoms.ExtendZeroDropsTail` | `Zoms.ExtendedAll` |

`ZomCells.ZomCell.Extend` keeps the code's behaviour as written. `ZomCells.ZomCell.ExtendAll` is the corrected operation: in its `Zero` arm it collects the whole input.
`Zoms.ExtendedAllAgrees` shows the two agree on every other input. That includes the one-element extend of `Zero` in the repository's tests (src/tests.rs:51-52).
