/**
 * Equality, ordering and hashing of `Zom`, all defined on the slice view, so
 * that two collections holding the same elements in different variants are
 * indistinguishable to them. The ordering is instantiated at `int`, a
 * totally ordered element type.
 */
module ZomOrd {
  import opened Options
  import opened Zoms

  datatype Ordering = Less | Equal | Greater

  /** `Ordering::reverse`. */
  function Reverse(o: Ordering): Ordering
  {
    match o
    case Less => Greater
    case Equal => Equal
    case Greater => Less
  }

  /**
   * `Ord for [T]`: the first position where the slices differ decides; when
   * one slice is a prefix of the other, the shorter one is less.
   */
  function LexCmp(s: seq<int>, t: seq<int>): (r: Ordering)
    ensures r == Equal <==> s == t
  {
    if s == [] then
      if t == [] then Equal else Less
    else if t == [] then Greater
    else if s[0] < t[0] then Less
    else if s[0] > t[0] then Greater
    else
      assert s == [s[0]] + s[1..] && t == [t[0]] + t[1..];
      LexCmp(s[1..], t[1..])
  }

  /** Swapping the arguments of the slice order reverses its answer. */
  lemma {:induction false} LexCmpReverse(s: seq<int>, t: seq<int>)
    ensures LexCmp(t, s) == Reverse(LexCmp(s, t))
  {
    if s != [] && t != [] && s[0] == t[0] {
      LexCmpReverse(s[1..], t[1..]);
    }
  }

  /** The slice order is transitive. */
  lemma {:induction false} LexCmpTransitive(s: seq<int>, t: seq<int>, u: seq<int>)
    requires LexCmp(s, t) == Less && LexCmp(t, u) == Less
    ensures LexCmp(s, u) == Less
  {
    if s != [] && t != [] && u != [] && s[0] == t[0] && t[0] == u[0] {
      LexCmpTransitive(s[1..], t[1..], u[1..]);
    }
  }

  /** A proper prefix is less than the slice it begins. */
  lemma {:induction false} LexCmpPrefix(s: seq<int>, t: seq<int>)
    requires |s| < |t| && s == t[..|s|]
    ensures LexCmp(s, t) == Less
  {
    if s != [] {
      assert s[0] == t[0];
      assert s[1..] == t[1..][..|s[1..]|];
      LexCmpPrefix(s[1..], t[1..]);
    }
  }

  /** The first position where the slices differ decides the order. */
  lemma {:induction false} LexCmpFirstDiff(s: seq<int>, t: seq<int>, k: nat)
    requires k < |s| && k < |t| && s[..k] == t[..k] && s[k] < t[k]
    ensures LexCmp(s, t) == Less
  {
    if k > 0 {
      assert s[0] == s[..k][0] == t[..k][0] == t[0];
      assert s[1..][..k - 1] == s[..k][1..] == t[..k][1..] == t[1..][..k - 1];
      LexCmpFirstDiff(s[1..], t[1..], k - 1);
    }
  }

  /** Conversely, `Less` arises only from a proper prefix or a first difference that is smaller. */
  lemma {:induction false} LexCmpLessCases(s: seq<int>, t: seq<int>)
    requires LexCmp(s, t) == Less
    ensures (|s| < |t| && s == t[..|s|]) || exists k :: 0 <= k < |s| && k < |t| && s[..k] == t[..k] && s[k] < t[k]
  {
    if s != [] && t != [] && s[0] == t[0] {
      LexCmpLessCases(s[1..], t[1..]);
      if |s| < |t| && s[1..] == t[1..][..|s[1..]|] {
        assert s == [s[0]] + s[1..] && t[..|s|] == [t[0]] + t[1..][..|s[1..]|];
      } else {
        var k :| 0 <= k < |s[1..]| && k < |t[1..]| && s[1..][..k] == t[1..][..k] && s[1..][k] < t[1..][k];
        assert s[..k + 1] == [s[0]] + s[1..][..k] && t[..k + 1] == [t[0]] + t[1..][..k];
        assert s[k + 1] < t[k + 1];
      }
    } else if s != [] && t != [] {
      assert s[..0] == t[..0];
    }
  }

  /** `PartialEq for Zom`: the views are equal. */
  predicate Eq<T(==)>(a: Zom<T>, b: Zom<T>): (r: bool)
    ensures r <==> Clone(a) == Clone(b)
  {
    if View(a) == View(b) then
      MinimalUnique(Clone(a), Clone(b));
      true
    else
      false
  }

  /** Equality cannot tell `One(x)` from `Many([x])`, nor `Zero` from `Many([])`, though they are different values. */
  lemma EqIgnoresVariant<T>(x: T)
    ensures Eq(One(x), Many([x])) && One(x) != Many([x])
    ensures Eq(Zom<T>.Zero, Zom<T>.Many([])) && Zom<T>.Zero != Zom<T>.Many([])
  {
  }

  /** `Ord for Zom`: the slice order on the views. */
  function Cmp(a: Zom<int>, b: Zom<int>): (r: Ordering)
    ensures r == Equal <==> Eq(a, b)
  {
    LexCmp(View(a), View(b))
  }

  /** `PartialOrd for Zom`: always comparable at a total element type, agreeing with equality. */
  function PartialCmp(a: Zom<int>, b: Zom<int>): (r: Option<Ordering>)
    ensures r.Some? && (r.value == Equal <==> Eq(a, b))
  {
    Some(Cmp(a, b))
  }

  /** `Ord for Zom` is antisymmetric: swapping the arguments reverses the answer. */
  lemma CmpReverse(a: Zom<int>, b: Zom<int>)
    ensures Cmp(b, a) == Reverse(Cmp(a, b))
  {
    LexCmpReverse(View(a), View(b));
  }

  /** `Ord for Zom` is transitive. */
  lemma CmpTransitive(a: Zom<int>, b: Zom<int>, c: Zom<int>)
    requires Cmp(a, b) == Less && Cmp(b, c) == Less
    ensures Cmp(a, c) == Less
  {
    LexCmpTransitive(View(a), View(b), View(c));
  }

  /** The order ignores representation: every collection compares as its clone does. */
  lemma CmpIgnoresVariant(a: Zom<int>, b: Zom<int>)
    ensures Cmp(a, b) == Cmp(Clone(a), Clone(b))
  {
  }

  /** `Hash for Zom`: the hasher is fed the slice view; a hasher is any function of what it is fed. */
  function Hash<T>(hasher: seq<T> -> int, z: Zom<T>): (r: int)
    ensures r == hasher(View(Clone(z)))
  {
    hasher(View(z))
  }

  /** Equal collections hash equally, whatever their variants. */
  lemma HashRespectsEq<T>(hasher: seq<T> -> int, a: Zom<T>, b: Zom<T>)
    requires Eq(a, b)
    ensures Hash(hasher, a) == Hash(hasher, b)
  {
  }
}
