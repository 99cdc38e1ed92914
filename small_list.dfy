/**
 * `SmallList<T>` of PrimitiveRenderer.cs: eight inline slots and a count, with no growth. Slot
 * `i & 7` is addressed by index `i`, so a list that receives more than eight elements wraps round
 * and overwrites its first slots. The model keeps that behaviour.
 */
module SmallLists {

  /** `i & 7` on a two's-complement int is the Euclidean remainder of i by 8. */
  function Slot(i: int): (k: nat)
    ensures k < 8
    ensures 0 <= i < 8 ==> k == i
  {
    i % 8
  }

  /**
   * When the elements 0 .. n-1 of a sequence are added in turn to a cleared list, slot k
   * (k < n) ends up holding the element with this index: the last one whose index is k mod 8.
   */
  function LastWriter(k: nat, n: nat): (j: nat)
    requires k < 8 && k < n
    ensures j < n && j % 8 == k && n - 8 <= j
  {
    k + 8 * ((n - 1 - k) / 8)
  }

  /** What a list shows for indices 0 .. |xs|-1 after xs has been added to it from empty. */
  function Wrap<T>(xs: seq<T>): (r: seq<T>)
    ensures |r| == |xs|
    ensures |xs| <= 8 ==> r == xs
    ensures forall j :: 0 <= j < |r| ==> r[j] in xs
  {
    seq(|xs|, j requires 0 <= j < |xs| => xs[LastWriter(j % 8, |xs|)])
  }

  /** Adding element n moves the last writer of slot n mod 8 to n and leaves the other slots alone. */
  lemma LastWriterStep(k: nat, n: nat)
    requires k < 8 && k < n + 1
    ensures k == n % 8 ==> LastWriter(k, n + 1) == n
    ensures k != n % 8 ==> k < n && LastWriter(k, n + 1) == LastWriter(k, n)
  {
    if k == n % 8 {
      assert n - k == 8 * (n / 8);
    } else {
      assert k < n;
      assert (n - k) % 8 != 0;
      assert (n - k) / 8 == (n - 1 - k) / 8;
    }
  }

  /**
   * The eight slots hold what adding the elements of xs in turn to a cleared list leaves in them:
   * each slot the last element written to it.
   */
  ghost predicate Holds<T>(slots: seq<T>, xs: seq<T>)
  {
    |slots| == 8 && forall k :: 0 <= k < 8 && k < |xs| ==> slots[k] == xs[LastWriter(k, |xs|)]
  }

  /** `Add` keeps the slots in step with the sequence of elements added. */
  lemma HoldsAdd<T>(slots: seq<T>, xs: seq<T>, v: T)
    requires Holds(slots, xs)
    ensures Holds(slots[Slot(|xs|) := v], xs + [v])
  {
    var n := |xs|;
    var after, ys := slots[Slot(n) := v], xs + [v];
    forall k | 0 <= k < 8 && k < n + 1
      ensures after[k] == ys[LastWriter(k, n + 1)]
    {
      LastWriterStep(k, n);
    }
  }

  /** Reading index j of such a list gives element j of the wrapped sequence. */
  lemma HoldsWrap<T>(slots: seq<T>, xs: seq<T>)
    requires Holds(slots, xs)
    ensures forall j :: 0 <= j < |xs| ==> slots[j % 8] == Wrap(xs)[j]
  {
  }

  class SmallList<T(0)> {
    var count: nat
    const slots: array<T>

    ghost predicate Valid()
      reads this
    {
      slots.Length == 8
    }

    /** The elements the list shows: index k reads slot k & 7. */
    function Items(): (r: seq<T>)
      reads this, slots
      requires Valid()
      ensures |r| == count
      ensures forall k :: 0 <= k < count ==> r[k] == slots[k % 8]
    {
      var n := count;
      seq(n, k requires 0 <= k < n reads slots => slots[k % 8])
    }

    /** A list whose slots hold the elements xs added since it was cleared shows `Wrap(xs)`. */
    lemma ShowsWrap(xs: seq<T>)
      requires Valid() && count == |xs| && Holds(slots[..], xs)
      ensures Items() == Wrap(xs)
    {
      HoldsWrap(slots[..], xs);
    }

    constructor ()
      ensures Valid() && fresh(slots) && count == 0 && Items() == []
    {
      count := 0;
      slots := new T[8];
    }

    method Clear()
      modifies this`count
      ensures count == 0
    {
      count := 0;
    }

    method Set(i: int, v: T)
      requires Valid()
      modifies slots
      ensures slots[..] == old(slots[..])[Slot(i) := v]
    {
      slots[Slot(i)] := v;
    }

    method Get(i: int) returns (v: T)
      requires Valid()
      ensures v == slots[Slot(i)]
    {
      v := slots[Slot(i)];
    }

    /** `Add` stores the value at slot `Count & 7` and then increments `Count`. */
    method Add(v: T)
      requires Valid()
      modifies this`count, slots
      ensures count == old(count) + 1
      ensures slots[..] == old(slots[..])[Slot(old(count)) := v]
    {
      Set(count, v);
      count := count + 1;
    }
  }
}
