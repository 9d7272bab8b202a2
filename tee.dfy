/**
 `async_q_tee` and its `_tee` task: every item taken from one source queue is
 appended to each of `n` output queues before the next item is taken.
 */
module Tee {

  class Tee<T> {
    var inq: seq<T>
    const outqs: array<seq<T>>
    /** Every item the source has ever held, in arrival order. */
    ghost var source: seq<T>
    /** The items taken from the source so far. */
    ghost var consumed: seq<T>

    /** Every output holds exactly the consumed prefix of the source. */
    ghost predicate Valid()
      reads this, outqs
    {
      && consumed + inq == source
      && forall i :: 0 <= i < outqs.Length ==> outqs[i] == consumed
    }

    /** `async_q_tee(inq, n)`: `n` fresh, empty output queues (two by default). */
    constructor (inq: seq<T>, n: nat := 2)
      ensures Valid() && fresh(outqs)
      ensures outqs.Length == n
      ensures this.inq == inq && source == inq && consumed == []
    {
      this.inq := inq;
      source := inq;
      consumed := [];
      outqs := new seq<T>[n](_ => []);
    }

    /** A producer puts one item on the source queue; the outputs see it only once it is taken. */
    method Put(x: T)
      requires Valid()
      modifies this
      ensures Valid()
      ensures inq == old(inq) + [x] && source == old(source) + [x] && consumed == old(consumed)
    {
      inq := inq + [x];
      source := source + [x];
    }

    /**
     One iteration of `_tee`: take the head of the source and append it to
     every output. On an empty source the take waits, so nothing changes.
     */
    method Step() returns (moved: bool)
      requires Valid()
      modifies this, outqs
      ensures Valid()
      ensures moved <==> old(inq) != []
      ensures moved ==> inq == old(inq)[1..] && consumed == old(consumed) + [old(inq)[0]]
      ensures !moved ==> inq == old(inq) && consumed == old(consumed)
      ensures forall i :: 0 <= i < outqs.Length ==>
        outqs[i] == if moved then old(outqs[i]) + [old(inq)[0]] else old(outqs[i])
    {
      if inq == [] {
        return false;
      }
      var item := inq[0];
      inq := inq[1..];
      for i := 0 to outqs.Length
        modifies outqs
        invariant forall j :: 0 <= j < i ==> outqs[j] == old(outqs[j]) + [item]
        invariant forall j :: i <= j < outqs.Length ==> outqs[j] == old(outqs[j])
      {
        outqs[i] := outqs[i] + [item];
      }
      consumed := consumed + [item];
      return true;
    }

    /** `k` iterations of `_tee`, stopping early when the source runs dry. */
    method Pump(k: nat) returns (moved: nat)
      requires Valid()
      modifies this, outqs
      ensures Valid()
      ensures moved == if k <= |old(inq)| then k else |old(inq)|
      ensures inq == old(inq)[moved..]
      ensures forall i :: 0 <= i < outqs.Length ==> outqs[i] == old(outqs[i]) + old(inq)[..moved]
      ensures forall i :: 0 <= i < outqs.Length ==> outqs[i] == source[..|source| - |inq|]
    {
      moved := 0;
      while moved < k && inq != []
        invariant Valid()
        invariant moved <= k && moved <= |old(inq)|
        invariant inq == old(inq)[moved..]
        invariant forall i :: 0 <= i < outqs.Length ==> outqs[i] == old(outqs[i]) + old(inq)[..moved]
        decreases k - moved
      {
        var _ := Step();
        assert old(inq)[..moved + 1] == old(inq)[..moved] + [old(inq)[moved]];
        moved := moved + 1;
      }
      assert |consumed| == |source| - |inq|;
    }
  }
}
