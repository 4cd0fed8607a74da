/**
 * The list bookkeeping of `custom_grad` in hypergrad/utils.py.
 *
 * `custom_grad` gathers the inputs whose `requires_grad` flag is set, asks the
 * differentiation engine for one gradient per gathered input, and scatters the
 * answers back into a list as long as `inputs`, with the placeholder `0` in the
 * slots of the inputs that were not gathered.
 *
 * The engine is a parameter: it receives the gathered inputs and the
 * `allow_unused` value that is passed to it, and answers with one optional
 * gradient per gathered input.
 */
module Utils {
  import opened Wrappers

  /** An input tensor: an opaque value together with its `requires_grad` flag. */
  datatype Input<T> = Input(value: T, requiresGrad: bool)

  /**
   * One slot of the returned list: either the integer placeholder `0` that
   * `[0]*len(inputs)` puts there, or the engine's entry for that input,
   * copied as it is (so an engine `None` stays `Grad(None)`).
   */
  datatype Slot<G> = Placeholder | Grad(grad: Option<G>)

  /** Every position in `positions` indexes into a sequence of length `n`. */
  predicate InRange(positions: seq<nat>, n: nat)
  {
    forall k :: 0 <= k < |positions| ==> positions[k] < n
  }

  /** The elements of `s` at `positions`, in the order of `positions`. */
  function Pick<S>(s: seq<S>, positions: seq<nat>): seq<S>
    requires InRange(positions, |s|)
  {
    seq(|positions|, k requires 0 <= k < |positions| => s[positions[k]])
  }

  /** Every engine entry as a result slot, in order. */
  function Wrapped<G>(grads: seq<Option<G>>): seq<Slot<G>>
  {
    seq(|grads|, k requires 0 <= k < |grads| => Grad(grads[k]))
  }

  // ---------------------------------------------------------------------------
  // Gather: the two list comprehensions
  // ---------------------------------------------------------------------------

  /** The flagged positions among the first `n` inputs, in increasing order. */
  function FlaggedBelow<T>(inputs: seq<Input<T>>, n: nat): (idx: seq<nat>)
    requires n <= |inputs|
    ensures |idx| <= n
    ensures InRange(idx, n)
  {
    if n == 0 then []
    else FlaggedBelow(inputs, n - 1) + (if inputs[n - 1].requiresGrad then [n - 1] else [])
  }

  /** The flagged inputs among the first `n` inputs, in their original order. */
  function FlaggedInputsBelow<T>(inputs: seq<Input<T>>, n: nat): (params: seq<Input<T>>)
    requires n <= |inputs|
    ensures |params| == |FlaggedBelow(inputs, n)|
    ensures forall k :: 0 <= k < |params| ==> params[k].requiresGrad
  {
    if n == 0 then []
    else FlaggedInputsBelow(inputs, n - 1) + (if inputs[n - 1].requiresGrad then [inputs[n - 1]] else [])
  }

  /** The positions gathered from the first `n` inputs strictly increase. */
  lemma {:induction false} FlaggedBelowIncreasing<T>(inputs: seq<Input<T>>, n: nat)
    requires n <= |inputs|
    ensures forall k, l :: 0 <= k < l < |FlaggedBelow(inputs, n)| ==>
              FlaggedBelow(inputs, n)[k] < FlaggedBelow(inputs, n)[l]
  {
    if n > 0 {
      FlaggedBelowIncreasing(inputs, n - 1);
    }
  }

  /** A position below `n` is gathered exactly when its input is flagged. */
  lemma {:induction false} FlaggedBelowExactly<T>(inputs: seq<Input<T>>, n: nat)
    requires n <= |inputs|
    ensures forall i :: 0 <= i < n ==> (i in FlaggedBelow(inputs, n) <==> inputs[i].requiresGrad)
  {
    if n > 0 {
      FlaggedBelowExactly(inputs, n - 1);
    }
  }

  /** What is gathered from a shorter prefix is a prefix of what is gathered from a longer one. */
  lemma {:induction false} FlaggedBelowPrefix<T>(inputs: seq<Input<T>>, i: nat, n: nat)
    requires i <= n <= |inputs|
    ensures FlaggedBelow(inputs, i) <= FlaggedBelow(inputs, n)
    decreases n
  {
    if i < n {
      FlaggedBelowPrefix(inputs, i, n - 1);
    }
  }

  /**
   * `parmas_index`: the positions of the flagged inputs. Exactly the flagged
   * positions, each in range, in strictly increasing order (so without
   * duplicates).
   */
  function FlaggedIndices<T>(inputs: seq<Input<T>>): (idx: seq<nat>)
    ensures |idx| <= |inputs|
    ensures InRange(idx, |inputs|)
    ensures forall k, l :: 0 <= k < l < |idx| ==> idx[k] < idx[l]
    ensures forall i :: 0 <= i < |inputs| ==> (i in idx <==> inputs[i].requiresGrad)
  {
    FlaggedBelowIncreasing(inputs, |inputs|);
    FlaggedBelowExactly(inputs, |inputs|);
    FlaggedBelow(inputs, |inputs|)
  }

  /**
   * `params_requiring_grad`: the flagged inputs themselves, in their original
   * order. There is one of them per flagged position, and all are flagged.
   */
  function FlaggedInputs<T>(inputs: seq<Input<T>>): (params: seq<Input<T>>)
    ensures |params| == |FlaggedIndices(inputs)|
    ensures forall k :: 0 <= k < |params| ==> params[k].requiresGrad
  {
    FlaggedInputsBelow(inputs, |inputs|)
  }

  /** The gather of the first `n` inputs reads them at the gathered positions. */
  lemma {:induction false} FlaggedInputsBelowAtPositions<T>(inputs: seq<Input<T>>, n: nat)
    requires n <= |inputs|
    ensures InRange(FlaggedBelow(inputs, n), |inputs|)
    ensures FlaggedInputsBelow(inputs, n) == Pick(inputs, FlaggedBelow(inputs, n))
  {
    if n > 0 {
      FlaggedInputsBelowAtPositions(inputs, n - 1);
    }
  }

  /**
   * The order-preserving gather: the k-th flagged input is the input at the
   * k-th flagged position, `params_requiring_grad == [inputs[p] for p in parmas_index]`.
   */
  lemma FlaggedInputsAreAtFlaggedIndices<T>(inputs: seq<Input<T>>)
    ensures FlaggedInputs(inputs) == Pick(inputs, FlaggedIndices(inputs))
  {
    FlaggedInputsBelowAtPositions(inputs, |inputs|);
  }

  // ---------------------------------------------------------------------------
  // Scatter: the result list
  // ---------------------------------------------------------------------------

  /**
   * The number of flagged inputs strictly before position `i`: the value of the
   * counter `j` when the scatter loop reaches `i`. At a flagged position it
   * names that position's entry among the flagged ones.
   */
  function Rank<T>(inputs: seq<Input<T>>, i: nat): (j: nat)
    requires i <= |inputs|
    ensures j <= |FlaggedIndices(inputs)|
    ensures i < |inputs| && inputs[i].requiresGrad ==>
              j < |FlaggedIndices(inputs)| && FlaggedIndices(inputs)[j] == i
  {
    FlaggedBelowPrefix(inputs, i, |inputs|);
    FlaggedBelowPrefix(inputs, if i < |inputs| then i + 1 else i, |inputs|);
    |FlaggedBelow(inputs, i)|
  }

  /**
   * The list `custom_grad` returns, given the engine's entries `grads` (one per
   * flagged input): the slot of a flagged input at position `i` holds the
   * engine entry for it, the one whose index counts the flagged inputs before
   * `i`; every other slot holds the placeholder. It is as long as `inputs`,
   * and a slot is the placeholder exactly when its input is not flagged: an
   * engine `None` is kept, never turned into the placeholder.
   */
  function Scattered<T, G>(inputs: seq<Input<T>>, grads: seq<Option<G>>): (result: seq<Slot<G>>)
    requires |grads| == |FlaggedIndices(inputs)|
    ensures |result| == |inputs|
    ensures forall i :: 0 <= i < |inputs| ==> (result[i] == Placeholder <==> !inputs[i].requiresGrad)
  {
    seq(|inputs|, i requires 0 <= i < |inputs| =>
      if inputs[i].requiresGrad then Grad(grads[Rank(inputs, i)]) else Placeholder)
  }

  /** The k-th flagged position has exactly k flagged positions before it. */
  lemma RankOfKthFlagged<T>(inputs: seq<Input<T>>, k: nat)
    requires k < |FlaggedIndices(inputs)|
    ensures Rank(inputs, FlaggedIndices(inputs)[k]) == k
  {
  }

  /**
   * The k-th flagged position receives the k-th engine entry, unchanged; a
   * `None` entry therefore arrives as `Grad(None)`, never as the placeholder.
   */
  lemma KthFlaggedGetsKthGrad<T, G>(inputs: seq<Input<T>>, grads: seq<Option<G>>, k: nat)
    requires |grads| == |FlaggedIndices(inputs)|
    requires k < |grads|
    ensures Scattered(inputs, grads)[FlaggedIndices(inputs)[k]] == Grad(grads[k])
  {
    RankOfKthFlagged(inputs, k);
  }

  /**
   * Round trip of scatter and gather: reading the result at the flagged
   * positions, in order, gives back the engine's entries exactly.
   */
  lemma ScatterThenGather<T, G>(inputs: seq<Input<T>>, grads: seq<Option<G>>)
    requires |grads| == |FlaggedIndices(inputs)|
    ensures Pick(Scattered(inputs, grads), FlaggedIndices(inputs)) == Wrapped(grads)
  {
    forall k | 0 <= k < |grads|
      ensures Scattered(inputs, grads)[FlaggedIndices(inputs)[k]] == Grad(grads[k])
    {
      KthFlaggedGetsKthGrad(inputs, grads, k);
    }
  }

  /**
   * The result is determined by the two properties above: any list as long as
   * `inputs`, with the placeholder at every unflagged position and the engine's
   * entries, in order, at the flagged ones, is the scattered list.
   */
  lemma ScatteredIsUnique<T, G>(inputs: seq<Input<T>>, grads: seq<Option<G>>, result: seq<Slot<G>>)
    requires |grads| == |FlaggedIndices(inputs)|
    requires |result| == |inputs|
    requires forall i :: 0 <= i < |inputs| && !inputs[i].requiresGrad ==> result[i] == Placeholder
    requires Pick(result, FlaggedIndices(inputs)) == Wrapped(grads)
    ensures result == Scattered(inputs, grads)
  {
    var idx := FlaggedIndices(inputs);
    forall i | 0 <= i < |inputs|
      ensures result[i] == Scattered(inputs, grads)[i]
    {
      if inputs[i].requiresGrad {
        var j := Rank(inputs, i);
        assert Pick(result, idx)[j] == result[idx[j]];
      }
    }
  }

  // ---------------------------------------------------------------------------
  // custom_grad
  // ---------------------------------------------------------------------------

  /**
   * `custom_grad(outputs, inputs, ..., allow_unused)`. The engine stands for
   * `torch.autograd.grad` applied to `outputs` with the caller's seeds and graph
   * flags; it is called once, on the flagged inputs, always with
   * `allow_unused=True`, and is assumed to answer with one entry per flagged
   * input. The result is the scattered list of its answer, whatever the
   * caller's `allowUnused`.
   */
  method CustomGrad<T, G>(inputs: seq<Input<T>>, engine: (seq<Input<T>>, bool) -> seq<Option<G>>,
                          allowUnused: bool)
    returns (result: seq<Slot<G>>)
    requires |engine(FlaggedInputs(inputs), true)| == |FlaggedInputs(inputs)|
    ensures result == Scattered(inputs, engine(FlaggedInputs(inputs), true))
  {
    var paramsIndex := FlaggedIndices(inputs);
    var paramsRequiringGrad := FlaggedInputs(inputs);
    var grads := engine(paramsRequiringGrad, true);
    ghost var expected := Scattered(inputs, grads);
    var slots := new Slot<G>[|inputs|](_ => Placeholder);
    var j := 0;
    for i := 0 to |inputs|
      invariant j == Rank(inputs, i)
      invariant slots[..i] == expected[..i]
      invariant forall k :: i <= k < |inputs| ==> slots[k] == Placeholder
    {
      assert i in paramsIndex <==> inputs[i].requiresGrad;
      if i in paramsIndex {
        slots[i] := Grad(grads[j]);
        j := j + 1;
      }
      assert slots[i] == expected[i];
    }
    assert j == |paramsIndex|;
    result := slots[..];
  }
}
