# hypergrad `custom_grad`: gather and scatter of gradients

`custom_grad` (hypergrad/utils.py) wraps `torch.autograd.grad`. It lets callers pass
inputs that do not require gradients. First it gathers the inputs whose
`requires_grad` flag is set: their positions (`parmas_index`) and the inputs
themselves (`params_requiring_grad`). It then calls the engine once on the gathered
inputs, always with `allow_unused=True`. Finally it scatters the engine's answers
back into a list as long as `inputs`. Each slot not filled by the engine keeps the
placeholder `0`.

The model is written in Dafny and has two files:

- `wrappers.dfy`: an `Option` datatype for the engine's per-input answer.
  `None` stands for Python's `None`.
- `utils.dfy`, module `Utils`: the rest of the model.
  - An input is `Input(value, requiresGrad)`.
  - A result slot is `Placeholder` (the integer `0`) or `Grad(g)`, where `g` is the
    engine's entry copied unchanged.
  - The gather comprehensions (lines 15-16) are pure functions.
  - The whole function (lines 5-26) is the method `CustomGrad`. It computes the
    gather, calls the engine once, and then runs the scatter loop (lines 20-26),
    which fills a freshly allocated array in place with a `for` loop and the
    counter `j`.
  - The method is proved against the specification function `Scattered`.
  - Lemmas prove the properties of `Scattered`: the placement of the k-th gradient,
    the scatter/gather round trip, and uniqueness.

The engine is a parameter `engine: (seq<Input<T>>, bool) -> seq<Option<G>>`. It
receives the gathered inputs and the `allow_unused` value actually passed to it. The
one thing assumed of it is that it returns one entry per gathered input.

Two behaviours of the code are worth stating outright:

- A missing gradient (`None`) from the engine is copied unchanged (line 24). In the
  model it is `Grad(None)`, never `Placeholder`.
- The engine is called at line 18 even when no input is flagged, and the model does
  the same.

## Model

| member | source | states |
|---|---|---|
| Utils.FlaggedBelow | hypergrad/utils.py:15 | The positions gathered from the first `n` inputs number at most `n` and each is below `n`. |
| Utils.FlaggedInputsBelow | hypergrad/utils.py:16 | The inputs gathered from the first `n` inputs are all flagged. There are as many of them as there are gathered positions. |
| Utils.FlaggedBelowIncreasing | hypergrad/utils.py:15 | The gathered positions strictly increase, in enumeration order. |
| Utils.FlaggedBelowExactly | hypergrad/utils.py:15 | A position below `n` is gathered if and only if its input has `requires_grad` set. |
| Utils.FlaggedBelowPrefix | hypergrad/utils.py:15 | Gathering a shorter prefix of the inputs yields a prefix of what gathering a longer one yields. |
| Utils.FlaggedIndices | hypergrad/utils.py:15 | `parmas_index` has one entry for each flagged position and no other entries. Each entry is within `len(inputs)`, and the entries strictly increase, so there are no duplicates. |
| Utils.FlaggedInputs | hypergrad/utils.py:16 | `params_requiring_grad` is as long as `parmas_index`, and each of its elements is flagged. |
| Utils.FlaggedInputsBelowAtPositions | hypergrad/utils.py:15-16 | For every prefix, the gathered inputs are the inputs read at the gathered positions, in order. |
| Utils.FlaggedInputsAreAtFlaggedIndices | hypergrad/utils.py:15-16 | `params_requiring_grad[k] == inputs[parmas_index[k]]` for every k, so it is the order-preserving subsequence of flagged inputs. |
| Utils.Rank | hypergrad/utils.py:21-25 | The number of flagged positions before `i` is at most `len(parmas_index)`. At a flagged `i` it is an index into `parmas_index`, and `parmas_index` holds `i` at that index. Consequently `grads[j]` is in range whenever it is read. |
| Utils.Scattered | hypergrad/utils.py:20-25 | The result has length `len(inputs)` whatever the number of flagged inputs. A slot holds the placeholder if and only if its input is not flagged, so an engine `None` is never turned into `0`. |
| Utils.RankOfKthFlagged | hypergrad/utils.py:15-25 | At the k-th flagged position the counter `j` equals k. |
| Utils.KthFlaggedGetsKthGrad | hypergrad/utils.py:21-25 | The k-th flagged position receives `grads[k]` unchanged. A `None` entry arrives as `Grad(None)`, not as the placeholder. |
| Utils.ScatterThenGather | hypergrad/utils.py:15-25 | Round trip: reading the result at the positions in `parmas_index`, in order, gives back the engine's entries exactly. |
| Utils.ScatteredIsUnique | hypergrad/utils.py:20-25 | Three properties together determine the result: it has length `len(inputs)`, it holds the placeholder at each unflagged position, and it holds `grads` in order at the flagged positions. |
| Utils.CustomGrad | hypergrad/utils.py:5-26 | The engine is called once, on the flagged inputs, with `allow_unused=True`. The returned list is the scattered list of its answer, for either value of the caller's `allow_unused`. The loop keeps `j` equal to the number of flagged positions already visited, so at exit `j == len(parmas_index)`. |

## Left out

- `torch.autograd.grad` itself (line 18) is not modelled. Differentiation, graph traversal and the gradient values belong to the engine, which is an opaque parameter.
- The only property assumed of the engine is that it returns one entry per input it was given. The precondition of `CustomGrad` excludes every other engine answer. With fewer entries Python would raise `IndexError`. With more entries Python would run and ignore the extras; the model does not cover that case either.
- `outputs`, `grad_outputs`, `retain_graph`, `create_graph` and `only_inputs` are passed straight to the engine. They are captured inside the `engine` parameter rather than modelled one by one.
- Errors raised by the engine are not modelled: shape mismatches, a disconnected graph, a freed graph. The wrapper adds no checks of its own.
- The single-tensor form of `inputs` is not modelled. There `enumerate` and `len` would iterate over the tensor's first dimension. Only a sequence of inputs is modelled.
- Tensor contents and shapes are not modelled. Inputs and gradients are opaque type parameters.
- Utils.CustomGrad: the result is returned as the contents of the array it fills (a `seq`), not as a mutable list object. The list is fresh and unshared, so no aliasing is lost. `inputs` is a value and is never modified.
