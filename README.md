# HAN (heterogeneous graph attention network) — a Dafny model

This project models the sequential logic of the HAN model in OpenHGNN,
`openhgnn/models/HAN.py`. The numerical parts are left out. The model covers:

- **Metapath enumeration** (`HAN.build_model_from_args`). The method walks the
  canonical edge types `(src, rel, dst)` of the graph schema in a nested loop.
  It collects every two-hop metapath `[e1, e2]` that leaves the target category
  and comes back to it along the reverse category pair. First hops that are
  self-loop edge types are skipped.
- **Layer-width chaining** (`HAN.__init__`). The method builds one HAN layer per
  entry of `num_heads`. Layer 0 reads `in_size`. Layer `l` reads
  `hidden_size * num_heads[l-1]`. The linear head reads
  `hidden_size * num_heads[-1]`.
- **The HAN layer and its projected-subgraph cache** (`HANLayer`). A layer has
  one attention branch per metapath. It caches the metapath-projected
  subgraphs of the last graph it saw, keyed by graph identity. A forward pass
  on another graph clears the cache and projects every metapath again. It
  then computes one embedding per metapath, in declared order, and combines
  them.
- **The model's forward pass** (`HAN.forward`). It runs the layers in order and
  applies the linear head.

Files and modules:

- `han_types.dfy` (`HanTypes`): the schema types, graph identities and layer
  shapes. It also holds symbolic tensors. A `Tensor` value names the library
  operation that produced it and that operation's operands.
- `metapaths.dfy` (`MetaPathEnumeration`): the enumeration loop and its
  specification. The specification works on index pairs into the edge-type
  list.
- `han_layer.dfy` (`HanLayers`): the class `HanLayer`.
- `han.dfy` (`HanModel`): the class `Han`, the width plan, and two client
  scenarios.

External calls are modelled as follows:

- `dgl.metapath_reachable_graph(g, mp)` is the datatype value
  `MetapathReachableGraph(g, mp)`. It acts as an uninterpreted function of the
  graph identity and the metapath.
- A ghost counter, `projectionCalls`, counts the calls to it.
- Branch `i` of a layer applied to a projection and an input is the term
  `GatOutput(i, conv, subgraph, h)`.
- Semantic attention over the stacked embeddings is
  `SemanticCombined(width, embeddings)`.
- The linear head is `LinearOutput(head, h)`.
- The features read from the graph are `NodeFeatures(g, category)`.

`torch.stack` raises an error on an empty list. This happens when no metapath
was found. The model returns `Err(EmptyStack)` in that case. The failing
layer's cache is still updated, because the source clears and refills the
cache before it stacks.

Two consequences of the code are worth stating:

- The code does not reject an empty metapath list when the model is built.
  The first forward pass fails instead; see
  `HanModel.Han.OutputFailsIffNoMetaPaths`.
- The code tests only that the first hop is not a self-loop. The second hop's
  exclusion follows from the matching test;
  `MetaPathEnumeration.EnumeratedShape` proves it.

## Model

| member | source | states |
|---|---|---|
| `MetaPathEnumeration.EnumerateMetaPaths` | openhgnn/models/HAN.py:29-36 | the nested loop returns exactly `Enumerated(category, etypes)`: the metapath `[etypes[i], etypes[j]]` for each selected index pair, in the order the loops accept them |
| `MetaPathEnumeration.RowPairs` | openhgnn/models/HAN.py:33-36 | for one first hop `i`, every accepted pair is `(i, j)` with `j` already visited and passing the test; the second indices strictly increase |
| `MetaPathEnumeration.Selected` | openhgnn/models/HAN.py:31-36 | after visiting the first `m` edge types, every accepted pair has a first hop below `m`, points into the list, and passes the test |
| `MetaPathEnumeration.RowPairsComplete` | openhgnn/models/HAN.py:33-36 | the inner loop misses no second hop that passes the test |
| `MetaPathEnumeration.SelectedComplete` | openhgnn/models/HAN.py:31-36 | the loops miss no admissible pair whose first hop has been visited |
| `MetaPathEnumeration.SelectedExact` | openhgnn/models/HAN.py:31-36 | a pair `(i, j)` is selected if and only if both indices are in range and the pair passes the test: first hop leaves the category, second hop reverses its category pair, first hop not a self-loop |
| `MetaPathEnumeration.SelectedSorted` | openhgnn/models/HAN.py:31-36 | the selected pairs are strictly increasing by `i`, then by `j`, so none appears twice |
| `MetaPathEnumeration.SelectedCharacterized` | openhgnn/models/HAN.py:31-36 | any strictly sorted list that holds exactly the admissible pairs is the selection |
| `MetaPathEnumeration.EnumeratedCount` | openhgnn/models/HAN.py:31-36 | the number of metapaths equals the number of admissible index pairs |
| `MetaPathEnumeration.EnumeratedShape` | openhgnn/models/HAN.py:32-35 | every metapath has two hops: the first starts at the category, the second ends there, they chain, the second reverses the first's category pair, neither is a self-loop, and they are different edge types |
| `MetaPathEnumeration.EnumeratedExact` | openhgnn/models/HAN.py:31-36 | `[e1, e2]` is enumerated if and only if both are edge types of the schema and they pass the test |
| `MetaPathEnumeration.NoOutgoingNoMetaPaths` | openhgnn/models/HAN.py:32 | nothing is enumerated when no edge type starts at the category |
| `MetaPathEnumeration.AuthorPaperMetaPath` | openhgnn/models/HAN.py:31-36 | with author→paper "write" and paper→author "written-by", category author, the only metapath is `[write, written-by]` |
| `HanModel.PlanChained` | openhgnn/models/HAN.py:47-52 | the plan has `len(num_heads)` layers with `hidden_size` per head and `num_heads[l]` heads; layer 0 reads `in_size`, layer `l` reads `hidden_size * num_heads[l-1]`, and the head reads `hidden_size * num_heads[-1]` |
| `HanModel.ChainedIsPlan` | openhgnn/models/HAN.py:47-52 | conversely, any shapes with those head counts whose widths chain are the plan, and the head then reads `hidden_size * num_heads[-1]` |
| `HanModel.Han.constructor` | openhgnn/models/HAN.py:44-52 | the layers' shapes are the plan; the head maps `hidden_size * num_heads[-1]` to `out_size`; the layers are fresh, distinct objects with the given metapaths and empty caches |
| `HanModel.Han.BuildModelFromArgs` | openhgnn/models/HAN.py:28-42 | every layer of the built model is fresh, serves exactly the enumerated metapaths of the category, has the given dropout and an empty cache with no projection made, and has the planned widths; the head maps `hidden_size * num_heads[-1]` to `out_size` |
| `HanModel.Han.ThroughErrSticks` | openhgnn/models/HAN.py:57-58 | once a layer fails, the stack's result is that failure |
| `HanModel.Han.ThroughFailsIffNoMetaPaths` | openhgnn/models/HAN.py:57-58 | running any non-empty prefix of the layers fails if and only if there are no metapaths |
| `HanModel.Han.OutputFailsIffNoMetaPaths` | openhgnn/models/HAN.py:54-60 | the forward pass fails if and only if there are no metapaths; on success its result is keyed by the category alone |
| `HanModel.Han.WidthsAgree` | openhgnn/models/HAN.py:48-52 | each layer's combined output width `out_size * layer_num_heads` equals the next layer's input width; for the last layer it equals the head's input width |
| `HanModel.Han.Forward` | openhgnn/models/HAN.py:54-60 | the result is the head applied to the layers run in order on the category's features, or the first failure; on success every layer caches `g` and projected its metapaths anew only on an identity miss; on failure the first layer has done so and the later layers are unchanged |
| `HanModel.RepeatedForward` | openhgnn/models/HAN.py:102-107 | two passes on the same graph compute the same term (the same branches on the same projections and input); the second pass makes no projection; with metapaths, each pass's result combines, at width 16, branch `i` applied to metapath `i`'s projection of the pass's own graph, for every `i`; a pass on another graph projects every metapath once more |
| `HanModel.AuthorPaperModel` | openhgnn/models/HAN.py:28-60 | authors and papers with `in_size = 4`, `num_heads = [2]`, `hidden_size = 8`, `out_size = 3`: the forward pass succeeds and its result is keyed by "author" alone; that entry is the 16-to-3 head applied to a width-16 semantic combination of the single branch `(4, 8, 2)` with dropout 0.5, run on the `[write, written-by]` projection of `g` and the author features |
| `HanLayers.HanLayer.constructor` | openhgnn/models/HAN.py:84-97 | one branch per metapath, each with widths `(in_size, out_size, layer_num_heads)`; the semantic-attention width is `out_size * layer_num_heads`; the metapaths keep their order; the cache is empty |
| `HanLayers.HanLayer.Forward` | openhgnn/models/HAN.py:99-114 | afterwards the cached graph is `g` and the cache maps exactly the metapaths to their projections of `g`; on a hit, nothing is projected and the cache is unchanged; on a miss, every metapath is projected once; the result is the combination of branch `i` on the projection of metapath `i`, in order, or `EmptyStack` when there are no metapaths |

## Left out

- GATConv, SemanticAttention, nn.Linear, ELU, dropout, `flatten` and `torch.stack` are floating-point tensor numerics inside external libraries. Their results are symbolic `Tensor` terms. Only which operation is applied to which operands, in what order and how many times, is modelled.
- The internals of `dgl.metapath_reachable_graph` are left out. Its result depends only on the graph's identity and the metapath. So the model cannot express a stale cache after a graph is changed in place under the same identity.
- `HanLayers.HanLayer.Forward`: the projection call is modelled as total. In the source, `_cached_graph` is set before the refill loop (`openhgnn/models/HAN.py:103`). If `dgl.metapath_reachable_graph` raised partway through that loop (line 106), the dict would stay partly filled, and the next forward pass on the same graph would be a cache hit that fails with KeyError at line 110. The model cannot express this.
- Reading `g.nodes[category].data['h']` becomes the opaque term `NodeFeatures(g, category)`. The `h` argument of `HAN.forward` is left out, because the source overwrites it before use.
- Shape errors raised inside the tensor library are not modelled, for example feature widths that do not match `in_size`. The model proves only that the configured widths chain.
- Widths and head counts are `nat`. Negative sizes fail inside the tensor library, which is out of scope.
- The dropout probability is any `real`. `nn.Dropout` raises ValueError for a probability outside [0, 1]; the model does not reject it.
- `HanModel.Han.constructor`, `HanModel.Han.BuildModelFromArgs`: an empty `num_heads` makes the source raise IndexError. The model excludes it with a precondition instead of an error result.
- `register_model`, `BaseModel` and the `args` object are left out. `BuildModelFromArgs` takes the argument values as parameters.
- `HanModel.RepeatedForward`: a `Tensor` term names a computation, not its value. Module weights and dropout masks are not operands. Dropout masks are random in training mode, which is the default. So `first == second` means the second pass applies the same branches to the same projections and the same input, not that the two passes return equal numbers. Two layers built with the same arguments likewise give equal terms, although their weights are independent.
- Autograd and concurrency are left out. No logic here depends on them.
