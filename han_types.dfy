/**
 The values shared by the HAN model: the schema of a heterogeneous graph
 (node categories and canonical edge types), metapaths, graph identities, and
 symbolic stand-ins for the tensors that the graph and tensor libraries compute.
 */
module HanTypes {

  /** A node category of the heterogeneous graph, e.g. "author". */
  type Cat = string

  /** A relation name, e.g. "write". */
  type Rel = string

  /** A canonical edge type (source category, relation, destination category). */
  datatype EdgeType = EdgeType(src: Cat, rel: Rel, dst: Cat)

  /** A metapath: an ordered list of canonical edge types. */
  type MetaPath = seq<EdgeType>

  /** The identity of a graph object. Two graphs are "the same" exactly when
      their identities are equal; their contents play no part. */
  type GraphId = nat

  /** The homogeneous graph that the graph library derives from graph `graph`
      along metapath `metaPath`. Its internals belong to the library: the model
      only records of which graph and which metapath it is the projection. */
  datatype Subgraph = MetapathReachableGraph(graph: GraphId, metaPath: MetaPath)

  /** The widths of one attention layer: the width of the features it reads,
      the width each head produces, and the number of heads. */
  datatype LayerShape = LayerShape(inWidth: nat, perHeadOut: nat, heads: nat)
  {
    /** Width of the layer's output once the heads are flattened together. */
    function OutWidth(): (r: nat)
    {
      perHeadOut * heads
    }
  }

  /** The configuration of one graph-attention convolution branch. The same
      dropout probability is used for features and for attention; the branch
      tolerates nodes with no incoming edge. */
  datatype GatConv = GatConv(shape: LayerShape, dropout: real)

  /** The linear output head: input width and output width. */
  datatype LinearHead = LinearHead(inWidth: nat, outWidth: nat)

  /** Symbolic tensors. Each constructor names the library operation that
      produced the value and the operands it was applied to, so two terms are
      equal exactly when they name the same computation on the same inputs.
      A term names a computation, not its numeric value: module weights and
      the random dropout masks of training mode are not operands. */
  datatype Tensor =
    | NodeFeatures(graph: GraphId, category: Cat)
      // the features stored on the nodes of `category` in graph `graph`
    | GatOutput(branch: nat, conv: GatConv, subgraph: Subgraph, input: Tensor)
      // branch number `branch` applied to `subgraph` and `input`, heads flattened
    | SemanticCombined(width: nat, embeddings: seq<Tensor>)
      // semantic attention of width `width` over the stacked `embeddings`
    | LinearOutput(head: LinearHead, input: Tensor)
      // the linear head applied to `input`

  /** A failure that the model propagates to its caller. */
  datatype Failure =
    | EmptyStack   // stacking an empty list of per-metapath embeddings

  datatype Result<T> = Ok(value: T) | Err(error: Failure)

  datatype Option<T> = None | Some(value: T)
}
