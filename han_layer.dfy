/**
 One HAN layer: a graph-attention branch per metapath and a semantic-attention
 combiner, with a cache of the metapath-projected subgraphs of the last graph
 seen. The cache is keyed by graph identity: a forward pass on the cached graph
 reuses the projections, a pass on any other graph discards them and projects
 every metapath anew.
 */
module HanLayers {
  import opened HanTypes

  /** The cache contents for graph g: each metapath of mps mapped to its
      projection of g. */
  function ProjectionsOf(g: GraphId, mps: seq<MetaPath>): (r: map<MetaPath, Subgraph>)
  {
    map mp | mp in mps :: MetapathReachableGraph(g, mp)
  }

  lemma ProjectionsOfExtend(g: GraphId, mps: seq<MetaPath>, k: nat)
    requires k < |mps|
    ensures ProjectionsOf(g, mps[..k + 1])
         == ProjectionsOf(g, mps[..k])[mps[k] := MetapathReachableGraph(g, mps[k])]
  {
    assert mps[..k + 1] == mps[..k] + [mps[k]];
  }

  class HanLayer {
    /** The metapaths, in declared order. */
    const metaPaths: seq<MetaPath>
    /** Widths shared by every branch: in_size, out_size, layer_num_heads. */
    const shape: LayerShape
    const dropout: real
    /** Branch i serves metapath i. */
    const gatLayers: seq<GatConv>
    /** Input width of the semantic-attention combiner. */
    const semanticWidth: nat

    var cachedGraph: Option<GraphId>
    var cachedCoalescedGraph: map<MetaPath, Subgraph>
    /** How many projections the layer has asked the graph library for. */
    ghost var projectionCalls: nat

    /** The configuration fixed at construction. */
    predicate WellFormed()
    {
      && |gatLayers| == |metaPaths|
      && (forall i :: 0 <= i < |gatLayers| ==> gatLayers[i] == GatConv(shape, dropout))
      && semanticWidth == shape.OutWidth()
    }

    /** The cache is empty before the first pass, and afterwards holds exactly
        the projections of the cached graph. */
    ghost predicate Valid()
      reads this
    {
      && WellFormed()
      && (cachedGraph == None ==> cachedCoalescedGraph == map[])
      && (cachedGraph.Some? ==> cachedCoalescedGraph == ProjectionsOf(cachedGraph.value, metaPaths))
    }

    /** What a forward pass on graph g does to the cache bookkeeping: g is now
        the cached graph, and the metapaths were projected anew exactly when g
        was not the cached graph before. */
    twostate predicate ForwardedOn(g: GraphId)
      reads this
    {
      && cachedGraph == Some(g)
      && projectionCalls == old(projectionCalls) + (if old(cachedGraph) == Some(g) then 0 else |metaPaths|)
    }

    constructor (metaPaths: seq<MetaPath>, inSize: nat, outSize: nat, layerNumHeads: nat, dropout: real)
      ensures Valid()
      ensures this.metaPaths == metaPaths && this.dropout == dropout
      ensures shape == LayerShape(inSize, outSize, layerNumHeads)
      ensures |gatLayers| == |metaPaths| && semanticWidth == outSize * layerNumHeads
      ensures cachedGraph == None && cachedCoalescedGraph == map[] && projectionCalls == 0
    {
      var conv := GatConv(LayerShape(inSize, outSize, layerNumHeads), dropout);
      var gats: seq<GatConv> := [];
      for i := 0 to |metaPaths|
        invariant |gats| == i
        invariant forall k :: 0 <= k < i ==> gats[k] == conv
      {
        gats := gats + [conv];
      }
      this.gatLayers := gats;
      this.semanticWidth := outSize * layerNumHeads;
      this.metaPaths := metaPaths;
      this.shape := conv.shape;
      this.dropout := dropout;
      cachedGraph := None;
      cachedCoalescedGraph := map[];
      projectionCalls := 0;
    }

    /** The per-metapath embeddings for graph g and input h, in declared order. */
    function Embeddings(g: GraphId, h: Tensor): (r: seq<Tensor>)
      requires WellFormed()
    {
      seq(|metaPaths|, i requires 0 <= i < |metaPaths|
        => GatOutput(i, gatLayers[i], MetapathReachableGraph(g, metaPaths[i]), h))
    }

    /** What a forward pass on graph g with input h returns. */
    function Output(g: GraphId, h: Tensor): (r: Result<Tensor>)
      requires WellFormed()
    {
      if |metaPaths| == 0 then Err(EmptyStack)
      else Ok(SemanticCombined(semanticWidth, Embeddings(g, h)))
    }

    /** A forward pass. The returned value does not depend on the cache; only
        the number of projections does. */
    method Forward(g: GraphId, h: Tensor) returns (r: Result<Tensor>)
      requires Valid()
      modifies this
      ensures Valid() && ForwardedOn(g)
      ensures cachedCoalescedGraph == ProjectionsOf(g, metaPaths)
      ensures old(cachedGraph) == Some(g) ==> cachedCoalescedGraph == old(cachedCoalescedGraph)
      ensures r == Output(g, h)
    {
      var semanticEmbeddings: seq<Tensor> := [];
      if cachedGraph == None || cachedGraph.value != g {
        cachedGraph := Some(g);
        cachedCoalescedGraph := map[];
        for k := 0 to |metaPaths|
          invariant cachedGraph == Some(g)
          invariant cachedCoalescedGraph == ProjectionsOf(g, metaPaths[..k])
          invariant projectionCalls == old(projectionCalls) + k
        {
          ProjectionsOfExtend(g, metaPaths, k);
          cachedCoalescedGraph := cachedCoalescedGraph[metaPaths[k] := MetapathReachableGraph(g, metaPaths[k])];
          projectionCalls := projectionCalls + 1;
        }
        assert metaPaths[..|metaPaths|] == metaPaths;
      }
      for i := 0 to |metaPaths|
        invariant semanticEmbeddings == Embeddings(g, h)[..i]
      {
        var metaPath := metaPaths[i];
        var newG := cachedCoalescedGraph[metaPath];
        semanticEmbeddings := semanticEmbeddings + [GatOutput(i, gatLayers[i], newG, h)];
      }
      assert semanticEmbeddings == Embeddings(g, h);
      if semanticEmbeddings == [] {
        return Err(EmptyStack);
      }
      r := Ok(SemanticCombined(semanticWidth, semanticEmbeddings));
    }
  }
}
