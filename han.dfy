/**
 The HAN model: a stack of HAN layers, one per entry of the list of head counts,
 followed by a linear head. Layer 0 reads features of width in_size; layer l
 reads what layer l - 1 produces, hidden_size * num_heads[l - 1]; the head reads
 hidden_size * num_heads[last].
 */
module HanModel {
  import opened HanTypes
  import opened HanLayers
  import opened MetaPathEnumeration

  /** The shapes of the layers built from in_size, hidden_size and num_heads. */
  function Plan(inSize: nat, hiddenSize: nat, numHeads: seq<nat>): (r: seq<LayerShape>)
  {
    seq(|numHeads|, l requires 0 <= l < |numHeads| =>
      LayerShape(if l == 0 then inSize else hiddenSize * numHeads[l - 1], hiddenSize, numHeads[l]))
  }

  /** The widths chain: the first layer reads `inSize`, every other layer reads
      what the one before it produces, and the head reads what the last
      layer produces. */
  predicate Chained(inSize: nat, shapes: seq<LayerShape>, headIn: nat)
  {
    && |shapes| > 0
    && shapes[0].inWidth == inSize
    && (forall l :: 0 < l < |shapes| ==> shapes[l].inWidth == shapes[l - 1].OutWidth())
    && headIn == shapes[|shapes| - 1].OutWidth()
  }

  /** The plan has a layer per head count, each with hidden_size per head,
      and its widths chain into a head of width hidden_size * num_heads[last]. */
  lemma PlanChained(inSize: nat, hiddenSize: nat, numHeads: seq<nat>)
    requires |numHeads| > 0
    ensures var p := Plan(inSize, hiddenSize, numHeads);
      && |p| == |numHeads|
      && (forall l :: 0 <= l < |p| ==> p[l].perHeadOut == hiddenSize && p[l].heads == numHeads[l])
      && Chained(inSize, p, hiddenSize * numHeads[|numHeads| - 1])
  {
  }

  /** Conversely, chaining determines the plan: any list of shapes with these
      head counts and per-head widths whose widths chain is the plan. */
  lemma ChainedIsPlan(inSize: nat, hiddenSize: nat, numHeads: seq<nat>, shapes: seq<LayerShape>, headIn: nat)
    requires |shapes| == |numHeads|
    requires forall l :: 0 <= l < |shapes| ==> shapes[l].perHeadOut == hiddenSize && shapes[l].heads == numHeads[l]
    requires Chained(inSize, shapes, headIn)
    ensures shapes == Plan(inSize, hiddenSize, numHeads)
    ensures headIn == hiddenSize * numHeads[|numHeads| - 1]
  {
    var p := Plan(inSize, hiddenSize, numHeads);
    forall l | 0 <= l < |shapes| ensures shapes[l] == p[l] {
      if l > 0 {
        assert shapes[l].inWidth == shapes[l - 1].OutWidth();
      }
    }
  }

  class Han {
    /** The target category: head and tail of every metapath. */
    const category: Cat
    const layers: seq<HanLayer>
    const linear: LinearHead

    /** The shapes of the layers, in order. */
    function Shapes(): (r: seq<LayerShape>)
    {
      seq(|layers|, l requires 0 <= l < |layers| => layers[l].shape)
    }

    /** The configuration fixed at construction: at least one layer, every
        layer serves the same metapaths, and the widths chain into the head. */
    predicate WellFormed()
    {
      && |layers| > 0
      && (forall l :: 0 <= l < |layers| ==> layers[l].WellFormed() && layers[l].metaPaths == layers[0].metaPaths)
      && Chained(layers[0].shape.inWidth, Shapes(), linear.inWidth)
    }

    ghost predicate Valid()
      reads layers
    {
      && WellFormed()
      && (forall a, b :: 0 <= a < b < |layers| ==> layers[a] != layers[b])
      && (forall l :: 0 <= l < |layers| ==> layers[l].Valid())
    }

    /** HAN.__init__: one layer per head count. num_heads[0] is read
        unconditionally, so the list must not be empty. */
    constructor (metaPaths: seq<MetaPath>, category: Cat, inSize: nat, hiddenSize: nat,
                 outSize: nat, numHeads: seq<nat>, dropout: real)
      requires |numHeads| > 0
      ensures Valid()
      ensures this.category == category
      ensures Shapes() == Plan(inSize, hiddenSize, numHeads)
      ensures linear == LinearHead(hiddenSize * numHeads[|numHeads| - 1], outSize)
      ensures forall l :: 0 <= l < |layers| ==>
        && fresh(layers[l])
        && layers[l].metaPaths == metaPaths && layers[l].dropout == dropout
        && layers[l].cachedGraph == None && layers[l].projectionCalls == 0
    {
      ghost var plan := Plan(inSize, hiddenSize, numHeads);
      var first := new HanLayer(metaPaths, inSize, hiddenSize, numHeads[0], dropout);
      var ls := [first];
      for l := 1 to |numHeads|
        invariant |ls| == l
        invariant forall a, b :: 0 <= a < b < l ==> ls[a] != ls[b]
        invariant forall k :: 0 <= k < l ==>
          && fresh(ls[k]) && ls[k].Valid() && ls[k].shape == plan[k]
          && ls[k].metaPaths == metaPaths && ls[k].dropout == dropout
          && ls[k].cachedGraph == None && ls[k].projectionCalls == 0
      {
        var layer := new HanLayer(metaPaths, hiddenSize * numHeads[l - 1], hiddenSize, numHeads[l], dropout);
        ls := ls + [layer];
      }
      this.category := category;
      this.layers := ls;
      this.linear := LinearHead(hiddenSize * numHeads[|numHeads| - 1], outSize);
      new;
      assert Shapes() == plan;
      PlanChained(inSize, hiddenSize, numHeads);
    }

    /** HAN.build_model_from_args: enumerate the metapaths of the category and
        build the model on them. */
    static method BuildModelFromArgs(etypes: seq<EdgeType>, category: Cat, inDim: nat, hiddenDim: nat,
                                     outDim: nat, numHeads: seq<nat>, dropout: real) returns (m: Han)
      requires |numHeads| > 0
      ensures fresh(m) && m.Valid()
      ensures m.category == category
      ensures forall l :: 0 <= l < |m.layers| ==>
        && fresh(m.layers[l])
        && m.layers[l].metaPaths == Enumerated(category, etypes) && m.layers[l].dropout == dropout
        && m.layers[l].cachedGraph == None && m.layers[l].projectionCalls == 0
      ensures m.Shapes() == Plan(inDim, hiddenDim, numHeads)
      ensures m.linear == LinearHead(hiddenDim * numHeads[|numHeads| - 1], outDim)
    {
      var mps := EnumerateMetaPaths(etypes, category);
      m := new Han(mps, category, inDim, hiddenDim, outDim, numHeads, dropout);
    }

    /** The result of running the first n layers on input h0: the first
        failure, or the last layer's output. */
    function Through(n: nat, g: GraphId, h0: Tensor): (r: Result<Tensor>)
      requires WellFormed() && n <= |layers|
    {
      if n == 0 then Ok(h0)
      else
        match Through(n - 1, g, h0)
        case Err(e) => Err(e)
        case Ok(h) => layers[n - 1].Output(g, h)
    }

    /** What a forward pass on graph g returns. */
    function Output(g: GraphId): (r: Result<map<Cat, Tensor>>)
      requires WellFormed()
    {
      match Through(|layers|, g, NodeFeatures(g, category))
      case Err(e) => Err(e)
      case Ok(h) => Ok(map[category := LinearOutput(linear, h)])
    }

    lemma {:induction false} ThroughErrSticks(n: nat, m: nat, g: GraphId, h0: Tensor)
      requires WellFormed() && n <= m <= |layers|
      requires Through(n, g, h0).Err?
      ensures Through(m, g, h0) == Through(n, g, h0)
    {
      if n < m {
        ThroughErrSticks(n, m - 1, g, h0);
      }
    }

    /** A forward pass fails exactly when there are no metapaths: the first
        layer then has nothing to stack. With metapaths, every layer succeeds. */
    lemma {:induction false} ThroughFailsIffNoMetaPaths(n: nat, g: GraphId, h0: Tensor)
      requires WellFormed() && 0 < n <= |layers|
      ensures Through(n, g, h0).Err? <==> layers[0].metaPaths == []
    {
      if n > 1 {
        ThroughFailsIffNoMetaPaths(n - 1, g, h0);
      }
    }

    lemma OutputFailsIffNoMetaPaths(g: GraphId)
      requires WellFormed()
      ensures Output(g).Err? <==> layers[0].metaPaths == []
      ensures Output(g).Ok? ==> Output(g).value.Keys == {category}
    {
      ThroughFailsIffNoMetaPaths(|layers|, g, NodeFeatures(g, category));
    }

    /** Each layer's combined output has the width the next consumer reads:
        the next layer's input width, or, for the last layer, the head's. */
    lemma WidthsAgree()
      requires WellFormed()
      ensures forall l :: 0 < l < |layers| ==> layers[l - 1].semanticWidth == layers[l].shape.inWidth
      ensures layers[|layers| - 1].semanticWidth == linear.inWidth
    {
      var s := Shapes();
      forall l | 0 < l < |layers| ensures layers[l - 1].semanticWidth == layers[l].shape.inWidth {
        assert s[l].inWidth == s[l - 1].OutWidth();
      }
      assert s[|layers| - 1] == layers[|layers| - 1].shape;
    }

    /** HAN.forward: read the category's features, run the layers in order,
        apply the head. Every layer it reaches now caches graph g. */
    method Forward(g: GraphId) returns (r: Result<map<Cat, Tensor>>)
      requires Valid()
      modifies layers
      ensures Valid()
      ensures r == Output(g)
      ensures r.Ok? ==> forall l :: 0 <= l < |layers| ==> layers[l].ForwardedOn(g)
      ensures r.Err? ==>
        layers[0].ForwardedOn(g) && forall l :: 0 < l < |layers| ==> unchanged(layers[l])
    {
      ghost var h0 := NodeFeatures(g, category);
      var h := NodeFeatures(g, category);
      var i := 0;
      while i < |layers|
        invariant 0 <= i <= |layers|
        invariant Through(i, g, h0) == Ok(h)
        invariant forall l :: 0 <= l < |layers| ==> layers[l].Valid()
        invariant forall l :: 0 <= l < i ==> layers[l].ForwardedOn(g)
        invariant forall l :: i <= l < |layers| ==> unchanged(layers[l])
      {
        var res := layers[i].Forward(g, h);
        if res.Err? {
          ThroughFailsIffNoMetaPaths(i + 1, g, h0);
          ThroughErrSticks(i + 1, |layers|, g, h0);
          return Err(res.error);
        }
        h := res.value;
        i := i + 1;
      }
      r := Ok(map[category := LinearOutput(linear, h)]);
    }
  }

  /** Same graph twice: the second pass projects nothing and computes the same
      term. A different graph: every metapath is projected once more. */
  method RepeatedForward(metaPaths: seq<MetaPath>, g: GraphId, other: GraphId, h: Tensor)
    returns (first: Result<Tensor>, second: Result<Tensor>, third: Result<Tensor>,
             ghost callsAfterFirst: nat, ghost callsAfterSecond: nat, ghost callsAfterThird: nat)
    requires g != other
    ensures first == second
    ensures first.Ok? <==> metaPaths != []
    ensures metaPaths != [] ==>
      && first.Ok? && first.value.SemanticCombined? && first.value.width == 16
      && |first.value.embeddings| == |metaPaths|
      && forall i :: 0 <= i < |metaPaths| ==>
        first.value.embeddings[i] == GatOutput(i, GatConv(LayerShape(4, 8, 2), 0.5), MetapathReachableGraph(g, metaPaths[i]), h)
    ensures metaPaths != [] ==>
      && third.Ok? && third.value.SemanticCombined? && third.value.width == 16
      && |third.value.embeddings| == |metaPaths|
      && forall i :: 0 <= i < |metaPaths| ==>
        third.value.embeddings[i] == GatOutput(i, GatConv(LayerShape(4, 8, 2), 0.5), MetapathReachableGraph(other, metaPaths[i]), h)
    ensures metaPaths != [] ==> first != third
    ensures callsAfterFirst == |metaPaths| && callsAfterSecond == callsAfterFirst
    ensures callsAfterThird == callsAfterSecond + |metaPaths|
  {
    var layer := new HanLayer(metaPaths, 4, 8, 2, 0.5);
    first := layer.Forward(g, h);
    callsAfterFirst := layer.projectionCalls;
    second := layer.Forward(g, h);
    callsAfterSecond := layer.projectionCalls;
    third := layer.Forward(other, h);
    callsAfterThird := layer.projectionCalls;
    if metaPaths != [] {
      assert first.value.embeddings[0].subgraph != third.value.embeddings[0].subgraph;
    }
  }

  /** Authors and papers, category "author", in_size 4, hidden_size 8,
      out_size 3, num_heads [2]: one layer with one metapath and one branch,
      and an output keyed by "author" from a head of width 16 to 3. */
  method AuthorPaperModel(g: GraphId) returns (out: Result<map<Cat, Tensor>>)
    ensures out.Ok? && out.value.Keys == {"author"}
    ensures out.value["author"].LinearOutput? && out.value["author"].head == LinearHead(16, 3)
    ensures out.value["author"]
      == LinearOutput(LinearHead(16, 3), SemanticCombined(16, [
           GatOutput(0, GatConv(LayerShape(4, 8, 2), 0.5),
                     MetapathReachableGraph(g, [EdgeType("author", "write", "paper"),
                                                EdgeType("paper", "written-by", "author")]),
                     NodeFeatures(g, "author"))]))
  {
    var write := EdgeType("author", "write", "paper");
    var writtenBy := EdgeType("paper", "written-by", "author");
    AuthorPaperMetaPath();
    var m := Han.BuildModelFromArgs([write, writtenBy], "author", 4, 8, 3, [2], 0.5);
    assert |m.layers| == |m.Shapes()| == 1;
    assert m.layers[0].metaPaths == [[write, writtenBy]];
    assert |m.layers[0].gatLayers| == 1;
    out := m.Forward(g);
    m.OutputFailsIffNoMetaPaths(g);
    ghost var h0 := NodeFeatures(g, "author");
    ghost var branch := GatConv(LayerShape(4, 8, 2), 0.5);
    assert m.layers[0].shape == LayerShape(4, 8, 2) && m.layers[0].semanticWidth == 16;
    assert m.layers[0].gatLayers[0] == branch;
    assert m.layers[0].Embeddings(g, h0)
        == [GatOutput(0, branch, MetapathReachableGraph(g, [write, writtenBy]), h0)];
    assert m.Through(1, g, h0) == m.layers[0].Output(g, h0);
  }
}
