/**
 Enumeration of the two-hop metapaths of a target category (the nested loop of
 HAN.build_model_from_args). A metapath [e1, e2] is taken when e1 leaves the
 target category, e2 comes back along the reverse category pair, and e1 is not a
 self-loop edge type.

 The specification works on index pairs (i, j) into the list of edge types:
 Selected lists the pairs the loops accept, in the order they accept them, and
 Enumerated turns each pair into the metapath [etypes[i], etypes[j]].
 */
module MetaPathEnumeration {
  import opened HanTypes

  /** An index pair (i, j): first hop etypes[i], second hop etypes[j]. */
  type Pair = (nat, nat)

  /** The test applied to first hop e1 and candidate second hop e2. */
  predicate Closes(category: Cat, e1: EdgeType, e2: EdgeType)
  {
    e1.src == category && e1.src == e2.dst && e1.dst == e2.src && e1.src != e1.dst
  }

  /** Pair p points into etypes and its two edge types pass the test. */
  predicate Admissible(category: Cat, etypes: seq<EdgeType>, p: Pair)
  {
    p.0 < |etypes| && p.1 < |etypes| && Closes(category, etypes[p.0], etypes[p.1])
  }

  /** Every pair of ps points into etypes. */
  predicate InRange(etypes: seq<EdgeType>, ps: seq<Pair>)
  {
    forall k :: 0 <= k < |ps| ==> ps[k].0 < |etypes| && ps[k].1 < |etypes|
  }

  /** Lexicographic order on index pairs: by first hop, then by second hop. */
  predicate LexLess(p: Pair, q: Pair)
  {
    p.0 < q.0 || (p.0 == q.0 && p.1 < q.1)
  }

  predicate LexSorted(ps: seq<Pair>)
  {
    forall a, b :: 0 <= a < b < |ps| ==> LexLess(ps[a], ps[b])
  }

  /** The pairs (i, j) with j < n that the inner loop accepts for first hop
      etypes[i], in the order it accepts them. */
  function RowPairs(category: Cat, etypes: seq<EdgeType>, i: nat, n: nat): (r: seq<Pair>)
    requires i < |etypes| && n <= |etypes|
    ensures forall k :: 0 <= k < |r| ==> r[k].0 == i && r[k].1 < n && Admissible(category, etypes, r[k])
    ensures forall k1, k2 :: 0 <= k1 < k2 < |r| ==> r[k1].1 < r[k2].1
  {
    if n == 0 then []
    else
      RowPairs(category, etypes, i, n - 1)
      + (if Closes(category, etypes[i], etypes[n - 1]) then [(i, n - 1)] else [])
  }

  /** The pairs accepted once the outer loop has visited the first m edge types. */
  function Selected(category: Cat, etypes: seq<EdgeType>, m: nat): (r: seq<Pair>)
    requires m <= |etypes|
    ensures forall k :: 0 <= k < |r| ==> r[k].0 < m && Admissible(category, etypes, r[k])
  {
    if m == 0 then []
    else
      Selected(category, etypes, m - 1)
      + (if etypes[m - 1].src == category then RowPairs(category, etypes, m - 1, |etypes|) else [])
  }

  function PathAt(etypes: seq<EdgeType>, p: Pair): (r: MetaPath)
    requires p.0 < |etypes| && p.1 < |etypes|
  {
    [etypes[p.0], etypes[p.1]]
  }

  /** The metapaths named by a list of index pairs, in the same order. */
  function PathsAt(etypes: seq<EdgeType>, ps: seq<Pair>): (r: seq<MetaPath>)
    requires InRange(etypes, ps)
  {
    seq(|ps|, k requires 0 <= k < |ps| => PathAt(etypes, ps[k]))
  }

  /** The metapaths of `category`: what build_model_from_args collects. */
  function Enumerated(category: Cat, etypes: seq<EdgeType>): (r: seq<MetaPath>)
  {
    PathsAt(etypes, Selected(category, etypes, |etypes|))
  }

  /** The set of all admissible index pairs. */
  function AdmissiblePairs(category: Cat, etypes: seq<EdgeType>): (r: set<Pair>)
  {
    set i: nat, j: nat | i < |etypes| && j < |etypes| && Closes(category, etypes[i], etypes[j]) :: (i, j)
  }

  lemma PathsAtAppend(etypes: seq<EdgeType>, ps: seq<Pair>, p: Pair)
    requires InRange(etypes, ps) && p.0 < |etypes| && p.1 < |etypes|
    ensures InRange(etypes, ps + [p])
    ensures PathsAt(etypes, ps + [p]) == PathsAt(etypes, ps) + [PathAt(etypes, p)]
  {
    var lhs, rhs := PathsAt(etypes, ps + [p]), PathsAt(etypes, ps) + [PathAt(etypes, p)];
    assert |lhs| == |rhs|;
    forall k | 0 <= k < |lhs| ensures lhs[k] == rhs[k] {
      if k < |ps| {
        assert (ps + [p])[k] == ps[k];
      }
    }
  }

  /** The nested loop of build_model_from_args. */
  method EnumerateMetaPaths(etypes: seq<EdgeType>, category: Cat) returns (mps: seq<MetaPath>)
    ensures mps == Enumerated(category, etypes)
  {
    mps := [];
    for i := 0 to |etypes|
      invariant mps == PathsAt(etypes, Selected(category, etypes, i))
    {
      var etype := etypes[i];
      if etype.src == category {
        for j := 0 to |etypes|
          invariant InRange(etypes, Selected(category, etypes, i) + RowPairs(category, etypes, i, j))
          invariant mps == PathsAt(etypes, Selected(category, etypes, i) + RowPairs(category, etypes, i, j))
        {
          var dstE := etypes[j];
          ghost var before := Selected(category, etypes, i) + RowPairs(category, etypes, i, j);
          if etype.src == dstE.dst && etype.dst == dstE.src {
            if etype.src != etype.dst {
              PathsAtAppend(etypes, before, (i, j));
              assert before + [(i, j)]
                  == Selected(category, etypes, i) + RowPairs(category, etypes, i, j + 1);
              mps := mps + [[etype, dstE]];
            }
          }
        }
        assert Selected(category, etypes, i + 1)
            == Selected(category, etypes, i) + RowPairs(category, etypes, i, |etypes|);
      }
    }
  }

  // ---------------------------------------------------------------------------
  // Properties of the specification
  // ---------------------------------------------------------------------------

  /** Every pair the inner loop can accept is accepted. */
  lemma {:induction false} RowPairsComplete(category: Cat, etypes: seq<EdgeType>, i: nat, n: nat, j: nat)
    requires i < |etypes| && j < n <= |etypes|
    requires Closes(category, etypes[i], etypes[j])
    ensures (i, j) in RowPairs(category, etypes, i, n)
  {
    if j < n - 1 {
      RowPairsComplete(category, etypes, i, n - 1, j);
    }
  }

  /** Every admissible pair whose first hop has been visited is selected. */
  lemma {:induction false} SelectedComplete(category: Cat, etypes: seq<EdgeType>, m: nat, p: Pair)
    requires m <= |etypes| && p.0 < m
    requires Admissible(category, etypes, p)
    ensures p in Selected(category, etypes, m)
  {
    if p.0 < m - 1 {
      SelectedComplete(category, etypes, m - 1, p);
    } else {
      RowPairsComplete(category, etypes, p.0, |etypes|, p.1);
    }
  }

  /** The selected pairs are exactly the admissible ones. */
  lemma SelectedExact(category: Cat, etypes: seq<EdgeType>, p: Pair)
    ensures p in Selected(category, etypes, |etypes|) <==> Admissible(category, etypes, p)
  {
    if Admissible(category, etypes, p) {
      SelectedComplete(category, etypes, |etypes|, p);
    }
  }

  /** The pairs come out ordered by first hop, then by second hop, so no
      pair appears twice. */
  lemma {:induction false} SelectedSorted(category: Cat, etypes: seq<EdgeType>, m: nat)
    requires m <= |etypes|
    ensures LexSorted(Selected(category, etypes, m))
  {
    if m > 0 {
      SelectedSorted(category, etypes, m - 1);
      var prev := Selected(category, etypes, m - 1);
      var row := if etypes[m - 1].src == category then RowPairs(category, etypes, m - 1, |etypes|) else [];
      var all := prev + row;
      assert all == Selected(category, etypes, m);
      forall a, b | 0 <= a < b < |all| ensures LexLess(all[a], all[b]) {
        if b < |prev| {
          assert all[a] == prev[a] && all[b] == prev[b];
        } else if a < |prev| {
          assert all[a] == prev[a] && all[b] == row[b - |prev|];
        } else {
          assert all[a] == row[a - |prev|] && all[b] == row[b - |prev|];
        }
      }
    }
  }

  /** LexLess is a strict total order: irreflexive, transitive, and any two
      different pairs are comparable. */
  lemma LexLessStrictTotalOrder(p: Pair, q: Pair, s: Pair)
    ensures !LexLess(p, p)
    ensures LexLess(p, q) && LexLess(q, s) ==> LexLess(p, s)
    ensures p != q ==> LexLess(p, q) || LexLess(q, p)
  {
  }

  /** A strictly sorted list holds no element twice, so it has as many
      elements as the set of its elements. */
  lemma {:induction false} SortedCardinality(ps: seq<Pair>)
    requires LexSorted(ps)
    ensures |set p | p in ps| == |ps|
  {
    if ps != [] {
      var init := ps[..|ps| - 1];
      var last := ps[|ps| - 1];
      assert LexSorted(init);
      SortedCardinality(init);
      assert (set p | p in ps) == (set p | p in init) + {last} by {
        assert ps == init + [last];
      }
      forall k | 0 <= k < |init| ensures init[k] != last {
        assert LexLess(ps[k], ps[|ps| - 1]);
        LexLessStrictTotalOrder(init[k], last, last);
      }
      assert last !in (set p | p in init);
    }
  }

  /** Two strictly sorted lists with the same elements are equal. */
  lemma {:induction false} SortedUnique(a: seq<Pair>, b: seq<Pair>)
    requires LexSorted(a) && LexSorted(b)
    requires forall p :: p in a <==> p in b
    ensures a == b
  {
    if a != [] {
      assert a[0] in b;
    }
    if b != [] {
      assert b[0] in a;
    }
    if a != [] && b != [] {
      // a[0] and b[0] are both the least element of the common set
      if a[0] != b[0] {
        var i :| 0 <= i < |a| && a[i] == b[0];
        var j :| 0 <= j < |b| && b[j] == a[0];
        assert i > 0 && j > 0;
        assert LexLess(a[0], a[i]) && LexLess(b[0], b[j]);
        LexLessStrictTotalOrder(a[0], b[0], a[0]);
        assert false;
      }
      forall p ensures p in a[1..] <==> p in b[1..] {
        if p in a[1..] {
          var i :| 1 <= i < |a| && a[i] == p;
          assert LexLess(a[0], p);
          LexLessStrictTotalOrder(a[0], p, a[0]);
          assert p in b && p != b[0];
        }
        if p in b[1..] {
          var j :| 1 <= j < |b| && b[j] == p;
          assert LexLess(b[0], p);
          LexLessStrictTotalOrder(b[0], p, b[0]);
          assert p in a && p != a[0];
        }
      }
      SortedUnique(a[1..], b[1..]);
      assert a == [a[0]] + a[1..] && b == [b[0]] + b[1..];
    }
  }

  /** The selection is the one and only strictly sorted list of the
      admissible pairs: nothing is missing, nothing is extra, and the order is
      lexicographic by (i, j). */
  lemma SelectedCharacterized(category: Cat, etypes: seq<EdgeType>, ps: seq<Pair>)
    requires LexSorted(ps)
    requires forall p :: p in ps <==> Admissible(category, etypes, p)
    ensures ps == Selected(category, etypes, |etypes|)
  {
    var s := Selected(category, etypes, |etypes|);
    SelectedSorted(category, etypes, |etypes|);
    forall p ensures p in ps <==> p in s {
      SelectedExact(category, etypes, p);
    }
    SortedUnique(ps, s);
  }

  /** As many metapaths as admissible index pairs. */
  lemma EnumeratedCount(category: Cat, etypes: seq<EdgeType>)
    ensures |Enumerated(category, etypes)| == |AdmissiblePairs(category, etypes)|
  {
    var s := Selected(category, etypes, |etypes|);
    SelectedSorted(category, etypes, |etypes|);
    SortedCardinality(s);
    forall p ensures p in (set q | q in s) <==> p in AdmissiblePairs(category, etypes) {
      SelectedExact(category, etypes, p);
    }
    assert (set q | q in s) == AdmissiblePairs(category, etypes);
  }

  /** Each metapath is [e1, e2] where e1 leaves the category, e2 goes back to
      it along the reverse category pair, the hops chain, neither hop is a
      self-loop, and the two hops are different edge types. */
  lemma EnumeratedShape(category: Cat, etypes: seq<EdgeType>, k: nat)
    requires k < |Enumerated(category, etypes)|
    ensures var mp := Enumerated(category, etypes)[k];
      && |mp| == 2
      && mp[0] in etypes && mp[1] in etypes
      && mp[0].src == category && mp[1].dst == category
      && mp[0].dst == mp[1].src
      && mp[0].src != mp[0].dst && mp[1].src != mp[1].dst
      && mp[0] != mp[1]
  {
  }

  /** [e1, e2] is enumerated exactly when both are edge types of the schema
      and they pass the test. */
  lemma EnumeratedExact(category: Cat, etypes: seq<EdgeType>, e1: EdgeType, e2: EdgeType)
    ensures [e1, e2] in Enumerated(category, etypes)
        <==> e1 in etypes && e2 in etypes && Closes(category, e1, e2)
  {
    var s := Selected(category, etypes, |etypes|);
    var r := Enumerated(category, etypes);
    if [e1, e2] in r {
      var k :| 0 <= k < |r| && r[k] == [e1, e2];
      assert r[k] == PathAt(etypes, s[k]);
    }
    if e1 in etypes && e2 in etypes && Closes(category, e1, e2) {
      var i :| 0 <= i < |etypes| && etypes[i] == e1;
      var j :| 0 <= j < |etypes| && etypes[j] == e2;
      SelectedExact(category, etypes, (i, j));
      var k :| 0 <= k < |s| && s[k] == (i, j);
      assert r[k] == [e1, e2];
    }
  }

  /** Nothing is enumerated when no edge type leaves the category. */
  lemma NoOutgoingNoMetaPaths(category: Cat, etypes: seq<EdgeType>)
    requires forall k :: 0 <= k < |etypes| ==> etypes[k].src != category
    ensures Enumerated(category, etypes) == []
  {
    EnumeratedCount(category, etypes);
    assert AdmissiblePairs(category, etypes) == {};
  }

  /** Authors and papers: "write" from author to paper and "written-by" back
      give the single metapath [write, written-by]. */
  lemma AuthorPaperMetaPath()
    ensures var write := EdgeType("author", "write", "paper");
      var writtenBy := EdgeType("paper", "written-by", "author");
      Enumerated("author", [write, writtenBy]) == [[write, writtenBy]]
  {
    var write := EdgeType("author", "write", "paper");
    var writtenBy := EdgeType("paper", "written-by", "author");
    var etypes := [write, writtenBy];
    assert !Closes("author", write, write) && Closes("author", write, writtenBy);
    assert RowPairs("author", etypes, 0, 1) == [];
    assert RowPairs("author", etypes, 0, 2) == [(0, 1)];
    assert Selected("author", etypes, 1) == [(0, 1)];
    assert writtenBy.src != "author";
    assert Selected("author", etypes, 2) == [(0, 1)];
  }
}
