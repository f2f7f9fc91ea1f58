/**
 * `getConnectedMemories`: a depth-bounded, depth-first walk over the active links of the
 * memory graph that shares one visited set across the whole walk.
 */
module MemoryGraph {
  import opened Wrappers
  import opened Tables
  import opened MemoryModel

  /** One reported memory: how deep it was found and the link types along the way. */
  datatype Reached = Reached(memoryId: string, depth: int, path: seq<LinkType>)

  /**
   * The walk's shared state: the visited set, the order in which memories had their links
   * read (`expanded`, which the model keeps to state that no memory is expanded twice), and
   * the result so far.
   */
  datatype WalkState = WalkState(visited: set<string>, expanded: seq<string>, result: seq<Reached>)

  /** How many more levels the walk may descend from `depth`. */
  function Budget(maxDepth: int, depth: int): nat {
    if depth <= maxDepth then maxDepth - depth + 1 else 0
  }

  /**
   * `traverse(id, depth, path)`: nothing when the walk is too deep or `id` was already
   * expanded; otherwise `id` is marked visited and its active outgoing links are followed
   * in order.
   */
  function Walk(links: seq<Link>, maxDepth: int, id: string, depth: int, path: seq<LinkType>, st: WalkState): WalkState
    decreases Budget(maxDepth, depth), 1, 0
  {
    if depth > maxDepth || id in st.visited then st
    else WalkLinks(links, maxDepth, Outgoing(links, id), depth, path,
      WalkState(st.visited + {id}, st.expanded + [id], st.result))
  }

  /** The `for (const link of links)` loop of one expansion. */
  function WalkLinks(links: seq<Link>, maxDepth: int, out: seq<Link>, depth: int, path: seq<LinkType>, st: WalkState): WalkState
    requires depth <= maxDepth
    decreases Budget(maxDepth, depth), 0, |out|
  {
    if out == [] then st
    else WalkLinks(links, maxDepth, out[1..], depth, path, Follow(links, maxDepth, out[0], depth, path, st))
  }

  /** One iteration: a link to a memory not yet visited reports it at this depth and descends. */
  function Follow(links: seq<Link>, maxDepth: int, l: Link, depth: int, path: seq<LinkType>, st: WalkState): WalkState
    requires depth <= maxDepth
    decreases Budget(maxDepth, depth), 0, 0
  {
    if l.target in st.visited then st
    else
      var p := path + [l.linkType];
      Walk(links, maxDepth, l.target, depth + 1, p, st.(result := st.result + [Reached(l.target, depth, p)]))
  }

  /** `getConnectedMemories(memoryId, depth)`: the walk from the memory at depth 1, `depth ?? 1` levels deep. */
  function ConnectedMemories(links: seq<Link>, memoryId: string, depth: Option<int>): seq<Reached> {
    Walk(links, depth.GetOr(1), memoryId, 1, [], WalkState({}, [], [])).result
  }

  /**
   * The imperative walk: the recursive closure of the original, with the visited set and the
   * result array threaded through as the state it shares.
   */
  method Traverse(links: seq<Link>, maxDepth: int, id: string, depth: int, path: seq<LinkType>,
                  visited: set<string>, ghost expanded: seq<string>, result: seq<Reached>)
    returns (visited': set<string>, ghost expanded': seq<string>, result': seq<Reached>)
    decreases Budget(maxDepth, depth)
    ensures WalkState(visited', expanded', result') == Walk(links, maxDepth, id, depth, path, WalkState(visited, expanded, result))
  {
    if depth > maxDepth || id in visited {
      return visited, expanded, result;
    }
    visited', expanded', result' := visited + {id}, expanded + [id], result;
    var out := Outgoing(links, id);
    for i := 0 to |out|
      invariant WalkLinks(links, maxDepth, out[i..], depth, path, WalkState(visited', expanded', result'))
        == Walk(links, maxDepth, id, depth, path, WalkState(visited, expanded, result))
    {
      assert out[i..][1..] == out[i + 1..];
      var link := out[i];
      if link.target !in visited' {
        var p := path + [link.linkType];
        result' := result' + [Reached(link.target, depth, p)];
        visited', expanded', result' := Traverse(links, maxDepth, link.target, depth + 1, p, visited', expanded', result');
      }
    }
  }

  /** `getConnectedMemories` as the walk it runs. */
  method GetConnectedMemories(links: seq<Link>, memoryId: string, depth: Option<int>) returns (result: seq<Reached>)
    ensures result == ConnectedMemories(links, memoryId, depth)
  {
    var visited: set<string>;
    ghost var expanded: seq<string>;
    visited, expanded, result := Traverse(links, depth.GetOr(1), memoryId, 1, [], {}, [], []);
  }

  /**
   * What the walk keeps true of its state: the expanded memories are exactly the visited
   * ones, each once; no memory reported above the last level is reported again; and every
   * memory reported above the last level has been expanded.
   */
  ghost predicate Inv(st: WalkState, maxDepth: int) {
    && (forall x :: x in st.expanded <==> x in st.visited)
    && NoDuplicates(st.expanded)
    && (forall i, j :: 0 <= i < j < |st.result| && st.result[i].depth < maxDepth ==>
          st.result[i].memoryId != st.result[j].memoryId)
    && (forall i :: 0 <= i < |st.result| && st.result[i].depth < maxDepth ==> st.result[i].memoryId in st.visited)
  }

  /** `after` extends `before`: more visited, and the expansion log and result only appended to. */
  ghost predicate Grows(before: WalkState, after: WalkState) {
    && before.visited <= after.visited
    && |before.expanded| <= |after.expanded| && after.expanded[..|before.expanded|] == before.expanded
    && |before.result| <= |after.result| && after.result[..|before.result|] == before.result
  }

  /**
   * The entries appended since `before` were unvisited at that point, lie between `depth` and
   * `maxDepth`, and carry one link type per level.
   */
  ghost predicate NewEntries(before: WalkState, after: WalkState, depth: int, maxDepth: int)
    requires |before.result| <= |after.result|
  {
    forall k :: |before.result| <= k < |after.result| ==>
      var e := after.result[k];
      e.memoryId !in before.visited && depth <= e.depth <= maxDepth && |e.path| == e.depth
  }

  lemma Compose(st0: WalkState, st1: WalkState, st2: WalkState, depth: int, maxDepth: int)
    requires Grows(st0, st1) && NewEntries(st0, st1, depth, maxDepth)
    requires Grows(st1, st2) && NewEntries(st1, st2, depth, maxDepth)
    ensures Grows(st0, st2) && NewEntries(st0, st2, depth, maxDepth)
  {
    assert st2.result[..|st0.result|] == st2.result[..|st1.result|][..|st0.result|];
    assert st2.expanded[..|st0.expanded|] == st2.expanded[..|st1.expanded|][..|st0.expanded|];
    forall k | |st0.result| <= k < |st1.result| ensures st2.result[k] == st1.result[k] {
      assert st2.result[..|st1.result|][k] == st2.result[k];
    }
  }

  lemma {:induction false} WalkFacts(links: seq<Link>, maxDepth: int, id: string, depth: int, path: seq<LinkType>, st: WalkState)
    requires Inv(st, maxDepth) && depth >= 1 && |path| == depth - 1
    ensures var st' := Walk(links, maxDepth, id, depth, path, st);
      Inv(st', maxDepth) && Grows(st, st') && NewEntries(st, st', depth, maxDepth)
    decreases Budget(maxDepth, depth), 1, 0
  {
    if depth > maxDepth || id in st.visited {
      assert st.result[..|st.result|] == st.result && st.expanded[..|st.expanded|] == st.expanded;
    } else {
      var st1 := WalkState(st.visited + {id}, st.expanded + [id], st.result);
      assert Inv(st1, maxDepth);
      assert Grows(st, st1) && NewEntries(st, st1, depth, maxDepth) by {
        assert st1.expanded[..|st.expanded|] == st.expanded;
        assert st1.result[..|st.result|] == st.result;
      }
      WalkLinksFacts(links, maxDepth, Outgoing(links, id), depth, path, st1);
      var st2 := WalkLinks(links, maxDepth, Outgoing(links, id), depth, path, st1);
      Compose(st, st1, st2, depth, maxDepth);
    }
  }

  lemma {:induction false} WalkLinksFacts(links: seq<Link>, maxDepth: int, out: seq<Link>, depth: int, path: seq<LinkType>, st: WalkState)
    requires depth <= maxDepth
    requires Inv(st, maxDepth) && depth >= 1 && |path| == depth - 1
    ensures var st' := WalkLinks(links, maxDepth, out, depth, path, st);
      Inv(st', maxDepth) && Grows(st, st') && NewEntries(st, st', depth, maxDepth)
    decreases Budget(maxDepth, depth), 0, |out|
  {
    if out == [] {
      assert st.result[..|st.result|] == st.result && st.expanded[..|st.expanded|] == st.expanded;
    } else {
      FollowFacts(links, maxDepth, out[0], depth, path, st);
      var st1 := Follow(links, maxDepth, out[0], depth, path, st);
      WalkLinksFacts(links, maxDepth, out[1..], depth, path, st1);
      var st2 := WalkLinks(links, maxDepth, out[1..], depth, path, st1);
      Compose(st, st1, st2, depth, maxDepth);
    }
  }

  lemma {:induction false} FollowFacts(links: seq<Link>, maxDepth: int, l: Link, depth: int, path: seq<LinkType>, st: WalkState)
    requires depth <= maxDepth
    requires Inv(st, maxDepth) && depth >= 1 && |path| == depth - 1
    ensures var st' := Follow(links, maxDepth, l, depth, path, st);
      Inv(st', maxDepth) && Grows(st, st') && NewEntries(st, st', depth, maxDepth)
    decreases Budget(maxDepth, depth), 0, 0
  {
    if l.target in st.visited {
      assert st.result[..|st.result|] == st.result && st.expanded[..|st.expanded|] == st.expanded;
    } else {
      var p := path + [l.linkType];
      var e := Reached(l.target, depth, p);
      var st1 := st.(result := st.result + [e]);
      assert Grows(st, st1) && NewEntries(st, st1, depth, maxDepth) by {
        assert st1.expanded[..|st.expanded|] == st.expanded;
        assert st1.result[..|st.result|] == st.result;
      }
      if depth + 1 > maxDepth {
        assert Inv(st1, maxDepth);
      } else {
        var st2 := WalkState(st1.visited + {l.target}, st1.expanded + [l.target], st1.result);
        assert Inv(st2, maxDepth);
        assert Grows(st1, st2) && NewEntries(st1, st2, depth, maxDepth) by {
          assert st2.expanded[..|st1.expanded|] == st1.expanded;
          assert st2.result[..|st1.result|] == st1.result;
        }
        WalkLinksFacts(links, maxDepth, Outgoing(links, l.target), depth + 1, p, st2);
        var st3 := WalkLinks(links, maxDepth, Outgoing(links, l.target), depth + 1, p, st2);
        Compose(st1, st2, st3, depth, maxDepth);
        Compose(st, st1, st3, depth, maxDepth);
      }
    }
  }

  /**
   * What `getConnectedMemories` promises for every graph, including cyclic ones: each result
   * lies between depth 1 and the requested depth with one link type per level; the start
   * memory is never reported; no memory has its links read twice; and a memory reported
   * above the last level is reported only once.
   */
  lemma ConnectedMemoriesFacts(links: seq<Link>, memoryId: string, depth: Option<int>)
    ensures var st := Walk(links, depth.GetOr(1), memoryId, 1, [], WalkState({}, [], []));
      var r := st.result;
      && (forall k :: 0 <= k < |r| ==> 1 <= r[k].depth <= depth.GetOr(1) && |r[k].path| == r[k].depth)
      && (forall k :: 0 <= k < |r| ==> r[k].memoryId != memoryId)
      && NoDuplicates(st.expanded)
      && (forall i, j :: 0 <= i < j < |r| && r[i].depth < depth.GetOr(1) ==> r[i].memoryId != r[j].memoryId)
  {
    var maxDepth := depth.GetOr(1);
    var st0 := WalkState({}, [], []);
    if 1 <= maxDepth {
      var st1 := WalkState({memoryId}, [memoryId], []);
      assert Inv(st1, maxDepth);
      assert Walk(links, maxDepth, memoryId, 1, [], st0) == WalkLinks(links, maxDepth, Outgoing(links, memoryId), 1, [], st1) by {
        assert st0.visited + {memoryId} == {memoryId} && st0.expanded + [memoryId] == [memoryId];
      }
      WalkLinksFacts(links, maxDepth, Outgoing(links, memoryId), 1, [], st1);
    }
  }

  /** A depth below 1 finds nothing. */
  lemma NoDepthNoResults(links: seq<Link>, memoryId: string, depth: int)
    requires depth <= 0
    ensures ConnectedMemories(links, memoryId, Some(depth)) == []
  {
  }

  // The graph of the example below: A→B, A→C, B→D, C→D.
  const LinkAB: Link := Link(0, "A", "B", RelatesTo, 1.0, None, 0, true)
  const LinkAC: Link := Link(1, "A", "C", RelatesTo, 1.0, None, 0, true)
  const LinkBD: Link := Link(2, "B", "D", RelatesTo, 1.0, None, 0, true)
  const LinkCD: Link := Link(3, "C", "D", RelatesTo, 1.0, None, 0, true)
  const Diamond: seq<Link> := [LinkAB, LinkAC, LinkBD, LinkCD]

  /** Filtering four links is deciding each of them in turn. */
  lemma FilterFour(a: Link, b: Link, c: Link, d: Link, p: Link -> bool)
    ensures Filter([a, b, c, d], p) == Kept(a, p) + (Kept(b, p) + (Kept(c, p) + Kept(d, p)))
  {
    FilterCons(a, [b, c, d], p);
    assert [a] + [b, c, d] == [a, b, c, d];
    FilterCons(b, [c, d], p);
    assert [b] + [c, d] == [b, c, d];
    FilterCons(c, [d], p);
    assert [c] + [d] == [c, d];
  }

  lemma DiamondOutgoingFrom(id: string)
    requires id in {"A", "B", "C"}
    ensures Outgoing(Diamond, id) == (if id == "A" then [LinkAB, LinkAC] else if id == "B" then [LinkBD] else [LinkCD])
  {
    FilterFour(LinkAB, LinkAC, LinkBD, LinkCD, (l: Link) => l.source == id && l.isActive);
  }

  lemma DiamondOutgoing()
    ensures Outgoing(Diamond, "A") == [LinkAB, LinkAC]
    ensures Outgoing(Diamond, "B") == [LinkBD]
    ensures Outgoing(Diamond, "C") == [LinkCD]
  {
    DiamondOutgoingFrom("A");
    DiamondOutgoingFrom("B");
    DiamondOutgoingFrom("C");
  }

  /** On the last level, following B→D or C→D only reports D. */
  lemma DiamondLeaf(l: Link, st: WalkState)
    requires l == LinkBD || l == LinkCD
    requires "D" !in st.visited
    ensures WalkLinks(Diamond, 2, [l], 2, [RelatesTo], st)
      == st.(result := st.result + [Reached("D", 2, [RelatesTo, RelatesTo])])
  {
    assert [RelatesTo] + [RelatesTo] == [RelatesTo, RelatesTo];
    assert [l][1..] == [];
  }

  /** Following A→B or A→C reports the middle memory at depth 1, expands it and reports D below it. */
  lemma DiamondMiddle(l: Link, st: WalkState)
    requires l == LinkAB || l == LinkAC
    requires l.target !in st.visited && "D" !in st.visited
    ensures Follow(Diamond, 2, l, 1, [], st)
      == WalkState(st.visited + {l.target}, st.expanded + [l.target],
           st.result + [Reached(l.target, 1, [RelatesTo]), Reached("D", 2, [RelatesTo, RelatesTo])])
  {
    DiamondOutgoing();
    var st1 := st.(result := st.result + [Reached(l.target, 1, [RelatesTo])]);
    var st2 := WalkState(st1.visited + {l.target}, st1.expanded + [l.target], st1.result);
    assert [] + [RelatesTo] == [RelatesTo];
    assert Outgoing(Diamond, l.target) == [if l == LinkAB then LinkBD else LinkCD];
    assert "D" !in st2.visited;
    DiamondLeaf(if l == LinkAB then LinkBD else LinkCD, st2);
    assert st1.result + [Reached("D", 2, [RelatesTo, RelatesTo])]
      == st.result + [Reached(l.target, 1, [RelatesTo]), Reached("D", 2, [RelatesTo, RelatesTo])];
  }

  /**
   * A memory first reached on the last level is not expanded, so it is not marked visited and
   * can be reported again: in the diamond A→B, A→C, B→D, C→D walked to depth 2, D is reported
   * twice.
   */
  lemma FrontierRepeats()
    ensures var r := ConnectedMemories(Diamond, "A", Some(2));
      |r| == 4 && r[1] == Reached("D", 2, [RelatesTo, RelatesTo]) && r[3] == Reached("D", 2, [RelatesTo, RelatesTo])
  {
    var t := [RelatesTo];
    var tt := [RelatesTo, RelatesTo];
    var s1 := WalkState({"A"}, ["A"], []);
    var s3 := WalkState({"A", "B"}, ["A", "B"], [Reached("B", 1, t), Reached("D", 2, tt)]);
    var s5 := WalkState({"A", "B", "C"}, ["A", "B", "C"],
      [Reached("B", 1, t), Reached("D", 2, tt), Reached("C", 1, t), Reached("D", 2, tt)]);
    DiamondOutgoing();
    assert {} + {"A"} == {"A"} && [] + ["A"] == ["A"];
    assert Walk(Diamond, 2, "A", 1, [], WalkState({}, [], [])) == WalkLinks(Diamond, 2, [LinkAB, LinkAC], 1, [], s1);
    DiamondMiddle(LinkAB, s1);
    assert {"A"} + {"B"} == {"A", "B"} && ["A"] + ["B"] == ["A", "B"];
    assert [] + [Reached("B", 1, t), Reached("D", 2, tt)] == s3.result;
    assert Follow(Diamond, 2, LinkAB, 1, [], s1) == s3;
    assert [LinkAB, LinkAC][1..] == [LinkAC];
    assert WalkLinks(Diamond, 2, [LinkAB, LinkAC], 1, [], s1) == WalkLinks(Diamond, 2, [LinkAC], 1, [], s3);
    DiamondMiddle(LinkAC, s3);
    assert {"A", "B"} + {"C"} == {"A", "B", "C"} && ["A", "B"] + ["C"] == ["A", "B", "C"];
    assert s3.result + [Reached("C", 1, t), Reached("D", 2, tt)] == s5.result;
    assert Follow(Diamond, 2, LinkAC, 1, [], s3) == s5;
    assert WalkLinks(Diamond, 2, [LinkAC], 1, [], s3) == WalkLinks(Diamond, 2, [], 1, [], s5);
  }
}
