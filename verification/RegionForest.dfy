/** The region cascader: a flat list of parent links bucketed by parent and
    rebuilt as a forest by a recursion that keeps no visited set. */
module RegionForest {
  import opened Wrappers
  import opened Selections

  type Code = string

  /** One reference row; absent codes stand for "". */
  datatype Group = Group(groupCode: Option<Code>, parentCode: Option<Code>, name: Option<string>)

  datatype Node = Node(value: Code, caption: string, children: seq<Node>)

  type Buckets = map<Code, seq<Group>>

  function OrEmpty(c: Option<string>): string {
    if c.Some? then c.value else ""
  }

  function CodeOf(g: Group): Code {
    OrEmpty(g.groupCode)
  }

  function ParentOf(g: Group): Code {
    OrEmpty(g.parentCode)
  }

  /** An absent field is spelled "undefined" in the label. */
  function Label(g: Group): string {
    (if g.name.Some? then g.name.value else "undefined") + "（"
    + (if g.groupCode.Some? then g.groupCode.value else "undefined") + "）"
  }

  /** The groups under `parent`, in input order. */
  function Under(list: seq<Group>, parent: Code): seq<Group> {
    if list == [] then []
    else
      var front := Under(list[..|list| - 1], parent);
      var g := list[|list| - 1];
      if ParentOf(g) == parent then front + [g] else front
  }

  function Bucket(m: Buckets, parent: Code): seq<Group> {
    if parent in m then m[parent] else []
  }

  /** Every bucket holds exactly its groups, in input order. */
  ghost predicate Bucketed(m: Buckets, list: seq<Group>) {
    forall parent :: Bucket(m, parent) == Under(list, parent)
  }

  method BucketByParent(list: seq<Group>) returns (byParent: Buckets)
    ensures Bucketed(byParent, list)
  {
    byParent := map[];
    for i := 0 to |list|
      invariant Bucketed(byParent, list[..i])
    {
      var g := list[i];
      assert list[..i + 1][..i] == list[..i];
      var arr := Bucket(byParent, ParentOf(g));
      byParent := byParent[ParentOf(g) := arr + [g]];
    }
    assert list[..|list|] == list;
  }

  /** `build(parent)` on a call stack of `depth` frames; None is the overflow. */
  function Build(m: Buckets, parent: Code, depth: nat): Option<seq<Node>>
    decreases depth, 1, 0
  {
    if depth == 0 then None else BuildAll(m, Bucket(m, parent), depth)
  }

  function BuildAll(m: Buckets, gs: seq<Group>, depth: nat): (r: Option<seq<Node>>)
    requires depth > 0
    ensures r.Some? ==> |r.value| == |gs|
    decreases depth, 0, |gs|
  {
    if gs == [] then Some([])
    else
      var g := gs[0];
      match Build(m, CodeOf(g), depth - 1)
      case None => None
      case Some(children) =>
        match BuildAll(m, gs[1..], depth)
        case None => None
        case Some(rest) => Some([Node(CodeOf(g), Label(g), children)] + rest)
  }

  // ----- root paths -----

  /** A step down: some group links `parent` to `child`. */
  predicate Edge(list: seq<Group>, parent: Code, child: Code) {
    exists g :: g in list && ParentOf(g) == parent && CodeOf(g) == child
  }

  /** `path` runs down from `from` through groups of the list, one per element. */
  predicate Path(list: seq<Group>, from: Code, path: seq<Code>)
    decreases path
  {
    path == [] || (Edge(list, from, path[0]) && Path(list, path[0], path[1..]))
  }

  predicate Distinct<A(==)>(s: seq<A>) {
    forall i, j :: 0 <= i < j < |s| ==> s[i] != s[j]
  }

  /** No path from the root comes back to a code it has left, the root included. */
  ghost predicate Acyclic(list: seq<Group>) {
    forall path :: Path(list, "", path) ==> Distinct([""] + path)
  }

  /** What the reference service promises: codes identify groups. */
  predicate UniqueCodes(list: seq<Group>) {
    && (forall i :: 0 <= i < |list| ==> CodeOf(list[i]) != "")
    && (forall i, j :: 0 <= i < j < |list| ==> CodeOf(list[i]) != CodeOf(list[j]))
  }

  lemma {:induction false} UnderMembers(list: seq<Group>, parent: Code)
    ensures forall g :: g in Under(list, parent) <==> g in list && ParentOf(g) == parent
  {
    if list != [] {
      var front := list[..|list| - 1];
      UnderMembers(front, parent);
      assert list == front + [list[|list| - 1]];
    }
  }

  // ----- termination -----

  lemma EdgeIsPosition(list: seq<Group>, parent: Code, child: Code) returns (j: nat)
    requires Edge(list, parent, child)
    ensures j < |Under(list, parent)| && CodeOf(Under(list, parent)[j]) == child
  {
    UnderMembers(list, parent);
    var g :| g in list && ParentOf(g) == parent && CodeOf(g) == child;
    assert g in Under(list, parent);
    j :| 0 <= j < |Under(list, parent)| && Under(list, parent)[j] == g;
  }

  /** A built forest bounds the paths below its parent. */
  lemma {:induction false} BuiltBoundsPaths(list: seq<Group>, m: Buckets, parent: Code, depth: nat, path: seq<Code>)
    requires Bucketed(m, list) && Build(m, parent, depth).Some? && Path(list, parent, path)
    ensures |path| < depth
    decreases depth
  {
    hide Under, Edge, BuildAll;
    if path != [] {
      var gs := Under(list, parent);
      var j := EdgeIsPosition(list, parent, path[0]);
      BuiltBuildsEach(m, gs, depth, j);
      BuiltBoundsPaths(list, m, path[0], depth - 1, path[1..]);
    }
  }

  lemma {:induction false} BuiltBuildsEach(m: Buckets, gs: seq<Group>, depth: nat, j: nat)
    requires depth > 0 && BuildAll(m, gs, depth).Some? && j < |gs|
    ensures Build(m, CodeOf(gs[j]), depth - 1).Some?
    ensures BuildAll(m, gs, depth).value[j]
            == Node(CodeOf(gs[j]), Label(gs[j]), Build(m, CodeOf(gs[j]), depth - 1).value)
    decreases |gs|
  {
    if j > 0 {
      BuiltBuildsEach(m, gs[1..], depth, j - 1);
    }
  }

  lemma PathGrows(list: seq<Group>, parent: Code, child: Code, rest: seq<Code>)
    requires Edge(list, parent, child) && Path(list, child, rest)
    ensures Path(list, parent, [child] + rest)
  {
    assert ([child] + rest)[1..] == rest;
  }

  lemma UnderIsEdge(list: seq<Group>, parent: Code, j: nat)
    requires j < |Under(list, parent)|
    ensures Edge(list, parent, CodeOf(Under(list, parent)[j]))
  {
    UnderMembers(list, parent);
    assert Under(list, parent)[j] in Under(list, parent);
  }

  /** An overflow exhibits a path as long as the stack. */
  lemma {:induction false} OverflowHasLongPath(list: seq<Group>, m: Buckets, parent: Code, depth: nat)
    returns (path: seq<Code>)
    requires Bucketed(m, list) && Build(m, parent, depth) == None
    ensures Path(list, parent, path) && |path| == depth
    decreases depth
  {
    hide Under, Edge, BuildAll;
    if depth == 0 {
      path := [];
    } else {
      var j := OverflowingChild(m, Under(list, parent), depth);
      UnderIsEdge(list, parent, j);
      var child := CodeOf(Under(list, parent)[j]);
      var rest := OverflowHasLongPath(list, m, child, depth - 1);
      path := [child] + rest;
      PathGrows(list, parent, child, rest);
    }
  }

  lemma {:induction false} OverflowingChild(m: Buckets, gs: seq<Group>, depth: nat) returns (j: nat)
    requires depth > 0 && BuildAll(m, gs, depth) == None
    ensures j < |gs| && Build(m, CodeOf(gs[j]), depth - 1) == None
    decreases |gs|
  {
    if Build(m, CodeOf(gs[0]), depth - 1) == None {
      j := 0;
    } else {
      var k := OverflowingChild(m, gs[1..], depth);
      j := k + 1;
    }
  }

  function End(from: Code, path: seq<Code>): Code {
    if path == [] then from else path[|path| - 1]
  }

  lemma {:induction false} PathSplits(list: seq<Group>, from: Code, path: seq<Code>, k: nat)
    requires k <= |path|
    ensures Path(list, from, path) <==> Path(list, from, path[..k]) && Path(list, End(from, path[..k]), path[k..])
    decreases k
  {
    if k > 0 {
      PathSplits(list, path[0], path[1..], k - 1);
      assert path[..k][1..] == path[1..][..k - 1];
      assert path[1..][k - 1..] == path[k..];
    } else {
      assert path[0..] == path;
    }
  }

  lemma {:induction false} LastEdge(list: seq<Group>, from: Code, path: seq<Code>)
    requires Path(list, from, path) && path != []
    ensures Path(list, from, path[..|path| - 1])
    ensures Edge(list, End(from, path[..|path| - 1]), path[|path| - 1])
  {
    PathSplits(list, from, path, |path| - 1);
  }

  /** A revisit can be run again, so paths of every length exist. */
  lemma {:induction false} RevisitPumps(list: seq<Group>, path: seq<Code>, i: nat, j: nat, n: nat)
    returns (long: seq<Code>)
    requires Path(list, "", path) && i < j <= |path| && End("", path[..i]) == End("", path[..j])
    ensures Path(list, "", long) && |long| >= n
    decreases if n > |path| then n - |path| else 0
  {
    if |path| >= n {
      long := path;
    } else {
      var again := path[..j] + path[i..];
      PathSplits(list, "", path, i);
      PathSplits(list, "", path, j);
      assert again[..j] == path[..j] && again[j..] == path[i..];
      PathSplits(list, "", again, j);
      assert again[..i] == path[..i];
      long := RevisitPumps(list, again, i, j, n);
    }
  }

  lemma {:induction false} DistinctFit(s: seq<Code>, codes: set<Code>)
    requires Distinct(s) && forall x :: x in s ==> x in codes
    ensures |s| <= |codes|
    decreases |s|
  {
    if s != [] {
      assert forall x :: x in s[1..] ==> x in codes - {s[0]};
      DistinctFit(s[1..], codes - {s[0]});
    }
  }

  function Codes(list: seq<Group>): (codes: set<Code>)
    ensures forall g :: g in list ==> CodeOf(g) in codes
    ensures |codes| <= |list|
  {
    if list == [] then {}
    else
      assert list == [list[0]] + list[1..];
      {CodeOf(list[0])} + Codes(list[1..])
  }

  lemma {:induction false} PathStaysInList(list: seq<Group>, from: Code, path: seq<Code>)
    requires Path(list, from, path)
    ensures forall x :: x in path ==> x in Codes(list)
    decreases path
  {
    if path != [] {
      PathStaysInList(list, path[0], path[1..]);
      assert path == [path[0]] + path[1..];
    }
  }

  lemma AcyclicFits(list: seq<Group>, m: Buckets, depth: nat)
    requires Bucketed(m, list) && Acyclic(list) && depth > |list|
    ensures Build(m, "", depth).Some?
  {
    if Build(m, "", depth) == None {
      var path := OverflowHasLongPath(list, m, "", depth);
      assert Distinct([""] + path);
      assert Distinct(path) by {
        assert forall i :: 0 <= i < |path| ==> ([""] + path)[i + 1] == path[i];
      }
      PathStaysInList(list, "", path);
      DistinctFit(path, Codes(list));
    }
  }

  lemma CyclicOverflows(list: seq<Group>, m: Buckets, depth: nat)
    requires Bucketed(m, list) && !Acyclic(list)
    ensures Build(m, "", depth) == None
  {
    if Build(m, "", depth).Some? {
      var path :| Path(list, "", path) && !Distinct([""] + path);
      var q := [""] + path;
      var i, j :| 0 <= i < j < |q| && q[i] == q[j];
      assert End("", path[..i]) == q[i] && End("", path[..j]) == q[j];
      var long := RevisitPumps(list, path, i, j, depth);
      BuiltBoundsPaths(list, m, "", depth, long);
    }
  }

  /** The recursion ends, within one frame per group and one more, exactly when
      no path from the root revisits a code; otherwise no stack is deep enough. */
  lemma BuildEndsExactlyOnAcyclic(list: seq<Group>, m: Buckets)
    requires Bucketed(m, list)
    ensures Acyclic(list) <==> exists depth :: Build(m, "", depth).Some?
    ensures Acyclic(list) <==> Build(m, "", |list| + 1).Some?
  {
    if Acyclic(list) {
      AcyclicFits(list, m, |list| + 1);
    } else {
      forall depth ensures Build(m, "", depth) == None {
        CyclicOverflows(list, m, depth);
      }
    }
  }

  lemma OneParent(list: seq<Group>, a: Code, b: Code, child: Code)
    requires UniqueCodes(list) && Edge(list, a, child) && Edge(list, b, child)
    ensures a == b && child != ""
  {
    var g :| g in list && ParentOf(g) == a && CodeOf(g) == child;
    var h :| h in list && ParentOf(h) == b && CodeOf(h) == child;
    var i :| 0 <= i < |list| && list[i] == g;
    var j :| 0 <= j < |list| && list[j] == h;
    assert i == j;
  }

  lemma NeverBackAtTheRoot(list: seq<Group>, path: seq<Code>)
    requires UniqueCodes(list) && Path(list, "", path)
    ensures End("", path) == "" <==> path == []
  {
    if path != [] {
      LastEdge(list, "", path);
      var parent := End("", path[..|path| - 1]);
      OneParent(list, parent, parent, path[|path| - 1]);
    }
  }

  /** Two root paths to one code are the same path. */
  lemma {:induction false} OneRootPath(list: seq<Group>, p: seq<Code>, q: seq<Code>)
    requires UniqueCodes(list) && Path(list, "", p) && Path(list, "", q) && End("", p) == End("", q)
    ensures p == q
    decreases |p|
  {
    NeverBackAtTheRoot(list, p);
    NeverBackAtTheRoot(list, q);
    if p != [] {
      LastEdge(list, "", p);
      LastEdge(list, "", q);
      var p', q' := p[..|p| - 1], q[..|q| - 1];
      OneParent(list, End("", p'), End("", q'), p[|p| - 1]);
      OneRootPath(list, p', q');
      assert p == p' + [p[|p| - 1]] && q == q' + [p[|p| - 1]];
    }
  }

  /** Unique non-empty codes are enough: a parent cycle may be in the list, but
      no path from the root enters it. */
  lemma UniqueCodesAreAcyclic(list: seq<Group>)
    requires UniqueCodes(list)
    ensures Acyclic(list)
  {
    forall path | Path(list, "", path) ensures Distinct([""] + path) {
      var q := [""] + path;
      forall i, j | 0 <= i < j < |q| ensures q[i] != q[j] {
        if q[i] == q[j] {
          PathSplits(list, "", path, i);
          PathSplits(list, "", path, j);
          assert End("", path[..i]) == q[i] && End("", path[..j]) == q[j];
          OneRootPath(list, path[..i], path[..j]);
        }
      }
    }
  }

  // ----- what is built -----

  /** The nodes are the groups under `parent` in input order, all the way down. */
  predicate Faithful(list: seq<Group>, parent: Code, nodes: seq<Node>) {
    var gs := Under(list, parent);
    |nodes| == |gs| && FaithfulTo(list, gs, nodes)
  }

  predicate FaithfulTo(list: seq<Group>, gs: seq<Group>, nodes: seq<Node>)
    requires |nodes| == |gs|
    decreases nodes
  {
    nodes == []
    || (&& nodes[0].value == CodeOf(gs[0])
        && nodes[0].caption == Label(gs[0])
        && FaithfulNode(list, nodes[0])
        && FaithfulTo(list, gs[1..], nodes[1..]))
  }

  predicate FaithfulNode(list: seq<Group>, node: Node)
    decreases node
  {
    var gs := Under(list, node.value);
    |node.children| == |gs| && FaithfulTo(list, gs, node.children)
  }

  lemma {:induction false} BuildIsFaithful(list: seq<Group>, m: Buckets, parent: Code, depth: nat)
    requires Bucketed(m, list) && Build(m, parent, depth).Some?
    ensures Faithful(list, parent, Build(m, parent, depth).value)
    decreases depth, 1, 0
  {
    BuildAllIsFaithful(list, m, Under(list, parent), depth);
  }

  lemma {:induction false} BuildAllIsFaithful(list: seq<Group>, m: Buckets, gs: seq<Group>, depth: nat)
    requires Bucketed(m, list) && depth > 0 && BuildAll(m, gs, depth).Some?
    ensures FaithfulTo(list, gs, BuildAll(m, gs, depth).value)
    decreases depth, 0, |gs|
  {
    if gs != [] {
      BuildIsFaithful(list, m, CodeOf(gs[0]), depth - 1);
      BuildAllIsFaithful(list, m, gs[1..], depth);
      var nodes := BuildAll(m, gs, depth).value;
      assert nodes[1..] == BuildAll(m, gs[1..], depth).value;
    }
  }

  /** How many nodes have root path `q`. */
  function CountPath(nodes: seq<Node>, q: seq<Code>): nat
    decreases |q|, |nodes|
  {
    if nodes == [] || q == [] then 0
    else
      (if nodes[0].value != q[0] then 0
       else if |q| == 1 then 1
       else CountPath(nodes[0].children, q[1..]))
      + CountPath(nodes[1..], q)
  }

  /** How many nodes, at any depth, carry `code`. */
  function CountCode(nodes: seq<Node>, code: Code): nat
    decreases nodes
  {
    if nodes == [] then 0
    else CountNode(nodes[0], code) + CountCode(nodes[1..], code)
  }

  function CountNode(node: Node, code: Code): nat
    decreases node
  {
    (if node.value == code then 1 else 0) + CountCode(node.children, code)
  }

  predicate HasCode(gs: seq<Group>, code: Code) {
    exists i :: 0 <= i < |gs| && CodeOf(gs[i]) == code
  }

  predicate DistinctCodes(gs: seq<Group>) {
    forall i, j :: 0 <= i < j < |gs| ==> CodeOf(gs[i]) != CodeOf(gs[j])
  }

  lemma {:induction false} SiblingsAreDistinct(list: seq<Group>, parent: Code)
    requires UniqueCodes(list)
    ensures DistinctCodes(Under(list, parent))
  {
    if list != [] {
      var n := |list| - 1;
      var front := list[..n];
      SiblingsAreDistinct(front, parent);
      UnderMembers(front, parent);
      forall g | g in front ensures CodeOf(g) != CodeOf(list[n]) {
        var i :| 0 <= i < n && front[i] == g;
        assert list[i] == g;
      }
    }
  }

  lemma {:induction false} CountPathIsOne(list: seq<Group>, gs: seq<Group>, nodes: seq<Node>, q: seq<Code>)
    requires UniqueCodes(list) && DistinctCodes(gs) && |nodes| == |gs| && FaithfulTo(list, gs, nodes) && q != []
    ensures CountPath(nodes, q) == if HasCode(gs, q[0]) && Path(list, q[0], q[1..]) then 1 else 0
    decreases |q|, |nodes|
  {
    if nodes != [] {
      var below := Under(list, CodeOf(gs[0]));
      CountPathIsOne(list, gs[1..], nodes[1..], q);
      assert HasCode(gs, q[0]) <==> CodeOf(gs[0]) == q[0] || HasCode(gs[1..], q[0]) by {
        assert gs == [gs[0]] + gs[1..];
        if i :| 0 <= i < |gs[1..]| && CodeOf(gs[1..][i]) == q[0] {
          assert gs[i + 1] == gs[1..][i];
        }
      }
      if CodeOf(gs[0]) == q[0] {
        assert !HasCode(gs[1..], q[0]);
        if |q| > 1 {
          SiblingsAreDistinct(list, q[0]);
          CountPathIsOne(list, below, nodes[0].children, q[1..]);
          UnderMembers(list, q[0]);
          EdgeIsUnder(list, q[0], q[1]);
        }
      }
    }
  }

  lemma EdgeIsUnder(list: seq<Group>, parent: Code, child: Code)
    ensures Edge(list, parent, child) <==> HasCode(Under(list, parent), child)
  {
    UnderMembers(list, parent);
    if Edge(list, parent, child) {
      var g :| g in list && ParentOf(g) == parent && CodeOf(g) == child;
      assert g in Under(list, parent);
    }
    if i :| 0 <= i < |Under(list, parent)| && CodeOf(Under(list, parent)[i]) == child {
      assert Under(list, parent)[i] in Under(list, parent);
    }
  }

  /** A path occurs in the forest exactly once if it is a parent chain from the
      root, and not at all otherwise. */
  lemma EachChainOccursOnce(list: seq<Group>, forest: seq<Node>, q: seq<Code>)
    requires UniqueCodes(list) && Faithful(list, "", forest) && q != []
    ensures CountPath(forest, q) == if Path(list, "", q) then 1 else 0
  {
    SiblingsAreDistinct(list, "");
    CountPathIsOne(list, Under(list, ""), forest, q);
    EdgeIsUnder(list, "", q[0]);
  }

  /** `q` is the chain of parents from the root down to `code`. */
  predicate Chain(list: seq<Group>, code: Code, q: seq<Code>) {
    q != [] && Path(list, "", q) && q[|q| - 1] == code
  }

  /** Below `up`, `code` is counted once or not at all, as its chain says. */
  lemma {:induction false} CountAlongChain(
      list: seq<Group>, up: seq<Code>, gs: seq<Group>, nodes: seq<Node>, code: Code, q: seq<Code>)
    requires UniqueCodes(list) && DistinctCodes(gs) && |nodes| == |gs| && FaithfulTo(list, gs, nodes)
    requires Path(list, "", up) && forall g :: g in gs ==> g in list && ParentOf(g) == End("", up)
    requires Chain(list, code, q)
    ensures CountCode(nodes, code) == if up < q && HasCode(gs, q[|up|]) then 1 else 0
    decreases nodes
  {
    if nodes != [] {
      var v := CodeOf(gs[0]);
      assert gs == [gs[0]] + gs[1..];
      CountAlongChain(list, up, gs[1..], nodes[1..], code, q);
      if up < q {
        assert HasCode(gs, q[|up|]) <==> v == q[|up|] || HasCode(gs[1..], q[|up|]) by {
          if i :| 0 <= i < |gs[1..]| && CodeOf(gs[1..][i]) == q[|up|] {
            assert gs[i + 1] == gs[1..][i];
          }
        }
      }
      CountNodeAlongChain(list, up, gs[0], nodes[0], code, q);
      if up < q && v == q[|up|] {
        assert !HasCode(gs[1..], q[|up|]);
      }
    }
  }

  lemma {:induction false} CountNodeAlongChain(
      list: seq<Group>, up: seq<Code>, g: Group, node: Node, code: Code, q: seq<Code>)
    requires UniqueCodes(list) && Path(list, "", up) && g in list && ParentOf(g) == End("", up)
    requires node.value == CodeOf(g) && FaithfulNode(list, node) && Chain(list, code, q)
    ensures CountNode(node, code) == if up < q && CodeOf(g) == q[|up|] then 1 else 0
    decreases node
  {
    var here := up + [CodeOf(g)];
    assert here[..|up|] == up && here[|up|..] == [CodeOf(g)];
    PathSplits(list, "", here, |up|);
    SiblingsAreDistinct(list, CodeOf(g));
    UnderMembers(list, CodeOf(g));
    CountAlongChain(list, here, Under(list, CodeOf(g)), node.children, code, q);
    if node.value == code {
      OneRootPath(list, here, q);
    } else if here < q {
      PathSplits(list, "", q, |here|);
      EdgeIsUnder(list, CodeOf(g), q[|here|]);
    }
    assert up < q && CodeOf(g) == q[|up|] <==> here <= q;
  }

  lemma {:induction false} CountWithoutChain(
      list: seq<Group>, up: seq<Code>, gs: seq<Group>, nodes: seq<Node>, code: Code)
    requires |nodes| == |gs| && FaithfulTo(list, gs, nodes)
    requires Path(list, "", up) && forall g :: g in gs ==> g in list && ParentOf(g) == End("", up)
    requires forall q :: !Chain(list, code, q)
    ensures CountCode(nodes, code) == 0
    decreases nodes
  {
    if nodes != [] {
      assert gs == [gs[0]] + gs[1..];
      CountWithoutChain(list, up, gs[1..], nodes[1..], code);
      CountNodeWithoutChain(list, up, gs[0], nodes[0], code);
    }
  }

  lemma {:induction false} CountNodeWithoutChain(list: seq<Group>, up: seq<Code>, g: Group, node: Node, code: Code)
    requires Path(list, "", up) && g in list && ParentOf(g) == End("", up)
    requires node.value == CodeOf(g) && FaithfulNode(list, node) && forall q :: !Chain(list, code, q)
    ensures CountNode(node, code) == 0
    decreases node
  {
    var here := up + [CodeOf(g)];
    assert here[..|up|] == up && here[|up|..] == [CodeOf(g)];
    PathSplits(list, "", here, |up|);
    UnderMembers(list, CodeOf(g));
    CountWithoutChain(list, here, Under(list, CodeOf(g)), node.children, code);
    assert !Chain(list, code, here);
  }

  /** Conservation: every group appears in the forest exactly once if its chain
      of parents reaches the root, and not at all otherwise. */
  lemma EachGroupOccursOnce(list: seq<Group>, forest: seq<Node>, g: Group)
    requires UniqueCodes(list) && Faithful(list, "", forest) && g in list
    ensures CountCode(forest, CodeOf(g)) == if exists q :: Chain(list, CodeOf(g), q) then 1 else 0
  {
    SiblingsAreDistinct(list, "");
    UnderMembers(list, "");
    if q :| Chain(list, CodeOf(g), q) {
      CountAlongChain(list, [], Under(list, ""), forest, CodeOf(g), q);
      EdgeIsUnder(list, "", q[0]);
    } else {
      CountWithoutChain(list, [], Under(list, ""), forest, CodeOf(g));
    }
  }

  /** A list determines its faithful forest. */
  lemma {:induction false} FaithfulIsUnique(list: seq<Group>, gs: seq<Group>, a: seq<Node>, b: seq<Node>)
    requires |a| == |b| == |gs| && FaithfulTo(list, gs, a) && FaithfulTo(list, gs, b)
    ensures a == b
    decreases a
  {
    if a != [] {
      FaithfulNodeIsUnique(list, a[0], b[0]);
      FaithfulIsUnique(list, gs[1..], a[1..], b[1..]);
      assert a == [a[0]] + a[1..] && b == [b[0]] + b[1..];
    }
  }

  lemma {:induction false} FaithfulNodeIsUnique(list: seq<Group>, a: Node, b: Node)
    requires FaithfulNode(list, a) && FaithfulNode(list, b) && a.value == b.value && a.caption == b.caption
    ensures a == b
    decreases a
  {
    FaithfulIsUnique(list, Under(list, a.value), a.children, b.children);
  }

  // ----- the forest in terms of the rows' own fields -----

  /** The row hangs under `parent`; one that names no parent, at the root. */
  function LinkedTo(parent: Code): Group -> bool {
    (g: Group) => match g.parentCode case Some(code) => code == parent case None => parent == ""
  }

  /** The node made of a row. */
  predicate Represents(node: Node, g: Group) {
    && node.value == (match g.groupCode case Some(code) => code case None => "")
    && node.caption
       == match (g.name, g.groupCode)
          case (Some(name), Some(code)) => name + "（" + code + "）"
          case (Some(name), None) => name + "（undefined）"
          case (None, Some(code)) => "undefined（" + code + "）"
          case (None, None) => "undefined（undefined）"
  }

  /** At this and every deeper level: the rows linked to the node above, in the
      order of the list. */
  ghost predicate Lists(list: seq<Group>, parent: Code, nodes: seq<Node>)
    decreases nodes
  {
    && (exists rows ::
          && KeptInOrder(rows, list, LinkedTo(parent))
          && |rows| == |nodes|
          && forall k :: 0 <= k < |nodes| ==> Represents(nodes[k], rows[k]))
    && forall node :: node in nodes ==> Lists(list, node.value, node.children)
  }

  lemma {:induction false} UnderIsInOrder(list: seq<Group>, parent: Code)
    ensures KeptInOrder(Under(list, parent), list, LinkedTo(parent))
  {
    hide KeptInOrder;
    if list == [] {
      NothingKept(LinkedTo(parent));
    } else {
      var n := |list| - 1;
      UnderIsInOrder(list[..n], parent);
      OneMoreKept(Under(list[..n], parent), list[..n], list[n], LinkedTo(parent));
      assert list == list[..n] + [list[n]];
    }
  }

  lemma {:induction false} FaithfulAt(list: seq<Group>, gs: seq<Group>, nodes: seq<Node>, k: nat)
    requires k < |nodes| == |gs| && FaithfulTo(list, gs, nodes)
    ensures Represents(nodes[k], gs[k]) && Faithful(list, nodes[k].value, nodes[k].children)
    decreases k
  {
    if k > 0 {
      FaithfulAt(list, gs[1..], nodes[1..], k - 1);
    }
  }

  lemma {:induction false} FaithfulLists(list: seq<Group>, parent: Code, nodes: seq<Node>)
    requires Faithful(list, parent, nodes)
    ensures Lists(list, parent, nodes)
    decreases nodes
  {
    hide KeptInOrder, Represents;
    UnderIsInOrder(list, parent);
    var rows := Under(list, parent);
    forall k | 0 <= k < |nodes|
      ensures Represents(nodes[k], rows[k])
    {
      FaithfulAt(list, rows, nodes, k);
    }
    forall node | node in nodes
      ensures Lists(list, node.value, node.children)
    {
      var k :| 0 <= k < |nodes| && nodes[k] == node;
      FaithfulAt(list, rows, nodes, k);
      FaithfulLists(list, node.value, node.children);
    }
  }

  /** The page's options: bucket, then build from the root, on a call stack of
      `depth` frames. */
  method Options(list: seq<Group>, depth: nat) returns (forest: Option<seq<Node>>)
    ensures forest.Some? ==> Faithful(list, "", forest.value) && Lists(list, "", forest.value)
    ensures Acyclic(list) && depth > |list| ==> forest.Some?
    ensures !Acyclic(list) ==> forest == None
  {
    var byParent := BucketByParent(list);
    forest := Build(byParent, "", depth);
    if forest.Some? {
      BuildIsFaithful(list, byParent, "", depth);
      FaithfulLists(list, "", forest.value);
    }
    if !Acyclic(list) {
      CyclicOverflows(list, byParent, depth);
    } else if depth > |list| {
      AcyclicFits(list, byParent, depth);
    }
  }
}
