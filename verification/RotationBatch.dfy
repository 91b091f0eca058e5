/** rotation_batch.hpp: requests sharing the prefixes of their step paths. */
module RotationBatch {
  import opened Wrappers
  import opened SlotVectors
  import opened RotationSteps

  datatype Node = Node(children: map<int, nat>, outputs: seq<nat>)

  datatype Stats = Stats(requests: nat, edges: nat, preparations: nat, siblingBatches: nat)

  /** The reference: one request's own path, step by step. */
  function Apply<V>(rotate: (V, int) -> V, value: V, steps: seq<int>): V
    decreases |steps|
  {
    if |steps| == 0 then value else Apply(rotate, rotate(value, steps[0]), steps[1..])
  }

  lemma {:induction false} ApplyAppend<V>(rotate: (V, int) -> V, value: V, a: seq<int>, b: seq<int>)
    ensures Apply(rotate, value, a + b) == Apply(rotate, Apply(rotate, value, a), b)
    decreases |a|
  {
    if |a| == 0 {
      assert a + b == b;
    } else {
      assert (a + b)[1..] == a[1..] + b;
      ApplyAppend(rotate, rotate(value, a[0]), a[1..], b);
    }
  }

  /** One node per distinct path; children extend their parent's path by the edge's step. */
  ghost predicate Trie(tree: seq<Node>, paths: seq<seq<int>>) {
    && |tree| == |paths| > 0 && paths[0] == []
    && (forall i, j :: 0 <= i < j < |paths| ==> paths[i] != paths[j])
    && (forall i :: 0 <= i < |tree| ==> Linked(tree, paths, i))
    && (forall j :: 0 < j < |tree| ==> HasParent(tree, paths, j))
  }

  ghost predicate Linked(tree: seq<Node>, paths: seq<seq<int>>, i: nat)
    requires i < |tree| == |paths|
  {
    forall s :: s in tree[i].children ==> i < tree[i].children[s] < |tree| && paths[tree[i].children[s]] == paths[i] + [s]
  }

  ghost predicate HasParent(tree: seq<Node>, paths: seq<seq<int>>, j: nat)
    requires j < |tree| == |paths|
  {
    exists i, s :: 0 <= i < |tree| && s in tree[i].children && tree[i].children[s] == j
  }

  /** Every request is filed exactly at the node of its own path, and every node lies on some request's path. */
  ghost predicate Filed(tree: seq<Node>, paths: seq<seq<int>>, requests: seq<seq<int>>)
    requires |tree| == |paths|
  {
    && (forall i: nat :: i < |tree| ==> OwnRequests(tree[i].outputs, paths[i], requests))
    && (forall r: nat :: r < |requests| ==> IsFiled(tree, r))
    && (forall i :: 0 <= i < |tree| ==> OnPath(paths[i], requests))
  }

  ghost predicate OwnRequests(outputs: seq<nat>, path: seq<int>, requests: seq<seq<int>>) {
    forall r :: r in outputs ==> r < |requests| && requests[r] == path
  }

  ghost predicate IsFiled(tree: seq<Node>, r: nat) {
    exists i :: 0 <= i < |tree| && r in tree[i].outputs
  }

  ghost predicate OnPath(path: seq<int>, requests: seq<seq<int>>) {
    path == [] || exists r :: 0 <= r < |requests| && Prefix(path, requests[r])
  }

  predicate Prefix(p: seq<int>, q: seq<int>) {
    p <= q
  }

  lemma OnPathGrows(path: seq<int>, requests: seq<seq<int>>, next: seq<int>)
    ensures OnPath(path, requests) ==> OnPath(path, requests + [next])
    ensures Prefix(path, next) ==> OnPath(path, requests + [next])
  {
    if path != [] && OnPath(path, requests) {
      var r :| 0 <= r < |requests| && Prefix(path, requests[r]);
      assert (requests + [next])[r] == requests[r];
    }
    assert (requests + [next])[|requests|] == next;
  }

  /** Walk one request's steps from the root, adding the missing nodes, and file it at the end. */
  method Insert(tree: seq<Node>, ghost paths: seq<seq<int>>, steps: seq<int>, ghost requests: seq<seq<int>>, request: nat)
    returns (tree': seq<Node>, ghost paths': seq<seq<int>>)
    requires |tree| == |paths| && Trie(tree, paths) && Filed(tree, paths, requests) && request == |requests|
    ensures |tree'| == |paths'| > 0 && Trie(tree', paths') && Filed(tree', paths', requests + [steps])
    ensures forall p :: p in paths' <==> p in paths || Prefix(p, steps)
  {
    hide Linked, HasParent, Filed;
    tree', paths' := tree, paths;
    var parent: nat := 0;
    for k := 0 to |steps|
      invariant |tree'| == |paths'| && Trie(tree', paths') && parent < |tree'| && paths'[parent] == steps[..k]
      invariant SameOutputs(tree', tree) && paths <= paths'
      invariant forall p :: p in paths' <==> p in paths || Prefix(p, steps[..k])
    {
      var step := steps[k];
      PrefixStep(steps, k);
      if step in tree'[parent].children {
        FollowChild(tree', paths', parent, step);
        parent := tree'[parent].children[step];
      } else {
        AddChild(tree', paths', parent, step);
        var child := |tree'|;
        tree' := tree'[parent := tree'[parent].(children := tree'[parent].children[step := child])] + [Node(map[], [])];
        paths' := paths' + [paths'[parent] + [step]];
        parent := child;
      }
    }
    assert steps[..|steps|] == steps;
    FileRequest(tree, paths, tree', paths', requests, steps, parent);
    tree' := tree'[parent := tree'[parent].(outputs := tree'[parent].outputs + [request])];
  }

  ghost predicate SameOutputs(tree': seq<Node>, tree: seq<Node>) {
    |tree| <= |tree'| && forall i :: 0 <= i < |tree'| ==> tree'[i].outputs == if i < |tree| then tree[i].outputs else []
  }

  lemma PrefixStep(steps: seq<int>, k: nat)
    requires k < |steps|
    ensures steps[..k + 1] == steps[..k] + [steps[k]]
    ensures forall p :: Prefix(p, steps[..k + 1]) <==> Prefix(p, steps[..k]) || p == steps[..k + 1]
  {
    forall p | Prefix(p, steps[..k + 1])
      ensures Prefix(p, steps[..k]) || p == steps[..k + 1]
    {
      if |p| <= k {
        assert p == steps[..k + 1][..|p|] == steps[..k][..|p|];
      }
    }
  }

  lemma FollowChild(tree: seq<Node>, paths: seq<seq<int>>, parent: nat, step: int)
    requires Trie(tree, paths) && parent < |tree| && step in tree[parent].children
    ensures parent < tree[parent].children[step] < |tree| == |paths|
    ensures paths[tree[parent].children[step]] == paths[parent] + [step]
  {
    assert Linked(tree, paths, parent);
  }

  lemma AddChild(tree: seq<Node>, paths: seq<seq<int>>, parent: nat, step: int)
    requires Trie(tree, paths) && parent < |tree| && step !in tree[parent].children
    ensures |paths| == |tree|
    ensures var tree' := tree[parent := tree[parent].(children := tree[parent].children[step := |tree|])] + [Node(map[], [])];
            Trie(tree', paths + [paths[parent] + [step]])
  {
    var tree' := tree[parent := tree[parent].(children := tree[parent].children[step := |tree|])] + [Node(map[], [])];
    var path := paths[parent] + [step];
    var paths' := paths + [path];
    forall i | 0 <= i < |paths|
      ensures paths[i] != path
    {
      NewPath(tree, paths, parent, step, i);
    }
    forall i | 0 <= i < |tree'|
      ensures Linked(tree', paths', i)
    {
      assert i < |tree| ==> Linked(tree, paths, i);
    }
    forall j | 0 < j < |tree'|
      ensures HasParent(tree', paths', j)
    {
      if j == |tree| {
        assert step in tree'[parent].children && tree'[parent].children[step] == j;
      } else {
        assert HasParent(tree, paths, j);
        var i, s :| 0 <= i < |tree| && s in tree[i].children && tree[i].children[s] == j;
        assert s in tree'[i].children && tree'[i].children[s] == j;
      }
    }
  }

  /** A path that would extend the parent by an unused step belongs to no node yet. */
  lemma NewPath(tree: seq<Node>, paths: seq<seq<int>>, parent: nat, step: int, i: nat)
    requires Trie(tree, paths) && parent < |tree| && step !in tree[parent].children && i < |tree|
    ensures paths[i] != paths[parent] + [step]
  {
    if i > 0 {
      assert HasParent(tree, paths, i);
      var j, s :| 0 <= j < |tree| && s in tree[j].children && tree[j].children[s] == i;
      assert Linked(tree, paths, j);
      if paths[i] == paths[parent] + [step] {
        SameParent(paths[j], s, paths[parent], step);
      }
    }
  }

  lemma SameParent(a: seq<int>, s: int, b: seq<int>, t: int)
    requires a + [s] == b + [t]
    ensures a == b && s == t
  {
    assert a == (a + [s])[..|a|] && b == (b + [t])[..|b|];
    assert s == (a + [s])[|a|] && t == (b + [t])[|b|];
  }

  lemma FileRequest(tree: seq<Node>, paths: seq<seq<int>>, tree': seq<Node>, paths': seq<seq<int>>, requests: seq<seq<int>>,
                    steps: seq<int>, at: nat)
    requires Trie(tree, paths) && Filed(tree, paths, requests) && Trie(tree', paths')
    requires SameOutputs(tree', tree) && paths <= paths' && at < |tree'| && paths'[at] == steps
    requires forall p :: p in paths' <==> p in paths || Prefix(p, steps)
    ensures var filed := tree'[at := tree'[at].(outputs := tree'[at].outputs + [|requests|])];
            Trie(filed, paths') && Filed(filed, paths', requests + [steps])
  {
    hide Linked, HasParent, OnPath;
    var filed := tree'[at := tree'[at].(outputs := tree'[at].outputs + [|requests|])];
    FiledTrie(tree', paths', filed);
    var more := requests + [steps];
    forall i | 0 <= i < |filed|
      ensures OnPath(paths'[i], more)
    {
      assert paths'[i] in paths';
      FiledOnPath(paths, requests, paths'[i], steps);
    }
    forall r: nat | r < |more|
      ensures IsFiled(filed, r)
    {
      if r == |requests| {
        assert r in filed[at].outputs;
      } else {
        assert IsFiled(tree, r);
        var i :| 0 <= i < |tree| && r in tree[i].outputs;
        assert r in filed[i].outputs;
      }
    }
    forall i: nat | i < |filed|
      ensures OwnRequests(filed[i].outputs, paths'[i], more)
    {
      if i < |tree| {
        assert OwnRequests(tree[i].outputs, paths[i], requests) && paths'[i] == paths[i];
      }
    }
  }

  lemma FiledOnPath(paths: seq<seq<int>>, requests: seq<seq<int>>, path: seq<int>, steps: seq<int>)
    requires forall i :: 0 <= i < |paths| ==> OnPath(paths[i], requests)
    requires path in paths || Prefix(path, steps)
    ensures OnPath(path, requests + [steps])
  {
    OnPathGrows(path, requests, steps);
  }

  lemma FiledTrie(tree: seq<Node>, paths: seq<seq<int>>, filed: seq<Node>)
    requires Trie(tree, paths) && |filed| == |tree| && (forall i :: 0 <= i < |tree| ==> filed[i].children == tree[i].children)
    ensures Trie(filed, paths)
  {
    forall i | 0 <= i < |tree|
      ensures Linked(filed, paths, i)
    {
      assert Linked(tree, paths, i);
    }
    forall j | 0 < j < |tree|
      ensures HasParent(filed, paths, j)
    {
      assert HasParent(tree, paths, j);
      var i, s :| 0 <= i < |tree| && s in tree[i].children && tree[i].children[s] == j;
      assert s in filed[i].children;
    }
  }

  // ----- the walk

  /** The nodes at or below node i. */
  ghost function Below(paths: seq<seq<int>>, path: seq<int>): set<nat> {
    set j: nat | j < |paths| && path <= paths[j]
  }

  method StoreOutputs<V>(outputs: seq<nat>, value: V, results: seq<V>) returns (results': seq<V>)
    requires forall o :: o in outputs ==> o < |results|
    ensures |results'| == |results|
    ensures forall r :: 0 <= r < |results| ==> results'[r] == if r in outputs then value else results[r]
  {
    results' := results;
    for k := 0 to |outputs|
      invariant |results'| == |results|
      invariant forall r :: 0 <= r < |results| ==> results'[r] == if r in outputs[..k] then value else results[r]
    {
      assert outputs[k] in outputs;
      results' := results'[outputs[k] := value];
    }
    assert outputs[..|outputs|] == outputs;
  }

  /** Fill the results of the subtree at `index`, whose rotated value is `value`. */
  method Visit<V>(tree: seq<Node>, ghost paths: seq<seq<int>>, ghost requests: seq<seq<int>>, rotate: (V, int) -> V, ghost input: V,
                  index: nat, value: V, results: seq<V>, stats: Stats)
    returns (results': seq<V>, stats': Stats)
    requires |tree| == |paths| && Trie(tree, paths) && Filed(tree, paths, requests) && index < |tree| && |results| == |requests|
    requires value == Apply(rotate, input, paths[index])
    ensures |results'| == |results|
    ensures forall r :: 0 <= r < |requests| ==>
              results'[r] == if paths[index] <= requests[r] then Apply(rotate, input, requests[r]) else results[r]
    ensures stats'.requests == stats.requests && stats'.edges == stats.edges + |Below(paths, paths[index])| - 1
    decreases |tree| - index, 1
  {
    hide *;
    var node := tree[index];
    stats' := stats;
    OwnOutputs(tree, paths, requests, index);
    results' := StoreOutputs(node.outputs, value, results);
    SoFarOwn(results', results, requests, rotate, input, paths[index], node.outputs);
    WholeBelow(tree, paths, index);
    NothingDone(paths, paths[index]);
    if node.children.Keys != {} {
      stats' := stats'.(preparations := stats'.preparations + 1, edges := stats'.edges + |node.children|,
                        siblingBatches := stats'.siblingBatches + if |node.children| == 1 then 0 else 1);
      results', stats' := VisitChildren(tree, paths, requests, rotate, input, index, value, results', results, stats');
    }
    WholeRequests(tree, paths, requests, index);
    SoFarWhole(results', results, requests, rotate, input, paths[index], node.children.Keys);
  }

  /** Visit every child with its own edge's rotation of `value`. */
  method VisitChildren<V>(tree: seq<Node>, ghost paths: seq<seq<int>>, ghost requests: seq<seq<int>>, rotate: (V, int) -> V, ghost input: V,
                          index: nat, value: V, own: seq<V>, ghost results: seq<V>, stats: Stats)
    returns (results': seq<V>, stats': Stats)
    requires |tree| == |paths| && Trie(tree, paths) && Filed(tree, paths, requests) && index < |tree|
    requires value == Apply(rotate, input, paths[index])
    requires SoFar(own, results, requests, rotate, input, paths[index], {})
    ensures SoFar(results', results, requests, rotate, input, paths[index], tree[index].children.Keys)
    ensures stats'.requests == stats.requests
    ensures stats'.edges == stats.edges + |Covered(paths, paths[index], tree[index].children.Keys)| - |tree[index].children|
    decreases |tree| - index, 0
  {
    hide *;
    results', stats' := own, stats;
    NothingDone(paths, paths[index]);
    var todo: set<int> := tree[index].children.Keys;
    ghost var done: set<int> := {};
    while todo != {}
      invariant todo + done == tree[index].children.Keys && todo !! done
      invariant SoFar(results', results, requests, rotate, input, paths[index], done)
      invariant stats'.requests == stats.requests && stats'.edges == stats.edges + |Covered(paths, paths[index], done)| - |done|
      decreases todo
    {
      HasElement(todo);
      var step: int :| step in todo;
      FollowChild(tree, paths, index, step);
      ApplyAppend(rotate, input, paths[index], [step]);
      ApplyOne(rotate, value, step);
      SoFarLength(results', results, requests, rotate, input, paths[index], done);
      ghost var before := results';
      results', stats' := Visit(tree, paths, requests, rotate, input, tree[index].children[step], rotate(value, step), results', stats');
      CoverMore(paths, paths[index], done, step);
      MergeChild(results', before, results, requests, rotate, input, paths[index], done, step);
      todo, done := todo - {step}, done + {step};
    }
    assert done == tree[index].children.Keys;
  }

  /** The results after the node itself and the done steps below it. */
  ghost predicate SoFar<V>(results': seq<V>, results: seq<V>, requests: seq<seq<int>>, rotate: (V, int) -> V, input: V, path: seq<int>,
                           done: set<int>)
  {
    |results'| == |results| == |requests| &&
    forall r :: 0 <= r < |requests| ==>
      results'[r] == if requests[r] == path || Through(path, done, requests[r]) then Apply(rotate, input, requests[r]) else results[r]
  }

  lemma SoFarLength<V>(results': seq<V>, results: seq<V>, requests: seq<seq<int>>, rotate: (V, int) -> V, input: V, path: seq<int>,
                       done: set<int>)
    requires SoFar(results', results, requests, rotate, input, path, done)
    ensures |results'| == |results| == |requests|
  {
  }

  lemma SoFarOwn<V>(results': seq<V>, results: seq<V>, requests: seq<seq<int>>, rotate: (V, int) -> V, input: V, path: seq<int>,
                    outputs: seq<nat>)
    requires |results'| == |results| == |requests|
    requires forall r: nat :: r < |requests| ==> (r in outputs <==> requests[r] == path)
    requires forall r: nat :: r < |requests| ==> results'[r] == if r in outputs then Apply(rotate, input, path) else results[r]
    ensures SoFar(results', results, requests, rotate, input, path, {})
  {
    hide Apply;
  }

  lemma MergeChild<V>(after: seq<V>, before: seq<V>, results: seq<V>, requests: seq<seq<int>>, rotate: (V, int) -> V, input: V,
                      path: seq<int>, done: set<int>, step: int)
    requires SoFar(before, results, requests, rotate, input, path, done) && |after| == |before|
    requires forall r :: 0 <= r < |requests| ==>
               after[r] == if path + [step] <= requests[r] then Apply(rotate, input, requests[r]) else before[r]
    ensures SoFar(after, results, requests, rotate, input, path, done + {step})
  {
    hide Apply, Through;
    ThroughMore(path, done, step);
  }

  lemma SoFarWhole<V>(results': seq<V>, results: seq<V>, requests: seq<seq<int>>, rotate: (V, int) -> V, input: V, path: seq<int>,
                      done: set<int>)
    requires SoFar(results', results, requests, rotate, input, path, done)
    requires forall r :: 0 <= r < |requests| ==> (path <= requests[r] <==> requests[r] == path || Through(path, done, requests[r]))
    ensures |results'| == |requests|
    ensures forall r :: 0 <= r < |requests| ==>
              results'[r] == if path <= requests[r] then Apply(rotate, input, requests[r]) else results[r]
  {
    hide Apply, Through;
  }

  lemma ApplyOne<V>(rotate: (V, int) -> V, value: V, step: int)
    ensures Apply(rotate, value, [step]) == rotate(value, step)
  {
    assert [step][1..] == [];
  }

  /** Does the request go below `path` through one of the done steps? */
  ghost predicate Through(path: seq<int>, done: set<int>, request: seq<int>) {
    path < request && request[|path|] in done
  }

  ghost function Covered(paths: seq<seq<int>>, path: seq<int>, done: set<int>): set<nat> {
    set j: nat | j < |paths| && Through(path, done, paths[j])
  }

  lemma ThroughMore(path: seq<int>, done: set<int>, step: int)
    ensures forall q :: Through(path, done + {step}, q) <==> Through(path, done, q) || path + [step] <= q
  {
    forall q
      ensures Through(path, done + {step}, q) <==> Through(path, done, q) || path + [step] <= q
    {
      StepPrefix(path, step, q);
    }
  }

  lemma StepPrefix(path: seq<int>, step: int, q: seq<int>)
    ensures path + [step] <= q <==> path < q && q[|path|] == step
  {
    if path < q && q[|path|] == step {
      assert q[..|path| + 1] == q[..|path|] + [step] == path + [step];
    }
    if path + [step] <= q {
      assert q[..|path|] == (path + [step])[..|path|] == path;
    }
  }

  lemma CoverMore(paths: seq<seq<int>>, path: seq<int>, done: set<int>, step: int)
    requires step !in done
    ensures Covered(paths, path, done + {step}) == Covered(paths, path, done) + Below(paths, path + [step])
    ensures |Covered(paths, path, done + {step})| == |Covered(paths, path, done)| + |Below(paths, path + [step])|
    ensures |done + {step}| == |done| + 1
  {
    forall j: nat | j < |paths|
      ensures Through(path, done + {step}, paths[j]) <==> Through(path, done, paths[j]) || path + [step] <= paths[j]
      ensures !(Through(path, done, paths[j]) && path + [step] <= paths[j])
    {
      StepPrefix(path, step, paths[j]);
    }
    assert Covered(paths, path, done) !! Below(paths, path + [step]);
  }

  /** Every longer path below a node leaves it through one of its children. */
  lemma {:induction false} LeavesThroughChild(tree: seq<Node>, paths: seq<seq<int>>, index: nat, j: nat)
    requires Trie(tree, paths) && index < |tree| && j < |tree| && paths[index] < paths[j]
    ensures paths[j][|paths[index]|] in tree[index].children
    decreases j
  {
    assert HasParent(tree, paths, j);
    var i, s :| 0 <= i < |tree| && s in tree[i].children && tree[i].children[s] == j;
    assert Linked(tree, paths, i);
    if |paths[i]| > |paths[index]| {
      assert paths[index] < paths[i];
      LeavesThroughChild(tree, paths, index, i);
    } else {
      assert paths[i] == paths[j][..|paths[i]|] == paths[index];
      assert i == index;
    }
  }

  lemma WholeBelow(tree: seq<Node>, paths: seq<seq<int>>, index: nat)
    requires Trie(tree, paths) && index < |tree|
    ensures |tree| == |paths|
    ensures |Below(paths, paths[index])| == |Covered(paths, paths[index], tree[index].children.Keys)| + 1
  {
    var covered := Covered(paths, paths[index], tree[index].children.Keys);
    forall j: nat | j < |paths| && paths[index] <= paths[j] && j != index
      ensures j in covered
    {
      LeavesThroughChild(tree, paths, index, j);
    }
    assert Below(paths, paths[index]) == covered + {index};
  }

  lemma OwnOutputs(tree: seq<Node>, paths: seq<seq<int>>, requests: seq<seq<int>>, index: nat)
    requires |tree| == |paths| && Trie(tree, paths) && Filed(tree, paths, requests) && index < |tree|
    ensures forall r: nat :: r < |requests| ==> (r in tree[index].outputs <==> requests[r] == paths[index])
    ensures forall o :: o in tree[index].outputs ==> o < |requests|
  {
    hide Linked, HasParent, OnPath;
    assert OwnRequests(tree[index].outputs, paths[index], requests);
    forall r: nat | r < |requests|
      ensures r in tree[index].outputs <==> requests[r] == paths[index]
    {
      assert IsFiled(tree, r);
      var i: nat :| i < |tree| && r in tree[i].outputs;
      assert OwnRequests(tree[i].outputs, paths[i], requests);
      assert OwnRequests(tree[index].outputs, paths[index], requests);
    }
  }

  lemma NothingDone(paths: seq<seq<int>>, path: seq<int>)
    ensures Covered(paths, path, {}) == {}
    ensures forall q :: !Through(path, {}, q)
  {
  }

  /** A request below a node goes through one of its children. */
  lemma WholeRequests(tree: seq<Node>, paths: seq<seq<int>>, requests: seq<seq<int>>, index: nat)
    requires Trie(tree, paths) && Filed(tree, paths, requests) && index < |tree|
    ensures forall r :: 0 <= r < |requests| ==>
              (paths[index] <= requests[r] <==> requests[r] == paths[index] || Through(paths[index], tree[index].children.Keys, requests[r]))
  {
    forall r | 0 <= r < |requests| && paths[index] < requests[r]
      ensures requests[r][|paths[index]|] in tree[index].children
    {
      assert IsFiled(tree, r);
      var i: nat :| i < |tree| && r in tree[i].outputs;
      assert OwnRequests(tree[i].outputs, paths[i], requests);
      LeavesThroughChild(tree, paths, index, i);
    }
  }

  /** The nonempty prefixes of the requests, each once. */
  ghost predicate DistinctPrefixes(prefixes: set<seq<int>>, requests: seq<seq<int>>) {
    forall p :: p in prefixes <==> p != [] && OnPath(p, requests)
  }

  /** Every request gets its own path's result; one edge per distinct nonempty prefix of the paths. */
  method RotatePaths<V>(input: V, requests: seq<seq<int>>, rotate: (V, int) -> V, stats: Stats)
    returns (results: seq<V>, stats': Stats, ghost prefixes: set<seq<int>>)
    ensures |results| == |requests|
    ensures forall r :: 0 <= r < |requests| ==> results[r] == Apply(rotate, input, requests[r])
    ensures DistinctPrefixes(prefixes, requests)
    ensures stats'.requests == stats.requests + |requests| && stats'.edges == stats.edges + |prefixes|
  {
    hide Trie, Filed, OnPath, Below, Apply;
    var tree := [Node(map[], [])];
    ghost var paths := [[]];
    EmptyTrie();
    for i := 0 to |requests|
      invariant |tree| == |paths| > 0 && Trie(tree, paths) && Filed(tree, paths, requests[..i])
      invariant forall p :: p in paths <==> OnPath(p, requests[..i])
    {
      assert requests[..i + 1] == requests[..i] + [requests[i]];
      OnPathSnoc(requests[..i], requests[i]);
      tree, paths := Insert(tree, paths, requests[i], requests[..i], i);
    }
    assert requests[..|requests|] == requests;
    stats' := stats.(requests := stats.requests + |requests|);
    results := seq(|requests|, i => input);
    CountPaths(tree, paths);
    ApplyNone(rotate, input);
    results, stats' := Visit(tree, paths, requests, rotate, input, 0, input, results, stats');
    prefixes := set p | p in paths && p != [];
  }

  lemma EmptyTrie()
    ensures Trie([Node(map[], [])], [[]]) && Filed([Node(map[], [])], [[]], [])
    ensures forall p :: p in [[]] <==> OnPath(p, [])
  {
  }

  lemma ApplyNone<V>(rotate: (V, int) -> V, input: V)
    ensures Apply(rotate, input, []) == input
  {
  }

  lemma OnPathSnoc(requests: seq<seq<int>>, next: seq<int>)
    ensures forall p :: OnPath(p, requests + [next]) <==> OnPath(p, requests) || Prefix(p, next)
  {
    forall p
      ensures OnPath(p, requests + [next]) <==> OnPath(p, requests) || Prefix(p, next)
    {
      OnPathGrows(p, requests, next);
      if p != [] && OnPath(p, requests + [next]) {
        var r :| 0 <= r < |requests| + 1 && Prefix(p, (requests + [next])[r]);
        assert r < |requests| ==> (requests + [next])[r] == requests[r];
      }
    }
  }

  function RotateLeft(v: Slots, step: int): Slots {
    Roll(v, -step)
  }

  lemma {:induction false} ApplyRolls(v: Slots, steps: seq<int>)
    ensures Apply(RotateLeft, v, steps) == RollAll(v, steps)
    decreases |steps|
  {
    hide Roll;
    if |steps| > 0 {
      ApplyRolls(RotateLeft(v, steps[0]), steps[1..]);
    }
  }

  /** On slot vectors each result is the input rotated by its own offset; None where an offset has no decomposition. */
  method RotatePrefixBatch(input: Slots, offsets: seq<int>, naf: bool, stats: Stats)
    returns (results: Option<seq<Slots>>, stats': Stats, ghost requests: seq<seq<int>>, ghost prefixes: set<seq<int>>)
    requires IsInt(|input|) && forall i :: 0 <= i < |offsets| ==> IsInt(offsets[i])
    ensures results.None? <==> offsets != [] && !SlotsOk(|input|)
    ensures results.Some? ==> |results.value| == |offsets| && stats'.requests == stats.requests + |offsets|
    ensures results.Some? ==> forall i :: 0 <= i < |offsets| ==> results.value[i] == Roll(input, -offsets[i])
    ensures results.Some? ==> |requests| == |offsets| && forall i :: 0 <= i < |offsets| ==>
              BaseSteps(requests[i], |input|) && Wrap(SumOf(requests[i]), |input|) == Wrap(offsets[i], |input|)
    ensures results.Some? ==> DistinctPrefixes(prefixes, requests) && stats'.edges == stats.edges + |prefixes|
  {
    hide SlotsOk, Roll, Wrap, SumOf, Apply, BaseSteps, Values, Naf, DistinctPrefixes;
    stats' := stats;
    var paths: seq<seq<int>> := [];
    requests, prefixes := [], {};
    for i := 0 to |offsets|
      invariant requests == paths && |requests| == i && (i > 0 ==> SlotsOk(|input|))
      invariant forall k :: 0 <= k < i ==> BaseSteps(requests[k], |input|) && Wrap(SumOf(requests[k]), |input|) == Wrap(offsets[k], |input|)
    {
      var steps := RotationStepList(offsets[i], |input|, naf);
      if steps.None? {
        return None, stats, requests, prefixes;
      }
      paths := paths + [steps.value];
      requests := paths;
    }
    var rotated;
    rotated, stats', prefixes := RotatePaths(input, paths, RotateLeft, stats);
    forall i | 0 <= i < |offsets|
      ensures rotated[i] == Roll(input, -offsets[i])
    {
      ApplyRolls(input, requests[i]);
      StepsRotate(input, requests[i], offsets[i]);
    }
    results := Some(rotated);
  }

  lemma CountPaths(tree: seq<Node>, paths: seq<seq<int>>)
    requires Trie(tree, paths)
    ensures |paths| > 0 && paths[0] == []
    ensures |Below(paths, [])| == |paths| && |set p | p in paths && p != []| == |paths| - 1
  {
    hide Linked, HasParent;
    assert Below(paths, []) == Indices(|paths|);
    CountDistinct(paths);
    assert (set p | p in paths) == (set p | p in paths && p != []) + {[]};
  }

  ghost function Indices(n: nat): (s: set<nat>)
    ensures forall j: nat :: j in s <==> j < n
    ensures |s| == n
  {
    if n == 0 then {} else
      var s := Indices(n - 1);
      assert n - 1 !in s;
      s + {n - 1}
  }

  lemma {:induction false} CountDistinct(paths: seq<seq<int>>)
    requires forall i, j :: 0 <= i < j < |paths| ==> paths[i] != paths[j]
    ensures |set p | p in paths| == |paths|
  {
    if |paths| == 0 {
      assert (set p | p in paths) == {};
    } else {
      var n := |paths| - 1;
      CountDistinct(paths[..n]);
      assert (set p | p in paths) == (set p | p in paths[..n]) + {paths[n]};
    }
  }
}
