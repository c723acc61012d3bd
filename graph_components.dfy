/**
 * The connectivity report run over the walking graph: every node key not
 * yet visited starts a depth-first search with an explicit stack, whose
 * popped keys form one component; the components are then ordered from the
 * largest to the smallest.
 */
module GraphComponents {
  import opened WalkGraph

  type Component = seq<string>

  /** The components one after the other. */
  function Flatten(cs: seq<Component>): (r: seq<string>)
    ensures |cs| == 0 ==> r == []
  {
    if cs == [] then [] else Flatten(cs[..|cs| - 1]) + cs[|cs| - 1]
  }

  lemma FlattenAppend(cs: seq<Component>, c: Component)
    ensures Flatten(cs + [c]) == Flatten(cs) + c
  {
    assert (cs + [c])[..|cs|] == cs;
  }

  /** Every key in a component of `cs[..i + 1]` is in the flattened prefix. */
  lemma {:induction false} InFlattenPrefix(cs: seq<Component>, i: nat, x: string)
    requires i < |cs| && x in cs[i]
    ensures x in Flatten(cs)
    decreases |cs|
  {
    if i < |cs| - 1 {
      InFlattenPrefix(cs[..|cs| - 1], i, x);
    }
  }

  /** No key occurs twice. */
  ghost predicate Distinct(xs: seq<string>) {
    forall x :: multiset(xs)[x] <= 1
  }

  /** Every key the search can meet: the node keys and every edge target. */
  ghost function Names(nodes: map<string, seq<Edge>>): set<string> {
    nodes.Keys + set x, e | x in nodes && e in nodes[x] :: e.to
  }

  /** Every edge target of every member of component `i` is in that component or an earlier one. */
  ghost predicate ClosedUpTo(nodes: map<string, seq<Edge>>, cs: seq<Component>) {
    forall i, x, e :: 0 <= i < |cs| && x in cs[i] && x in nodes && e in nodes[x] ==> e.to in Flatten(cs[..i + 1])
  }

  /**
   * The callback of the inner `forEach`: a target not yet visited is marked
   * and pushed; a visited one changes nothing.
   */
  method PushTarget(edge: Edge, visited: set<string>, stack: seq<string>, ghost seen: seq<string>,
                    ghost names: set<string>)
    returns (visited': set<string>, stack': seq<string>)
    requires edge.to in names && visited <= names && InStep(visited, seen + stack)
    ensures visited' <= names && InStep(visited', seen + stack') && edge.to in visited'
    ensures visited <= visited' && (visited' == visited ==> stack' == stack)
  {
    visited', stack' := visited, stack;
    if edge.to !in visited {
      PushKeepsDistinct(seen, stack, visited, edge.to);
      visited' := visited + {edge.to};
      stack' := stack + [edge.to];
    }
  }

  /**
   * The inner `forEach` over the edges of the popped key: every target not
   * yet visited is marked and pushed. Afterwards every target is visited,
   * nothing is visited twice, and either new keys were visited or nothing
   * changed.
   */
  method PushUnvisited(nodes: map<string, seq<Edge>>, curr: string, visited: set<string>, stack: seq<string>,
                       ghost seen: seq<string>, ghost names: set<string>)
    returns (visited': set<string>, stack': seq<string>)
    requires Covers(nodes, names) && visited <= names && InStep(visited, seen + stack)
    ensures visited' <= names && InStep(visited', seen + stack')
    ensures curr in nodes ==> forall e :: e in nodes[curr] ==> e.to in visited'
    ensures visited <= visited' && (visited' == visited ==> stack' == stack)
  {
    var neighbors := if curr in nodes then nodes[curr] else [];
    visited', stack' := visited, stack;
    for j := 0 to |neighbors|
      invariant visited' <= names && InStep(visited', seen + stack')
      invariant forall m :: 0 <= m < j ==> neighbors[m].to in visited'
      invariant visited <= visited' && (visited' == visited ==> stack' == stack)
    {
      TargetIsName(nodes, names, curr, neighbors[j]);
      visited', stack' := PushTarget(neighbors[j], visited', stack', seen, names);
    }
    if curr in nodes {
      forall e | e in nodes[curr] ensures e.to in visited' {
        var m :| 0 <= m < |neighbors| && neighbors[m] == e;
      }
    }
  }

  /**
   * The `while (stack.length > 0)` search from one unvisited key: pop, add
   * to the component, push the unvisited targets. The component starts
   * with the key, the keys it holds are new and distinct, and every edge
   * target of a member has been visited when the stack runs dry.
   */
  method Explore(nodes: map<string, seq<Edge>>, node: string, visited: set<string>, ghost done: seq<string>,
                 ghost names: set<string>)
    returns (component: Component, visited': set<string>)
    requires Covers(nodes, names)
    requires node in nodes && node !in visited && visited <= names && InStep(visited, done)
    ensures component != [] && component[0] == node
    ensures visited' <= names && InStep(visited', done + component)
    ensures forall x, e :: x in component && x in nodes && e in nodes[x] ==> e.to in visited'
  {
    component := [];
    PushKeepsDistinct(done, [], visited, node);
    var stack := [node];
    visited' := visited + {node};
    while |stack| > 0
      invariant visited' <= names && InStep(visited', done + component + stack)
      invariant component == [] ==> stack == [node]
      invariant component != [] ==> component[0] == node
      invariant forall x, e :: x in component && x in nodes && e in nodes[x] ==> e.to in visited'
      decreases names - visited', |stack|
    {
      var curr := stack[|stack| - 1];
      ghost var before := visited';
      PopKeepsDistinct(done + component, stack, visited');
      ghost var seen := done + component + [curr];
      stack := stack[..|stack| - 1];
      component := component + [curr];
      visited', stack := PushUnvisited(nodes, curr, visited', stack, seen, names);
      assert done + component + stack == seen + stack;
      if visited' != before {
        Shrinks(names, before, visited');
      }
    }
    assert done + component + stack == done + component;
  }

  /** `names` holds every key the search can meet. */
  ghost predicate Covers(nodes: map<string, seq<Edge>>, names: set<string>) {
    nodes.Keys <= names && forall x, e :: x in nodes && e in nodes[x] ==> e.to in names
  }

  lemma TargetIsName(nodes: map<string, seq<Edge>>, names: set<string>, x: string, e: Edge)
    requires Covers(nodes, names) && x in nodes && e in nodes[x]
    ensures e.to in names
  {
  }

  lemma NamesCover(nodes: map<string, seq<Edge>>)
    ensures Covers(nodes, Names(nodes))
  {
  }

  /** The marked keys are exactly the keys in `xs`, each once. */
  ghost predicate InStep(visited: set<string>, xs: seq<string>) {
    Distinct(xs) && forall x :: x in visited <==> x in xs
  }

  /** Pushing an unvisited key and marking it keeps the stack and the marks in step. */
  lemma PushKeepsDistinct(seen: seq<string>, stack: seq<string>, visited: set<string>, y: string)
    requires InStep(visited, seen + stack) && y !in visited
    ensures InStep(visited + {y}, seen + (stack + [y]))
  {
    assert seen + (stack + [y]) == (seen + stack) + [y];
  }

  /** Popping the top key and appending it to what was already seen is a rearrangement. */
  lemma PopKeepsDistinct(seen: seq<string>, stack: seq<string>, visited: set<string>)
    requires stack != [] && InStep(visited, seen + stack)
    ensures InStep(visited, seen + [stack[|stack| - 1]] + stack[..|stack| - 1])
  {
    var rest, top := stack[..|stack| - 1], stack[|stack| - 1];
    assert seen + stack == seen + rest + [top];
    assert multiset(seen + [top] + rest) == multiset(seen + stack);
  }

  /** Marking more of a finite set of names leaves fewer unmarked. */
  lemma Shrinks(names: set<string>, before: set<string>, after: set<string>)
    requires before < after <= names
    ensures names - after < names - before
  {
    var x :| x in after && x !in before;
    assert x in names - before;
  }

  /** Appending a component whose members' targets are all visited keeps every component closed. */
  lemma ClosedAppend(nodes: map<string, seq<Edge>>, cs: seq<Component>, c: Component)
    requires ClosedUpTo(nodes, cs)
    requires forall x, e :: x in c && x in nodes && e in nodes[x] ==> e.to in Flatten(cs) + c
    ensures ClosedUpTo(nodes, cs + [c])
  {
    var cs' := cs + [c];
    forall i, x, e | 0 <= i < |cs'| && x in cs'[i] && x in nodes && e in nodes[x] ensures e.to in Flatten(cs'[..i + 1]) {
      if i < |cs| {
        assert cs'[..i + 1] == cs[..i + 1];
      } else {
        assert cs'[..i + 1] == cs';
        FlattenAppend(cs, c);
      }
    }
  }

  /**
   * The loop over `nodes.keys()` in insertion order: every key not yet
   * visited starts a new component. No key lands in two components (each
   * is pushed onto a stack once), every node key lands in one, everything
   * in a component is a node key or an edge target, and every edge target
   * of a member lies in its component or an earlier one.
   */
  method FindComponents(nodes: map<string, seq<Edge>>, keys: seq<string>) returns (components: seq<Component>)
    requires forall k :: k in nodes <==> k in keys
    ensures Distinct(Flatten(components))
    ensures forall k :: k in nodes ==> k in Flatten(components)
    ensures forall x :: x in Flatten(components) ==> x in Names(nodes)
    ensures forall c :: c in components ==> c != [] && c[0] in nodes
    ensures ClosedUpTo(nodes, components)
  {
    var visited: set<string> := {};
    components := [];
    for n := 0 to |keys|
      invariant visited <= Names(nodes) && InStep(visited, Flatten(components))
      invariant forall m :: 0 <= m < n ==> keys[m] in visited
      invariant forall c :: c in components ==> c != [] && c[0] in nodes
      invariant ClosedUpTo(nodes, components)
    {
      var node := keys[n];
      if node in visited {
        continue;
      }
      NamesCover(nodes);
      var component, visited' := Explore(nodes, node, visited, Flatten(components), Names(nodes));
      ClosedAppend(nodes, components, component);
      FlattenAppend(components, component);
      components := components + [component];
      visited := visited';
    }
    forall k | k in nodes ensures k in Flatten(components) {
      var m :| 0 <= m < |keys| && keys[m] == k;
    }
  }

  /** Sizes never increase from front to back. */
  predicate BySizeDescending(cs: seq<Component>) {
    forall i, j :: 0 <= i < j < |cs| ==> |cs[i]| >= |cs[j]|
  }

  /** Inserting before the first strictly smaller component keeps the order. */
  lemma InsertKeepsOrder(sorted: seq<Component>, k: nat, c: Component)
    requires BySizeDescending(sorted) && k <= |sorted|
    requires forall j :: 0 <= j < k ==> |sorted[j]| >= |c|
    requires k < |sorted| ==> |sorted[k]| < |c|
    ensures BySizeDescending(sorted[..k] + [c] + sorted[k..])
  {
    var r := sorted[..k] + [c] + sorted[k..];
    forall i, j | 0 <= i < j < |r| ensures |r[i]| >= |r[j]| {
      if j > k {
        assert r[j] == sorted[j - 1];
        if i < k {
          assert r[i] == sorted[i];
        } else if i > k {
          assert r[i] == sorted[i - 1];
        } else {
          assert |sorted[k]| >= |sorted[j - 1]|;
        }
      }
    }
  }

  /**
   * `components.sort((a, b) => b.length - a.length)`: each component is
   * placed behind every one at least as large, so the result holds the same
   * components from the largest to the smallest.
   */
  method SortBySize(components: seq<Component>) returns (sorted: seq<Component>)
    ensures multiset(sorted) == multiset(components)
    ensures BySizeDescending(sorted)
  {
    sorted := [];
    for n := 0 to |components|
      invariant multiset(sorted) == multiset(components[..n])
      invariant BySizeDescending(sorted)
    {
      var c := components[n];
      var k := 0;
      while k < |sorted| && |sorted[k]| >= |c|
        invariant k <= |sorted| && forall j :: 0 <= j < k ==> |sorted[j]| >= |c|
      {
        k := k + 1;
      }
      InsertKeepsOrder(sorted, k, c);
      assert sorted == sorted[..k] + sorted[k..];
      assert components[..n + 1] == components[..n] + [c];
      sorted := sorted[..k] + [c] + sorted[k..];
    }
    assert components[..|components|] == components;
  }
}
