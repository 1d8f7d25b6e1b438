/**
  The order generated Python models are emitted in: a depth-first walk numbers them, and a
  loop emits the first whose dependencies are done
  (packages/contracts/scripts/generate.ts, `ensureModel` and the emission loop).
*/
module ModelOrder {
  /** For each model, the models its fields mention, in field order. */
  type Graph = map<string, seq<string>>

  ghost predicate Closed(g: Graph) {
    forall n {:trigger AllWithin(g, n, g.Keys)} :: n in g ==> AllWithin(g, n, g.Keys)
  }

  ghost predicate AllWithin(g: Graph, n: string, known: set<string>) {
    n in g && forall d :: d in g[n] ==> d in known
  }

  /** A set of models each needing another of the set: what makes an order impossible. */
  ghost predicate Knot(g: Graph, s: set<string>) {
    s != {} && forall n {:trigger NeedsAnother(g, s, n)} :: n in s ==> NeedsAnother(g, s, n)
  }

  ghost predicate NeedsAnother(g: Graph, s: set<string>, n: string) {
    n in g && exists d :: d in g[n] && d != n && d in s
  }

  ghost predicate Acyclic(g: Graph) {
    !Cyclic(g, g.Keys)
  }

  ghost predicate Cyclic(g: Graph, among: set<string>) {
    exists s :: Knot(g, s) && s <= among
  }

  ghost predicate Distinct(s: seq<string>) {
    forall i, j :: 0 <= i < j < |s| ==> s[i] != s[j]
  }

  function Elements(s: seq<string>): set<string> {
    set n | n in s
  }

  /** Every model comes after the models it needs. */
  ghost predicate DependenciesFirst(g: Graph, order: seq<string>) {
    forall i {:trigger AfterItsOwn(g, order, i)} :: 0 <= i < |order| ==> AfterItsOwn(g, order, i)
  }

  ghost predicate AfterItsOwn(g: Graph, order: seq<string>, i: nat)
    requires i < |order|
  {
    order[i] in g && forall d :: d in g[order[i]] ==> d == order[i] || d in order[..i]
  }

  /** Each model under construction was entered from the one before it. */
  ghost predicate IsPath(g: Graph, path: seq<string>) {
    && Distinct(path)
    && (forall i :: 0 <= i < |path| ==> path[i] in g)
    && forall i {:trigger Enters(g, path, i)} :: 0 < i < |path| ==> Enters(g, path, i)
  }

  ghost predicate Enters(g: Graph, path: seq<string>, i: nat)
    requires 0 < i < |path|
  {
    path[i - 1] in g && path[i] in g[path[i - 1]]
  }

  /** Needing a model still under construction, other than itself, closes a cycle. */
  lemma BackEdgeIsAKnot(g: Graph, path: seq<string>, k: nat)
    requires IsPath(g, path) && k + 1 < |path| && path[k] in g[path[|path| - 1]]
    ensures Knot(g, Elements(path[k..]))
  {
    var tail := path[k..];
    assert tail[0] in Elements(tail);
    forall n | n in Elements(tail)
      ensures NeedsAnother(g, Elements(tail), n)
    {
      var i :| 0 <= i < |tail| && tail[i] == n;
      if i + 1 < |tail| {
        assert Enters(g, path, k + i + 1);
        assert tail[i + 1] == path[k + i + 1] && path[k + i + 1] != path[k + i];
        assert tail[i + 1] in Elements(tail);
      } else {
        assert path[k] in g[n] && path[k] != n && path[k] in Elements(tail) && n in g;
      }
    }
  }

  lemma DependenciesFirstGrows(g: Graph, order: seq<string>, n: string)
    requires DependenciesFirst(g, order) && n in g && forall d :: d in g[n] ==> d == n || d in order
    ensures DependenciesFirst(g, order + [n])
  {
    var more := order + [n];
    forall i | 0 <= i < |more|
      ensures AfterItsOwn(g, more, i)
    {
      assert more[..i] == order[..i];
      assert order[..|order|] == order;
      assert i < |order| ==> AfterItsOwn(g, order, i);
    }
  }

  /** Whatever these models need is in the set. */
  ghost predicate NeedsWithin(g: Graph, models: seq<string>, known: set<string>) {
    forall n {:trigger AllWithin(g, n, known)} :: n in models ==> AllWithin(g, n, known)
  }

  lemma NeedsWithinMore(g: Graph, models: seq<string>, known: set<string>, name: string, known': set<string>)
    requires NeedsWithin(g, models, known) && known <= known' && AllWithin(g, name, known')
    ensures NeedsWithin(g, models + [name], known')
  {
    forall n | n in models + [name]
      ensures AllWithin(g, n, known')
    {
      assert n in models ==> AllWithin(g, n, known);
    }
  }

  /** The model just entered goes on the path. */
  lemma PathGrows(g: Graph, path: seq<string>, name: string)
    requires IsPath(g, path) && name in g && name !in path
    requires path != [] ==> name in g[path[|path| - 1]]
    ensures IsPath(g, path + [name])
  {
    var more := path + [name];
    forall i | 0 < i < |more|
      ensures Enters(g, more, i)
    {
      assert i < |path| ==> Enters(g, path, i);
    }
  }

  /** The models not under construction. */
  ghost function Outside(g: Graph, path: seq<string>): set<string> {
    g.Keys - Elements(path)
  }

  lemma OutsideShrinks(g: Graph, path: seq<string>, name: string)
    requires name in g && name !in path
    ensures Elements(path) <= Elements(path + [name])
    ensures |Outside(g, path + [name])| < |Outside(g, path)|
  {
    var more := path + [name];
    assert forall n :: n in more <==> n in path || n == name;
    assert name in Outside(g, path) && name !in Outside(g, more);
    SmallerSet(Outside(g, more), Outside(g, path));
  }

  /** The models registered or under construction. */
  function Reached(models: seq<string>, building: seq<string>): set<string> {
    Elements(models) + Elements(building)
  }

  /** More models, and in a good order if they were and what has been reached allows one. */
  ghost predicate Extends(g: Graph, before: seq<string>, after: seq<string>, reached: set<string>) {
    && before <= after
    && (DependenciesFirst(g, before) ==> DependenciesFirst(g, after) || Cyclic(g, reached))
  }

  lemma ExtendsFurther(g: Graph, a: seq<string>, b: seq<string>, c: seq<string>, reached: set<string>, reached': set<string>)
    requires Extends(g, a, b, reached) && Extends(g, b, c, reached') && reached <= reached'
    ensures Extends(g, a, c, reached')
    ensures forall n :: n in b ==> n in c
  {
    if Cyclic(g, reached) {
      var s :| Knot(g, s) && s <= reached;
      assert s <= reached';
    }
  }

  /** Each of these is registered, or under construction. */
  ghost predicate Known(names: seq<string>, models: seq<string>, building: seq<string>) {
    forall n :: n in names ==> n in models || n in building
  }

  lemma KnowMore(names: seq<string>, i: nat, before: seq<string>, models: seq<string>, building: seq<string>)
    requires i < |names| && Known(names[..i], before, building) && before <= models
    requires names[i] in models || names[i] in building
    ensures Known(names[..i + 1], models, building)
  {
  }

  class ModelBuilder {
    const graph: Graph
    var models: seq<string>
    var building: seq<string>

    ghost predicate Valid()
      reads this
    {
      && Closed(graph) && IsPath(graph, building) && Distinct(models)
      && (forall n :: n in models ==> n in graph && n !in building)
      && NeedsWithin(graph, models, Elements(models) + Elements(building))
    }

    constructor (graph: Graph)
      requires Closed(graph)
      ensures Valid() && this.graph == graph && models == [] && building == []
    {
      this.graph := graph;
      models, building := [], [];
    }

    /** Registers a model after everything its fields need, unless it is known or under construction. */
    method EnsureModel(name: string)
      requires Valid() && name in graph
      requires building != [] ==> name in graph[building[|building| - 1]]
      modifies this
      ensures Valid() && building == old(building)
      ensures Extends(graph, old(models), models, Reached(models, building))
      ensures name in models || name in building
      decreases |Outside(graph, building)|, 0
    {
      if name in models || name in building {
        return;
      }
      ghost var entered := building;
      PathGrows(graph, building, name);
      OutsideShrinks(graph, building, name);
      building := building + [name];
      NeedsWithinGrows(graph, models, Elements(models) + Elements(entered), Elements(models) + Elements(building));
      ResolveFields(name);
      ghost var before := models;
      FinishModel(name, entered);
      ExtendsFurther(graph, old(models), before, models, Reached(before, entered + [name]), Reached(models, building));
    }

    /** Each field of the model under construction makes sure of the model it mentions. */
    method ResolveFields(name: string)
      requires Valid() && name in graph && building != [] && building[|building| - 1] == name
      modifies this
      ensures Valid() && building == old(building)
      ensures Extends(graph, old(models), models, Reached(models, building))
      ensures forall d :: d in graph[name] ==> d in models || d in building
      decreases |Outside(graph, building)|, 1
    {
      var children := graph[name];
      assert forall k :: 0 <= k < |children| ==> children[k] in graph by {
        assert AllWithin(graph, name, graph.Keys);
      }
      for i := 0 to |children|
        invariant Valid() && building == old(building)
        invariant Extends(graph, old(models), models, Reached(models, building))
        invariant Known(children[..i], models, building)
      {
        ghost var before := models;
        assert children[i] in graph[building[|building| - 1]];
        EnsureModel(children[i]);
        ExtendsFurther(graph, old(models), before, models, Reached(before, building), Reached(models, building));
        KnowMore(children, i, before, models, building);
      }
      assert children[..|children|] == children;
    }

    /** The model's fields are done: it leaves the path and takes the next number. */
    method FinishModel(name: string, ghost entered: seq<string>)
      requires Valid() && building == entered + [name] && name !in entered && name in graph
      requires forall d :: d in graph[name] ==> d in models || d in building
      modifies this
      ensures Valid() && building == entered && name in models
      ensures Reached(models, building) == old(Reached(models, building))
      ensures Extends(graph, old(models), models, Reached(models, building))
    {
      ghost var before := models;
      NeededIsRegistered(graph, models, building);
      assert name in building;
      building := building[..|building| - 1];
      assert building == entered;
      assert forall i :: 0 < i < |entered| ==> Enters(graph, entered + [name], i);
      assert IsPath(graph, entered) by {
        forall i | 0 < i < |entered|
          ensures Enters(graph, entered, i)
        {
          assert Enters(graph, entered + [name], i);
        }
      }
      models := models + [name];
      assert forall n :: n in models <==> n in before || n == name;
      assert forall n :: n in entered + [name] <==> n in entered || n == name;
      NeedsWithinMore(graph, before, Elements(before) + Elements(entered + [name]), name,
        Elements(models) + Elements(building));
      if DependenciesFirst(graph, before) && !Cyclic(graph, Elements(entered + [name])) {
        DependenciesFirstGrows(graph, before, name);
      }
    }
  }

  lemma NeedsWithinGrows(g: Graph, models: seq<string>, known: set<string>, known': set<string>)
    requires NeedsWithin(g, models, known) && known <= known'
    ensures NeedsWithin(g, models, known')
  {
    forall n | n in models
      ensures AllWithin(g, n, known')
    {
      assert AllWithin(g, n, known);
    }
  }

  lemma SmallerSet(a: set<string>, b: set<string>)
    requires a < b
    ensures |a| < |b|
  {
    assert b == a + (b - a);
    assert |b| == |a| + |b - a|;
    assert b - a != {};
  }

  /** Unless the path holds a cycle, what its last model needs is registered once its fields are done. */
  lemma NeededIsRegistered(g: Graph, models: seq<string>, building: seq<string>)
    requires building != [] && IsPath(g, building)
    requires forall d :: d in g[building[|building| - 1]] ==> d in models || d in building
    ensures !Cyclic(g, Elements(building)) ==>
              forall d :: d in g[building[|building| - 1]] ==> d == building[|building| - 1] || d in models
  {
    var name := building[|building| - 1];
    if d :| d in g[name] && d != name && d !in models {
      var k :| 0 <= k < |building| && building[k] == d;
      BackEdgeIsAKnot(g, building, k);
      assert Elements(building[k..]) <= Elements(building);
    }
  }

  // ---------------------------------------------------------------------------
  // Emission
  // ---------------------------------------------------------------------------

  /** In an order with dependencies first there is no knot. */
  lemma OrderedMeansNoKnot(g: Graph, order: seq<string>, s: set<string>)
    requires DependenciesFirst(g, order) && s <= Elements(order)
    ensures !Knot(g, s)
  {
    if Knot(g, s) {
      var n :| n in s;
      assert n in Elements(order);
      var i :| 0 <= i < |order| && order[i] == n;
      FirstOf(g, order, s, i);
    }
  }

  lemma {:induction false} FirstOf(g: Graph, order: seq<string>, s: set<string>, i: nat)
    requires DependenciesFirst(g, order) && i < |order| && order[i] in s && s <= Elements(order)
    ensures !Knot(g, s)
  {
    if Knot(g, s) {
      assert NeedsAnother(g, s, order[i]) && AfterItsOwn(g, order, i);
      var d :| d in g[order[i]] && d != order[i] && d in s;
      var j :| 0 <= j < i && order[..i][j] == d;
      FirstOf(g, order, s, j);
    }
  }

  /** The model may be emitted now. */
  predicate Ready(g: Graph, name: string, done: set<string>) {
    name in g && forall d | d in g[name] :: d == name || d in done
  }

  /** `findIndex`: the first pending model that is ready, or the length. */
  method FindReady(g: Graph, pending: seq<string>, done: set<string>) returns (index: nat)
    ensures index <= |pending|
    ensures index < |pending| ==> Ready(g, pending[index], done)
    ensures forall k :: 0 <= k < index ==> !Ready(g, pending[k], done)
  {
    index := 0;
    while index < |pending| && !Ready(g, pending[index], done)
      invariant index <= |pending|
      invariant forall k :: 0 <= k < index ==> !Ready(g, pending[k], done)
    {
      index := index + 1;
    }
  }

  /** What has been emitted and what is pending make up the models, in their order if that order was good. */
  ghost predicate Emitting(g: Graph, models: seq<string>, emitted: seq<string>, pending: seq<string>) {
    && multiset(emitted) + multiset(pending) == multiset(models)
    && DependenciesFirst(g, emitted)
    && (DependenciesFirst(g, models) ==> emitted + pending == models)
  }

  lemma EmitOne(g: Graph, models: seq<string>, emitted: seq<string>, pending: seq<string>, index: nat)
    requires Emitting(g, models, emitted, pending) && index < |pending|
    requires Ready(g, pending[index], Elements(emitted))
    requires forall k :: 0 <= k < index ==> !Ready(g, pending[k], Elements(emitted))
    ensures Emitting(g, models, emitted + [pending[index]], pending[..index] + pending[index + 1..])
  {
    DependenciesFirstGrows(g, emitted, pending[index]);
    assert pending == pending[..index] + [pending[index]] + pending[index + 1..];
    if DependenciesFirst(g, models) {
      FirstIsReady(g, models, emitted, pending);
    }
  }

  /**
    Repeatedly takes the first pending model whose dependencies are done. It throws exactly
    when the models hold a knot; otherwise every model is emitted once, dependencies first,
    and from an order that already has them first it takes the first one every time.
  */
  method EmitModels(g: Graph, models: seq<string>) returns (ok: bool, emitted: seq<string>)
    requires NeedsWithin(g, models, Elements(models))
    ensures ok <==> !Cyclic(g, Elements(models))
    ensures ok ==> multiset(emitted) == multiset(models) && DependenciesFirst(g, emitted)
    ensures DependenciesFirst(g, models) ==> ok && emitted == models
  {
    emitted := [];
    var done: set<string> := {};
    var pending := models;
    while |pending| > 0
      invariant Emitting(g, models, emitted, pending)
      invariant done == Elements(emitted)
      decreases |pending|
    {
      var index := FindReady(g, pending, done);
      if index == |pending| {
        StuckIsAKnot(g, models, emitted, pending);
        return false, emitted;
      }
      EmitOne(g, models, emitted, pending, index);
      var next := pending[index];
      pending := pending[..index] + pending[index + 1..];
      emitted := emitted + [next];
      done := done + {next};
    }
    ok := true;
    NoKnotLeft(g, models, emitted);
  }

  lemma NoKnotLeft(g: Graph, models: seq<string>, emitted: seq<string>)
    requires Emitting(g, models, emitted, [])
    ensures !Cyclic(g, Elements(models)) && multiset(emitted) == multiset(models)
  {
    assert multiset(emitted) == multiset(models);
    SameElements(emitted, models);
    forall s | s <= Elements(models)
      ensures !Knot(g, s)
    {
      OrderedMeansNoKnot(g, emitted, s);
    }
  }

  lemma SameElements(a: seq<string>, b: seq<string>)
    requires multiset(a) == multiset(b)
    ensures Elements(a) == Elements(b)
  {
    forall n
      ensures n in a <==> n in b
    {
      assert n in a <==> n in multiset(a);
      assert n in b <==> n in multiset(b);
    }
  }

  lemma FirstIsReady(g: Graph, models: seq<string>, emitted: seq<string>, pending: seq<string>)
    requires DependenciesFirst(g, models) && emitted + pending == models && pending != []
    ensures pending[0] in g && Ready(g, pending[0], Elements(emitted))
  {
    assert AfterItsOwn(g, models, |emitted|);
    assert models[|emitted|] == pending[0] && models[..|emitted|] == emitted;
  }

  lemma StuckIsAKnot(g: Graph, models: seq<string>, emitted: seq<string>, pending: seq<string>)
    requires Emitting(g, models, emitted, pending) && pending != []
    requires NeedsWithin(g, models, Elements(models))
    requires forall k :: 0 <= k < |pending| ==> !Ready(g, pending[k], Elements(emitted))
    ensures Cyclic(g, Elements(models)) && !DependenciesFirst(g, models)
  {
    var s := Elements(pending);
    assert forall n :: n in models <==> n in multiset(models);
    assert forall n :: n in pending <==> n in multiset(pending);
    assert forall n :: n in emitted <==> n in multiset(emitted);
    assert pending[0] in s;
    forall n | n in s
      ensures NeedsAnother(g, s, n)
    {
      var k :| 0 <= k < |pending| && pending[k] == n;
      assert n in models && AllWithin(g, n, Elements(models));
      assert !Ready(g, pending[k], Elements(emitted));
      var d :| d in g[n] && d != n && d !in Elements(emitted);
      assert d in models;
    }
    assert Knot(g, s) && s <= Elements(models);
    if DependenciesFirst(g, models) {
      OrderedMeansNoKnot(g, models, s);
    }
  }

  /**
    `buildPython`: every exported schema is walked, then the models are emitted. Whatever the
    graph, it ends; it throws exactly when the models reached hold a cycle of different models;
    otherwise the walk's own numbering has dependencies first and is the order emitted.
  */
  method BuildPython(g: Graph, exported: seq<string>) returns (ok: bool, emitted: seq<string>, numbered: seq<string>)
    requires Closed(g) && forall n :: n in exported ==> n in g
    ensures Distinct(numbered) && forall n :: n in exported ==> n in numbered
    ensures forall n, d :: n in numbered && n in g && d in g[n] ==> d in numbered
    ensures ok <==> !Cyclic(g, Elements(numbered))
    ensures ok ==> emitted == numbered && DependenciesFirst(g, numbered)
    ensures Acyclic(g) ==> ok
  {
    var builder := new ModelBuilder(g);
    for i := 0 to |exported|
      invariant fresh(builder) && builder.Valid() && builder.graph == g && builder.building == []
      invariant forall k :: 0 <= k < i ==> exported[k] in builder.models
      invariant Extends(g, [], builder.models, Reached(builder.models, []))
    {
      ghost var before := builder.models;
      builder.EnsureModel(exported[i]);
      ExtendsFurther(g, [], before, builder.models, Reached(before, []), Reached(builder.models, []));
    }
    numbered := builder.models;
    assert Elements(numbered) + Elements([]) == Elements(numbered);
    assert forall n :: n in numbered ==> AllWithin(g, n, Elements(numbered));
    ok, emitted := EmitModels(g, numbered);
  }
}
