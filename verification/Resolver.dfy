// Context resolvers: the registry, resolving the context an entry asks for, and
// merging what came back onto the entry's static configuration.
module Resolver {
  import opened Wrappers

  // A JSON value, carried whole and never looked into.
  type Value = string

  datatype Resolver = Resolver(name: string, contextKey: string)

  // What a resolver answers to one dispatch's input.
  datatype Answer = Output(value: Option<Value>) | NoData | Failed

  datatype ResolvedContext = ResolvedContext(contextKey: string, resolverName: string, value: Option<Value>)

  datatype Collision = Collision(key: string, resolverName: string, oldValue: Value, newValue: Value)

  // ---- the registry ----------------------------------------------------------

  ghost predicate NamesDistinct(rs: seq<Resolver>) {
    forall i, j :: 0 <= i < j < |rs| ==> rs[i].name != rs[j].name
  }

  predicate Registered(rs: seq<Resolver>, name: string) {
    exists i :: 0 <= i < |rs| && rs[i].name == name
  }

  // The answers of one dispatch, request by request: the resolver registered
  // under the name, whatever its position, and only if it has a value.
  ghost predicate Answers(rs: seq<Resolver>, name: string, resolve: Resolver -> Answer, c: ResolvedContext) {
    exists r :: r in rs && r.name == name && resolve(r).Output? && resolve(r).value.Some?
                && c == ResolvedContext(r.contextKey, name, resolve(r).value)
  }

  ghost predicate Errs(rs: seq<Resolver>, name: string, resolve: Resolver -> Answer) {
    exists r :: r in rs && r.name == name && resolve(r).Failed?
  }

  ghost predicate Silent(rs: seq<Resolver>, name: string, resolve: Resolver -> Answer) {
    exists r :: r in rs && r.name == name && (resolve(r).NoData? || (resolve(r).Output? && resolve(r).value.None?))
  }

  // Every request leaves its trace in exactly one place, in request order.
  ghost predicate Resolves(rs: seq<Resolver>, requested: seq<string>, resolve: Resolver -> Answer,
                           outputs: seq<ResolvedContext>, notFound: seq<string>, errors: seq<string>)
    decreases |requested|
  {
    if requested == [] then outputs == [] && notFound == [] && errors == []
    else
      var n := |requested| - 1;
      var init, name := requested[..n], requested[n];
      if !Registered(rs, name) then
        notFound != [] && notFound[|notFound| - 1] == name &&
            Resolves(rs, init, resolve, outputs, notFound[..|notFound| - 1], errors)
      else if Errs(rs, name, resolve) then
        errors != [] && errors[|errors| - 1] == name &&
            Resolves(rs, init, resolve, outputs, notFound, errors[..|errors| - 1])
      else if Silent(rs, name, resolve) then
        Resolves(rs, init, resolve, outputs, notFound, errors)
      else
        outputs != [] && Answers(rs, name, resolve, outputs[|outputs| - 1])
        && Resolves(rs, init, resolve, outputs[..|outputs| - 1], notFound, errors)
  }

  class ResolverRegistry {
    var resolvers: seq<Resolver>

    ghost predicate Valid()
      reads this
    {
      NamesDistinct(resolvers)
    }

    constructor ()
      ensures Valid() && resolvers == []
    {
      resolvers := [];
    }

    method Find(name: string) returns (found: Option<Resolver>)
      ensures found.Some? <==> Registered(resolvers, name)
      ensures found.Some? ==> found.value in resolvers && found.value.name == name
    {
      for i := 0 to |resolvers|
        invariant forall j :: 0 <= j < i ==> resolvers[j].name != name
      {
        if resolvers[i].name == name {
          return Some(resolvers[i]);
        }
      }
      return None;
    }

    // A second resolver of a name is refused, and the first one kept.
    method Register(resolver: Resolver) returns (ok: bool)
      requires Valid()
      modifies this
      ensures Valid()
      ensures ok <==> !Registered(old(resolvers), resolver.name)
      ensures resolvers == if ok then old(resolvers) + [resolver] else old(resolvers)
    {
      var found := Find(resolver.name);
      if found.Some? {
        return false;
      }
      resolvers := resolvers + [resolver];
      return true;
    }

    method ResolveContextForEntry(requested: seq<string>, resolve: Resolver -> Answer)
      returns (outputs: seq<ResolvedContext>, notFound: seq<string>, errors: seq<string>)
      requires Valid()
      ensures Resolves(resolvers, requested, resolve, outputs, notFound, errors)
    {
      outputs, notFound, errors := [], [], [];
      for i := 0 to |requested|
        invariant Resolves(resolvers, requested[..i], resolve, outputs, notFound, errors)
      {
        var name := requested[i];
        assert requested[..i + 1][..i] == requested[..i];
        var found := Find(name);
        if found.None? {
          notFound := notFound + [name];
          assert notFound[..|notFound| - 1] + [name] == notFound;
        } else {
          var r := found.value;
          OneOfAName(resolvers, r);
          match resolve(r) {
            case Output(Some(v)) =>
              ghost var was := outputs;
              outputs := outputs + [ResolvedContext(r.contextKey, r.name, Some(v))];
              assert outputs[..|outputs| - 1] == was;
              assert Answers(resolvers, name, resolve, outputs[|outputs| - 1]);
            case Output(None) =>
              assert Silent(resolvers, name, resolve);
            case NoData =>
              assert Silent(resolvers, name, resolve);
            case Failed =>
              errors := errors + [name];
              assert errors[..|errors| - 1] + [name] == errors;
              assert Errs(resolvers, name, resolve);
          }
        }
      }
      assert requested[..|requested|] == requested;
    }
  }

  lemma OneOfAName(rs: seq<Resolver>, r: Resolver)
    requires NamesDistinct(rs) && r in rs
    ensures forall q :: q in rs && q.name == r.name ==> q == r
  {
  }

  // ---- the merge ---------------------------------------------------------------

  // The last value any output gives a key.
  function LastValue(outputs: seq<ResolvedContext>, key: string): Option<Value> {
    if outputs == [] then None
    else
      var last := outputs[|outputs| - 1];
      if last.value.Some? && last.contextKey == key then last.value
      else LastValue(outputs[..|outputs| - 1], key)
  }

  // What a key has after the outputs: their last value, else the static one.
  function Current(config: map<string, Value>, outputs: seq<ResolvedContext>, key: string): Option<Value> {
    if LastValue(outputs, key).Some? then LastValue(outputs, key)
    else if key in config then Some(config[key]) else None
  }

  ghost predicate IsMerge(config: map<string, Value>, outputs: seq<ResolvedContext>, merged: map<string, Value>) {
    forall key ::
      (key in merged <==> Current(config, outputs, key).Some?) &&
      (key in merged ==> Some(merged[key]) == Current(config, outputs, key))
  }

  // One collision per valued output that finds its key taken.
  function Collisions(config: map<string, Value>, outputs: seq<ResolvedContext>): seq<Collision> {
    if outputs == [] then []
    else
      var init, last := outputs[..|outputs| - 1], outputs[|outputs| - 1];
      Collisions(config, init) + CollisionOf(Current(config, init, last.contextKey), last)
  }

  function CollisionOf(was: Option<Value>, ctx: ResolvedContext): seq<Collision> {
    if ctx.value.Some? && was.Some?
    then [Collision(ctx.contextKey, ctx.resolverName, was.value, ctx.value.value)]
    else []
  }

  function Valued(outputs: seq<ResolvedContext>): nat {
    if outputs == [] then 0
    else Valued(outputs[..|outputs| - 1]) + if outputs[|outputs| - 1].value.Some? then 1 else 0
  }

  lemma CollisionsSnoc(config: map<string, Value>, init: seq<ResolvedContext>, ctx: ResolvedContext)
    ensures Collisions(config, init + [ctx]) == Collisions(config, init) +
        CollisionOf(Current(config, init, ctx.contextKey), ctx)
  {
    assert (init + [ctx])[..|init|] == init;
  }

  lemma Snoc(config: map<string, Value>, init: seq<ResolvedContext>, ctx: ResolvedContext, key: string)
    ensures var all := init + [ctx];
            && Current(config, all, key) ==
               (if ctx.value.Some? && ctx.contextKey == key then ctx.value else Current(config, init, key))
            && Original(config, all, key) == (if Original(config, init, key).Some? then Original(config, init, key)
                                              else if ctx.contextKey == key then ctx.value else None)
            && Collisions(config, all) == Collisions(config, init) +
                CollisionOf(Current(config, init, ctx.contextKey), ctx)
            && Valued(all) == Valued(init) + if ctx.value.Some? then 1 else 0
  {
    assert (init + [ctx])[..|init|] == init;
  }

  lemma MergeStep(config: map<string, Value>, init: seq<ResolvedContext>, ctx: ResolvedContext,
                  merged: map<string, Value>)
    requires IsMerge(config, init, merged)
    ensures IsMerge(config, init + [ctx], if ctx.value.Some? then merged[ctx.contextKey := ctx.value.value] else merged)
  {
    forall key { Snoc(config, init, ctx, key); }
  }

  lemma UpdateSize(m: map<string, Value>, key: string, v: Value)
    ensures |m[key := v]| == |m| + if key in m then 0 else 1
  {
    assert m[key := v].Keys == m.Keys + {key};
    assert |m[key := v]| == |m[key := v].Keys| && |m| == |m.Keys|;
  }

  // The merge so far: its values, its collisions, and how many of each.
  ghost predicate MergedSoFar(config: map<string, Value>, outputs: seq<ResolvedContext>,
                              merged: map<string, Value>, collisions: seq<Collision>) {
    && IsMerge(config, outputs, merged)
    && collisions == Collisions(config, outputs)
    && |merged| + |collisions| == |config| + Valued(outputs)
  }

  lemma MergeOne(config: map<string, Value>, init: seq<ResolvedContext>, ctx: ResolvedContext,
                 merged: map<string, Value>, collisions: seq<Collision>)
    requires MergedSoFar(config, init, merged, collisions)
    ensures var merged' := if ctx.value.Some? then merged[ctx.contextKey := ctx.value.value] else merged;
            var was := if ctx.contextKey in merged then Some(merged[ctx.contextKey]) else None;
            MergedSoFar(config, init + [ctx], merged', collisions + CollisionOf(was, ctx))
  {
    Snoc(config, init, ctx, ctx.contextKey);
    MergeStep(config, init, ctx, merged);
    if ctx.value.Some? {
      UpdateSize(merged, ctx.contextKey, ctx.value.value);
    }
  }

  method MergeResolverOutputs(staticConfig: map<string, Value>, outputs: seq<ResolvedContext>)
    returns (merged: map<string, Value>, collisions: seq<Collision>)
    ensures IsMerge(staticConfig, outputs, merged)
    ensures collisions == Collisions(staticConfig, outputs)
    ensures |merged| + |collisions| == |staticConfig| + Valued(outputs)
  {
    merged, collisions := staticConfig, [];
    for i := 0 to |outputs|
      invariant MergedSoFar(staticConfig, outputs[..i], merged, collisions)
    {
      var ctx := outputs[i];
      assert outputs[..i + 1] == outputs[..i] + [ctx];
      MergeOne(staticConfig, outputs[..i], ctx, merged, collisions);
      assert collisions + [] == collisions;
      if ctx.value.Some? {
        if ctx.contextKey in merged {
          collisions := collisions +
              [Collision(ctx.contextKey, ctx.resolverName, merged[ctx.contextKey], ctx.value.value)];
        }
        merged := merged[ctx.contextKey := ctx.value.value];
      }
    }
    assert outputs[..|outputs|] == outputs;
  }

  lemma MergeUnique(config: map<string, Value>, outputs: seq<ResolvedContext>, a: map<string, Value>,
                    b: map<string, Value>)
    requires IsMerge(config, outputs, a) && IsMerge(config, outputs, b)
    ensures a == b
  {
    forall key ensures key in a <==> key in b {}
    forall key | key in a ensures a[key] == b[key] {}
  }

  lemma {:induction false} LastValueConcat(a: seq<ResolvedContext>, b: seq<ResolvedContext>, key: string)
    ensures LastValue(a + b, key) == if LastValue(b, key).Some? then LastValue(b, key) else LastValue(a, key)
    decreases |b|
  {
    if b == [] {
      assert a + b == a;
    } else {
      assert (a + b)[..|a + b| - 1] == a + b[..|b| - 1];
      LastValueConcat(a, b[..|b| - 1], key);
    }
  }

  lemma CurrentInStages(config: map<string, Value>, a: seq<ResolvedContext>, b: seq<ResolvedContext>,
                        mid: map<string, Value>, key: string)
    requires IsMerge(config, a, mid)
    ensures Current(config, a + b, key) == Current(mid, b, key)
  {
    LastValueConcat(a, b, key);
  }

  lemma OneMore(config: map<string, Value>, a: seq<ResolvedContext>, init: seq<ResolvedContext>,
                last: ResolvedContext, mid: map<string, Value>)
    requires Current(config, a + init, last.contextKey) == Current(mid, init, last.contextKey)
    requires Collisions(config, a + init) == Collisions(config, a) + Collisions(mid, init)
    ensures Collisions(config, (a + init) + [last]) == Collisions(config, a) + Collisions(mid, init + [last])
  {
    CollisionsSnoc(config, a + init, last);
    CollisionsSnoc(mid, init, last);
    Assoc(Collisions(config, a), Collisions(mid, init), CollisionOf(Current(mid, init, last.contextKey), last));
  }

  lemma Reassociated(a: seq<ResolvedContext>, b: seq<ResolvedContext>)
    requires b != []
    ensures b[..|b| - 1] + [b[|b| - 1]] == b && (a + b[..|b| - 1]) + [b[|b| - 1]] == a + b
  {
  }

  // With the last output of the second stage.
  lemma StageStep(config: map<string, Value>, a: seq<ResolvedContext>, b: seq<ResolvedContext>,
                  mid: map<string, Value>)
    requires b != []
    requires Current(config, a + b[..|b| - 1], b[|b| - 1].contextKey)
          == Current(mid, b[..|b| - 1], b[|b| - 1].contextKey)
    requires Collisions(config, a + b[..|b| - 1]) == Collisions(config, a) + Collisions(mid, b[..|b| - 1])
    ensures Collisions(config, a + b) == Collisions(config, a) + Collisions(mid, b)
  {
    OneMore(config, a, b[..|b| - 1], b[|b| - 1], mid);
    Reassociated(a, b);
  }

  lemma {:induction false} CollisionsInStages(config: map<string, Value>, a: seq<ResolvedContext>,
                                              b: seq<ResolvedContext>, mid: map<string, Value>)
    requires IsMerge(config, a, mid)
    ensures Collisions(config, a + b) == Collisions(config, a) + Collisions(mid, b)
    decreases |b|
  {
    if b == [] {
      assert a + b == a;
    } else {
      CollisionsInStages(config, a, b[..|b| - 1], mid);
      CurrentInStages(config, a, b[..|b| - 1], mid, b[|b| - 1].contextKey);
      StageStep(config, a, b, mid);
    }
  }

  lemma Assoc(a: seq<Collision>, b: seq<Collision>, c: seq<Collision>)
    ensures (a + b) + c == a + (b + c)
  {
  }

  // Merging in two stages is merging the concatenation, values and collisions.
  lemma MergeInStages(config: map<string, Value>, a: seq<ResolvedContext>, b: seq<ResolvedContext>,
                      mid: map<string, Value>, merged: map<string, Value>)
    requires IsMerge(config, a, mid)
    ensures IsMerge(config, a + b, merged) <==> IsMerge(mid, b, merged)
    ensures Collisions(config, a + b) == Collisions(config, a) + Collisions(mid, b)
  {
    forall key { CurrentInStages(config, a, b, mid, key); }
    CollisionsInStages(config, a, b, mid);
  }

  // Output i found its key taken by was.
  predicate Overwrites(config: map<string, Value>, outputs: seq<ResolvedContext>, i: int, c: Collision) {
    && 0 <= i < |outputs| && outputs[i].value == Some(c.newValue)
    && outputs[i].contextKey == c.key && outputs[i].resolverName == c.resolverName
    && Current(config, outputs[..i], c.key) == Some(c.oldValue)
  }

  // Each collision names the key, the resolver and the values of an output that
  // found its key taken, and every such output has one.
  lemma {:induction false} CollisionsExact(config: map<string, Value>, outputs: seq<ResolvedContext>, c: Collision)
    ensures c in Collisions(config, outputs) <==> exists i :: Overwrites(config, outputs, i, c)
    decreases |outputs|
  {
    if outputs != [] {
      var n := |outputs| - 1;
      var init, last := outputs[..n], outputs[n];
      CollisionsExact(config, init, c);
      forall i | 0 <= i < n ensures Overwrites(config, init, i, c) <==> Overwrites(config, outputs, i, c) {
        assert init[..i] == outputs[..i];
      }
      assert c in CollisionOf(Current(config, init, last.contextKey), last) <==> Overwrites(config, outputs, n, c);
    }
  }

  // ---- the collision log as an audit trail ---------------------------------

  // The collisions of one key, in order.
  function Trail(cs: seq<Collision>, key: string): seq<Collision> {
    if cs == [] then []
    else Trail(cs[..|cs| - 1], key) + if cs[|cs| - 1].key == key then [cs[|cs| - 1]] else []
  }

  // The first value any output gives a key.
  function FirstValue(outputs: seq<ResolvedContext>, key: string): Option<Value> {
    if outputs == [] then None
    else
      var first := FirstValue(outputs[..|outputs| - 1], key);
      var last := outputs[|outputs| - 1];
      if first.Some? then first
      else if last.contextKey == key then last.value
      else None
  }

  function Original(config: map<string, Value>, outputs: seq<ResolvedContext>, key: string): Option<Value> {
    if key in config then Some(config[key]) else FirstValue(outputs, key)
  }

  // A chain from one value to another, each link starting where the last ended.
  ghost predicate Chain(from: Option<Value>, links: seq<Collision>, to: Option<Value>)
    decreases |links|
  {
    if links == [] then from == to
    else
      var last := links[|links| - 1];
      Some(last.newValue) == to && Chain(from, links[..|links| - 1], Some(last.oldValue))
  }

  lemma TrailSnoc(cs: seq<Collision>, c: Collision, key: string)
    ensures Trail(cs + [c], key) == Trail(cs, key) + if c.key == key then [c] else []
  {
    assert (cs + [c])[..|cs|] == cs;
  }

  lemma ChainSnoc(from: Option<Value>, links: seq<Collision>, c: Collision)
    requires Chain(from, links, Some(c.oldValue))
    ensures Chain(from, links + [c], Some(c.newValue))
  {
    assert (links + [c])[..|links|] == links;
  }

  // A key without a value has never collided.
  lemma {:induction false} NothingBefore(config: map<string, Value>, outputs: seq<ResolvedContext>, key: string)
    requires Current(config, outputs, key).None?
    ensures Trail(Collisions(config, outputs), key) == []
    decreases |outputs|
  {
    if outputs != [] {
      var init, last := outputs[..|outputs| - 1], outputs[|outputs| - 1];
      assert outputs == init + [last];
      Snoc(config, init, last, key);
      NothingBefore(config, init, key);
      var was := Current(config, init, last.contextKey);
      if last.value.Some? && was.Some? {
        TrailSnoc(Collisions(config, init),
            Collision(last.contextKey, last.resolverName, was.value, last.value.value), key);
      } else {
        assert Collisions(config, outputs) == Collisions(config, init);
      }
    }
  }

  // One more output extends the key's trail by its collision, if it has one.
  lemma TrailStep(config: map<string, Value>, init: seq<ResolvedContext>, last: ResolvedContext, key: string)
    ensures var was := Current(config, init, last.contextKey);
            Trail(Collisions(config, init + [last]), key) ==
            Trail(Collisions(config, init), key) + if last.contextKey == key then CollisionOf(was, last) else []
  {
    Snoc(config, init, last, key);
    var before := Collisions(config, init);
    var was := Current(config, init, last.contextKey);
    if last.value.Some? && was.Some? {
      TrailSnoc(before, CollisionOf(was, last)[0], key);
    } else {
      assert before + [] == before;
    }
  }

  // The collisions of a key lead, link by link, from the value it had first to
  // the value it has in the end.
  ghost predicate TrailLeads(config: map<string, Value>, outputs: seq<ResolvedContext>, key: string) {
    && (Original(config, outputs, key).Some? <==> Current(config, outputs, key).Some?)
    && Chain(Original(config, outputs, key), Trail(Collisions(config, outputs), key), Current(config, outputs, key))
  }

  lemma TrailLeadsOn(config: map<string, Value>, init: seq<ResolvedContext>, last: ResolvedContext, key: string)
    requires TrailLeads(config, init, key)
    ensures TrailLeads(config, init + [last], key)
  {
    var all, trail := init + [last], Trail(Collisions(config, init), key);
    var from, to := Original(config, init, key), Current(config, init, key);
    Snoc(config, init, last, key);
    TrailStep(config, init, last, key);
    assert trail + [] == trail;
    if last.contextKey != key || last.value.None? {
      assert Trail(Collisions(config, all), key) == trail && Current(config, all, key) == to &&
          Original(config, all, key) == from;
    } else if to.Some? {
      ChainSnoc(from, trail, CollisionOf(to, last)[0]);
      assert Trail(Collisions(config, all), key) == trail + [CollisionOf(to, last)[0]];
    } else {
      NothingBefore(config, init, key);
      assert Trail(Collisions(config, all), key) == [] &&
          Current(config, all, key) == last.value == Original(config, all, key);
    }
  }

  lemma {:induction false} TrailIsChain(config: map<string, Value>, outputs: seq<ResolvedContext>, key: string)
    ensures TrailLeads(config, outputs, key)
    decreases |outputs|
  {
    if outputs != [] {
      var init, last := outputs[..|outputs| - 1], outputs[|outputs| - 1];
      assert outputs == init + [last];
      TrailIsChain(config, init, key);
      TrailLeadsOn(config, init, last, key);
    }
  }

  lemma {:induction false} ChainEnds(from: Option<Value>, links: seq<Collision>, to: Option<Value>)
    requires Chain(from, links, to)
    ensures if links == [] then from == to
        else from == Some(links[0].oldValue) && to == Some(links[|links| - 1].newValue)
    decreases |links|
  {
    if links != [] {
      ChainEnds(from, links[..|links| - 1], Some(links[|links| - 1].oldValue));
    }
  }

  // No static value is lost: that of a static key is the old value of the key's
  // first collision, or still there if the key never collided.
  lemma StaticRecovered(config: map<string, Value>, outputs: seq<ResolvedContext>, merged: map<string, Value>,
                        key: string)
    requires IsMerge(config, outputs, merged) && key in config
    ensures key in merged
    ensures var trail := Trail(Collisions(config, outputs), key);
            config[key] == if trail == [] then merged[key] else trail[0].oldValue
  {
    TrailIsChain(config, outputs, key);
    ChainEnds(Original(config, outputs, key), Trail(Collisions(config, outputs), key), Current(config, outputs, key));
  }
}
