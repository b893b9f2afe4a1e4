// Dispatch planning: match registry entries to the event, split them into the
// sync and the async group, and group the sync entries into priority tiers.
module Routing {
  import opened Wrappers
  import opened Outcomes
  import opened Registry

  function Filter<T>(xs: seq<T>, keep: T -> bool): seq<T> {
    if xs == [] then []
    else
      var init := Filter(xs[..|xs| - 1], keep);
      if keep(xs[|xs| - 1]) then init + [xs[|xs| - 1]] else init
  }

  function Flatten<T>(xss: seq<seq<T>>): seq<T> {
    if xss == [] then [] else Flatten(xss[..|xss| - 1]) + xss[|xss| - 1]
  }

  // ---- matching and partition ----------------------------------------------

  // Whether a compiled tool pattern matches a tool name is a parameter.
  predicate Matches(e: Entry, event: string, tool: string, regexMatches: (string, string) -> bool) {
    e.enabled && e.event == event && (e.tool.None? || regexMatches(e.tool.value, tool))
  }

  function MatchPlugins(reg: HookRegistry, event: string, tool: string,
                        regexMatches: (string, string) -> bool): seq<Entry>
  {
    Filter(reg.hooks, (e: Entry) => Matches(e, event, tool, regexMatches))
  }

  predicate IsAsync(e: Entry) { e.asyncFlag }

  predicate IsSync(e: Entry) { !e.asyncFlag }

  lemma FilterSnoc<T>(xs: seq<T>, x: T, keep: T -> bool)
    ensures Filter(xs + [x], keep) == Filter(xs, keep) + if keep(x) then [x] else []
  {
    assert (xs + [x])[..|xs|] == xs;
  }

  method PartitionPlugins(matched: seq<Entry>) returns (syncGroup: seq<Entry>, asyncGroup: seq<Entry>)
    ensures syncGroup == Filter(matched, IsSync) && asyncGroup == Filter(matched, IsAsync)
  {
    syncGroup, asyncGroup := [], [];
    for i := 0 to |matched|
      invariant syncGroup == Filter(matched[..i], IsSync) && asyncGroup == Filter(matched[..i], IsAsync)
    {
      FilterSnoc(matched[..i], matched[i], IsSync);
      FilterSnoc(matched[..i], matched[i], IsAsync);
      assert matched[..i + 1] == matched[..i] + [matched[i]];
      if matched[i].asyncFlag {
        asyncGroup := asyncGroup + [matched[i]];
      } else {
        syncGroup := syncGroup + [matched[i]];
      }
    }
    assert matched[..|matched|] == matched;
  }

  lemma {:induction false} FilterMultiplicity<T>(xs: seq<T>, keep: T -> bool, x: T)
    ensures multiset(Filter(xs, keep))[x] == if keep(x) then multiset(xs)[x] else 0
    decreases |xs|
  {
    if xs != [] {
      FilterMultiplicity(xs[..|xs| - 1], keep, x);
      assert xs == xs[..|xs| - 1] + [xs[|xs| - 1]];
    }
  }

  lemma FilterOne<T>(x: T, keep: T -> bool)
    ensures Filter([x], keep) == if keep(x) then [x] else []
  {
    FilterSnoc([], x, keep);
    assert [] + [x] == [x];
  }

  lemma Reassociated<T>(a: seq<T>, b: seq<T>, c: seq<T>)
    ensures (a + b) + c == a + (b + c)
  {
  }

  // Filtering goes entry by entry, so what is kept stays in the given order.
  lemma {:induction false} FilterConcat<T>(xs: seq<T>, ys: seq<T>, keep: T -> bool)
    ensures Filter(xs + ys, keep) == Filter(xs, keep) + Filter(ys, keep)
    decreases |ys|
  {
    if ys == [] {
      assert xs + ys == xs;
    } else {
      var init, last := ys[..|ys| - 1], ys[|ys| - 1];
      FilterConcat(xs, init, keep);
      FilterSnoc(xs + init, last, keep);
      FilterSnoc(init, last, keep);
      assert init + [last] == ys;
      Reassociated(xs, init, [last]);
      Reassociated(Filter(xs, keep), Filter(init, keep), if keep(last) then [last] else []);
    }
  }

  lemma {:induction false} FilterMember<T>(xs: seq<T>, keep: T -> bool, x: T)
    ensures x in Filter(xs, keep) <==> x in xs && keep(x)
  {
    FilterMultiplicity(xs, keep, x);
    assert x in Filter(xs, keep) <==> multiset(Filter(xs, keep))[x] > 0;
    assert x in xs <==> multiset(xs)[x] > 0;
  }

  // ---- tiers -----------------------------------------------------------------

  // The entries of one effective priority, in registry order.
  function AtPriority(es: seq<Entry>, d: Defaults, p: nat): seq<Entry> {
    Filter(es, (e: Entry) => Priority(e, d) == p)
  }

  ghost predicate StrictlyIncreasing(ps: seq<nat>) {
    forall i, j :: 0 <= i < j < |ps| ==> ps[i] < ps[j]
  }

  // The tiers are, for the strictly increasing list ps of exactly the effective
  // priorities that occur, all entries of that priority in their given order.
  ghost predicate IsTiering(es: seq<Entry>, d: Defaults, tiers: seq<seq<Entry>>, ps: seq<nat>) {
    && |ps| == |tiers|
    && StrictlyIncreasing(ps)
    && (forall k :: 0 <= k < |tiers| ==> tiers[k] == AtPriority(es, d, ps[k]) && tiers[k] != [])
    && (forall e :: e in es ==> Priority(e, d) in ps)
  }

  datatype Indexed = Indexed(index: nat, priority: nat, entry: Entry)

  predicate Before(a: Indexed, b: Indexed) {
    a.priority < b.priority || (a.priority == b.priority && a.index < b.index)
  }

  ghost predicate Sorted(xs: seq<Indexed>) {
    forall i, j :: 0 <= i < j < |xs| ==> Before(xs[i], xs[j])
  }

  function WithIndex(es: seq<Entry>, d: Defaults): seq<Indexed> {
    seq(|es|, i requires 0 <= i < |es| => Indexed(i, Priority(es[i], d), es[i]))
  }

  ghost predicate SameElements(xs: seq<Indexed>, ys: seq<Indexed>) {
    forall x :: x in xs <==> x in ys
  }

  function Insert(xs: seq<Indexed>, k: nat, x: Indexed): seq<Indexed>
    requires k <= |xs|
  {
    xs[..k] + [x] + xs[k..]
  }

  lemma InsertElements(xs: seq<Indexed>, k: nat, x: Indexed)
    requires k <= |xs|
    ensures forall y :: y in Insert(xs, k, x) <==> y in xs || y == x
  {
    assert xs == xs[..k] + xs[k..];
  }

  // x goes in at k: what is before k is smaller, what is from k on is larger.
  lemma InsertKeepsSorted(xs: seq<Indexed>, k: nat, x: Indexed)
    requires Sorted(xs) && k <= |xs|
    requires k > 0 ==> Before(xs[k - 1], x)
    requires k < |xs| ==> Before(x, xs[k])
    ensures Sorted(Insert(xs, k, x))
  {
    var ys := Insert(xs, k, x);
    forall i, j | 0 <= i < j < |ys| ensures Before(ys[i], ys[j]) {
      var a, b := if i < k then i else i - 1, if j < k then j else j - 1;
      assert i != k ==> ys[i] == xs[a];
      assert j != k ==> ys[j] == xs[b];
      if j == k {
        assert i < k - 1 ==> Before(xs[i], xs[k - 1]);
      } else if i == k {
        assert k < b ==> Before(xs[k], xs[b]);
      } else {
        assert Before(xs[a], xs[b]);
      }
    }
  }

  // The sort of the standard library; nothing below depends on how it sorts.
  method SortByKey(xs: seq<Indexed>) returns (sorted: seq<Indexed>)
    requires forall i, j :: 0 <= i < j < |xs| ==> xs[i].index != xs[j].index
    ensures Sorted(sorted) && SameElements(sorted, xs)
  {
    sorted := [];
    for n := 0 to |xs|
      invariant Sorted(sorted) && SameElements(sorted, xs[..n])
    {
      var x := xs[n];
      var k := |sorted|;
      while k > 0 && Before(x, sorted[k - 1])
        invariant 0 <= k <= |sorted|
        invariant k < |sorted| ==> Before(x, sorted[k])
      {
        k := k - 1;
      }
      if k > 0 {
        assert sorted[k - 1] in xs[..n];
      }
      InsertKeepsSorted(sorted, k, x);
      InsertElements(sorted, k, x);
      sorted := Insert(sorted, k, x);
      assert xs[..n + 1] == xs[..n] + [x];
    }
    assert xs[..|xs|] == xs;
  }

  function EntriesOf(xs: seq<Indexed>): seq<Entry> {
    seq(|xs|, i requires 0 <= i < |xs| => xs[i].entry)
  }

  function AtP(xs: seq<Indexed>, p: nat): seq<Indexed> {
    Filter(xs, (x: Indexed) => x.priority == p)
  }

  lemma SortedLast(a: seq<Indexed>, b: seq<Indexed>)
    requires Sorted(a) && Sorted(b) && a != [] && b != []
    requires a[|a| - 1] in b && b[|b| - 1] in a
    ensures a[|a| - 1] == b[|b| - 1]
  {
    var i :| 0 <= i < |a| && a[i] == b[|b| - 1];
    var j :| 0 <= j < |b| && b[j] == a[|a| - 1];
  }

  // Without its last element, a sorted list has all its other elements.
  lemma DropLast(a: seq<Indexed>, x: Indexed)
    requires Sorted(a) && a != []
    ensures Sorted(a[..|a| - 1])
    ensures x in a[..|a| - 1] <==> x in a && x != a[|a| - 1]
  {
    assert a == a[..|a| - 1] + [a[|a| - 1]];
  }

  lemma SameEmptiness(a: seq<Indexed>, b: seq<Indexed>)
    requires SameElements(a, b) && a != []
    ensures b != []
  {
    assert a[0] in a;
  }

  // Two strictly ordered sequences with the same elements are the same.
  lemma {:induction false} SortedUnique(a: seq<Indexed>, b: seq<Indexed>)
    requires Sorted(a) && Sorted(b) && SameElements(a, b)
    ensures a == b
    decreases |a|
  {
    if a != [] && b != [] {
      var a', b', x := a[..|a| - 1], b[..|b| - 1], a[|a| - 1];
      SortedLast(a, b);
      forall y ensures y in a' <==> y in b' { DropLast(a, y); DropLast(b, y); }
      SortedUnique(a', b');
      assert a == a' + [x] && b == b' + [x];
    } else if a != [] {
      SameEmptiness(a, b);
    } else if b != [] {
      SameEmptiness(b, a);
    }
  }

  lemma {:induction false} AtPSorted(xs: seq<Indexed>, p: nat)
    requires forall i, j :: 0 <= i < j < |xs| ==> xs[i].priority == xs[j].priority ==> xs[i].index < xs[j].index
    ensures Sorted(AtP(xs, p))
    ensures forall x :: x in AtP(xs, p) ==> x.priority == p && x in xs
    decreases |xs|
  {
    if xs != [] {
      var init, last := xs[..|xs| - 1], xs[|xs| - 1];
      AtPSorted(init, p);
      forall x | x in AtP(init, p) ensures x.index < last.index || last.priority != p {
        var i :| 0 <= i < |init| && init[i] == x;
        assert xs[i] == x;
      }
    }
  }

  lemma {:induction false} EntriesAtP(es: seq<Entry>, d: Defaults, p: nat)
    ensures EntriesOf(AtP(WithIndex(es, d), p)) == AtPriority(es, d, p)
    decreases |es|
  {
    if es != [] {
      EntriesAtP(es[..|es| - 1], d, p);
      assert WithIndex(es, d)[..|es| - 1] == WithIndex(es[..|es| - 1], d);
    }
  }

  // However the list was sorted, one priority's entries are in given order.
  lemma SortedAtPriority(es: seq<Entry>, d: Defaults, sorted: seq<Indexed>, p: nat)
    requires Sorted(sorted) && SameElements(sorted, WithIndex(es, d))
    ensures EntriesOf(AtP(sorted, p)) == AtPriority(es, d, p)
  {
    var given := WithIndex(es, d);
    AtPSorted(sorted, p);
    AtPSorted(given, p);
    forall x ensures x in AtP(sorted, p) <==> x in AtP(given, p) {
      FilterMember(sorted, (y: Indexed) => y.priority == p, x);
      FilterMember(given, (y: Indexed) => y.priority == p, x);
    }
    SortedUnique(AtP(sorted, p), AtP(given, p));
    EntriesAtP(es, d, p);
  }

  lemma {:induction false} AtPEmpty(xs: seq<Indexed>, p: nat)
    requires forall x :: x in xs ==> x.priority != p
    ensures AtP(xs, p) == []
    decreases |xs|
  {
    if xs != [] { AtPEmpty(xs[..|xs| - 1], p); }
  }

  // The tiers built from a sorted prefix.
  ghost predicate BuiltFrom(xs: seq<Indexed>, tiers: seq<seq<Entry>>, ps: seq<nat>) {
    && |ps| == |tiers|
    && StrictlyIncreasing(ps)
    && (forall k :: 0 <= k < |tiers| ==> tiers[k] == EntriesOf(AtP(xs, ps[k])) && tiers[k] != [])
    && (forall x :: x in xs ==> x.priority in ps)
    && (forall p :: p in ps ==> exists x :: x in xs && x.priority == p)
  }

  lemma BuiltIsTiering(es: seq<Entry>, d: Defaults, sorted: seq<Indexed>, tiers: seq<seq<Entry>>, ps: seq<nat>)
    requires Sorted(sorted) && SameElements(sorted, WithIndex(es, d)) && BuiltFrom(sorted, tiers, ps)
    ensures IsTiering(es, d, tiers, ps)
  {
    forall k | 0 <= k < |tiers| ensures tiers[k] == AtPriority(es, d, ps[k]) {
      SortedAtPriority(es, d, sorted, ps[k]);
    }
    forall e | e in es ensures Priority(e, d) in ps {
      var i :| 0 <= i < |es| && es[i] == e;
      assert WithIndex(es, d)[i] in WithIndex(es, d);
      assert WithIndex(es, d)[i] in sorted;
    }
  }

  // The loop's step, whichever branch it takes.
  function Push(tiers: seq<seq<Entry>>, ps: seq<nat>, x: Indexed): (seq<seq<Entry>>, seq<nat>)
    requires |tiers| == |ps|
  {
    if ps != [] && ps[|ps| - 1] == x.priority
    then (tiers[|tiers| - 1 := tiers[|tiers| - 1] + [x.entry]], ps)
    else (tiers + [[x.entry]], ps + [x.priority])
  }

  lemma PushStep(xs: seq<Indexed>, n: nat, tiers: seq<seq<Entry>>, ps: seq<nat>)
    requires Sorted(xs) && n < |xs| && BuiltFrom(xs[..n], tiers, ps)
    ensures var (tiers', ps') := Push(tiers, ps, xs[n]); BuiltFrom(xs[..n + 1], tiers', ps')
  {
    assert xs[..n + 1] == xs[..n] + [xs[n]];
    if ps != [] && ps[|ps| - 1] == xs[n].priority {
      PushSame(xs[..n], xs[n], tiers, ps);
    } else {
      LastIsLargest(xs, n, ps);
      PushNew(xs[..n], xs[n], tiers, ps);
    }
  }

  lemma LastIsLargest(xs: seq<Indexed>, n: nat, ps: seq<nat>)
    requires Sorted(xs) && n < |xs| && StrictlyIncreasing(ps)
    requires forall p :: p in ps ==> exists x :: x in xs[..n] && x.priority == p
    requires ps != [] ==> ps[|ps| - 1] != xs[n].priority
    ensures forall k :: 0 <= k < |ps| ==> ps[k] < xs[n].priority
  {
    if ps != [] {
      var p := ps[|ps| - 1];
      assert p in ps;
      var x :| x in xs[..n] && x.priority == p;
      var i :| 0 <= i < n && xs[i] == x;
      assert Before(xs[i], xs[n]);
    }
  }

  // The tiers after the loop has taken all of xs, with their priorities.
  function PushAll(xs: seq<Indexed>): (r: (seq<seq<Entry>>, seq<nat>))
    ensures |r.0| == |r.1|
    ensures r.1 == [] <==> xs == []
    ensures xs != [] ==> r.1[|r.1| - 1] == xs[|xs| - 1].priority
  {
    if xs == [] then ([], [])
    else
      var (tiers, ps) := PushAll(xs[..|xs| - 1]);
      Push(tiers, ps, xs[|xs| - 1])
  }

  lemma PushAllSnoc(xs: seq<Indexed>, n: nat)
    requires n < |xs|
    ensures var (tiers, ps) := PushAll(xs[..n]); PushAll(xs[..n + 1]) == Push(tiers, ps, xs[n])
  {
    assert xs[..n + 1][..n] == xs[..n];
  }

  ghost predicate Built(xs: seq<Indexed>) {
    BuiltFrom(xs, PushAll(xs).0, PushAll(xs).1)
  }

  lemma NothingBuilt()
    ensures Built([])
  {
  }

  lemma BuiltStep(xs: seq<Indexed>, n: nat)
    requires Sorted(xs) && n < |xs| && Built(xs[..n])
    ensures Built(xs[..n + 1])
  {
    var (tiers, ps) := PushAll(xs[..n]);
    PushAllSnoc(xs, n);
    PushStep(xs, n, tiers, ps);
  }

  lemma {:induction false} PushAllBuilt(xs: seq<Indexed>, n: nat)
    requires Sorted(xs) && n <= |xs|
    ensures Built(xs[..n])
  {
    if n == 0 {
      NothingBuilt();
    } else {
      PushAllBuilt(xs, n - 1);
      BuiltStep(xs, n - 1);
    }
  }

  method GroupByPriority(d: Defaults, matched: seq<Entry>) returns (tiers: seq<seq<Entry>>)
    ensures exists ps :: IsTiering(matched, d, tiers, ps)
  {
    var indexed := SortByKey(WithIndex(matched, d));
    tiers := [];
    var currentPriority: Option<nat> := None;
    for n := 0 to |indexed|
      invariant tiers == PushAll(indexed[..n]).0
      invariant currentPriority == if n == 0 then None else Some(indexed[n - 1].priority)
    {
      var x := indexed[n];
      PushAllSnoc(indexed, n);
      if currentPriority != Some(x.priority) {
        tiers := tiers + [[]];
        currentPriority := Some(x.priority);
        assert [] + [x.entry] == [x.entry];
      }
      tiers := tiers[|tiers| - 1 := tiers[|tiers| - 1] + [x.entry]];
    }
    assert indexed[..|indexed|] == indexed;
    SortedIsTiering(matched, d, indexed);
  }

  lemma SortedIsTiering(es: seq<Entry>, d: Defaults, sorted: seq<Indexed>)
    requires Sorted(sorted) && SameElements(sorted, WithIndex(es, d))
    ensures IsTiering(es, d, PushAll(sorted).0, PushAll(sorted).1)
  {
    PushAllBuilt(sorted, |sorted|);
    assert sorted[..|sorted|] == sorted;
    BuiltIsTiering(es, d, sorted, PushAll(sorted).0, PushAll(sorted).1);
  }

  lemma EntriesAtPSnoc(xs: seq<Indexed>, x: Indexed, p: nat)
    ensures EntriesOf(AtP(xs + [x], p)) == EntriesOf(AtP(xs, p)) + if p == x.priority then [x.entry] else []
  {
    FilterSnoc(xs, x, (y: Indexed) => y.priority == p);
  }

  // Another element of the last tier's priority.
  lemma PushSame(xs: seq<Indexed>, x: Indexed, tiers: seq<seq<Entry>>, ps: seq<nat>)
    requires BuiltFrom(xs, tiers, ps) && ps != [] && ps[|ps| - 1] == x.priority
    ensures BuiltFrom(xs + [x], tiers[|tiers| - 1 := tiers[|tiers| - 1] + [x.entry]], ps)
  {
    forall k | 0 <= k < |ps| ensures ps[k] == x.priority <==> k == |ps| - 1 {}
    forall p { EntriesAtPSnoc(xs, x, p); }
    assert forall y :: y in xs ==> y in xs + [x];
    forall p | p in ps ensures exists y :: y in xs + [x] && y.priority == p {
      var y :| y in xs && y.priority == p;
    }
  }

  // An element of a priority above all tiers.
  lemma PushNew(xs: seq<Indexed>, x: Indexed, tiers: seq<seq<Entry>>, ps: seq<nat>)
    requires BuiltFrom(xs, tiers, ps) && forall k :: 0 <= k < |ps| ==> ps[k] < x.priority
    ensures BuiltFrom(xs + [x], tiers + [[x.entry]], ps + [x.priority])
  {
    forall p { EntriesAtPSnoc(xs, x, p); }
    AtPEmpty(xs, x.priority);
    assert EntriesOf(AtP(xs, x.priority)) == [];
    assert forall y :: y in xs ==> y in xs + [x];
    assert x in xs + [x];
    forall p | p in ps + [x.priority] ensures exists y :: y in xs + [x] && y.priority == p {
      if p in ps {
        var y :| y in xs && y.priority == p;
      }
    }
  }

  // ---- what a tiering is worth -------------------------------------------------

  lemma HasMember(ps: seq<nat>)
    requires ps != []
    ensures exists p :: p in ps
  {
    assert ps[0] in ps;
  }

  lemma {:induction false} IncreasingUnique(ps: seq<nat>, qs: seq<nat>)
    requires StrictlyIncreasing(ps) && StrictlyIncreasing(qs)
    requires forall p :: p in ps <==> p in qs
    ensures ps == qs
    decreases |ps|
  {
    if ps != [] && qs != [] {
      var x, y := ps[|ps| - 1], qs[|qs| - 1];
      assert x in qs && y in ps;
      assert x == y;
      var ps', qs' := ps[..|ps| - 1], qs[..|qs| - 1];
      assert ps == ps' + [x] && qs == qs' + [y];
      assert x !in ps' && x !in qs';
      forall p ensures p in ps' <==> p in qs' {
        assert p in ps <==> p in ps' || p == x;
        assert p in qs <==> p in qs' || p == y;
      }
      IncreasingUnique(ps', qs');
    } else if ps != [] {
      HasMember(ps);
    } else if qs != [] {
      HasMember(qs);
    }
  }

  lemma TieringPriorities(es: seq<Entry>, d: Defaults, tiers: seq<seq<Entry>>, ps: seq<nat>, p: nat)
    requires IsTiering(es, d, tiers, ps)
    ensures p in ps <==> exists e :: e in es && Priority(e, d) == p
  {
    if p in ps {
      var k :| 0 <= k < |ps| && ps[k] == p;
      var e := tiers[k][0];
      FilterMember(es, (x: Entry) => Priority(x, d) == p, e);
    }
  }

  // The priority an entry gives for itself, else the registry's default.
  function OwnOrDefault(e: Entry, d: Defaults): nat {
    if e.priority.Some? then e.priority.value else d.priority
  }

  // Within a tier all entries have one priority; a later tier has a larger one.
  lemma TierOrder(es: seq<Entry>, d: Defaults, tiers: seq<seq<Entry>>, ps: seq<nat>, i: nat, j: nat, a: Entry, b: Entry)
    requires IsTiering(es, d, tiers, ps)
    requires i < |tiers| && j < |tiers| && a in tiers[i] && b in tiers[j]
    ensures OwnOrDefault(a, d) < OwnOrDefault(b, d) <==> i < j
    ensures OwnOrDefault(a, d) == OwnOrDefault(b, d) <==> i == j
  {
    FilterMember(es, (e: Entry) => Priority(e, d) == ps[i], a);
    FilterMember(es, (e: Entry) => Priority(e, d) == ps[j], b);
  }

  // The matched list has exactly one tiering.
  lemma TieringUnique(es: seq<Entry>, d: Defaults, t1: seq<seq<Entry>>, ps: seq<nat>, t2: seq<seq<Entry>>, qs: seq<nat>)
    requires IsTiering(es, d, t1, ps) && IsTiering(es, d, t2, qs)
    ensures t1 == t2 && ps == qs
  {
    forall p ensures p in ps <==> p in qs {
      TieringPriorities(es, d, t1, ps, p);
      TieringPriorities(es, d, t2, qs, p);
    }
    IncreasingUnique(ps, qs);
  }

  lemma {:induction false} FlattenMultiplicity(es: seq<Entry>, d: Defaults, ps: seq<nat>, tiers: seq<seq<Entry>>,
                                               e: Entry)
    requires |ps| == |tiers| && StrictlyIncreasing(ps)
    requires forall k :: 0 <= k < |tiers| ==> tiers[k] == AtPriority(es, d, ps[k])
    ensures multiset(Flatten(tiers))[e] == if Priority(e, d) in ps then multiset(es)[e] else 0
    decreases |ps|
  {
    if ps != [] {
      var n := |ps| - 1;
      FlattenMultiplicity(es, d, ps[..n], tiers[..n], e);
      FilterMultiplicity(es, (x: Entry) => Priority(x, d) == ps[n], e);
      assert ps == ps[..n] + [ps[n]];
      assert ps[n] !in ps[..n];
    }
  }

  // Nothing is lost or repeated by grouping: flattened, the tiers are a
  // permutation of the entries.
  lemma TieringConserves(es: seq<Entry>, d: Defaults, tiers: seq<seq<Entry>>, ps: seq<nat>)
    requires IsTiering(es, d, tiers, ps)
    ensures multiset(Flatten(tiers)) == multiset(es)
  {
    forall e ensures multiset(Flatten(tiers))[e] == multiset(es)[e] {
      FlattenMultiplicity(es, d, ps, tiers, e);
    }
  }

  lemma {:induction false} DistinctMultiplicity(hooks: seq<Entry>, e: Entry)
    requires Distinct(hooks)
    ensures multiset(hooks)[e] <= 1
    decreases |hooks|
  {
    if hooks != [] {
      var init, last := hooks[..|hooks| - 1], hooks[|hooks| - 1];
      DistinctMultiplicity(init, e);
      assert hooks == init + [last];
      forall i | 0 <= i < |init| ensures init[i] != last {
        assert !SameKey(hooks[i], hooks[|hooks| - 1]);
      }
    }
  }

  // The whole plan of an accepted registry: an entry that is enabled, for this
  // very event, and has no tool pattern or one that matches, is in the sync tiers or
  // in the async group, exactly once and never in both, and nothing else is.
  lemma PlanConserves(reg: HookRegistry, validRegex: string -> bool, event: string, tool: string,
                      regexMatches: (string, string) -> bool, tiers: seq<seq<Entry>>, ps: seq<nat>, e: Entry)
    requires Accepted(reg, validRegex)
    requires IsTiering(Filter(MatchPlugins(reg, event, tool, regexMatches), IsSync), reg.defaults, tiers, ps)
    ensures var n := if e in reg.hooks && e.enabled && e.event == event &&
                        (e.tool == None || regexMatches(e.tool.value, tool)) then 1 else 0;
            var matched := MatchPlugins(reg, event, tool, regexMatches);
            && multiset(Flatten(tiers))[e] == (if e.asyncFlag then 0 else n)
            && multiset(Filter(matched, IsAsync))[e] == (if e.asyncFlag then n else 0)
  {
    var matched := MatchPlugins(reg, event, tool, regexMatches);
    TieringConserves(Filter(matched, IsSync), reg.defaults, tiers, ps);
    FilterMultiplicity(matched, IsSync, e);
    FilterMultiplicity(matched, IsAsync, e);
    FilterMultiplicity(reg.hooks, (x: Entry) => Matches(x, event, tool, regexMatches), e);
    DistinctMultiplicity(reg.hooks, e);
    assert e in reg.hooks <==> multiset(reg.hooks)[e] > 0;
  }

  predicate InAsyncGroup(reg: HookRegistry, event: string, tool: string, regexMatches: (string, string) -> bool,
                         e: Entry)
  {
    e in Filter(MatchPlugins(reg, event, tool, regexMatches), IsAsync)
  }

  // No entry that can reach the async group has an effective blocking on_error,
  // exactly when the default does not block or every async entry overrides it:
  // the validator looks at the explicit field only.
  lemma AsyncNeverBlocks(reg: HookRegistry, validRegex: string -> bool)
    requires Accepted(reg, validRegex)
    ensures (forall event, tool, regexMatches, e {:trigger InAsyncGroup(reg, event, tool, regexMatches, e)} ::
               InAsyncGroup(reg, event, tool, regexMatches, e) ==>
                 e.onError == Some(Continue) || (e.onError == None && reg.defaults.onError == Continue))
            <==>
            (reg.defaults.onError == Continue ||
             forall e :: e in reg.hooks && e.enabled && e.asyncFlag ==> e.onError.Some?)
  {
    var always := (p: string, t: string) => true;
    forall event, tool, regexMatches, e {:trigger InAsyncGroup(reg, event, tool, regexMatches, e)}
      ensures InAsyncGroup(reg, event, tool, regexMatches, e) <==>
              e in reg.hooks && Matches(e, event, tool, regexMatches) && e.asyncFlag
    {
      FilterMember(MatchPlugins(reg, event, tool, regexMatches), IsAsync, e);
      FilterMember(reg.hooks, (x: Entry) => Matches(x, event, tool, regexMatches), e);
    }
    forall e | e in reg.hooks ensures e.asyncFlag && e.onError.Some? ==> e.onError == Some(Continue) {
      var i :| 0 <= i < |reg.hooks| && reg.hooks[i] == e;
      assert !AsyncConflict(e);
      assert e.onError.Some? ==> var o := e.onError.value; o.Continue? || o.Block? || o.BlockIfMarker?;
    }
    if e :| e in reg.hooks && e.enabled && e.asyncFlag && e.onError.None? {
      assert Matches(e, e.event, "", always);
      assert InAsyncGroup(reg, e.event, "", always, e);
    }
  }

  // Uniqueness is of (name, event, tool): one event can put two async entries
  // of the same name into the group.
  lemma AsyncNamesMayRepeat(validRegex: string -> bool, regexMatches: (string, string) -> bool)
    requires validRegex("Edit") && regexMatches("Edit", "Edit")
    ensures exists reg: HookRegistry, a: Entry, b: Entry ::
              && Accepted(reg, validRegex) && a.name == b.name && a != b
              && Filter(MatchPlugins(reg, "PostToolUse", "Edit", regexMatches), IsAsync) == [a, b]
  {
    var a := Entry("audit", "PostToolUse", None, None, true, None, true, FailOpen);
    var b := a.(tool := Some("Edit"));
    var reg := HookRegistry(REGISTRY_SCHEMA_VERSION, Defaults(Continue, 500), [a, b]);
    var matches := (e: Entry) => Matches(e, "PostToolUse", "Edit", regexMatches);
    assert [] + [a] == [a] && [a] + [b] == [a, b];
    FilterSnoc([], a, matches);
    FilterSnoc([a], b, matches);
    FilterSnoc([], a, IsAsync);
    FilterSnoc([a], b, IsAsync);
    assert Accepted(reg, validRegex);
  }
}
