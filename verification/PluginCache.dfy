// The compiled-module cache. A caller probes the file's mtime, looks the path
// up under the lock, and on a miss reads, compiles and inserts under the lock
// again; other callers and file rewrites run in between.
module PluginCache {
  import opened Wrappers

  // Versions of one path are numbered from 1 in the order they appear on disk.
  // A module is named by the version it was compiled from.
  datatype World = World(mtime: (string, nat) -> int, compiles: (string, nat) -> bool)

  datatype File = File(present: bool, version: nat)

  datatype Entry = Entry(mtime: int, version: nat)

  datatype LoadError = LoadError

  // begun and ended are the versions on disk when the call began and when it
  // returned; they are history, no step depends on them.
  datatype Pc =
    | Idle
    | Begun(begun: nat)
    | Probed(begun: nat, mtime: int)
    | Missed(begun: nat, mtime: int)
    | HasBytes(begun: nat, mtime: int, version: nat)
    | Done(begun: nat, result: Result<nat, LoadError>, ended: nat)

  datatype Caller = Caller(path: string, pc: Pc)

  datatype State = State(disk: map<string, File>, entries: map<string, Entry>, callers: seq<Caller>)

  // ProbeFails covers an absent file and an error of the probe, ReadFails any
  // error of the read. Lookup and CompileInsert hold the lock.
  datatype Move = Begin | Probe | ProbeFails | Lookup | Read | ReadFails | CompileInsert

  datatype Action =
    | Call(c: nat, move: Move)
    | Rewrite(path: string)
    | Delete(path: string)

  function OnDisk(s: State, path: string): File {
    if path in s.disk then s.disk[path] else File(false, 0)
  }

  function Goto(s: State, c: nat, pc: Pc): State
    requires c < |s.callers|
  {
    s.(callers := s.callers[c := s.callers[c].(pc := pc)])
  }

  // None when the action is not enabled.
  function CallNext(w: World, s: State, c: nat, move: Move): Option<State>
    requires c < |s.callers|
  {
    var path, pc := s.callers[c].path, s.callers[c].pc;
    var file := OnDisk(s, path);
    match pc
    case Idle =>
      if move == Begin then Some(Goto(s, c, Begun(file.version))) else None
    case Begun(b) =>
      if move == Probe && file.present then Some(Goto(s, c, Probed(b, w.mtime(path, file.version))))
      else if move == ProbeFails then Some(Goto(s, c, Done(b, Err(LoadError), file.version)))
      else None
    case Probed(b, mtime) =>
      if move != Lookup then None
      else if path in s.entries && s.entries[path].mtime == mtime
      then Some(Goto(s, c, Done(b, Ok(s.entries[path].version), file.version)))
      else Some(Goto(s, c, Missed(b, mtime)))
    case Missed(b, mtime) =>
      if move == Read && file.present then Some(Goto(s, c, HasBytes(b, mtime, file.version)))
      else if move == ReadFails then Some(Goto(s, c, Done(b, Err(LoadError), file.version)))
      else None
    case HasBytes(b, mtime, version) =>
      if move != CompileInsert then None
      else if !w.compiles(path, version) then Some(Goto(s, c, Done(b, Err(LoadError), file.version)))
      else Some(Goto(s.(entries := s.entries[path := Entry(mtime, version)]), c, Done(b, Ok(version), file.version)))
    case Done(_, _, _) => None
  }

  function Next(w: World, s: State, a: Action): Option<State> {
    match a
    case Call(c, move) => if c < |s.callers| then CallNext(w, s, c, move) else None
    case Rewrite(path) => Some(s.(disk := s.disk[path := File(true, OnDisk(s, path).version + 1)]))
    case Delete(path) => Some(s.(disk := s.disk[path := File(false, OnDisk(s, path).version)]))
  }

  function Run(w: World, s: State, actions: seq<Action>): Option<State> {
    if actions == [] then Some(s)
    else
      match Run(w, s, actions[..|actions| - 1])
      case None => None
      case Some(t) => Next(w, t, actions[|actions| - 1])
  }

  // Nothing on disk, nothing cached, one idle caller for each given path.
  function Start(paths: seq<string>): State {
    State(map[], map[], seq(|paths|, i requires 0 <= i < |paths| => Caller(paths[i], Idle)))
  }

  // Every returned module was compiled from a version no older than the one on
  // disk when the call began and no newer than the one there at its return.
  predicate Fresh(s: State) {
    forall c :: 0 <= c < |s.callers| && s.callers[c].pc.Done? && s.callers[c].pc.result.Ok? ==>
      s.callers[c].pc.begun <= s.callers[c].pc.result.value <= s.callers[c].pc.ended
  }

  // Version b of a path may repeat the mtime of an earlier version a only if
  // nothing from a up to b compiles.
  ghost predicate MtimesTell(w: World) {
    forall path, a: nat, c: nat, b: nat ::
        1 <= a <= c < b && w.mtime(path, a) == w.mtime(path, b) ==> !w.compiles(path, c)
  }

  // ---- safety ----------------------------------------------------------------

  // An mtime names some version v0, from first on, of which `version` is no
  // older: the mtime was read first, the bytes later.
  ghost predicate Stamped(w: World, path: string, mtime: int, first: nat, version: nat) {
    exists v0: nat :: 1 <= v0 && first <= v0 <= version && w.mtime(path, v0) == mtime
  }

  ghost predicate CallerOk(w: World, s: State, c: Caller) {
    var now := OnDisk(s, c.path).version;
    match c.pc
    case Idle => true
    case Begun(b) => b <= now
    case Probed(b, mtime) => Stamped(w, c.path, mtime, b, now)
    case Missed(b, mtime) => Stamped(w, c.path, mtime, b, now)
    case HasBytes(b, mtime, version) => Stamped(w, c.path, mtime, b, version) && version <= now
    case Done(b, result, ended) => result.Ok? ==> b <= result.value <= ended
  }

  ghost predicate EntryOk(w: World, s: State, path: string, e: Entry) {
    && w.compiles(path, e.version)
    && e.version <= OnDisk(s, path).version
    && Stamped(w, path, e.mtime, 0, e.version)
  }

  ghost predicate Inv(w: World, s: State) {
    && (forall path :: path in s.disk && s.disk[path].present ==> 1 <= s.disk[path].version)
    && (forall path :: path in s.entries ==> EntryOk(w, s, path, s.entries[path]))
    && forall c :: 0 <= c < |s.callers| ==> CallerOk(w, s, s.callers[c])
  }

  // A caller's step leaves the disk alone, so only its own caller is at stake.
  lemma CallerStep(w: World, s: State, i: nat, move: Move, t: State)
    requires MtimesTell(w) && Inv(w, s) && i < |s.callers| && CallNext(w, s, i, move) == Some(t)
    ensures CallerOk(w, t, t.callers[i])
  {
    var c := s.callers[i];
    var file := OnDisk(s, c.path);
    assert CallerOk(w, s, c);
    if move == Probe {
      assert 1 <= file.version && c.pc.begun <= file.version && w.mtime(c.path, file.version) == t.callers[i].pc.mtime;
    }
    if move == Lookup && t.callers[i].pc.Done? {
      var e := s.entries[c.path];
      var vp: nat :| 1 <= vp && c.pc.begun <= vp <= file.version && w.mtime(c.path, vp) == c.pc.mtime;
      var v0: nat :| 1 <= v0 && 0 <= v0 <= e.version && w.mtime(c.path, v0) == e.mtime;
      assert w.mtime(c.path, v0) == w.mtime(c.path, vp);
    }
  }

  lemma InsertedEntry(w: World, s: State, i: nat, t: State)
    requires Inv(w, s) && i < |s.callers| && CallNext(w, s, i, CompileInsert) == Some(t)
    ensures forall path :: path in t.entries ==> EntryOk(w, t, path, t.entries[path])
  {
    var path, pc := s.callers[i].path, s.callers[i].pc;
    assert CallerOk(w, s, s.callers[i]);
    var v0: nat :| 1 <= v0 && pc.begun <= v0 <= pc.version && w.mtime(path, v0) == pc.mtime;
    assert Stamped(w, path, pc.mtime, 0, pc.version);
    forall q | q in t.entries ensures EntryOk(w, t, q, t.entries[q]) {
      if q != path || !w.compiles(path, pc.version) { assert EntryOk(w, s, q, s.entries[q]); }
    }
  }

  lemma OthersKeepOk(w: World, s: State, i: nat, move: Move, t: State)
    requires Inv(w, s) && i < |s.callers| && CallNext(w, s, i, move) == Some(t)
    ensures t.disk == s.disk && |t.callers| == |s.callers|
    ensures forall c :: 0 <= c < |t.callers| && c != i ==> CallerOk(w, t, t.callers[c])
  {
    forall c | 0 <= c < |t.callers| && c != i ensures CallerOk(w, t, t.callers[c]) {
      assert CallerOk(w, s, s.callers[c]);
    }
  }

  lemma EntriesKeepOk(w: World, s: State, i: nat, move: Move, t: State)
    requires Inv(w, s) && i < |s.callers| && CallNext(w, s, i, move) == Some(t)
    ensures forall path :: path in t.entries ==> EntryOk(w, t, path, t.entries[path])
  {
    if move == CompileInsert {
      InsertedEntry(w, s, i, t);
    } else {
      assert t.entries == s.entries;
      forall path | path in t.entries ensures EntryOk(w, t, path, t.entries[path]) {
        assert EntryOk(w, s, path, s.entries[path]);
      }
    }
  }

  lemma CallKeepsInv(w: World, s: State, i: nat, move: Move, t: State)
    requires MtimesTell(w) && Inv(w, s) && i < |s.callers| && CallNext(w, s, i, move) == Some(t)
    ensures Inv(w, t)
  {
    CallerStep(w, s, i, move, t);
    OthersKeepOk(w, s, i, move, t);
    EntriesKeepOk(w, s, i, move, t);
  }

  lemma StampedStays(w: World, path: string, mtime: int, first: nat, version: nat, later: nat)
    requires Stamped(w, path, mtime, first, version) && version <= later
    ensures Stamped(w, path, mtime, first, later)
  {
    var v0: nat :| 1 <= v0 && first <= v0 <= version && w.mtime(path, v0) == mtime;
  }

  lemma DiskStep(w: World, s: State, a: Action, t: State)
    requires Inv(w, s) && Next(w, s, a) == Some(t)
    requires a.Rewrite? || a.Delete?
    ensures Inv(w, t)
  {
    assert forall path :: OnDisk(s, path).version <= OnDisk(t, path).version;
    forall c | 0 <= c < |t.callers| ensures CallerOk(w, t, t.callers[c]) {
      var caller := s.callers[c];
      assert CallerOk(w, s, caller);
      if caller.pc.Probed? || caller.pc.Missed? {
        StampedStays(w, caller.path, caller.pc.mtime, caller.pc.begun, OnDisk(s, caller.path).version,
            OnDisk(t, caller.path).version);
      }
    }
  }

  lemma StepKeepsInv(w: World, s: State, a: Action, t: State)
    requires MtimesTell(w) && Inv(w, s) && Next(w, s, a) == Some(t)
    ensures Inv(w, t)
  {
    match a {
      case Call(i, move) => CallKeepsInv(w, s, i, move, t);
      case Rewrite(_) => DiskStep(w, s, a, t);
      case Delete(_) => DiskStep(w, s, a, t);
    }
  }

  lemma {:induction false} RunKeepsInv(w: World, s: State, actions: seq<Action>, t: State)
    requires MtimesTell(w) && Inv(w, s) && Run(w, s, actions) == Some(t)
    ensures Inv(w, t)
    decreases |actions|
  {
    if actions != [] {
      var init := actions[..|actions| - 1];
      RunKeepsInv(w, s, init, Run(w, s, init).value);
      StepKeepsInv(w, Run(w, s, init).value, actions[|actions| - 1], t);
    }
  }

  // ---- the condition is exact ----------------------------------------------

  lemma {:induction false} RunConcat(w: World, s: State, a: seq<Action>, b: seq<Action>)
    ensures Run(w, s, a + b) == match Run(w, s, a) case None => None case Some(t) => Run(w, t, b)
    decreases |b|
  {
    if b == [] {
      assert a + b == a;
    } else {
      assert (a + b)[..|a + b| - 1] == a + b[..|b| - 1];
      RunConcat(w, s, a, b[..|b| - 1]);
    }
  }

  function Rewrites(path: string, n: nat): seq<Action> {
    seq(n, _ => Rewrite(path))
  }

  lemma {:induction false} RunRewrites(w: World, s: State, path: string, n: nat)
    requires 0 < n
    ensures Run(w, s, Rewrites(path, n)) == Some(s.(disk := s.disk[path := File(true, OnDisk(s, path).version + n)]))
    decreases n
  {
    var init := Rewrites(path, n)[..n - 1];
    assert init == Rewrites(path, n - 1);
    assert Rewrites(path, n)[n - 1] == Rewrite(path);
    if n == 1 {
      assert init == [];
    } else {
      RunRewrites(w, s, path, n - 1);
      var t := Run(w, s, init).value;
      assert t.disk[path := File(true, OnDisk(s, path).version + n)] ==
          s.disk[path := File(true, OnDisk(s, path).version + n)];
    }
  }

  lemma RunStep(w: World, s: State, a: seq<Action>, t: State, b: Action, u: State)
    requires Run(w, s, a) == Some(t) && Next(w, t, b) == Some(u)
    ensures Run(w, s, a + [b]) == Some(u)
  {
    assert (a + [b])[..|a|] == a;
  }

  // Rewrite until version `to` is on disk.
  lemma RunToVersion(w: World, s: State, a: seq<Action>, t: State, path: string, to: nat)
    returns (b: seq<Action>, u: State)
    requires Run(w, s, a) == Some(t) && OnDisk(t, path).version <= to
    requires OnDisk(t, path).version < to || OnDisk(t, path).present
    ensures Run(w, s, b) == Some(u) && u.entries == t.entries && u.callers == t.callers
    ensures OnDisk(u, path) == File(true, to)
  {
    var n := to - OnDisk(t, path).version;
    b, u := a, t;
    if n > 0 {
      RunRewrites(w, t, path, n);
      RunConcat(w, s, a, Rewrites(path, n));
      b, u := a + Rewrites(path, n), t.(disk := t.disk[path := File(true, to)]);
    }
  }

  // Caller i begins, probes version v and looks the path up.
  lemma RunLookup(w: World, s: State, a: seq<Action>, t: State, i: nat, path: string, v: nat)
    returns (b: seq<Action>, u: State)
    requires Run(w, s, a) == Some(t) && OnDisk(t, path) == File(true, v)
    requires i < |t.callers| && t.callers[i] == Caller(path, Idle)
    ensures Run(w, s, b) == Some(u) && u.entries == t.entries && u.disk == t.disk
    ensures var hit := path in t.entries && t.entries[path].mtime == w.mtime(path, v);
            u.callers == t.callers[i := Caller(path, if hit then Done(v, Ok(t.entries[path].version), v)
                else Missed(v, w.mtime(path, v)))]
  {
    var t1 := Goto(t, i, Begun(v));
    RunStep(w, s, a, t, Call(i, Begin), t1);
    var t2 := Goto(t1, i, Probed(v, w.mtime(path, v)));
    RunStep(w, s, a + [Call(i, Begin)], t1, Call(i, Probe), t2);
    u := CallNext(w, t2, i, Lookup).value;
    RunStep(w, s, a + [Call(i, Begin)] + [Call(i, Probe)], t2, Call(i, Lookup), u);
    b := a + [Call(i, Begin)] + [Call(i, Probe)] + [Call(i, Lookup)];
  }

  // Caller i, which missed, reads version v and inserts it under its old mtime.
  lemma RunInsert(w: World, s: State, a: seq<Action>, t: State, i: nat, path: string, v: nat)
    returns (b: seq<Action>, u: State)
    requires Run(w, s, a) == Some(t) && OnDisk(t, path) == File(true, v) && w.compiles(path, v)
    requires i < |t.callers| && t.callers[i].path == path && t.callers[i].pc.Missed?
    ensures Run(w, s, b) == Some(u) && u.disk == t.disk
    ensures |u.callers| == |t.callers| && forall j :: 0 <= j < |t.callers| && j != i ==> u.callers[j] == t.callers[j]
    ensures u.entries == t.entries[path := Entry(t.callers[i].pc.mtime, v)]
  {
    var t1 := Goto(t, i, HasBytes(t.callers[i].pc.begun, t.callers[i].pc.mtime, v));
    RunStep(w, s, a, t, Call(i, Read), t1);
    u := CallNext(w, t1, i, CompileInsert).value;
    RunStep(w, s, a + [Call(i, Read)], t1, Call(i, CompileInsert), u);
    b := a + [Call(i, Read)] + [Call(i, CompileInsert)];
  }

  // Caller 0 probes version a and reads version c; when b is on disk, caller 1
  // finds a's mtime again and is handed the module of c.
  lemma StaleRun(w: World, path: string, a: nat, c: nat, b: nat) returns (actions: seq<Action>, t: State)
    requires 1 <= a <= c < b && w.mtime(path, a) == w.mtime(path, b) && w.compiles(path, c)
    ensures Run(w, Start([path, path]), actions) == Some(t)
    ensures |t.callers| == 2 && t.callers[1].pc == Done(b, Ok(c), b)
  {
    var s := Start([path, path]);
    actions, t := RunToVersion(w, s, [], s, path, a);
    actions, t := RunLookup(w, s, actions, t, 0, path, a);
    actions, t := RunToVersion(w, s, actions, t, path, c);
    actions, t := RunInsert(w, s, actions, t, 0, path, c);
    actions, t := RunToVersion(w, s, actions, t, path, b);
    actions, t := RunLookup(w, s, actions, t, 1, path, b);
  }

  // Over all interleavings of any callers with rewrites and deletions, every
  // returned module is fresh, if and only if the mtimes tell the versions apart.
  lemma FreshIffMtimesTell(w: World)
    ensures MtimesTell(w) <==>
            forall paths, actions, t {:trigger Run(w, Start(paths), actions), Fresh(t)} ::
              Run(w, Start(paths), actions) == Some(t) ==> Fresh(t)
  {
    if MtimesTell(w) {
      forall paths, actions, t | Run(w, Start(paths), actions) == Some(t) ensures Fresh(t) {
        RunKeepsInv(w, Start(paths), actions, t);
        forall c | 0 <= c < |t.callers| && t.callers[c].pc.Done? && t.callers[c].pc.result.Ok?
          ensures t.callers[c].pc.begun <= t.callers[c].pc.result.value <= t.callers[c].pc.ended
        {
          assert CallerOk(w, t, t.callers[c]);
        }
      }
    } else {
      var path, a: nat, c: nat, b: nat :|
        1 <= a <= c < b && w.mtime(path, a) == w.mtime(path, b) && w.compiles(path, c);
      var actions, t := StaleRun(w, path, a, c, b);
      assert Run(w, Start([path, path]), actions) == Some(t);
      assert !Fresh(t);
    }
  }

  // ---- what a call returns -------------------------------------------------------

  // What a caller has last been told by the disk or the cache.
  datatype Told = Nothing | Failure | Hit(version: nat) | Bytes(version: nat)

  // By one step of its own, in state u.
  function ToldBy(u: State, c: nat, move: Move, before: Told): Told
    requires c < |u.callers|
  {
    var path, pc := u.callers[c].path, u.callers[c].pc;
    match move
    case ProbeFails => Failure
    case ReadFails => Failure
    case Read => Bytes(OnDisk(u, path).version)
    case Lookup =>
      if path in u.entries && pc.Probed? && u.entries[path].mtime == pc.mtime then Hit(u.entries[path].version)
      else before
    case _ => before
  }

  function LastTold(w: World, s: State, actions: seq<Action>, c: nat): Told
    decreases |actions|
  {
    if actions == [] then Nothing
    else
      var init, a := actions[..|actions| - 1], actions[|actions| - 1];
      var before := LastTold(w, s, init, c);
      if IsOwn(a, c) && Run(w, s, init).Some? && c < |Run(w, s, init).value.callers|
      then ToldBy(Run(w, s, init).value, c, a.move, before) else before
  }

  // Where a caller is in the code goes with what it was told.
  predicate FollowsFrom(w: World, told: Told, caller: Caller) {
    match caller.pc
    case HasBytes(_, _, v) => told == Bytes(v)
    case Done(_, result, _) =>
      (match told
       case Nothing => false
       case Failure => result == Err(LoadError)
       case Hit(v) => result == Ok(v)
       case Bytes(v) => result == if w.compiles(caller.path, v) then Ok(v) else Err(LoadError))
    case _ => told == Nothing
  }

  lemma OwnStepFollows(w: World, u: State, c: nat, move: Move, t: State, told: Told)
    requires c < |u.callers| && CallNext(w, u, c, move) == Some(t) && FollowsFrom(w, told, u.callers[c])
    ensures |t.callers| == |u.callers| && FollowsFrom(w, ToldBy(u, c, move, told), t.callers[c])
  {
  }

  // The result of a finished call, in every case: an error if the probe or the read
  // failed; the module it found, if it found one; else the version it read, exactly
  // if that compiles.
  lemma {:induction false} CallResult(w: World, s: State, actions: seq<Action>, t: State, c: nat)
    requires Run(w, s, actions) == Some(t) && c < |s.callers| && s.callers[c].pc.Idle?
    ensures |t.callers| == |s.callers| && FollowsFrom(w, LastTold(w, s, actions, c), t.callers[c])
    decreases |actions|
  {
    if actions != [] {
      var init, a := actions[..|actions| - 1], actions[|actions| - 1];
      var u := Run(w, s, init).value;
      CallResult(w, s, init, u, c);
      if IsOwn(a, c) {
        OwnStepFollows(w, u, c, a.move, t, LastTold(w, s, init, c));
      } else {
        OthersStep(w, u, a, t, c);
      }
    }
  }

  predicate IsOwn(a: Action, c: nat) {
    a.Call? && a.c == c
  }

  lemma OthersStep(w: World, s: State, a: Action, t: State, c: nat)
    requires Next(w, s, a) == Some(t) && !IsOwn(a, c) && c < |s.callers|
    ensures |t.callers| == |s.callers| && t.callers[c] == s.callers[c]
  {
  }

  // An undisturbed call: what it returns and what it leaves in the cache, on the
  // file as it is and the flags of the probe and the read.
  predicate ProbesAlone(w: World, file: File, path: string, entries: map<string, Entry>, probeFails: bool,
                        found: Option<Result<nat, LoadError>>)
  {
    if !file.present || probeFails then found == Some(Err(LoadError))
    else if path in entries && entries[path].mtime == w.mtime(path, file.version)
    then found == Some(Ok(entries[path].version))
    else found.None?
  }

  predicate ReadsAlone(w: World, file: File, path: string, mtime: int, entries: map<string, Entry>, readFails: bool,
                       r: Result<nat, LoadError>, after: map<string, Entry>)
  {
    if !file.present || readFails || !w.compiles(path, file.version) then r == Err(LoadError) && after == entries
    else r == Ok(file.version) && after == entries[path := Entry(mtime, file.version)]
  }

  // The cache beside everything else that acts on it: the files, and the other
  // callers with what they hold.
  class ModuleCache {
    const w: World
    var disk: map<string, File>
    var entries: map<string, Entry>
    var callers: seq<Caller>

    function Snapshot(): State
      reads this
    {
      State(disk, entries, callers)
    }

    constructor (w: World, paths: seq<string>)
      ensures this.w == w && Snapshot() == Start(paths)
    {
      this.w := w;
      disk, entries, callers := map[], map[], seq(|paths|, i requires 0 <= i < |paths| => Caller(paths[i], Idle));
    }

    // Others act, in any way but as caller c; what is not enabled does not happen.
    method Others(batch: seq<Action>, c: nat, ghost s: State, ghost done: seq<Action>)
      returns (ghost actions: seq<Action>)
      requires c < |callers| && Run(w, s, done) == Some(Snapshot())
      modifies this
      ensures |callers| == old(|callers|) && callers[c] == old(callers[c])
      ensures Run(w, s, actions) == Some(Snapshot())
      ensures batch == [] ==> Snapshot() == old(Snapshot())
    {
      actions := done;
      for n := 0 to |batch|
        invariant |callers| == old(|callers|) && callers[c] == old(callers[c])
        invariant Run(w, s, actions) == Some(Snapshot())
        invariant batch == [] ==> Snapshot() == old(Snapshot())
      {
        var a := batch[n];
        var next := Next(w, Snapshot(), a);
        if !IsOwn(a, c) && next.Some? {
          RunStep(w, s, actions, Snapshot(), a, next.value);
          OthersStep(w, Snapshot(), a, next.value, c);
          actions := actions + [a];
          disk, entries, callers := next.value.disk, next.value.entries, next.value.callers;
        }
      }
    }

    // One step of the caller itself has brought it to pc.
    method Goes(c: nat, pc: Pc, ghost move: Move, ghost s: State, ghost done: seq<Action>)
      returns (ghost actions: seq<Action>)
      requires c < |callers| && Run(w, s, done) == Some(Snapshot())
      requires CallNext(w, Snapshot(), c, move) == Some(Goto(Snapshot(), c, pc))
      modifies this`callers
      ensures callers == old(callers)[c := Caller(old(callers)[c].path, pc)]
      ensures Run(w, s, actions) == Some(Snapshot())
    {
      RunStep(w, s, done, Snapshot(), Call(c, move), Goto(Snapshot(), c, pc));
      callers := callers[c := callers[c].(pc := pc)];
      actions := done + [Call(c, move)];
    }

    // The first half: done, or a miss that has recorded the mtime.
    method ProbeAndLookup(c: nat, others: seq<seq<Action>>, probeFails: bool)
      returns (found: Option<Result<nat, LoadError>>, ghost actions: seq<Action>)
      requires c < |callers| && callers[c].pc == Idle && |others| == 2
      modifies this
      ensures Run(w, old(Snapshot()), actions) == Some(Snapshot())
      ensures c < |callers| && callers[c].path == old(callers[c]).path
      ensures var begun := OnDisk(old(Snapshot()), callers[c].path).version;
              if found.Some? then callers[c].pc == Done(begun, found.value, OnDisk(Snapshot(), callers[c].path).version)
              else callers[c].pc.Missed? && callers[c].pc.begun == begun
      ensures others == [[], []] ==>
                && disk == old(disk) && entries == old(entries)
                && var path := callers[c].path;
                   var file := OnDisk(old(Snapshot()), path);
                   && ProbesAlone(w, file, path, entries, probeFails, found)
                   && (found.None? ==> callers[c].pc.mtime == w.mtime(path, file.version))
    {
      ghost var s := Snapshot();
      var path := callers[c].path;
      var begun := OnDisk(Snapshot(), path).version;
      actions := Goes(c, Begun(begun), Begin, s, []);
      actions := Others(others[0], c, s, actions);
      var file := OnDisk(Snapshot(), path);
      if !file.present || probeFails {
        found := Some(Err(LoadError));
        actions := Goes(c, Done(begun, Err(LoadError), file.version), ProbeFails, s, actions);
        return;
      }
      var mtime := w.mtime(path, file.version);
      actions := Goes(c, Probed(begun, mtime), Probe, s, actions);
      actions := Others(others[1], c, s, actions);
      found, actions := LookUp(c, s, actions);
    }

    // The lookup, under the lock.
    method LookUp(c: nat, ghost s: State, ghost done: seq<Action>)
      returns (found: Option<Result<nat, LoadError>>, ghost actions: seq<Action>)
      requires c < |callers| && callers[c].pc.Probed? && Run(w, s, done) == Some(Snapshot())
      modifies this`callers
      ensures Run(w, s, actions) == Some(Snapshot()) && |callers| == old(|callers|)
      ensures var Caller(path, Probed(begun, mtime)) := old(callers[c]);
              if path in entries && entries[path].mtime == mtime
              then
                && found == Some(Ok(entries[path].version))
                && callers[c] == Caller(path, Done(begun, found.value, OnDisk(old(Snapshot()), path).version))
              else found.None? && callers[c] == Caller(path, Missed(begun, mtime))
    {
      var path, begun, mtime := callers[c].path, callers[c].pc.begun, callers[c].pc.mtime;
      if path in entries && entries[path].mtime == mtime {
        found := Some(Ok(entries[path].version));
        actions := Goes(c, Done(begun, found.value, OnDisk(Snapshot(), path).version), Lookup, s, done);
      } else {
        found := None;
        actions := Goes(c, Missed(begun, mtime), Lookup, s, done);
      }
    }

    // The second half. The entry pairs the mtime of the probe with these bytes.
    method ReadAndInsert(c: nat, others: seq<seq<Action>>, readFails: bool, ghost s: State, ghost done: seq<Action>)
      returns (r: Result<nat, LoadError>, ghost actions: seq<Action>)
      requires c < |callers| && callers[c].pc.Missed? && |others| == 2
      requires Run(w, s, done) == Some(Snapshot())
      modifies this
      ensures Run(w, s, actions) == Some(Snapshot())
      ensures c < |callers| && var was := old(callers[c]);
              callers[c] == Caller(was.path, Done(was.pc.begun, r, OnDisk(Snapshot(), was.path).version))
      ensures others == [[], []] ==>
                && disk == old(disk)
                && var was := old(callers[c]);
                   var file := OnDisk(old(Snapshot()), was.path);
                   ReadsAlone(w, file, was.path, was.pc.mtime, old(entries), readFails, r, entries)
    {
      var path, begun, mtime := callers[c].path, callers[c].pc.begun, callers[c].pc.mtime;
      actions := Others(others[0], c, s, done);
      var file := OnDisk(Snapshot(), path);
      if !file.present || readFails {
        r := Err(LoadError);
        actions := Goes(c, Done(begun, r, file.version), ReadFails, s, actions);
        return;
      }
      var compiled := file.version;
      actions := Goes(c, HasBytes(begun, mtime, compiled), Read, s, actions);
      actions := Others(others[1], c, s, actions);
      var now := OnDisk(Snapshot(), path).version;
      if !w.compiles(path, compiled) {
        r := Err(LoadError);
        actions := Goes(c, Done(begun, r, now), CompileInsert, s, actions);
        return;
      }
      r := Ok(compiled);
      actions := Inserts(c, Entry(mtime, compiled), Done(begun, r, now), s, actions);
    }

    // The insert, and with it the end of the call.
    method Inserts(c: nat, entry: Entry, pc: Pc, ghost s: State, ghost done: seq<Action>)
      returns (ghost actions: seq<Action>)
      requires c < |callers| && Run(w, s, done) == Some(Snapshot())
      requires CallNext(w, Snapshot(), c, CompileInsert) ==
               Some(Goto(Snapshot().(entries := entries[callers[c].path := entry]), c, pc))
      modifies this`entries, this`callers
      ensures callers == old(callers)[c := Caller(old(callers)[c].path, pc)]
      ensures entries == old(entries)[old(callers)[c].path := entry]
      ensures Run(w, s, actions) == Some(Snapshot())
    {
      RunStep(w, s, done, Snapshot(), Call(c, CompileInsert), CallNext(w, Snapshot(), c, CompileInsert).value);
      entries := entries[callers[c].path := entry];
      callers := callers[c := callers[c].(pc := pc)];
      actions := done + [Call(c, CompileInsert)];
    }

    // The call as the code performs it, the lock held for the lookup and for the
    // insert only; others act wherever it is not. Under any interference it is a
    // run of the machine, and if mtimes tell versions apart, what it returns is no
    // older than the file when it began and no newer than when it returned.
    method GetOrCompile(c: nat, others: seq<seq<Action>>, probeFails: bool, readFails: bool)
      returns (r: Result<nat, LoadError>, ghost actions: seq<Action>)
      requires c < |callers| && callers[c].pc == Idle && |others| == 4
      modifies this
      ensures Run(w, old(Snapshot()), actions) == Some(Snapshot())
      ensures c < |callers| && var path := old(callers[c]).path;
              callers[c] == Caller(path,
                  Done(OnDisk(old(Snapshot()), path).version, r, OnDisk(Snapshot(), path).version))
      ensures MtimesTell(w) && Inv(w, old(Snapshot())) ==>
                && Inv(w, Snapshot())
                && (r.Ok? ==> OnDisk(old(Snapshot()), old(callers[c]).path).version <= r.value
                              <= OnDisk(Snapshot(), old(callers[c]).path).version)
      ensures FollowsFrom(w, LastTold(w, old(Snapshot()), actions, c), callers[c])
      ensures others == [[], [], [], []] ==>
                && disk == old(disk)
                && var path := old(callers[c]).path;
                   var file := OnDisk(old(Snapshot()), path);
                   || (ProbesAlone(w, file, path, old(entries), probeFails, Some(r)) && entries == old(entries))
                   || (ProbesAlone(w, file, path, old(entries), probeFails, None) &&
                       ReadsAlone(w, file, path, w.mtime(path, file.version), old(entries), readFails, r, entries))
    {
      ghost var s := Snapshot();
      var found;
      found, actions := ProbeAndLookup(c, others[..2], probeFails);
      if found.Some? {
        r := found.value;
      } else {
        r, actions := ReadAndInsert(c, others[2..], readFails, s, actions);
      }
      CallResult(w, s, actions, Snapshot(), c);
      if MtimesTell(w) && Inv(w, s) {
        RunKeepsInv(w, s, actions, Snapshot());
        assert CallerOk(w, Snapshot(), callers[c]);
      }
    }
  }
}
