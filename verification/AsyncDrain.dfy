// The async group: independent tasks report over an unbounded channel, the
// dispatcher collects until all senders are gone or the drain timer fires, and
// then accounts for every entry it spawned.
module AsyncDrain {
  import opened Wrappers
  import opened Outcomes

  // What a task sends. `entry` is the position of its entry in the async group;
  // the dispatcher only ever looks at the name.
  datatype Outcome = Outcome(entry: nat, name: string, result: PluginResult)

  // Draining, or Stopped with the number of outcomes sent by then.
  datatype Loop = Draining | Stopped(sentThen: nat)

  // running: tasks that have not reported; senders: channel ends not dropped.
  datatype State = State(
    names: seq<string>, running: set<nat>, senders: set<nat>, panicked: set<nat>,
    sent: seq<Outcome>, channel: seq<Outcome>, received: seq<Outcome>,
    timerFired: bool, loop: Loop)

  datatype Action =
    | Sends(i: nat, result: PluginResult)
    | Panics(i: nat)
    | DropsSender(i: nat)
    | TimerFires
    | Poll

  function Entries(n: nat): (r: set<nat>)
    ensures forall i: nat :: i in r <==> i < n
  {
    if n == 0 then {} else Entries(n - 1) + {n - 1}
  }

  function Start(names: seq<string>): State {
    State(names, Entries(|names|), Entries(|names|), {}, [], [], [], false, Draining)
  }

  // Poll is one turn of the biased select: the channel first, and the timer
  // only when the channel has nothing and is still open. None: not enabled,
  // which for Poll means that the loop sleeps or has ended.
  function Next(s: State, a: Action): Option<State> {
    match a
    case Sends(i, result) =>
      if i in s.running && i < |s.names| then
        var o := Outcome(i, s.names[i], result);
        Some(s.(running := s.running - {i}, sent := s.sent + [o], channel := s.channel + [o]))
      else None
    case Panics(i) =>
      if i in s.running then Some(s.(running := s.running - {i}, panicked := s.panicked + {i})) else None
    case DropsSender(i) =>
      if i in s.senders && i !in s.running then Some(s.(senders := s.senders - {i})) else None
    case TimerFires => Some(s.(timerFired := true))
    case Poll =>
      if s.loop.Stopped? then None
      else if s.channel != [] then Some(s.(received := s.received + [s.channel[0]], channel := s.channel[1..]))
      else if s.senders == {} || s.timerFired then Some(s.(loop := Stopped(|s.sent|)))
      else None
  }

  function Run(s: State, actions: seq<Action>): Option<State> {
    if actions == [] then Some(s)
    else
      match Run(s, actions[..|actions| - 1])
      case None => None
      case Some(t) => Next(t, actions[|actions| - 1])
  }

  predicate Reported(os: seq<Outcome>, i: nat) {
    exists n :: 0 <= n < |os| && os[n].entry == i
  }

  ghost predicate Inv(s: State) {
    && s.received + s.channel == s.sent
    && (forall n :: 0 <= n < |s.sent| ==> s.sent[n].entry < |s.names| && s.sent[n].name == s.names[s.sent[n].entry])
    && (forall m, n :: 0 <= m < n < |s.sent| ==> s.sent[m].entry != s.sent[n].entry)
    && s.running <= s.senders && s.running <= Entries(|s.names|)
    && (forall i: nat :: i < |s.names| ==> i in s.running || i in s.panicked || Reported(s.sent, i))
    && (forall i: nat :: i in s.running || i in s.panicked ==> !Reported(s.sent, i))
    && s.running !! s.panicked
    && (s.loop.Stopped? ==>
          && |s.received| == s.loop.sentThen
          && (s.timerFired || s.running == {}))
  }

  lemma ReportedSnoc(os: seq<Outcome>, o: Outcome)
    ensures forall k: nat :: Reported(os + [o], k) <==> Reported(os, k) || k == o.entry
  {
    assert (os + [o])[|os|] == o;
    forall k: nat ensures Reported(os + [o], k) <==> Reported(os, k) || k == o.entry {
      if n :| 0 <= n < |os| && os[n].entry == k {
        assert (os + [o])[n].entry == k;
      }
      if n :| 0 <= n < |os| && (os + [o])[n].entry == k {
        assert os[n].entry == k;
      }
    }
  }

  lemma SendKeepsInv(s: State, i: nat, result: PluginResult, t: State)
    requires Inv(s) && Next(s, Sends(i, result)) == Some(t)
    ensures Inv(t)
  {
    var o := Outcome(i, s.names[i], result);
    assert t.sent == s.sent + [o] == s.received + (s.channel + [o]);
    ReportedSnoc(s.sent, o);
    forall m | 0 <= m < |s.sent| ensures s.sent[m].entry != i {
      assert !Reported(s.sent, i);
    }
  }

  lemma StepKeepsInv(s: State, a: Action, t: State)
    requires Inv(s) && Next(s, a) == Some(t)
    ensures Inv(t)
  {
    match a {
      case Sends(i, result) => SendKeepsInv(s, i, result, t);
      case Poll =>
        if s.channel != [] {
          assert s.received + s.channel == (s.received + [s.channel[0]]) + s.channel[1..];
        }
      case _ =>
    }
  }

  lemma {:induction false} RunKeepsInv(names: seq<string>, actions: seq<Action>, s: State)
    requires Run(Start(names), actions) == Some(s)
    ensures Inv(s) && s.names == names
    decreases |actions|
  {
    if actions != [] {
      var before := Run(Start(names), actions[..|actions| - 1]).value;
      RunKeepsInv(names, actions[..|actions| - 1], before);
      StepKeepsInv(before, actions[|actions| - 1], s);
    }
  }

  predicate Reports(names: seq<string>, a: Action, o: Outcome) {
    o.entry < |names| && o.name == names[o.entry] && a == Sends(o.entry, o.result)
  }

  lemma StepSends(s: State, a: Action, t: State, o: Outcome)
    requires Next(s, a) == Some(t)
    ensures o in t.sent <==> o in s.sent || Reports(s.names, a, o)
  {
  }

  // What is sent is what the tasks reported, each under its own name.
  lemma {:induction false} SentExact(names: seq<string>, actions: seq<Action>, s: State, o: Outcome)
    requires Run(Start(names), actions) == Some(s)
    ensures o in s.sent <==> exists n :: 0 <= n < |actions| && Reports(names, actions[n], o)
    decreases |actions|
  {
    if actions != [] {
      var init, last := actions[..|actions| - 1], actions[|actions| - 1];
      var before := Run(Start(names), init).value;
      SentExact(names, init, before, o);
      RunKeepsInv(names, init, before);
      StepSends(before, last, s, o);
      if n :| 0 <= n < |init| && Reports(names, init[n], o) {
        assert Reports(names, actions[n], o);
      }
      if n :| 0 <= n < |actions| && Reports(names, actions[n], o) {
        assert n < |init| ==> Reports(names, init[n], o);
      }
    }
  }

  // No outcome is lost, duplicated or reordered, and when the loop has stopped
  // it has collected everything enqueued before its last poll; without the
  // timer, that is every task that did not panic.
  lemma DrainCollects(names: seq<string>, actions: seq<Action>, s: State)
    requires Run(Start(names), actions) == Some(s)
    ensures s.received + s.channel == s.sent
    ensures s.loop.Stopped? ==> s.loop.sentThen <= |s.sent| && s.received == s.sent[..s.loop.sentThen]
    ensures s.loop.Stopped? && !s.timerFired ==>
              s.received == s.sent && forall i: nat :: i < |names| ==> (Reported(s.received, i) <==> i !in s.panicked)
  {
    RunKeepsInv(names, actions, s);
    if s.loop.Stopped? {
      assert s.sent[..|s.received|] == s.received;
      if !s.timerFired {
        StoppedWithoutTimer(names, actions, s);
      }
    }
  }

  lemma {:induction false} StoppedWithoutTimer(names: seq<string>, actions: seq<Action>, s: State)
    requires Run(Start(names), actions) == Some(s) && s.loop.Stopped? && !s.timerFired
    ensures s.received == s.sent && s.running == {}
    decreases |actions|
  {
    RunKeepsInv(names, actions, s);
    if actions != [] {
      var init, last := actions[..|actions| - 1], actions[|actions| - 1];
      var before := Run(Start(names), init).value;
      RunKeepsInv(names, init, before);
      if before.loop.Stopped? {
        StoppedWithoutTimer(names, init, before);
      } else {
        assert last == Poll && before.channel == [];
      }
    }
  }

  // ---- when the loop ends --------------------------------------------------

  // It sleeps exactly while nothing has been sent that it has not taken, some
  // sender is left, and the timer has not fired; else it takes the oldest outcome,
  // and without one it ends.
  lemma SleepsIff(s: State)
    requires s.loop.Draining?
    ensures Next(s, Poll).None? <==> s.channel == [] && s.senders != {} && !s.timerFired
    ensures Next(s, Poll).Some? ==>
              var t := Next(s, Poll).value;
              if s.channel == [] then t.loop.Stopped? && t.received == s.received
              else
                && t.loop.Draining? && t.received == s.received + [s.channel[0]]
                && [s.channel[0]] + t.channel == s.channel
  {
  }

  function Polls(actions: seq<Action>): nat {
    if actions == [] then 0
    else Polls(actions[..|actions| - 1]) + if actions[|actions| - 1] == Poll then 1 else 0
  }

  // k turns after state s, in which all senders were gone: each took one outcome,
  // and the one after the last of them ended the loop.
  predicate Taken(s: State, k: nat, t: State) {
    var n := |s.channel|;
    && k <= n + 1
    && (t.loop.Stopped? <==> k == n + 1)
    && t.received == s.received + s.channel[..if k <= n then k else n]
    && t.channel == s.channel[if k <= n then k else n..]
    && t.sent == s.sent && t.senders == {} && t.running == {}
  }

  lemma TakenStep(s: State, k: nat, u: State, a: Action, t: State)
    requires Taken(s, k, u) && Next(u, a) == Some(t)
    ensures Taken(s, if a == Poll then k + 1 else k, t)
  {
    var n := |s.channel|;
    if a == Poll && k < n {
      assert s.channel[..k + 1] == s.channel[..k] + [s.channel[k]];
      assert s.channel[k..][1..] == s.channel[k + 1..];
    }
  }

  // Timer or no timer, and whatever else happens in between.
  lemma {:induction false} ClosedChannelStops(names: seq<string>, before: seq<Action>, s: State,
                                              more: seq<Action>, t: State)
    requires Run(Start(names), before) == Some(s) && s.loop.Draining? && s.senders == {}
    requires Run(s, more) == Some(t)
    ensures Taken(s, Polls(more), t)
    decreases |more|
  {
    if more == [] {
      RunKeepsInv(names, before, s);
      assert s.running <= s.senders;
      assert s.received + s.channel[..0] == s.received && s.channel[0..] == s.channel;
    } else {
      var init := more[..|more| - 1];
      ClosedChannelStops(names, before, s, init, Run(s, init).value);
      TakenStep(s, Polls(init), Run(s, init).value, more[|more| - 1], t);
    }
  }

  // ---- the loop itself -----------------------------------------------------

  // A schedule says what happens before the n-th turn of the loop: the actions
  // of schedule[n], except those that are not enabled.
  function Happen(s: State, batch: seq<Action>): State {
    if batch == [] then s
    else
      var t, a := Happen(s, batch[..|batch| - 1]), batch[|batch| - 1];
      if a == Poll then t else match Next(t, a) case None => t case Some(u) => u
  }

  function Turn(s: State): State {
    match Next(s, Poll) case None => s case Some(t) => t
  }

  function DrainSpec(s: State, schedule: seq<seq<Action>>): State {
    if schedule == [] then s
    else
      var t := DrainSpec(s, schedule[..|schedule| - 1]);
      if t.loop.Stopped? then t else Turn(Happen(t, schedule[|schedule| - 1]))
  }

  // What the tasks and the timer do under a schedule, whoever listens.
  function Tasks(names: seq<string>, schedule: seq<seq<Action>>): State {
    if schedule == [] then Start(names)
    else Happen(Tasks(names, schedule[..|schedule| - 1]), schedule[|schedule| - 1])
  }

  // The senders are gone after k batches, and a turn for each outcome sent is left.
  predicate Closed(names: seq<string>, schedule: seq<seq<Action>>, k: nat) {
    && k <= |schedule| && Tasks(names, schedule[..k]).senders == {}
    && k + |Tasks(names, schedule[..k]).sent| <= |schedule|
  }

  // The drain loop: it ends when it has stopped, or sleeps when the schedule
  // runs out.
  method Drain(names: seq<string>, schedule: seq<seq<Action>>) returns (partialOutcomes: seq<Outcome>, stopped: bool)
    ensures var s := DrainSpec(Start(names), schedule); partialOutcomes == s.received && stopped == s.loop.Stopped?
    ensures forall k: nat :: 0 < k && Closed(names, schedule, k) ==>
              var tasks := Tasks(names, schedule[..k]);
              stopped && (!tasks.timerFired ==> partialOutcomes == tasks.sent)
  {
    forall k: nat | 0 < k && Closed(names, schedule, k)
      ensures var t, tasks := DrainSpec(Start(names), schedule), Tasks(names, schedule[..k]);
              t.loop.Stopped? && (!tasks.timerFired ==> t.received == tasks.sent)
    {
      DrainEnds(names, schedule, k);
    }
    var world := Start(names);
    partialOutcomes, stopped := [], false;
    for n := 0 to |schedule|
      invariant world == DrainSpec(Start(names), schedule[..n])
      invariant partialOutcomes == world.received && !stopped && world.loop.Draining?
    {
      assert schedule[..n + 1][..n] == schedule[..n];
      world := Happen(world, schedule[n]);
      HappenKeepsLoop(DrainSpec(Start(names), schedule[..n]), schedule[n]);
      if world.channel != [] {
        partialOutcomes := partialOutcomes + [world.channel[0]];
        world := world.(received := partialOutcomes, channel := world.channel[1..]);
      } else if world.senders == {} || world.timerFired {
        stopped := true;
        StoppedForGood(Start(names), schedule, n + 1);
        return;
      }
    }
    assert schedule[..|schedule|] == schedule;
  }

  lemma {:induction false} HappenKeepsLoop(s: State, batch: seq<Action>)
    ensures Happen(s, batch).loop == s.loop && Happen(s, batch).received == s.received
    decreases |batch|
  {
    if batch != [] { HappenKeepsLoop(s, batch[..|batch| - 1]); }
  }

  lemma {:induction false} StoppedForGood(s: State, schedule: seq<seq<Action>>, n: nat)
    requires n <= |schedule| && DrainSpec(s, schedule[..n]).loop.Stopped?
    ensures DrainSpec(s, schedule) == DrainSpec(s, schedule[..n])
    decreases |schedule|
  {
    if n == |schedule| {
      assert schedule[..n] == schedule;
    } else {
      assert schedule[..|schedule| - 1][..n] == schedule[..n];
      StoppedForGood(s, schedule[..|schedule| - 1], n);
    }
  }

  lemma RunSnoc(s: State, actions: seq<Action>, t: State, a: Action)
    requires Run(s, actions) == Some(t)
    ensures Run(s, actions + [a]) == Next(t, a)
  {
    assert (actions + [a])[..|actions|] == actions;
  }

  lemma {:induction false} HappenIsRun(s: State, actions: seq<Action>, t: State, batch: seq<Action>)
    returns (more: seq<Action>)
    requires Run(s, actions) == Some(t)
    ensures Run(s, more) == Some(Happen(t, batch))
    decreases |batch|
  {
    more := actions;
    if batch != [] {
      more := HappenIsRun(s, actions, t, batch[..|batch| - 1]);
      var u, a := Happen(t, batch[..|batch| - 1]), batch[|batch| - 1];
      RunSnoc(s, more, u, a);
      if a != Poll && Next(u, a).Some? { more := more + [a]; }
    }
  }

  // The loop under any schedule is a run of the machine, so what holds of all
  // runs holds of what it returns.
  lemma {:induction false} DrainIsRun(names: seq<string>, schedule: seq<seq<Action>>) returns (actions: seq<Action>)
    ensures Run(Start(names), actions) == Some(DrainSpec(Start(names), schedule))
    decreases |schedule|
  {
    actions := [];
    if schedule != [] {
      actions := DrainIsRun(names, schedule[..|schedule| - 1]);
      var t := DrainSpec(Start(names), schedule[..|schedule| - 1]);
      if t.loop.Draining? {
        actions := HappenIsRun(Start(names), actions, t, schedule[|schedule| - 1]);
        var u := Happen(t, schedule[|schedule| - 1]);
        RunSnoc(Start(names), actions, u, Poll);
        if Next(u, Poll).Some? { actions := actions + [Poll]; }
      }
    }
  }

  predicate SameTasks(s: State, t: State) {
    && s.names == t.names && s.running == t.running && s.senders == t.senders && s.panicked == t.panicked
    && s.sent == t.sent && s.timerFired == t.timerFired
  }

  lemma {:induction false} HappenSame(s: State, t: State, batch: seq<Action>)
    requires SameTasks(s, t)
    ensures SameTasks(Happen(s, batch), Happen(t, batch))
    decreases |batch|
  {
    if batch != [] { HappenSame(s, t, batch[..|batch| - 1]); }
  }

  // Without senders nothing more is sent.
  lemma {:induction false} HappenClosed(s: State, batch: seq<Action>)
    requires s.senders == {} && s.running == {}
    ensures var t := Happen(s, batch);
            t.senders == {} && t.running == {} && t.sent == s.sent && (s.timerFired ==> t.timerFired)
    decreases |batch|
  {
    if batch != [] { HappenClosed(s, batch[..|batch| - 1]); }
  }

  lemma {:induction false} TimerStays(s: State, batch: seq<Action>)
    ensures s.timerFired ==> Happen(s, batch).timerFired
    decreases |batch|
  {
    if batch != [] { TimerStays(s, batch[..|batch| - 1]); }
  }

  lemma HappenedInv(names: seq<string>, schedule: seq<seq<Action>>, batch: seq<Action>)
    ensures Inv(DrainSpec(Start(names), schedule)) && Inv(Happen(DrainSpec(Start(names), schedule), batch))
  {
    var t := DrainSpec(Start(names), schedule);
    var actions := DrainIsRun(names, schedule);
    RunKeepsInv(names, actions, t);
    var more := HappenIsRun(Start(names), actions, t, batch);
    RunKeepsInv(names, more, Happen(t, batch));
  }

  // While the loop drains it sees the tasks as they are.
  lemma {:induction false} DrainTasks(names: seq<string>, schedule: seq<seq<Action>>)
    requires DrainSpec(Start(names), schedule).loop.Draining?
    ensures SameTasks(DrainSpec(Start(names), schedule), Tasks(names, schedule))
    decreases |schedule|
  {
    if schedule != [] {
      var init, batch := schedule[..|schedule| - 1], schedule[|schedule| - 1];
      DrainTasks(names, init);
      HappenSame(DrainSpec(Start(names), init), Tasks(names, init), batch);
    }
  }

  lemma TurnEnds(s: State)
    requires Inv(s) && s.loop.Draining? && !s.timerFired && Turn(s).loop.Stopped?
    ensures s.senders == {} && s.running == {} && Turn(s).received == s.sent
  {
  }

  // If it stopped before the timer fired, nothing is left to be sent.
  lemma {:induction false} StoppedInTime(names: seq<string>, schedule: seq<seq<Action>>)
    requires DrainSpec(Start(names), schedule).loop.Stopped? && !Tasks(names, schedule).timerFired
    ensures var w := Tasks(names, schedule);
            w.senders == {} && w.running == {} && DrainSpec(Start(names), schedule).received == w.sent
    decreases |schedule|
  {
    if schedule != [] {
      var init, batch := schedule[..|schedule| - 1], schedule[|schedule| - 1];
      var t := DrainSpec(Start(names), init);
      TimerStays(Tasks(names, init), batch);
      if t.loop.Stopped? {
        StoppedInTime(names, init);
        HappenClosed(Tasks(names, init), batch);
      } else {
        DrainTasks(names, init);
        HappenSame(t, Tasks(names, init), batch);
        HappenedInv(names, init, batch);
        HappenKeepsLoop(t, batch);
        TurnEnds(Happen(t, batch));
      }
    }
  }

  // m - k turns after the senders are gone, that many outcomes more are taken, or
  // all of them and the loop has ended.
  ghost predicate Progress(names: seq<string>, schedule: seq<seq<Action>>, k: nat, m: nat)
    requires 0 < k <= m <= |schedule|
  {
    var t, w := DrainSpec(Start(names), schedule[..m]), Tasks(names, schedule[..k]);
    if t.loop.Draining? then t.senders == {} && t.sent == w.sent && |t.received| > m - k
    else !w.timerFired ==> t.received == w.sent
  }

  lemma TurnTakes(s: State)
    requires Inv(s) && s.loop.Draining? && s.senders == {}
    ensures var t := Turn(s);
            if t.loop.Draining? then t.senders == {} && t.sent == s.sent && |t.received| > |s.received|
            else t.received == s.sent
  {
  }

  lemma FirstTurn(names: seq<string>, schedule: seq<seq<Action>>, k: nat)
    requires 0 < k <= |schedule| && Tasks(names, schedule[..k]).senders == {}
    ensures Progress(names, schedule, k, k)
  {
    var init, batch := schedule[..k - 1], schedule[k - 1];
    assert schedule[..k][..k - 1] == init;
    var t := DrainSpec(Start(names), init);
    if t.loop.Stopped? {
      if !Tasks(names, schedule[..k]).timerFired {
        StoppedInTime(names, schedule[..k]);
      }
    } else {
      HappenKeepsLoop(t, batch);
      DrainTasks(names, init);
      HappenSame(t, Tasks(names, init), batch);
      HappenedInv(names, init, batch);
      TurnTakes(Happen(t, batch));
    }
  }

  lemma {:induction false} EachTurn(names: seq<string>, schedule: seq<seq<Action>>, k: nat, m: nat)
    requires 0 < k <= m <= |schedule| && Tasks(names, schedule[..k]).senders == {}
    ensures Progress(names, schedule, k, m)
    decreases m
  {
    if m == k {
      FirstTurn(names, schedule, k);
    } else {
      var init, batch := schedule[..m - 1], schedule[m - 1];
      EachTurn(names, schedule, k, m - 1);
      assert schedule[..m][..m - 1] == init;
      var t := DrainSpec(Start(names), init);
      if t.loop.Draining? {
        HappenKeepsLoop(t, batch);
        HappenedInv(names, init, batch);
        assert t.running <= t.senders;
        HappenClosed(t, batch);
        TurnTakes(Happen(t, batch));
      }
    }
  }

  // The loop always ends: one turn for each outcome after the senders are gone,
  // and with all of them if the timer has not fired by then.
  lemma DrainEnds(names: seq<string>, schedule: seq<seq<Action>>, k: nat)
    requires 0 < k && Closed(names, schedule, k)
    ensures DrainSpec(Start(names), schedule).loop.Stopped?
    ensures !Tasks(names, schedule[..k]).timerFired ==>
              DrainSpec(Start(names), schedule).received == Tasks(names, schedule[..k]).sent
  {
    var m := |schedule|;
    assert schedule[..m] == schedule;
    EachTurn(names, schedule, k, m);
    HappenedInv(names, schedule, []);
  }

  // ---- accounting ------------------------------------------------------------

  datatype Event =
    | BlockDiscarded(name: string)
    | Completed(name: string, entryIndex: nat, exitCode: Int32)
    | TimedOut(name: string)
    | Abandoned(name: string, entryIndex: nat)

  function FirstNamed(names: seq<string>, name: string): Option<nat> {
    if names == [] then None
    else if names[0] == name then Some(0)
    else match FirstNamed(names[1..], name) case None => None case Some(i) => Some(i + 1)
  }

  // The terminal event of one collected outcome; a crash has none here.
  function Terminal(names: seq<string>, o: Outcome): seq<Event> {
    match o.result
    case Exited(exitCode, stdout) =>
      if Contains(stdout, BLOCK_JSON) || exitCode == 2 then [BlockDiscarded(o.name)]
      else [Completed(o.name, match FirstNamed(names, o.name) case Some(i) => i case None => 0, exitCode)]
    case Timeout(_) => [TimedOut(o.name)]
    case Crashed => []
  }

  predicate NameCollected(os: seq<Outcome>, name: string) {
    exists n :: 0 <= n < |os| && os[n].name == name
  }

  function Terminals(names: seq<string>, os: seq<Outcome>): seq<Event> {
    if os == [] then [] else Terminals(names, os[..|os| - 1]) + Terminal(names, os[|os| - 1])
  }

  function AbandonedUpTo(names: seq<string>, os: seq<Outcome>, n: nat): seq<Event>
    requires n <= |names|
  {
    if n == 0 then []
    else
      AbandonedUpTo(names, os, n - 1) +
      if NameCollected(os, names[n - 1]) then [] else [Abandoned(names[n - 1], n - 1)]
  }

  // The two loops after the drain.
  method AccountFor(names: seq<string>, os: seq<Outcome>) returns (events: seq<Event>)
    ensures events == Terminals(names, os) + AbandonedUpTo(names, os, |names|)
  {
    events := [];
    for n := 0 to |os|
      invariant events == Terminals(names, os[..n])
    {
      assert os[..n + 1][..n] == os[..n];
      match os[n].result {
        case Exited(exitCode, stdout) =>
          var hasBlockJson := Contains(stdout, BLOCK_JSON);
          var hasExit2 := exitCode == 2;
          if hasBlockJson || hasExit2 {
            events := events + [BlockDiscarded(os[n].name)];
          } else {
            var found := FirstNamed(names, os[n].name);
            var entryIndex := if found.Some? then found.value else 0;
            events := events + [Completed(os[n].name, entryIndex, exitCode)];
          }
        case Timeout(_) =>
          events := events + [TimedOut(os[n].name)];
        case Crashed =>
      }
    }
    assert os[..|os|] == os;
    var abandoned := ReportAbandoned(names, os);
    events := events + abandoned;
  }

  method ReportAbandoned(names: seq<string>, os: seq<Outcome>) returns (events: seq<Event>)
    ensures events == AbandonedUpTo(names, os, |names|)
  {
    var collectedNames := set n | 0 <= n < |os| :: os[n].name;
    events := [];
    for i := 0 to |names|
      invariant events == AbandonedUpTo(names, os, i)
    {
      assert names[i] in collectedNames <==> NameCollected(os, names[i]);
      if names[i] !in collectedNames {
        events := events + [Abandoned(names[i], i)];
      }
    }
  }

  predicate IsFirst(names: seq<string>, name: string, i: int) {
    0 <= i < |names| && names[i] == name && forall j :: 0 <= j < i ==> names[j] != name
  }

  predicate Blocks(stdout: string) { Contains(stdout, "\"outcome\":\"block\"") }

  // Event e is what outcome o is reported as: a block or exit code 2 as discarded,
  // any other exit under the first entry of that name, a timeout as such. A crash
  // is reported as nothing.
  predicate Tells(names: seq<string>, o: Outcome, e: Event) {
    match e
    case BlockDiscarded(name) =>
      name == o.name && o.result.Exited? && (Blocks(o.result.stdout) || o.result.exitCode == 2)
    case Completed(name, i, code) =>
      && name == o.name && o.result.Exited? && code == o.result.exitCode
      && !Blocks(o.result.stdout) && code != 2
      && (IsFirst(names, name, i) || (name !in names && i == 0))
    case TimedOut(name) => name == o.name && o.result.Timeout?
    case Abandoned(_, _) => false
  }

  lemma {:induction false} FirstNamedIs(names: seq<string>, name: string)
    ensures match FirstNamed(names, name)
            case None => name !in names
            case Some(i) => IsFirst(names, name, i)
  {
    if names != [] && names[0] != name {
      FirstNamedIs(names[1..], name);
      assert names == [names[0]] + names[1..];
      if FirstNamed(names[1..], name).Some? {
        var i := FirstNamed(names[1..], name).value;
        forall j | 0 <= j < i + 1 ensures names[j] != name {
          if j > 0 { assert names[1..][j - 1] == names[j]; }
        }
      }
    }
  }

  lemma TerminalExact(names: seq<string>, o: Outcome, e: Event)
    ensures e in Terminal(names, o) <==> Tells(names, o, e)
    ensures |Terminal(names, o)| == if o.result.Crashed? then 0 else 1
  {
    FirstNamedIs(names, o.name);
  }

  lemma {:induction false} TerminalsExact(names: seq<string>, os: seq<Outcome>, e: Event)
    ensures e in Terminals(names, os) <==> exists n :: 0 <= n < |os| && Tells(names, os[n], e)
    decreases |os|
  {
    if os != [] {
      var init, last := os[..|os| - 1], os[|os| - 1];
      TerminalsExact(names, init, e);
      TerminalExact(names, last, e);
      if n :| 0 <= n < |init| && Tells(names, init[n], e) {
        assert os[n] == init[n];
      }
      if n :| 0 <= n < |os| && Tells(names, os[n], e) {
        assert n < |init| ==> init[n] == os[n];
      }
    }
  }

  lemma {:induction false} AbandonedExact(names: seq<string>, os: seq<Outcome>, n: nat, e: Event)
    requires n <= |names|
    ensures e in AbandonedUpTo(names, os, n) <==>
            e.Abandoned? && e.entryIndex < n && e.name == names[e.entryIndex] && !NameCollected(os, e.name)
    decreases n
  {
    if n > 0 { AbandonedExact(names, os, n - 1, e); }
  }

  // What is reported after a drain: each outcome as what it was, and each entry
  // whose name no outcome bears as abandoned, under its own index.
  lemma EventsExact(names: seq<string>, os: seq<Outcome>, e: Event)
    ensures e in Terminals(names, os) + AbandonedUpTo(names, os, |names|) <==>
            || (exists n :: 0 <= n < |os| && Tells(names, os[n], e))
            || (e.Abandoned? && e.entryIndex < |names| && e.name == names[e.entryIndex] && !NameCollected(os, e.name))
  {
    TerminalsExact(names, os, e);
    AbandonedExact(names, os, |names|, e);
  }

  function CountAbandoned(events: seq<Event>, i: nat): nat {
    if events == [] then 0
    else CountAbandoned(events[..|events| - 1], i) +
         if events[|events| - 1].Abandoned? && events[|events| - 1].entryIndex == i then 1 else 0
  }

  lemma {:induction false} CountConcat(a: seq<Event>, b: seq<Event>, i: nat)
    ensures CountAbandoned(a + b, i) == CountAbandoned(a, i) + CountAbandoned(b, i)
    decreases |b|
  {
    if b == [] {
      assert a + b == a;
    } else {
      assert (a + b)[..|a + b| - 1] == a + b[..|b| - 1];
      CountConcat(a, b[..|b| - 1], i);
    }
  }

  lemma {:induction false} CountTerminals(names: seq<string>, os: seq<Outcome>, i: nat)
    ensures CountAbandoned(Terminals(names, os), i) == 0
    decreases |os|
  {
    if os != [] {
      CountTerminals(names, os[..|os| - 1], i);
      CountConcat(Terminals(names, os[..|os| - 1]), Terminal(names, os[|os| - 1]), i);
    }
  }

  lemma CountSnoc(a: seq<Event>, e: Event, i: nat)
    ensures CountAbandoned(a + [e], i) == CountAbandoned(a, i) + if e.Abandoned? && e.entryIndex == i then 1 else 0
  {
    assert (a + [e])[..|a|] == a;
  }

  // How often entry i is reported abandoned once the first n are accounted for.
  function TimesAbandoned(names: seq<string>, os: seq<Outcome>, n: nat, i: nat): nat
    requires n <= |names|
  {
    if n == 0 then 0
    else TimesAbandoned(names, os, n - 1, i) + if i == n - 1 && !NameCollected(os, names[n - 1]) then 1 else 0
  }

  lemma {:induction false} TimesAbandonedIs(names: seq<string>, os: seq<Outcome>, n: nat, i: nat)
    requires n <= |names|
    ensures TimesAbandoned(names, os, n, i) == if i < n && !NameCollected(os, names[i]) then 1 else 0
    decreases n
  {
    if n > 0 {
      TimesAbandonedIs(names, os, n - 1, i);
    }
  }

  lemma {:induction false} CountIsTimes(names: seq<string>, os: seq<Outcome>, n: nat, i: nat)
    requires n <= |names|
    ensures CountAbandoned(AbandonedUpTo(names, os, n), i) == TimesAbandoned(names, os, n, i)
    decreases n
  {
    if n > 0 {
      CountIsTimes(names, os, n - 1, i);
      var init := AbandonedUpTo(names, os, n - 1);
      if NameCollected(os, names[n - 1]) {
        assert init + [] == init;
      } else {
        CountSnoc(init, Abandoned(names[n - 1], n - 1), i);
      }
    }
  }

  lemma CountAbandonedUpTo(names: seq<string>, os: seq<Outcome>, n: nat, i: nat)
    requires n <= |names|
    ensures CountAbandoned(AbandonedUpTo(names, os, n), i) ==
            if i < n && !NameCollected(os, names[i]) then 1 else 0
  {
    CountIsTimes(names, os, n, i);
    TimesAbandonedIs(names, os, n, i);
  }

  // The accounting of a drain: each entry gets at most one abandoned event;
  // and it is collected or abandoned but never both, for every entry, exactly
  // when no uncollected entry shares its name with a collected one.
  lemma AccountingExact(names: seq<string>, actions: seq<Action>, s: State)
    requires Run(Start(names), actions) == Some(s)
    ensures var events := Terminals(names, s.received) + AbandonedUpTo(names, s.received, |names|);
            && (forall i: nat :: CountAbandoned(events, i) <= 1)
            && (forall i: nat :: i < |names| && Reported(s.received, i) ==> CountAbandoned(events, i) == 0)
            && ((forall i: nat :: i < |names| && !Reported(s.received, i) ==> CountAbandoned(events, i) == 1) <==>
                (forall i: nat, j: nat ::
                    i < |names| && j < |names| && !Reported(s.received, i) && Reported(s.received, j) ==>
                   names[i] != names[j]))
  {
    RunKeepsInv(names, actions, s);
    var os := s.received;
    var events := Terminals(names, os) + AbandonedUpTo(names, os, |names|);
    forall i: nat
      ensures CountAbandoned(events, i) == if i < |names| && !NameCollected(os, names[i]) then 1 else 0
    {
      CountConcat(Terminals(names, os), AbandonedUpTo(names, os, |names|), i);
      CountTerminals(names, os, i);
      CountAbandonedUpTo(names, os, |names|, i);
    }
    CollectedNames(names, s);
  }

  lemma CollectedNames(names: seq<string>, s: State)
    requires Inv(s) && s.names == names
    ensures forall i: nat :: i < |names| ==>
              (NameCollected(s.received, names[i]) <==>
               exists j: nat :: j < |names| && Reported(s.received, j) && names[j] == names[i])
  {
    var os := s.received;
    assert forall n :: 0 <= n < |os| ==> os[n] == s.sent[n];
    forall i: nat | i < |names|
      ensures NameCollected(os, names[i]) <==> exists j: nat :: j < |names| && Reported(os, j) && names[j] == names[i]
    {
      if NameCollected(os, names[i]) {
        var n :| 0 <= n < |os| && os[n].name == names[i];
        assert Reported(os, os[n].entry) && names[os[n].entry] == names[i];
      }
      if j: nat :| j < |names| && Reported(os, j) && names[j] == names[i] {
        var n :| 0 <= n < |os| && os[n].entry == j;
        assert os[n].name == names[i];
      }
    }
  }

  // Collected and not abandoned, or abandoned once and not collected.
  ghost predicate AllAccountedFor(names: seq<string>, os: seq<Outcome>) {
    var events := Terminals(names, os) + AbandonedUpTo(names, os, |names|);
    forall i: nat :: i < |names| ==> CountAbandoned(events, i) == if Reported(os, i) then 0 else 1
  }

  ghost predicate NamesDistinct(names: seq<string>) {
    forall i, j :: 0 <= i < j < |names| ==> names[i] != names[j]
  }

  // Entry j reports and is collected, then the timer ends the drain.
  lemma OnlyOneReports(names: seq<string>, j: nat, result: PluginResult) returns (actions: seq<Action>, s: State)
    requires j < |names|
    ensures Run(Start(names), actions) == Some(s) && s.loop.Stopped?
    ensures forall i: nat :: Reported(s.received, i) <==> i == j
  {
    var start := Start(names);
    var o := Outcome(j, names[j], result);
    var sent := start.(running := start.running - {j}, sent := [o], channel := [o]);
    assert [] + [o] == [o] && [o][1..] == [];
    RunSnoc(start, [], start, Sends(j, result));
    var collected := sent.(received := [o], channel := []);
    RunSnoc(start, [Sends(j, result)], sent, Poll);
    assert [Sends(j, result)] + [Poll] == [Sends(j, result), Poll];
    assert Next(sent, Poll) == Some(collected);
    var fired := collected.(timerFired := true);
    RunSnoc(start, [Sends(j, result), Poll], collected, TimerFires);
    assert [Sends(j, result), Poll] + [TimerFires] == [Sends(j, result), Poll, TimerFires];
    s := fired.(loop := Stopped(1));
    actions := [Sends(j, result), Poll, TimerFires] + [Poll];
    RunSnoc(start, [Sends(j, result), Poll, TimerFires], fired, Poll);
    assert s.received[0].entry == j;
  }

  // Every drain of a group accounts for every entry exactly when the group's
  // names are distinct.
  lemma AccountedIffNamesDistinct(names: seq<string>)
    ensures NamesDistinct(names) <==>
            forall actions, s :: Run(Start(names), actions) == Some(s) && s.loop.Stopped? ==>
                AllAccountedFor(names, s.received)
  {
    if NamesDistinct(names) {
      forall actions, s | Run(Start(names), actions) == Some(s) ensures AllAccountedFor(names, s.received) {
        AccountingExact(names, actions, s);
      }
    } else {
      var i, j :| 0 <= i < j < |names| && names[i] == names[j];
      var actions, s := OnlyOneReports(names, j, Crashed);
      AccountingExact(names, actions, s);
      assert Reported(s.received, j) && !Reported(s.received, i);
      assert !AllAccountedFor(names, s.received);
    }
  }

  // The index a completed event carries is the entry's own exactly when no
  // earlier entry has the same name.
  lemma {:induction false} IndexIsOwn(names: seq<string>, i: nat)
    requires i < |names|
    ensures FirstNamed(names, names[i]).Some? && FirstNamed(names, names[i]).value <= i
    ensures FirstNamed(names, names[i]) == Some(i) <==> forall j :: 0 <= j < i ==> names[j] != names[i]
  {
    if names[0] != names[i] {
      IndexIsOwn(names[1..], i - 1);
      assert forall j :: 0 < j < i ==> names[1..][j - 1] == names[j];
      assert forall j :: 0 <= j < i - 1 ==> names[1..][j] == names[j + 1];
    }
  }
}
