// The marker's log over a run as the files of its days: the calendar puts the
// records in order, and the capped byte scan of one day's file is a scan of the
// machine.
module MarkerCalendar {
  import opened Wrappers
  import opened LogFile
  import opened MarkerAgreement
  import opened MarkerLog
  import opened MarkerMachine

  lemma StepAppendsNow(s: State, a: Action, s': State)
    requires Step(s, a, s')
    ensures s.log <= s'.log && forall i :: |s.log| <= i < |s'.log| ==> s'.log[i].ts == a.now
  {
  }

  // Read in the order of the steps, the calendar does not go back.
  ghost predicate CalendarInOrder(actions: seq<Action>, dayOf: int -> int) {
    forall i, j :: 0 <= i < j < |actions| ==> dayOf(actions[i].now) <= dayOf(actions[j].now)
  }

  lemma {:induction false} RunDates(states: seq<State>, actions: seq<Action>, n: nat, dayOf: int -> int)
    requires IsRun(states, actions) && n < |states| && CalendarInOrder(actions, dayOf)
    ensures DatesInOrder(states[n].log, dayOf)
    ensures n > 0 ==> forall i :: 0 <= i < |states[n].log| ==> dayOf(states[n].log[i].ts) <= dayOf(actions[n - 1].now)
    ensures n == 0 ==> states[n].log == []
  {
    if n > 0 {
      RunDates(states, actions, n - 1, dayOf);
      assert Step(states[n - 1], actions[n - 1], states[n]);
      StepAppendsNow(states[n - 1], actions[n - 1], states[n]);
      assert n > 1 ==> dayOf(actions[n - 2].now) <= dayOf(actions[n - 1].now);
    }
  }

  // From bytes to the machine: in any run state without a marker, scanning the
  // capped tail of today's file and reporting what it leaves unmatched is a
  // pre-check step, and it reports only what an operator deleted.
  lemma ByteScanIsPreCheck(states: seq<State>, actions: seq<Action>, n: nat, dayOf: int -> int,
                           records: seq<Bytes>, decode: Bytes -> Event, order: seq<MarkerFields>, now: int)
    returns (k: nat, s': State)
    requires IsRun(states, actions) && n < |states| && states[n].marker.None?
    requires CalendarInOrder(actions, dayOf) && forall i :: 0 <= i < n ==> dayOf(actions[i].now) <= dayOf(now)
    requires Framable(records) && LogOf(records, decode) == FileOf(states[n].log, dayOf(now), dayOf)
    requires Enumerates(order, Scan(Frame(records), RECONCILE_SCAN_BYTE_CAP, decode))
    ensures Step(states[n], PreCheck(now, k, order, true, true), s')
    ensures s'.log == states[n].log + Overrides(order, now) && Agrees(s')
    ensures forall i :: 0 <= i < |order| ==>
              order[i].key in states[n].rawDeleted && SameMarker(order[i], states[n].rawDeleted[order[i].key])
  {
    var s := states[n];
    RunDates(states, actions, n, dayOf);
    k := ScanOfTodaysFile(s.log, records, RECONCILE_SCAN_BYTE_CAP, decode, dayOf(now), dayOf);
    AgreementRun(states, actions, n);
    AgreesAfterReconcile(s, k, order, now);
    s' := State(None, s.log + Overrides(order, now), s.rawDeleted - Keys(order));
  }
}
