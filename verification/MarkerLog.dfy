// The audit log of the quarantine marker, and the fold by which
// `reconcile_raw_delete` infers which markers vanished without a record.
module MarkerLog {
  import opened Wrappers

  // The (plugin_name, artifact_path) pair the log is matched on.
  datatype Pair = Pair(plugin: string, artifact: string)

  // Time is in seconds. `expiresAt` is None for a legacy marker whose field
  // is absent or unparseable.
  datatype MarkerFields = MarkerFields(
    timestamp: int, key: Pair, cause: string, traceId: string, expiresAt: Option<int>)

  datatype ClearMode = Revalidated | TtlExpired | Superseded | OperatorOverride

  // One decoded log line. Other stands for every line the fold skips: an event
  // of another type, or a line that does not parse.
  datatype Event =
    | Written(ts: int, key: Pair, cause: string, traceId: string, expiresAt: Option<int>)
    | Cleared(ts: int, key: Pair, traceId: string, mode: ClearMode)
    | Other(ts: int)

  type Open = map<Pair, MarkerFields>

  // The fields the fold rebuilds from a marker.written line; its timestamp is
  // the line's own `ts`.
  function Logged(e: Event): MarkerFields
    requires e.Written?
  {
    MarkerFields(e.ts, e.key, e.cause, e.traceId, e.expiresAt)
  }

  function Absorb(open: Open, e: Event): Open {
    match e
    case Written(_, key, _, _, _) => open[key := Logged(e)]
    case Cleared(_, key, _, _) => open - {key}
    case Other(_) => open
  }

  // What the fold leaves unmatched after reading `log` from the front.
  function Unmatched(log: seq<Event>): Open {
    if log == [] then map[] else Absorb(Unmatched(log[..|log| - 1]), log[|log| - 1])
  }

  predicate Touches(e: Event, p: Pair) {
    !e.Other? && e.key == p
  }

  // Reference definition, with no fold: line i writes a marker for p and no
  // later line mentions p.
  predicate OpenWrite(log: seq<Event>, i: int, p: Pair) {
    && 0 <= i < |log|
    && log[i].Written? && log[i].key == p
    && forall j :: i < j < |log| ==> !Touches(log[j], p)
  }

  // The loop of reconcile_raw_delete over the lines of the window.
  method ScanUnmatched(window: seq<Event>) returns (open: Open)
    ensures open == Unmatched(window)
    ensures forall p :: p in open <==> exists i :: OpenWrite(window, i, p)
  {
    open := map[];
    for n := 0 to |window|
      invariant open == Unmatched(window[..n])
    {
      assert window[..n + 1][..n] == window[..n];
      match window[n] {
        case Written(ts, key, cause, traceId, expiresAt) =>
          open := open[key := MarkerFields(ts, key, cause, traceId, expiresAt)];
        case Cleared(_, key, _, _) =>
          open := open - {key};
        case Other(_) =>
      }
    }
    assert window[..|window|] == window;
    forall p ensures p in open <==> exists i :: OpenWrite(window, i, p) {
      UnmatchedIsOpenWrite(window, p);
    }
  }

  lemma UnmatchedSnoc(log: seq<Event>, e: Event)
    ensures Unmatched(log + [e]) == Absorb(Unmatched(log), e)
  {
    assert (log + [e])[..|log|] == log;
  }

  // The fold finds exactly the open writes, and rebuilds the fields of each.
  lemma {:induction false} UnmatchedIsOpenWrite(log: seq<Event>, p: Pair)
    ensures p in Unmatched(log) <==> exists i :: OpenWrite(log, i, p)
    ensures forall i :: OpenWrite(log, i, p) ==>
              && p in Unmatched(log)
              && Unmatched(log)[p] == MarkerFields(log[i].ts, p, log[i].cause, log[i].traceId, log[i].expiresAt)
    ensures p in Unmatched(log) ==> Unmatched(log)[p].key == p
    decreases |log|
  {
    if log != [] {
      var n := |log| - 1;
      var init, last := log[..n], log[n];
      UnmatchedIsOpenWrite(init, p);
      if Touches(last, p) {
        assert forall i :: OpenWrite(log, i, p) ==> i == n;
        if last.Written? {
          assert OpenWrite(log, n, p);
        }
      } else {
        forall i ensures OpenWrite(log, i, p) <==> OpenWrite(init, i, p) {
          if OpenWrite(init, i, p) {
            forall j | i < j < |log| ensures !Touches(log[j], p) {
              if j < n { assert log[j] == init[j]; }
            }
          }
          if OpenWrite(log, i, p) {
            forall j | i < j < n ensures !Touches(init[j], p) {
              assert log[j] == init[j];
            }
          }
        }
        if p in Unmatched(init) {
          var i :| OpenWrite(init, i, p);
          assert OpenWrite(log, i, p);
        }
      }
    }
  }

  // Suffix soundness: whatever a scan of the tail log[k..] finds unmatched is
  // unmatched in the whole log, with the same fields. Conversely the tail
  // misses exactly the open writes that lie before it.
  lemma SuffixSound(log: seq<Event>, k: nat, p: Pair)
    requires k <= |log|
    ensures p in Unmatched(log[k..]) ==> p in Unmatched(log) && Unmatched(log)[p] == Unmatched(log[k..])[p]
    ensures p in Unmatched(log[k..]) <==> exists i :: k <= i && OpenWrite(log, i, p)
  {
    var tail := log[k..];
    UnmatchedIsOpenWrite(tail, p);
    UnmatchedIsOpenWrite(log, p);
    forall i ensures OpenWrite(tail, i, p) <==> 0 <= i && OpenWrite(log, i + k, p) {
      if OpenWrite(tail, i, p) {
        forall j | i + k < j < |log| ensures !Touches(log[j], p) {
          assert log[j] == tail[j - k];
        }
      }
      if 0 <= i && OpenWrite(log, i + k, p) {
        forall j | i < j < |tail| ensures !Touches(tail[j], p) {
          assert tail[j] == log[j + k];
        }
      }
    }
    if p in Unmatched(tail) {
      var i :| OpenWrite(tail, i, p);
      assert OpenWrite(log, i + k, p);
      assert k <= i + k && OpenWrite(log, i + k, p);
    }
    if exists i :: k <= i && OpenWrite(log, i, p) {
      var i :| k <= i && OpenWrite(log, i, p);
      assert OpenWrite(log, (i - k) + k, p);
      assert OpenWrite(tail, i - k, p);
    }
  }

  // `order` lists every entry of the hash map `open` once, in whatever order
  // its iterator yields them.
  ghost predicate Enumerates(order: seq<MarkerFields>, open: Open) {
    && (forall i :: 0 <= i < |order| ==> order[i].key in open && open[order[i].key] == order[i])
    && (forall i, j :: 0 <= i < j < |order| ==> order[i].key != order[j].key)
    && (forall p :: p in open ==> exists i :: 0 <= i < |order| && order[i].key == p)
  }

  // The hash map's value iterator: every entry once, in an unspecified order.
  method IntoValues(log: seq<Event>, open: Open) returns (order: seq<MarkerFields>)
    requires open == Unmatched(log)
    ensures Enumerates(order, open)
  {
    order := [];
    var left := open.Keys;
    while left != {}
      invariant left <= open.Keys
      invariant forall i :: 0 <= i < |order| ==>
          order[i].key in open && open[order[i].key] == order[i] && order[i].key !in left
      invariant forall i, j :: 0 <= i < j < |order| ==> order[i].key != order[j].key
      invariant forall p :: p in open && p !in left ==> exists i :: 0 <= i < |order| && order[i].key == p
    {
      var p :| p in left;
      UnmatchedIsOpenWrite(log, p);
      ghost var before := order;
      order := order + [open[p]];
      left := left - {p};
      assert order[|before|].key == p;
      forall q | q in open && q !in left && q != p ensures exists i :: 0 <= i < |order| && order[i].key == q {
        var i :| 0 <= i < |before| && before[i].key == q;
        assert order[i].key == q;
      }
    }
  }

  // The records reconcile_raw_delete emits, one per unmatched entry.
  function Overrides(order: seq<MarkerFields>, now: int): seq<Event> {
    seq(|order|, i requires 0 <= i < |order| => Cleared(now, order[i].key, order[i].traceId, OperatorOverride))
  }

  function Keys(order: seq<MarkerFields>): set<Pair> {
    set i | 0 <= i < |order| :: order[i].key
  }

  function ClearedKeys(clears: seq<Event>): set<Pair>
    requires forall e :: e in clears ==> e.Cleared?
  {
    set e | e in clears :: e.key
  }

  // Appending clear records takes exactly the cleared pairs out.
  lemma {:induction false} UnmatchedAfterClears(log: seq<Event>, clears: seq<Event>)
    requires forall e :: e in clears ==> e.Cleared?
    ensures Unmatched(log + clears) == Unmatched(log) - ClearedKeys(clears)
    decreases |clears|
  {
    if clears == [] {
      assert log + clears == log;
    } else {
      var n := |clears| - 1;
      var init, last := clears[..n], clears[n];
      UnmatchedAfterClears(log, init);
      assert clears == init + [last];
      assert log + clears == (log + init) + [last];
      UnmatchedSnoc(log + init, last);
      assert ClearedKeys(clears) == ClearedKeys(init) + {last.key};
    }
  }

  // An open write of a grown log is new, or was open and is not mentioned since.
  lemma OpenWriteGrows(log: seq<Event>, appended: seq<Event>, i: nat, p: Pair)
    requires i < |log|
    ensures OpenWrite(log + appended, i, p) <==>
            OpenWrite(log, i, p) && forall e :: e in appended ==> !Touches(e, p)
  {
    var whole := log + appended;
    assert forall j :: 0 <= j < |log| ==> whole[j] == log[j];
    assert forall j :: 0 <= j < |appended| ==> whole[|log| + j] == appended[j];
    assert forall j :: |log| <= j < |whole| ==> whole[j] in appended;
    if OpenWrite(whole, i, p) {
      forall e | e in appended ensures !Touches(e, p) {
        var j :| 0 <= j < |appended| && appended[j] == e;
        assert whole[|log| + j] == e;
      }
    }
  }

  // Idempotence for any two windows: the first scan saw log[k..] and appended
  // clears for everything it found; a later scan whose window starts no
  // earlier finds nothing. Events of other kinds may arrive in between.
  lemma ReconcileTwice(log: seq<Event>, k: nat, appended: seq<Event>, k': nat)
    requires k <= |log| && k <= k' <= |log| + |appended|
    requires forall e :: e in appended ==> !e.Written?
    requires forall p :: p in Unmatched(log[k..]) ==> exists e :: e in appended && e.Cleared? && e.key == p
    ensures Unmatched((log + appended)[k'..]) == map[]
  {
    var whole := log + appended;
    forall i | |log| <= i < |whole| ensures !whole[i].Written? {
      assert whole[i] in appended;
    }
    forall p ensures p !in Unmatched(whole[k'..]) {
      SuffixSound(whole, k', p);
      SuffixSound(log, k, p);
      forall i | k' <= i ensures !OpenWrite(whole, i, p) {
        if i < |log| { OpenWriteGrows(log, appended, i, p); }
      }
    }
  }

  // The events whose date stamp puts them in the file of `day`. dayOf is the
  // local calendar, which may move its offset.
  function FileOf(log: seq<Event>, day: int, dayOf: int -> int): seq<Event> {
    if log == [] then []
    else
      var rest := FileOf(log[..|log| - 1], day, dayOf);
      if dayOf(log[|log| - 1].ts) == day then rest + [log[|log| - 1]] else rest
  }

  // No event is stamped with an earlier date than one logged before it.
  ghost predicate DatesInOrder(log: seq<Event>, dayOf: int -> int) {
    forall i, j :: 0 <= i < j < |log| ==> dayOf(log[i].ts) <= dayOf(log[j].ts)
  }

  // While dates do not run backwards, today's file is a suffix of the whole
  // log, so scanning a tail of that one file scans a suffix of the log.
  lemma {:induction false} TodaysFileIsSuffix(log: seq<Event>, day: int, dayOf: int -> int) returns (k: nat)
    requires DatesInOrder(log, dayOf)
    requires forall i :: 0 <= i < |log| ==> dayOf(log[i].ts) <= day
    ensures k <= |log| && FileOf(log, day, dayOf) == log[k..]
    decreases |log|
  {
    if log == [] {
      k := 0;
    } else {
      var n := |log| - 1;
      var init := log[..n];
      k := TodaysFileIsSuffix(init, day, dayOf);
      if dayOf(log[n].ts) == day {
        assert init[k..] + [log[n]] == log[k..];
      } else {
        // Every earlier event is older still, so the file is empty.
        FileOfEarlier(init, day, dayOf);
        assert FileOf(log, day, dayOf) == [];
        k := |log|;
      }
    }
  }

  lemma {:induction false} FileOfEarlier(log: seq<Event>, day: int, dayOf: int -> int)
    requires forall i :: 0 <= i < |log| ==> dayOf(log[i].ts) < day
    ensures FileOf(log, day, dayOf) == []
    decreases |log|
  {
    if log != [] {
      FileOfEarlier(log[..|log| - 1], day, dayOf);
    }
  }
}
