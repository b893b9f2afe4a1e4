// Several writers replacing the marker file at once, one file-system call at a
// time, beside anyone who deletes it. The marker file behaves like an atomic
// register, and who leaves a temp file behind is known exactly.
module MarkerWriters {
  import opened Wrappers
  import opened TempNames

  // Torn is a file whose write has begun and not completed.
  datatype Data = Torn | Whole(content: string)

  datatype Writer = Writer(plugin: string, pid: nat, nonce: nat, content: string)

  datatype Pc =
    | Start        // about to open the temp file
    | Writing      // temp file created, content not complete
    | Wrote        // content complete, about to rename
    | Cleaning     // rename failed, about to remove the temp file
    | Renamed      // returned Ok
    | NotCreated   // returned Err: the temp file could not be created
    | WriteFailed  // returned Err: the write broke off
    | Cleaned      // returned Err: rename failed, temp file removed
    | Orphaned     // returned Err: rename failed and so did the removal

  datatype Config = Config(fileName: string, alphanumeric: char -> bool, writers: seq<Writer>)

  datatype State = State(files: map<string, Data>, pcs: seq<Pc>)

  datatype Action =
    | Create(w: nat) | CreateFails(w: nat)
    | Complete(w: nat) | BreaksOff(w: nat)
    | Rename(w: nat) | RenameFails(w: nat)
    | Cleanup(w: nat) | CleanupFails(w: nat)
    | RemoveMarker

  ghost predicate WellFormed(c: Config) {
    && !c.alphanumeric('.')
    && forall i, j :: 0 <= i < j < |c.writers| ==>
         (c.writers[i].pid, c.writers[i].nonce) != (c.writers[j].pid, c.writers[j].nonce)
  }

  function Temp(c: Config, w: nat): string
    requires !c.alphanumeric('.') && w < |c.writers|
  {
    TempName(c.fileName, c.writers[w].plugin, c.writers[w].pid, c.writers[w].nonce, c.alphanumeric)
  }

  predicate At(s: State, w: nat, pc: Pc) {
    w < |s.pcs| && s.pcs[w] == pc
  }

  ghost predicate Step(c: Config, s: State, a: Action, s': State)
    requires WellFormed(c) && |s.pcs| == |c.writers|
  {
    match a
    case Create(w) => At(s, w, Start) && s' == State(s.files[Temp(c, w) := Torn], s.pcs[w := Writing])
    case CreateFails(w) => At(s, w, Start) && s' == s.(pcs := s.pcs[w := NotCreated])
    case Complete(w) => At(s, w, Writing) &&
        s' == State(s.files[Temp(c, w) := Whole(c.writers[w].content)], s.pcs[w := Wrote])
    case BreaksOff(w) => At(s, w, Writing) && s' == s.(pcs := s.pcs[w := WriteFailed])
    case Rename(w) =>
      && At(s, w, Wrote) && Temp(c, w) in s.files
      && s' == State((s.files - {Temp(c, w)})[c.fileName := s.files[Temp(c, w)]], s.pcs[w := Renamed])
    case RenameFails(w) => At(s, w, Wrote) && s' == s.(pcs := s.pcs[w := Cleaning])
    case Cleanup(w) => At(s, w, Cleaning) && s' == State(s.files - {Temp(c, w)}, s.pcs[w := Cleaned])
    case CleanupFails(w) => At(s, w, Cleaning) && s' == s.(pcs := s.pcs[w := Orphaned])
    case RemoveMarker => s' == s.(files := s.files - {c.fileName})
  }

  // The pcs at which a writer's own temp file is on the disk.
  predicate HasTemp(pc: Pc) {
    pc.Writing? || pc.Wrote? || pc.Cleaning? || pc.WriteFailed? || pc.Orphaned?
  }

  // A writer's temp file is there exactly at those pcs, and complete from the
  // end of its write on.
  ghost predicate OwnTemp(c: Config, s: State, w: nat)
    requires WellFormed(c) && |s.pcs| == |c.writers| && w < |c.writers|
  {
    && (Temp(c, w) in s.files <==> HasTemp(s.pcs[w]))
    && (s.pcs[w].Wrote? || s.pcs[w].Cleaning? || s.pcs[w].Orphaned? ==>
          s.files[Temp(c, w)] == Whole(c.writers[w].content))
  }

  // So nobody renames or removes another's.
  ghost predicate Inv(c: Config, s: State) {
    && WellFormed(c)
    && |s.pcs| == |c.writers|
    && forall w: nat :: w < |c.writers| ==> OwnTemp(c, s, w)
  }

  lemma TempsDiffer(c: Config, v: nat, w: nat)
    requires WellFormed(c) && v < |c.writers| && w < |c.writers| && v != w
    ensures Temp(c, v) != Temp(c, w)
    ensures Temp(c, v) != c.fileName
  {
    var a, b := c.writers[v], c.writers[w];
    TempNameIsNotFinal(c.fileName, a.plugin, a.pid, a.nonce, c.alphanumeric);
    if Temp(c, v) == Temp(c, w) {
      TempNameInjective(c.fileName, a.plugin, a.pid, a.nonce, b.plugin, b.pid, b.nonce, c.alphanumeric);
    }
  }

  lemma TempsAllDiffer(c: Config)
    requires WellFormed(c)
    ensures forall v: nat, w: nat :: v < |c.writers| && w < |c.writers| && v != w ==> Temp(c, v) != Temp(c, w)
    ensures forall w: nat :: w < |c.writers| ==> Temp(c, w) != c.fileName
  {
    forall v: nat, w: nat | v < |c.writers| && w < |c.writers| && v != w ensures Temp(c, v) != Temp(c, w) {
      TempsDiffer(c, v, w);
    }
    forall w: nat | w < |c.writers| ensures Temp(c, w) != c.fileName {
      var a := c.writers[w];
      TempNameIsNotFinal(c.fileName, a.plugin, a.pid, a.nonce, c.alphanumeric);
    }
  }

  // ---- the register the marker file refines --------------------------------

  function Marker(c: Config, s: State): Option<Data> {
    if c.fileName in s.files then Some(s.files[c.fileName]) else None
  }

  // What one call means for the register: a rename is an atomic write of the
  // caller's whole content, a removal empties it, nothing else touches it.
  function Register(c: Config, value: Option<Data>, a: Action): Option<Data> {
    match a
    case Rename(w) => if w < |c.writers| then Some(Whole(c.writers[w].content)) else value
    case RemoveMarker => None
    case _ => value
  }

  function RegisterAfter(c: Config, value: Option<Data>, actions: seq<Action>): Option<Data> {
    if actions == [] then value
    else Register(c, RegisterAfter(c, value, actions[..|actions| - 1]), actions[|actions| - 1])
  }

  predicate ActsFor(a: Action, w: nat) {
    match a
    case RemoveMarker => false
    case _ => a.w == w
  }

  lemma OthersTempKept(c: Config, s: State, a: Action, s': State, w: nat)
    requires Inv(c, s) && Step(c, s, a, s') && w < |c.writers| && !ActsFor(a, w)
    ensures |s'.pcs| == |s.pcs| && OwnTemp(c, s', w)
  {
    assert OwnTemp(c, s, w);
    TempsAllDiffer(c);
  }

  lemma OwnTempKept(c: Config, s: State, a: Action, s': State, w: nat)
    requires Inv(c, s) && Step(c, s, a, s') && w < |c.writers| && ActsFor(a, w)
    ensures |s'.pcs| == |s.pcs| && OwnTemp(c, s', w)
  {
    assert OwnTemp(c, s, w);
    TempsAllDiffer(c);
  }

  lemma StepActsOnRegister(c: Config, s: State, a: Action, s': State)
    requires Inv(c, s) && Step(c, s, a, s')
    ensures Marker(c, s') == Register(c, Marker(c, s), a)
  {
    TempsAllDiffer(c);
    if a.Rename? {
      assert OwnTemp(c, s, a.w);
    }
  }

  lemma StepKeepsInv(c: Config, s: State, a: Action, s': State)
    requires Inv(c, s) && Step(c, s, a, s')
    ensures Inv(c, s')
    ensures Marker(c, s') == Register(c, Marker(c, s), a)
  {
    forall w: nat | w < |c.writers| ensures |s'.pcs| == |s.pcs| && OwnTemp(c, s', w) {
      if ActsFor(a, w) {
        OwnTempKept(c, s, a, s', w);
      } else {
        OthersTempKept(c, s, a, s', w);
      }
    }
    StepActsOnRegister(c, s, a, s');
  }

  // A state before any writer starts; earlier processes left no file under
  // one of these names.
  ghost predicate Initial(c: Config, s: State) {
    && WellFormed(c)
    && s.pcs == seq(|c.writers|, _ => Start)
    && forall w: nat :: w < |c.writers| ==> Temp(c, w) !in s.files
  }

  ghost predicate IsRun(c: Config, states: seq<State>, actions: seq<Action>) {
    && |states| == |actions| + 1
    && Initial(c, states[0])
    && (forall i :: 0 <= i < |states| ==> |states[i].pcs| == |c.writers|)
    && forall i :: 0 <= i < |actions| ==> Step(c, states[i], actions[i], states[i + 1])
  }

  lemma {:induction false} RunKeepsInv(c: Config, states: seq<State>, actions: seq<Action>, n: nat)
    requires IsRun(c, states, actions) && n < |states|
    ensures Inv(c, states[n])
  {
    if n > 0 {
      RunKeepsInv(c, states, actions, n - 1);
      StepKeepsInv(c, states[n - 1], actions[n - 1], states[n]);
    }
  }

  // Under every interleaving the marker path holds what a register would that
  // was written only at the renames: last writer wins, and never a torn file.
  lemma {:induction false} MarkerIsRegister(c: Config, states: seq<State>, actions: seq<Action>, n: nat)
    requires IsRun(c, states, actions) && n < |states|
    ensures Marker(c, states[n]) == RegisterAfter(c, Marker(c, states[0]), actions[..n])
  {
    if n > 0 {
      MarkerIsRegister(c, states, actions, n - 1);
      RunKeepsInv(c, states, actions, n - 1);
      StepKeepsInv(c, states[n - 1], actions[n - 1], states[n]);
      assert actions[..n][..n - 1] == actions[..n - 1];
    }
  }

  lemma {:induction false} RegisterValues(c: Config, value: Option<Data>, actions: seq<Action>)
    ensures var r := RegisterAfter(c, value, actions);
            r == value || r == None || exists w: nat :: w < |c.writers| && r == Some(Whole(c.writers[w].content))
    decreases |actions|
  {
    if actions != [] {
      RegisterValues(c, value, actions[..|actions| - 1]);
    }
  }

  // The reader's view: the old content, nothing, or one writer's whole content.
  lemma MarkerIsNeverTorn(c: Config, states: seq<State>, actions: seq<Action>, n: nat)
    requires IsRun(c, states, actions) && n < |states|
    ensures Marker(c, states[n]) == Marker(c, states[0]) || Marker(c, states[n]) == None ||
            exists w: nat :: w < |c.writers| && Marker(c, states[n]) == Some(Whole(c.writers[w].content))
  {
    MarkerIsRegister(c, states, actions, n);
    RegisterValues(c, Marker(c, states[0]), actions[..n]);
  }

  predicate Returned(pc: Pc) {
    pc.Renamed? || pc.NotCreated? || pc.WriteFailed? || pc.Cleaned? || pc.Orphaned?
  }

  // Once every writer has returned, a temp file is left exactly for those
  // whose write broke off half-way or whose clean-up after a failed rename
  // failed too. The clean-up runs for failed renames only.
  lemma TempFilesLeft(c: Config, states: seq<State>, actions: seq<Action>, n: nat, w: nat)
    requires IsRun(c, states, actions) && n < |states| && w < |c.writers|
    requires forall v :: 0 <= v < |c.writers| ==> Returned(states[n].pcs[v])
    ensures Temp(c, w) in states[n].files <==> states[n].pcs[w].WriteFailed? || states[n].pcs[w].Orphaned?
  {
    RunKeepsInv(c, states, actions, n);
    assert OwnTemp(c, states[n], w);
  }

  // No other file is ever touched.
  lemma {:induction false} OtherFilesKept(c: Config, states: seq<State>, actions: seq<Action>, n: nat, f: string)
    requires IsRun(c, states, actions) && n < |states|
    requires f != c.fileName && forall w: nat :: w < |c.writers| ==> f != Temp(c, w)
    ensures f in states[n].files <==> f in states[0].files
    ensures f in states[n].files ==> states[n].files[f] == states[0].files[f]
  {
    if n > 0 {
      OtherFilesKept(c, states, actions, n - 1, f);
      assert Step(c, states[n - 1], actions[n - 1], states[n]);
    }
  }
}
