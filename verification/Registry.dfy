// The hook registry: default-falling accessors and the load-time validators.
module Registry {
  import opened Wrappers
  import opened Outcomes

  const REGISTRY_SCHEMA_VERSION := 2

  datatype Defaults = Defaults(onError: OnError, priority: nat)

  datatype Entry = Entry(
    name: string, event: string, tool: Option<string>, priority: Option<nat>, enabled: bool,
    onError: Option<OnError>, asyncFlag: bool, policy: FailurePolicy)

  datatype HookRegistry = HookRegistry(schemaVersion: nat, defaults: Defaults, hooks: seq<Entry>)

  datatype RegistryError =
    | SchemaVersion(got: nat)
    | ToolRegex(name: string, pattern: string)
    | AsyncBlockConflict(name: string, onError: string)
    | DuplicateEntry(name: string, event: string, tool: Option<string>)

  function Priority(e: Entry, d: Defaults): nat {
    match e.priority case Some(p) => p case None => d.priority
  }

  function EffectiveOnError(e: Entry, d: Defaults): OnError {
    match e.onError case Some(o) => o case None => d.onError
  }

  // ---- what an accepted registry satisfies -------------------------------

  // The tool pattern compiles; which patterns do is a parameter.
  predicate ToolOk(e: Entry, validRegex: string -> bool) {
    e.tool.None? || validRegex(e.tool.value)
  }

  // Only the explicit field is looked at.
  predicate AsyncConflict(e: Entry) {
    e.asyncFlag && (e.onError == Some(Block) || e.onError == Some(BlockIfMarker))
  }

  predicate SameKey(a: Entry, b: Entry) {
    a.name == b.name && a.event == b.event && a.tool == b.tool
  }

  ghost predicate Distinct(hooks: seq<Entry>) {
    forall i, j :: 0 <= i < j < |hooks| ==> !SameKey(hooks[i], hooks[j])
  }

  // Entry i is the first to conflict, and the error says which policy it was.
  ghost predicate FirstConflict(hooks: seq<Entry>, i: int, error: RegistryError) {
    && 0 <= i < |hooks|
    && AsyncConflict(hooks[i])
    && (forall j :: 0 <= j < i ==> !AsyncConflict(hooks[j]))
    && var policy := if hooks[i].onError == Some(Block) then "block" else "block_if_marker";
       error == AsyncBlockConflict(hooks[i].name, policy)
  }

  // Entry i is the first to repeat an earlier one.
  ghost predicate FirstRepeat(hooks: seq<Entry>, i: int, error: RegistryError) {
    && 0 <= i < |hooks|
    && (exists j :: 0 <= j < i && SameKey(hooks[j], hooks[i]))
    && Distinct(hooks[..i])
    && error == DuplicateEntry(hooks[i].name, hooks[i].event, hooks[i].tool)
  }

  ghost predicate FirstBadTool(hooks: seq<Entry>, validRegex: string -> bool, i: int, error: RegistryError) {
    && 0 <= i < |hooks|
    && !ToolOk(hooks[i], validRegex)
    && (forall j :: 0 <= j < i ==> ToolOk(hooks[j], validRegex))
    && error == ToolRegex(hooks[i].name, hooks[i].tool.value)
  }

  method ValidateAsyncBlockInvariant(hooks: seq<Entry>) returns (r: Result<(), RegistryError>)
    ensures r.Ok? <==> forall i :: 0 <= i < |hooks| ==> !AsyncConflict(hooks[i])
    ensures r.Err? ==> exists i :: FirstConflict(hooks, i, r.error)
  {
    for i := 0 to |hooks|
      invariant forall j :: 0 <= j < i ==> !AsyncConflict(hooks[j])
    {
      var blocking: Option<string> := None;
      match hooks[i].onError {
        case Some(Block) => blocking := Some("block");
        case Some(BlockIfMarker) => blocking := Some("block_if_marker");
        case _ =>
      }
      if blocking.Some? && hooks[i].asyncFlag {
        r := Err(AsyncBlockConflict(hooks[i].name, blocking.value));
        assert FirstConflict(hooks, i, r.error);
        return;
      }
    }
    return Ok(());
  }

  method ValidateUniqueness(hooks: seq<Entry>) returns (r: Result<(), RegistryError>)
    ensures r.Ok? <==> Distinct(hooks)
    ensures r.Err? ==> exists i :: FirstRepeat(hooks, i, r.error)
  {
    var seen: set<(string, string, Option<string>)> := {};
    for i := 0 to |hooks|
      invariant seen == set j | 0 <= j < i :: (hooks[j].name, hooks[j].event, hooks[j].tool)
      invariant Distinct(hooks[..i])
    {
      var key := (hooks[i].name, hooks[i].event, hooks[i].tool);
      if key in seen {
        var j :| 0 <= j < i && (hooks[j].name, hooks[j].event, hooks[j].tool) == key;
        assert SameKey(hooks[j], hooks[i]);
        r := Err(DuplicateEntry(hooks[i].name, hooks[i].event, hooks[i].tool));
        assert FirstRepeat(hooks, i, r.error);
        return;
      }
      seen := seen + {key};
      forall j | 0 <= j < i ensures !SameKey(hooks[j], hooks[i]) {
        assert (hooks[j].name, hooks[j].event, hooks[j].tool) in seen - {key};
      }
    }
    assert hooks[..|hooks|] == hooks;
    return Ok(());
  }

  ghost predicate Accepted(reg: HookRegistry, validRegex: string -> bool) {
    && reg.schemaVersion == 2
    && (forall i :: 0 <= i < |reg.hooks| ==> ToolOk(reg.hooks[i], validRegex))
    && (forall i :: 0 <= i < |reg.hooks| ==> !AsyncConflict(reg.hooks[i]))
    && Distinct(reg.hooks)
  }

  // The checks run in this order and the first failure is reported.
  method Validate(reg: HookRegistry, validRegex: string -> bool) returns (r: Result<(), RegistryError>)
    ensures r.Ok? <==> Accepted(reg, validRegex)
    ensures r == Err(SchemaVersion(reg.schemaVersion)) <==> reg.schemaVersion != 2
    ensures r.Err? && r.error.ToolRegex? ==> exists i :: FirstBadTool(reg.hooks, validRegex, i, r.error)
    ensures r.Err? && r.error.AsyncBlockConflict? ==> exists i :: FirstConflict(reg.hooks, i, r.error)
    ensures r.Err? && r.error.DuplicateEntry? ==> exists i :: FirstRepeat(reg.hooks, i, r.error)
    ensures r.Err? && !r.error.SchemaVersion? && !r.error.ToolRegex? ==>
              forall i :: 0 <= i < |reg.hooks| ==> ToolOk(reg.hooks[i], validRegex)
    ensures r.Err? && r.error.DuplicateEntry? ==>
              forall i :: 0 <= i < |reg.hooks| ==> !AsyncConflict(reg.hooks[i])
  {
    if reg.schemaVersion != REGISTRY_SCHEMA_VERSION {
      return Err(SchemaVersion(reg.schemaVersion));
    }
    for i := 0 to |reg.hooks|
      invariant forall j :: 0 <= j < i ==> ToolOk(reg.hooks[j], validRegex)
    {
      match reg.hooks[i].tool {
        case Some(pattern) =>
          if !validRegex(pattern) {
            r := Err(ToolRegex(reg.hooks[i].name, pattern));
            assert FirstBadTool(reg.hooks, validRegex, i, r.error);
            return;
          }
        case None =>
      }
    }
    r := ValidateAsyncBlockInvariant(reg.hooks);
    if r.Err? { return; }
    r := ValidateUniqueness(reg.hooks);
  }
}
