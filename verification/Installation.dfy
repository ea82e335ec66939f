/** The persistent artifacts of installed instances: a response file and,
    possibly, a udev rule. Installing and uninstalling go through temporary
    files and links so that a crash at any point leaves no rule without its
    response file and no partial response file. */
module Installations {
  import opened Input
  import opened InstanceNames
  import opened RuntimePolicy
  import opened RunOptions
  import opened ResponseFiles

  /** A file in the directory of the response files or in that of the rules. */
  datatype Path = InResponses(file: string) | InRules(file: string)

  const ARTIFACT_TEMPORARY: string := ".input-proxy-artifact-"
  const RULE_TEMPORARY: string := ".input-proxy-rule-"

  function ResponsePath(name: string): Path {
    InResponses(name + ".args")
  }

  function RulePath(name: string): Path {
    InRules("90-input-proxy-" + name + ".rules")
  }

  function Unit(name: string): string {
    "input-proxy@" + name + ".service"
  }

  predicate IsTemporary(p: Path) {
    match p
    case InResponses(file) => ARTIFACT_TEMPORARY <= file
    case InRules(file) => RULE_TEMPORARY <= file
  }

  type Files = map<Path, string>

  /** The files that are not temporary. */
  function Lasting(files: Files): Files {
    map p | p in files && !IsTemporary(p) :: files[p]
  }

  /** What a crash leaves behind: the files, and the units that are active or
      enabled. */
  datatype Machine = Machine(files: Files, active: set<string>, enabled: set<string>)

  function Artifacts(m: Machine): Machine {
    m.(files := Lasting(m.files))
  }

  /** Different instances have different artifacts, and no artifact of a valid
      name is a temporary file. */
  lemma ArtifactPathsDiffer(a: string, b: string)
    ensures ResponsePath(a) == ResponsePath(b) ==> a == b
    ensures RulePath(a) == RulePath(b) ==> a == b
    ensures Unit(a) == Unit(b) ==> a == b
    ensures ValidName(a) ==> !IsTemporary(ResponsePath(a))
    ensures !IsTemporary(RulePath(a))
    ensures IsTemporary(InResponses(ARTIFACT_TEMPORARY)) && IsTemporary(InRules(RULE_TEMPORARY))
  {
    var suffix := ".args";
    if ResponsePath(a) == ResponsePath(b) {
      assert a == (a + suffix)[..|a + suffix| - |suffix|];
      assert b == (b + suffix)[..|b + suffix| - |suffix|];
    }
    var ra, rb, rules := RulePath(a).file, RulePath(b).file, ".rules";
    if RulePath(a) == RulePath(b) {
      assert a == ra[|"90-input-proxy-"|..|ra| - |rules|];
      assert b == rb[|"90-input-proxy-"|..|rb| - |rules|];
    }
    var ua, ub, service := Unit(a), Unit(b), ".service";
    if Unit(a) == Unit(b) {
      assert a == ua[|"input-proxy@"|..|ua| - |service|];
      assert b == ub[|"input-proxy@"|..|ub| - |service|];
    }
    assert ValidName(a) ==> ResponsePath(a).file[0] == a[0];
    assert ARTIFACT_TEMPORARY[0] == RULE_TEMPORARY[0] == '.' && ra[0] == '9';
  }

  /** The text is the complete response file of a policy of that name. */
  ghost predicate Complete(text: string, name: string) {
    exists source: string, c: Config :: IsPolicyText(text, source, name, c)
  }

  ghost predicate IsPolicyText(text: string, source: string, name: string, c: Config) {
    && OneLine(source) && NUL !in source
    && c.activityTimeoutMs <= UINT32_MAX && c.detectionThrottleMs <= UINT32_MAX
    && text == PolicyText(source, name, c)
  }

  /** No rule without its response file, and no partial response file. */
  ghost predicate CrashSafe(m: Machine) {
    forall name | ValidName(name) ::
      && (RulePath(name) in m.files ==> ResponsePath(name) in m.files)
      && (ResponsePath(name) in m.files ==> Complete(m.files[ResponsePath(name)], name))
  }

  /** Temporary files are beside the point. */
  lemma CrashSafeIsLasting(m: Machine)
    ensures CrashSafe(m) <==> CrashSafe(Artifacts(m))
  {
    forall name | ValidName(name)
      ensures (RulePath(name) in m.files <==> RulePath(name) in Lasting(m.files)) &&
              (ResponsePath(name) in m.files <==> ResponsePath(name) in Lasting(m.files))
    {
      ArtifactPathsDiffer(name, name);
    }
  }

  lemma ResponseKeepsCrashSafe(m: Machine, source: string, name: string, c: Config)
    requires CrashSafe(m) && ValidName(name) && IsPolicyText(PolicyText(source, name, c), source, name, c)
    ensures CrashSafe(m.(files := m.files[ResponsePath(name) := PolicyText(source, name, c)]))
  {
    forall other: string ensures ResponsePath(other) == ResponsePath(name) ==> other == name {
      ArtifactPathsDiffer(other, name);
    }
  }

  lemma RuleKeepsCrashSafe(m: Machine, name: string, rule: string)
    requires CrashSafe(m) && ResponsePath(name) in m.files
    ensures CrashSafe(m.(files := m.files[RulePath(name) := rule]))
  {
    forall other: string ensures RulePath(other) == RulePath(name) ==> other == name {
      ArtifactPathsDiffer(other, name);
    }
  }

  /** A response file that is there can be run from: read and parsed, it gives
      a policy of its own name. */
  lemma StoredInstancesRun(m: Machine, name: string)
    requires CrashSafe(m) && ValidName(name) && ResponsePath(name) in m.files
    ensures exists opts, c: Config :: Spells(opts, Lines(m.files[ResponsePath(name)]), c) && c.name == Some(name)
  {
    var text := m.files[ResponsePath(name)];
    var source, c :| IsPolicyText(text, source, name, c);
    PolicyRoundTripIff(source, name, c);
    assert exists opts :: Spells(opts, Lines(text), StoredPolicy(source, name, c));
  }

  datatype StoreResult =
    | Stored
    | InvalidStoreArgument
    | InvalidName
    | StoreOutOfMemory
    | DirectoryFailed
    | StoreFailed
    | AlreadyInstalled
    | NotFound
    | RemovalFailed

  /** What the planner hands over. `rule` is the text of the udev rule, if one
      can be generated. */
  datatype Plan = Plan(
    source: string,
    name: string,
    policy: Config,
    ready: bool,
    ignoreRule: bool,
    rule: Option<string>)

  /** What the planner has checked. */
  predicate Planned(p: Plan) {
    && OneLine(p.source) && NUL !in p.source && ValidName(p.name)
    && p.policy.activityTimeoutMs <= UINT32_MAX && p.policy.detectionThrottleMs <= UINT32_MAX
  }

  function PlanText(p: Plan): string {
    PolicyText(p.source, p.name, p.policy)
  }

  datatype ApplicationResult =
    | Applied
    | InvalidPlan
    | ResponseFailed
    | RuleGenerationFailed
    | RulePublicationFailed
    | RollbackFailed(path: Path)

  datatype Stage = StageSuccess | StageNotRequired | StageFailed

  /** What was asked of the system, whatever came of it. */
  datatype Call =
    | Stop(unit: string)
    | Disable(unit: string)
    | Delete(path: Path)
    | Reload
    | Trigger(source: string)
    | Settle

  /** What was said to udev during an uninstallation. `present` is whether the
      source was there. */
  datatype Udev = Udev(reloaded: bool, present: bool, triggered: bool, settled: bool)

  /** What the stages of an uninstallation answered. */
  datatype Report = Report(source: Option<string>, stop: Stage, disable: Stage, rule: Stage, udev: Udev)

  /** The rules are reloaded first. Only a source that is known and present is
      triggered, and only then is there something to settle. */
  function UdevCalls(source: Option<string>, u: Udev): seq<Call> {
    [Reload] +
    (if u.reloaded && source.Some? && u.present then [Trigger(source.value)] + if u.triggered then [Settle] else []
     else [])
  }

  predicate UdevFailed(source: Option<string>, u: Udev) {
    !u.reloaded || (source.Some? && u.present && !(u.triggered && u.settled))
  }

  /** Each stage is tried whatever came of the one before; udev is told only of
      a rule that was removed. */
  function TearDownCalls(name: string, report: Report): seq<Call> {
    [Stop(Unit(name)), Disable(Unit(name)), Delete(RulePath(name))] +
    if report.rule == StageSuccess then UdevCalls(report.source, report.udev) else []
  }

  predicate TearDownFailed(report: Report) {
    || StageFailed in {report.stop, report.disable, report.rule}
    || (report.rule == StageSuccess && UdevFailed(report.source, report.udev))
  }

  /** Every state from `before` on to `after` shows one of the given artifacts. */
  ghost predicate Through(before: seq<Machine>, after: seq<Machine>, shown: set<Machine>) {
    before <= after && forall i | |before| <= i < |after| :: Artifacts(after[i]) in shown
  }

  /** A state in the middle of an uninstallation of `name` from `start`. */
  ghost predicate TornDownInOrder(start: Machine, m: Machine, name: string) {
    var gone := {ResponsePath(name), RulePath(name)};
    && m.files - gone == start.files - gone
    && m.active - {Unit(name)} == start.active - {Unit(name)}
    && m.enabled - {Unit(name)} == start.enabled - {Unit(name)}
    && (RulePath(name) in m.files ==> RulePath(name) in start.files)
    && (ResponsePath(name) in m.files ==>
          ResponsePath(name) in start.files && m.files[ResponsePath(name)] == start.files[ResponsePath(name)])
    && (ResponsePath(name) in start.files && ResponsePath(name) !in m.files ==>
          RulePath(name) !in m.files && Unit(name) !in m.active && Unit(name) !in m.enabled)
  }

  /** What has to happen to a temporary file before it gets a second name: its
      content is complete, may be read by the service, and was flushed. */
  datatype Care = Care(permitted: bool, flushed: bool, closed: bool)

  const NO_CARE := Care(false, false, false)
  const ALL_CARE := Care(true, true, true)

  datatype Command = Install(plan: Plan) | Uninstall(name: string)

  class Host {
    var files: Files
    var active: set<string>
    var enabled: set<string>
    /** Every state after every single step: where a crash may leave the host. */
    var trace: seq<Machine>
    /** What was asked of the system so far. */
    ghost var calls: seq<Call>
    /** The commands run so far. */
    ghost var executed: seq<Command>
    /** How much of what was asked of the system failed, other than by the state
        it was in. */
    ghost var failures: nat
    /** How far temporary files were taken care of. */
    ghost var care: map<Path, Care>
    /** How often the system may still ask to try again. */
    var patience: nat

    function Now(): Machine
      reads this`files, this`active, this`enabled
    {
      Machine(files, active, enabled)
    }

    // ----- Single steps -----

    /** Something that may fail at any time. */
    method Ask() returns (ok: bool)
      modifies this`failures
      ensures failures == old(failures) + if ok then 0 else 1
    {
      ok := *;
      failures := failures + if ok then 0 else 1;
    }

    /** The same of a request that leaves its trace. */
    method Request(call: Call) returns (ok: bool)
      modifies this`failures, this`calls
      ensures failures == old(failures) + if ok then 0 else 1
      ensures calls == old(calls) + [call]
    {
      calls := calls + [call];
      ok := Ask();
    }

    method Permit(path: Path) returns (ok: bool)
      requires path in care
      modifies this`failures, this`care
      ensures failures == old(failures) + if ok then 0 else 1
      ensures care == if ok then old(care)[path := old(care)[path].(permitted := true)] else old(care)
    {
      ok := Ask();
      if ok {
        care := care[path := care[path].(permitted := true)];
      }
    }

    method Flush(path: Path) returns (ok: bool)
      requires path in care
      modifies this`failures, this`care
      ensures failures == old(failures) + if ok then 0 else 1
      ensures care == if ok then old(care)[path := old(care)[path].(flushed := true)] else old(care)
    {
      ok := Ask();
      if ok {
        care := care[path := care[path].(flushed := true)];
      }
    }

    method CloseFile(path: Path) returns (ok: bool)
      requires path in care
      modifies this`failures, this`care
      ensures failures == old(failures) + if ok then 0 else 1
      ensures care == if ok then old(care)[path := old(care)[path].(closed := true)] else old(care)
    {
      ok := Ask();
      if ok {
        care := care[path := care[path].(closed := true)];
      }
    }

    method CreateTemporary(template: Path) returns (path: Option<Path>)
      requires IsTemporary(template)
      modifies this`failures, this`care, this`files, this`trace
      ensures Through(old(trace), trace, {Artifacts(old(Now()))}) && Artifacts(Now()) == Artifacts(old(Now()))
      ensures path.Some? ==>
        IsTemporary(path.value) && path.value !in old(files) && files == old(files)[path.value := ""]
      ensures trace == old(trace) + if path.Some? then [Now()] else []
      ensures path.None? ==> files == old(files)
      ensures failures == old(failures) + if path.Some? then 0 else 1
      ensures care == if path.Some? then old(care)[path.value := NO_CARE] else old(care)
    {
      var unique: string := *;
      var ok := Ask();
      var candidate := template.(file := template.file + unique);
      if !ok || candidate in files || |unique| != 6 {
        failures := old(failures) + 1;
        return None;
      }
      files := files[candidate := ""];
      care := care[candidate := NO_CARE];
      assert Lasting(files) == Lasting(old(files));
      trace := trace + [Now()];
      path := Some(candidate);
    }

    /** One write to a temporary file. A negative amount is a failure; the
        system may ask to try again only so often. */
    method Write(path: Path, content: string, written: nat) returns (amount: int, again: bool)
      requires IsTemporary(path) && written < |content| && path in files && files[path] == content[..written]
      requires path in care && care[path] == Care(true, false, false)
      modifies this`failures, this`files, this`trace, this`patience
      ensures Through(old(trace), trace, {Artifacts(old(Now()))}) && Artifacts(Now()) == Artifacts(old(Now()))
      ensures -1 <= amount <= |content| - written
      ensures amount >= 0 ==> files == old(files)[path := content[..written + amount]]
      ensures amount < 0 ==> files == old(files)
      ensures trace == old(trace) + if amount > 0 then [Now()] else []
      ensures again ==> amount < 0
      ensures patience <= old(patience) && (amount == 0 || again ==> patience < old(patience))
      ensures failures == old(failures) + if amount < 0 && !again then 1 else 0
    {
      amount, again := *, *;
      if amount < -1 || amount > |content| - written || (amount == 0 && patience == 0) {
        amount := -1;
      }
      again := again && amount < 0 && patience > 0;
      failures := failures + if amount < 0 && !again then 1 else 0;
      if amount == 0 || again {
        patience := patience - 1;
      }
      if amount > 0 {
        files := files[path := content[..written + amount]];
        assert Lasting(files) == Lasting(old(files));
        trace := trace + [Now()];
      } else {
        assert files[path := content[..written]] == files;
      }
    }

    /** A second name for a file; never in place of another. */
    method Link(from: Path, to: Path) returns (ok: bool, taken: bool)
      requires from in files && !IsTemporary(to) && from in care && care[from] == ALL_CARE
      modifies this`failures, this`files, this`trace
      ensures ok ==> to !in old(files) && files == old(files)[to := old(files)[from]] && trace == old(trace) + [Now()]
      ensures !ok ==> files == old(files) && trace == old(trace)
      ensures taken <==> to in old(files)
      ensures ok <==> !taken && failures == old(failures)
      ensures old(failures) <= failures && (taken ==> failures == old(failures))
    {
      if to in files {
        return false, true;
      }
      var linked := Ask();
      if !linked {
        return false, false;
      }
      files := files[to := files[from]];
      trace := trace + [Now()];
      return true, false;
    }

    method Unlink(path: Path) returns (ok: bool, missing: bool)
      modifies this`failures, this`calls, this`files, this`trace
      ensures ok ==> path in old(files) && files == old(files) - {path} && trace == old(trace) + [Now()]
      ensures !ok ==> files == old(files) && trace == old(trace)
      ensures missing <==> path !in old(files)
      ensures ok <==> !missing && failures == old(failures)
      ensures old(failures) <= failures && (missing ==> failures == old(failures))
      ensures calls == old(calls) + [Delete(path)]
    {
      calls := calls + [Delete(path)];
      if path !in files {
        return false, true;
      }
      var unlinked := Ask();
      if !unlinked {
        return false, false;
      }
      files := files - {path};
      trace := trace + [Now()];
      return true, false;
    }

    method Discard(temporary: Path) returns (gone: bool)
      requires IsTemporary(temporary)
      modifies this`failures, this`calls, this`files, this`trace
      ensures files == if gone then old(files) - {temporary} else old(files)
      ensures Through(old(trace), trace, {Artifacts(old(Now()))}) && Artifacts(Now()) == Artifacts(old(Now()))
      ensures old(failures) <= failures && (gone ==> failures == old(failures))
      ensures !gone && temporary in old(files) ==> failures > old(failures)
    {
      var ok, missing := Unlink(temporary);
      assert Lasting(files) == Lasting(old(files));
      gone := ok;
    }

    // ----- Writing files -----

    /** As the instance store writes: a write of nothing is tried again. */
    method WriteResponse(path: Path, content: string) returns (ok: bool)
      requires IsTemporary(path) && path in files && files[path] == ""
      requires path in care && care[path] == Care(true, false, false)
      modifies this`failures, this`files, this`trace, this`patience
      ensures Through(old(trace), trace, {Artifacts(old(Now()))}) && Artifacts(Now()) == Artifacts(old(Now()))
      ensures path in files && files == old(files)[path := files[path]] && (ok ==> files[path] == content)
      ensures old(failures) <= failures && (ok <==> failures == old(failures))
    {
      var written := 0;
      while written < |content|
        invariant written <= |content| && files == old(files)[path := content[..written]]
        invariant Through(old(trace), trace, {Artifacts(old(Now()))}) && Artifacts(Now()) == Artifacts(old(Now()))
        invariant failures == old(failures)
        decreases |content| - written, patience
      {
        var amount, again := Write(path, content, written);
        if amount < 0 {
          if again {
            continue;
          }
          return false;
        }
        written := written + amount;
      }
      assert content[..written] == content;
      return true;
    }

    /** As the rule publication writes: a write of nothing is a failure. */
    method WriteRule(path: Path, content: string) returns (ok: bool)
      requires IsTemporary(path) && path in files && files[path] == ""
      requires path in care && care[path] == Care(true, false, false)
      modifies this`failures, this`files, this`trace, this`patience
      ensures Through(old(trace), trace, {Artifacts(old(Now()))}) && Artifacts(Now()) == Artifacts(old(Now()))
      ensures path in files && files == old(files)[path := files[path]] && (ok ==> files[path] == content)
      ensures old(failures) <= failures && (ok <==> failures == old(failures))
    {
      var written := 0;
      while written < |content|
        invariant written <= |content| && files == old(files)[path := content[..written]]
        invariant Through(old(trace), trace, {Artifacts(old(Now()))}) && Artifacts(Now()) == Artifacts(old(Now()))
        invariant failures == old(failures)
        decreases |content| - written, patience
      {
        var amount, again := Write(path, content, written);
        if amount < 0 && again {
          continue;
        }
        if amount <= 0 {
          failures := failures + if amount == 0 then 1 else 0;
          return false;
        }
        written := written + amount;
      }
      assert content[..written] == content;
      return true;
    }

    // ----- Installing -----

    /** Fills a temporary file of the instance store. */
    method FillResponse(path: Path, content: string) returns (complete: bool)
      requires IsTemporary(path) && path in files && files[path] == "" && path in care && care[path] == NO_CARE
      modifies this`failures, this`care, this`files, this`trace, this`patience
      ensures Through(old(trace), trace, {Artifacts(old(Now()))}) && Artifacts(Now()) == Artifacts(old(Now()))
      ensures path in files && files == old(files)[path := files[path]]
      ensures complete ==> files[path] == content && path in care && care[path] == ALL_CARE
      ensures old(failures) <= failures && (complete <==> failures == old(failures))
    {
      hide IsTemporary;
      complete := Permit(path);
      if complete {
        complete := WriteResponse(path, content);
      }
      if complete {
        complete := Flush(path);
      }
      if complete {
        complete := CloseFile(path);
      }
    }

    /** A temporary file with the whole content, permitted, flushed and closed.
        Tidy means that no temporary file is left of a failure. */
    method PrepareResponse(content: string) returns (r: StoreResult, temporary: Option<Path>, tidy: bool)
      modifies this`failures, this`care, this`calls, this`files, this`trace, this`patience
      ensures Through(old(trace), trace, {Artifacts(old(Now()))}) && Artifacts(Now()) == Artifacts(old(Now()))
      ensures temporary.Some? ==>
        r == Stored && IsTemporary(temporary.value) && temporary.value !in old(files) &&
        files == old(files)[temporary.value := content]
      ensures temporary.None? ==>
        r in {StoreFailed, DirectoryFailed, StoreOutOfMemory} && (tidy ==> files == old(files))
      ensures old(failures) <= failures && (temporary.Some? <==> failures == old(failures))
      ensures temporary.Some? ==> temporary.value in care && care[temporary.value] == ALL_CARE
    {
      hide IsTemporary;
      ArtifactPathsDiffer("", "");
      tidy := true;
      var memory := Ask();
      if !memory {
        return StoreOutOfMemory, None, true;
      }
      temporary := CreateTemporary(InResponses(ARTIFACT_TEMPORARY));
      if temporary.None? {
        var denied: bool := *;
        return if denied then DirectoryFailed else StoreFailed, None, true;
      }
      var complete := FillResponse(temporary.value, content);
      if !complete {
        tidy := Discard(temporary.value);
        return StoreFailed, None, tidy;
      }
      r := Stored;
    }

    /** A complete response file, or none: linked to its own name only once it
        is complete under a temporary one. */
    method PublishResponse(name: string, content: string) returns (r: StoreResult, tidy: bool)
      requires ValidName(name)
      modifies this`failures, this`care, this`calls, this`files, this`trace, this`patience
      ensures Published(old(Now()), Now(), old(trace), trace, ResponsePath(name), content, r == Stored)
      ensures r in {Stored, AlreadyInstalled, StoreFailed, DirectoryFailed, StoreOutOfMemory}
      ensures r == AlreadyInstalled ==> ResponsePath(name) in old(files)
      ensures tidy ==> files == if r == Stored then old(files)[ResponsePath(name) := content] else old(files)
      ensures old(failures) <= failures && (!tidy ==> failures > old(failures))
      ensures r == Stored && tidy ==> failures == old(failures)
      ensures r != Stored && ResponsePath(name) !in old(files) ==> failures > old(failures)
    {
      hide IsTemporary, ValidName;
      ArtifactPathsDiffer(name, name);
      var temporary;
      r, temporary, tidy := PrepareResponse(content);
      if temporary.None? {
        return;
      }
      LinkedIsLasting(Now(), temporary.value, ResponsePath(name));
      var linked, taken := Link(temporary.value, ResponsePath(name));
      assert !linked && taken ==> ResponsePath(name) in Lasting(files);
      tidy := Discard(temporary.value);
      r := if linked then Stored else if taken then AlreadyInstalled else StoreFailed;
    }

    /** Stores the response file of a policy. */
    method CreateInstance(source: Option<string>, name: Option<string>, c: Config) returns (r: StoreResult)
      modifies this`failures, this`care, this`calls, this`files, this`trace, this`patience
      ensures source.None? || name.None? || !OneLine(source.value) || !ValidName(name.value) ==>
        r != Stored && Now() == old(Now()) && trace == old(trace)
      ensures r == InvalidStoreArgument <==> source.None? || '\n' in source.value || name.None?
      ensures r == InvalidName <==> source.Some? && '\n' !in source.value && name.Some? && !ValidName(name.value)
      ensures source.Some? && name.Some? ==>
        Published(old(Now()), Now(), old(trace), trace, ResponsePath(name.value),
                  PolicyText(source.value, name.value, c), r == Stored)
      ensures r == AlreadyInstalled ==> name.Some? && ResponsePath(name.value) in old(files)
      ensures old(failures) <= failures
      ensures r !in {Stored, InvalidStoreArgument, InvalidName} ==>
        failures > old(failures) || ResponsePath(name.value) in old(files)
    {
      if source.None? || !OneLine(source.value) || name.None? {
        return InvalidStoreArgument;
      }
      var valid := Validate(name.value);
      if !valid {
        return InvalidName;
      }
      var tidy;
      r, tidy := PublishResponse(name.value, PolicyText(source.value, name.value, c));
    }

    method RemoveInstance(name: string) returns (r: StoreResult)
      modifies this`failures, this`calls, this`files, this`trace
      ensures r == Stored ==>
        failures == old(failures) && ResponsePath(name) in old(files) &&
        files == old(files) - {ResponsePath(name)} && trace == old(trace) + [Now()]
      ensures r == InvalidName <==> !ValidName(name)
      ensures r !in {Stored, InvalidName} ==> r == if ResponsePath(name) in files then RemovalFailed else NotFound
      ensures ValidName(name) ==> calls == old(calls) + [Delete(ResponsePath(name))]
      ensures r != Stored ==> Now() == old(Now()) && trace == old(trace)
      ensures old(failures) <= failures
      ensures r == RemovalFailed ==> failures > old(failures)
    {
      var valid := Validate(name);
      if !valid {
        return InvalidName;
      }
      var removed, missing := Unlink(ResponsePath(name));
      return if removed then Stored else if missing then NotFound else RemovalFailed;
    }

    /** A temporary file with the whole rule, permitted, flushed and closed. */
    method PrepareRule(content: string) returns (temporary: Option<Path>, complete: bool)
      modifies this`failures, this`care, this`files, this`trace, this`patience
      ensures Through(old(trace), trace, {Artifacts(old(Now()))}) && Artifacts(Now()) == Artifacts(old(Now()))
      ensures temporary.Some? ==>
        && IsTemporary(temporary.value) && temporary.value !in old(files) && temporary.value in files
        && files == old(files)[temporary.value := files[temporary.value]]
      ensures temporary.None? ==> files == old(files) && !complete
      ensures complete ==>
        && files[temporary.value] == content
        && temporary.value in care && care[temporary.value] == ALL_CARE
      ensures old(failures) <= failures && (complete <==> failures == old(failures))
    {
      hide IsTemporary;
      ArtifactPathsDiffer("", "");
      temporary := CreateTemporary(InRules(RULE_TEMPORARY));
      if temporary.None? {
        return None, false;
      }
      complete := Permit(temporary.value);
      if complete {
        complete := WriteRule(temporary.value, content);
      }
      if complete {
        complete := Flush(temporary.value);
      }
      if complete {
        complete := CloseFile(temporary.value);
      }
    }

    /** A complete rule file, or none. */
    method PublishRule(name: string, content: string) returns (ok: bool, tidy: bool)
      modifies this`failures, this`care, this`calls, this`files, this`trace, this`patience
      ensures Published(old(Now()), Now(), old(trace), trace, RulePath(name), content, ok)
      ensures tidy ==> files == if ok then old(files)[RulePath(name) := content] else old(files)
      ensures old(failures) <= failures && (!tidy ==> failures > old(failures))
      ensures ok && tidy ==> failures == old(failures)
      ensures !ok ==> failures > old(failures) || RulePath(name) in old(files)
    {
      hide IsTemporary, ValidName;
      ArtifactPathsDiffer(name, name);
      var temporary;
      temporary, ok := PrepareRule(content);
      if temporary.None? {
        return false, true;
      }
      if ok {
        LinkedIsLasting(Now(), temporary.value, RulePath(name));
        var taken;
        ok, taken := Link(temporary.value, RulePath(name));
      }
      tidy := Discard(temporary.value);
    }

    /** Publishes the rule of an instance that was just stored, or removes the
        response file again. */
    method CompleteApplication(p: Plan, ghost start: Machine) returns (r: ApplicationResult)
      requires Planned(p) && p.ignoreRule && p.rule.Some? && ResponsePath(p.name) !in start.files
      requires Artifacts(Now()) == WithFile(Artifacts(start), ResponsePath(p.name), PlanText(p))
      requires RulePath(p.name) !in start.files
      modifies this`failures, this`care, this`calls, this`files, this`trace, this`patience
      ensures Applications(start, Now(), p, r)
      ensures r !in {InvalidPlan, RuleGenerationFailed}
      ensures r.RollbackFailed? ==> calls != [] && calls[|calls| - 1] == Delete(ResponsePath(p.name))
      ensures Through(old(trace), trace, Stages(Artifacts(start), p))
      ensures old(failures) <= failures && (r != Applied ==> failures > old(failures))
    {
      ArtifactPathsDiffer(p.name, p.name);
      assert RulePath(p.name) !in Lasting(files);
      var published, tidy := PublishRule(p.name, p.rule.value);
      if published {
        return Applied;
      }
      RolledBack(start, Now(), ResponsePath(p.name), PlanText(p));
      var removed := RemoveInstance(p.name);
      return if removed == Stored then RulePublicationFailed else RollbackFailed(ResponsePath(p.name));
    }

    /** Applies a plan: first the response file, then the rule. If the rule can
        not be published, the response file is removed again. */
    method Apply(p: Plan) returns (r: ApplicationResult)
      requires Planned(p)
      modifies this`failures, this`care, this`calls, this`files, this`trace, this`patience
      ensures Applications(old(Now()), Now(), p, r)
      ensures r == InvalidPlan <==> !p.ready
      ensures r == RuleGenerationFailed <==> p.ready && p.ignoreRule && p.rule.None?
      ensures r.RollbackFailed? ==> calls != [] && calls[|calls| - 1] == Delete(ResponsePath(p.name))
      ensures Through(old(trace), trace, Stages(Artifacts(old(Now())), p))
      ensures p.ready && failures == old(failures) && ResponsePath(p.name) !in old(files) ==>
        r == Applied || (p.ignoreRule && (p.rule.None? || RulePath(p.name) in old(files)))
    {
      hide IsTemporary, ValidName, PolicyText;
      if !p.ready {
        return InvalidPlan;
      }
      if !p.ignoreRule {
        var stored := CreateInstance(Some(p.source), Some(p.name), p.policy);
        return if stored == Stored then Applied else ResponseFailed;
      }
      if p.rule.None? {
        return RuleGenerationFailed;
      }
      var known := Ask();
      if RulePath(p.name) in files || !known {
        return RulePublicationFailed;
      }
      var stored := CreateInstance(Some(p.source), Some(p.name), p.policy);
      if stored != Stored {
        return ResponseFailed;
      }
      r := CompleteApplication(p, old(Now()));
    }

    // ----- Uninstalling -----

    /** Whether the unit is active, as far as the answer can be had; the answer
        3 means that it is not. */
    method StopService(unit: string) returns (r: Stage)
      modifies this`failures, this`calls, this`active, this`trace
      ensures old(failures) <= failures && (r == StageFailed <==> failures > old(failures))
      ensures r == StageNotRequired ==> unit !in old(active)
      ensures r == StageSuccess ==> unit in old(active)
      ensures r != StageFailed ==> unit !in active
      ensures active == old(active) || active == old(active) - {unit}
      ensures calls == old(calls) + [Stop(unit)]
      ensures trace == if active == old(active) then old(trace) else old(trace) + [Now()]
    {
      calls := calls + [Stop(unit)];
      var asked := Ask();
      var status: int := *;
      if asked {
        status := if unit in active then 0 else 3;
      } else if status in {0, 3} {
        status := -1;
      }
      if status == 3 {
        return StageNotRequired;
      }
      if status != 0 {
        return StageFailed;
      }
      var reported := Ask();
      var stopped: bool := *;
      if stopped || reported {
        active := active - {unit};
        trace := trace + [Now()];
      }
      return if reported then StageSuccess else StageFailed;
    }

    /** The same for being enabled, where the answer is 1. */
    method DisableService(unit: string) returns (r: Stage)
      modifies this`failures, this`calls, this`enabled, this`trace
      ensures old(failures) <= failures && (r == StageFailed <==> failures > old(failures))
      ensures r == StageNotRequired ==> unit !in old(enabled)
      ensures r == StageSuccess ==> unit in old(enabled)
      ensures r != StageFailed ==> unit !in enabled
      ensures enabled == old(enabled) || enabled == old(enabled) - {unit}
      ensures calls == old(calls) + [Disable(unit)]
      ensures trace == if enabled == old(enabled) then old(trace) else old(trace) + [Now()]
    {
      calls := calls + [Disable(unit)];
      var asked := Ask();
      var status: int := *;
      if asked {
        status := if unit in enabled then 0 else 1;
      } else if status in {0, 1} {
        status := -1;
      }
      if status == 1 {
        return StageNotRequired;
      }
      if status != 0 {
        return StageFailed;
      }
      var reported := Ask();
      var disabled: bool := *;
      if disabled || reported {
        enabled := enabled - {unit};
        trace := trace + [Now()];
      }
      return if reported then StageSuccess else StageFailed;
    }

    method RemoveFile(path: Path) returns (r: Stage)
      modifies this`failures, this`calls, this`files, this`trace
      ensures r == StageSuccess ==>
        path in old(files) && files == old(files) - {path} && trace == old(trace) + [Now()]
      ensures r != StageSuccess ==> files == old(files) && trace == old(trace)
      ensures old(failures) <= failures && (r == StageFailed <==> failures > old(failures))
      ensures r == StageFailed ==> path in files
      ensures calls == old(calls) + [Delete(path)]
      ensures r != StageFailed ==> path !in files
    {
      var removed, missing := Unlink(path);
      return if removed then StageSuccess else if missing then StageNotRequired else StageFailed;
    }

    /** The source a stored instance names, if its response file can be read. */
    method StoredSource(name: string, programName: string) returns (source: Option<string>)
      requires ValidName(name) && ResponsePath(name) in files
      modifies this`failures
      ensures old(failures) <= failures && (source.Some? ==> failures == old(failures))
      ensures source.None? && Complete(files[ResponsePath(name)], name) ==> failures > old(failures)
      ensures source.Some? && Complete(files[ResponsePath(name)], name) ==>
        exists c :: IsPolicyText(files[ResponsePath(name)], source.value, name, c)
    {
      hide Lines, FirstSource, IsPolicyText, Complete;
      var text := files[ResponsePath(name)];
      ghost var complete := Complete(text, name);
      if complete {
        CompleteTextNamesSource(text, name);
      }
      var readable := Ask();
      if !readable {
        return None;
      }
      var argv;
      ghost var trouble;
      argv, trouble := ReadResponseFile(text, programName);
      failures := failures + if trouble then 1 else 0;
      if argv.None? {
        return None;
      }
      source := SourceFromResponse(argv.value);
      assert argv.value[2..] == Lines(text);
    }

    /** Tells udev that a rule is gone. The source is triggered only when it is
        known and present. */
    method RefreshUdev(source: Option<string>) returns (failed: bool, told: Udev)
      modifies this`failures, this`calls
      ensures calls == old(calls) + UdevCalls(source, told) && (failed <==> UdevFailed(source, told))
      ensures old(failures) <= failures && (failed <==> failures > old(failures))
    {
      told := Udev(false, false, false, false);
      var done := Request(Reload);
      if !done {
        return true, told;
      }
      var present: bool := *;
      told := told.(reloaded := true, present := present);
      if source.Some? && present {
        done := Request(Trigger(source.value));
        if !done {
          return true, told;
        }
        told := told.(triggered := true);
        done := Request(Settle);
        if !done {
          return true, told;
        }
        told := told.(settled := true);
      }
      return false, told;
    }

    method TakeUnitDown(name: string) returns (stopped: Stage, disabled: Stage)
      requires ResponsePath(name) in files
      modifies this`failures, this`calls, this`active, this`enabled, this`trace
      ensures InOrder(old(Now()), name, old(trace), trace)
      ensures calls == old(calls) + [Stop(Unit(name)), Disable(Unit(name))]
      ensures active - {Unit(name)} == old(active) - {Unit(name)}
      ensures enabled - {Unit(name)} == old(enabled) - {Unit(name)}
      ensures stopped != StageFailed ==> Unit(name) !in active
      ensures disabled != StageFailed ==> Unit(name) !in enabled
      ensures old(failures) <= failures && (StageFailed in {stopped, disabled} <==> failures > old(failures))
    {
      stopped := StopService(Unit(name));
      disabled := DisableService(Unit(name));
    }

    /** Takes the unit down, then the rule; the response file stays. */
    method TearDown(name: string, programName: string) returns (failed: bool, report: Report)
      requires ValidName(name) && ResponsePath(name) in files
      modifies this`failures, this`calls, this`files, this`active, this`enabled, this`trace
      ensures InOrder(old(Now()), name, old(trace), trace)
      ensures calls == old(calls) + TearDownCalls(name, report) && (failed <==> TearDownFailed(report))
      ensures files == if report.rule == StageSuccess then old(files) - {RulePath(name)} else old(files)
      ensures report.rule == StageNotRequired ==> RulePath(name) !in old(files)
      ensures active - {Unit(name)} == old(active) - {Unit(name)}
      ensures enabled - {Unit(name)} == old(enabled) - {Unit(name)}
      ensures !failed ==> RulePath(name) !in files && Unit(name) !in active && Unit(name) !in enabled
      ensures report.source.Some? && Complete(old(files)[ResponsePath(name)], name) ==>
        exists c :: IsPolicyText(old(files)[ResponsePath(name)], report.source.value, name, c)
      ensures old(failures) <= failures && (!failed && report.source.Some? ==> failures == old(failures))
      ensures failed ==> failures > old(failures)
    {
      hide ValidName, IsTemporary, PolicyText;
      var stopped, disabled := TakeUnitDown(name);
      var source := StoredSource(name, programName);
      var rule := RemoveFile(RulePath(name));
      var unrefreshed, told := false, Udev(false, false, false, false);
      if rule == StageSuccess {
        unrefreshed, told := RefreshUdev(source);
      }
      failed := stopped == StageFailed || disabled == StageFailed || rule == StageFailed || unrefreshed;
      report := Report(source, stopped, disabled, rule, told);
    }

    /** Uninstalls an instance. The response file goes last, and only once the
        service is down and the rule is gone; whatever fails before keeps it,
        so that uninstalling can be tried again. */
    method Remove(name: string, programName: string) returns (ok: bool, report: Option<Report>)
      modifies this`failures, this`calls, this`files, this`active, this`enabled, this`trace
      ensures InOrder(old(Now()), name, old(trace), trace) && TornDownInOrder(old(Now()), Now(), name)
      ensures report.None? ==> !ok && Now() == old(Now()) && calls == old(calls)
      ensures report.Some? ==>
        ValidName(name) && ResponsePath(name) in old(files) &&
        calls == old(calls) + TearDownCalls(name, report.value) +
          (if TearDownFailed(report.value) then [] else [Delete(ResponsePath(name))])
      ensures ok ==> report.Some? && !TearDownFailed(report.value) && ResponsePath(name) !in files
      ensures !ok ==> (ResponsePath(name) in files <==> ResponsePath(name) in old(files))
      ensures report.Some? && report.value.source.Some? && CrashSafe(old(Now())) ==>
        exists c :: IsPolicyText(old(files)[ResponsePath(name)], report.value.source.value, name, c)
      ensures ValidName(name) && ResponsePath(name) in old(files) && failures == old(failures) ==> ok
    {
      ok, report := false, None;
      var valid := Validate(name);
      var inspected := Ask();
      var memory := Ask();
      if !valid || !inspected || ResponsePath(name) !in files || !memory {
        return;
      }
      var failed, told := TearDown(name, programName);
      report := Some(told);
      if failed {
        return;
      }
      var removed := RemoveFile(ResponsePath(name));
      ok := removed == StageSuccess;
    }

    // ----- Any use of a host -----

    /** What starting an installed instance runs with: the policy that was
        stored, or nothing if its response file can not be read. */
    method Boot(name: string, programName: string) returns (c: Option<Config>, read: bool, ghost trouble: bool)
      requires ValidName(name) && ResponsePath(name) in files && Complete(files[ResponsePath(name)], name)
      ensures (read <==> c.Some?) && (!read ==> trouble)
      ensures c.Some? ==> c.value.name == Some(name) && !c.value.verbose && c.value.source.Some?
      ensures c.Some? ==> IsPolicyText(files[ResponsePath(name)], c.value.source.value, name, c.value)
    {
      hide PolicyText, Lines, MeaningOf, Render, CrashSafe, IsTemporary;
      var text := files[ResponsePath(name)];
      ghost var source, stored :| IsPolicyText(text, source, name, stored);
      StoredTextIsReadable(source, name, stored);
      var argv;
      argv, trouble := ReadResponseFile(text, programName);
      if argv.None? {
        return None, false, trouble;
      }
      assert argv.value[2..] == Lines(text);
      PolicyRoundTripIff(source, name, stored);
      c := ParseRunConfig(argv.value);
      ghost var back := StoredPolicy(source, name, stored);
      ghost var opts :| Spells(opts, Lines(text), back);
      assert c == Some(back);
      StoredTextIsSame(source, name, stored);
      return c, true, trouble;
    }

    /** Runs commands one after the other. Any of them may be cut short by a
        crash after any of its steps; in between, units come and go. */
    method Operate(commands: seq<Command>)
      requires CrashSafe(Now())
      requires forall c | c in commands && c.Install? :: Planned(c.plan)
      modifies this
      ensures old(trace) <= trace && forall i | |old(trace)| <= i < |trace| :: CrashSafe(trace[i])
      ensures CrashSafe(Now()) && executed == old(executed) + commands
    {
      for n := 0 to |commands|
        invariant old(trace) <= trace && forall i | |old(trace)| <= i < |trace| :: CrashSafe(trace[i])
        invariant CrashSafe(Now()) && executed == old(executed) + commands[..n]
      {
        var begun := |trace|;
        Execute(commands[n]);
        var point: int := *;
        if begun <= point < |trace| {
          files, active, enabled := trace[point].files, trace[point].active, trace[point].enabled;
        }
        active, enabled := *, *;
        trace := trace + [Now()];
      }
    }

    method Execute(command: Command)
      requires CrashSafe(Now()) && (command.Install? ==> Planned(command.plan))
      modifies this
      ensures old(trace) <= trace && forall i | |old(trace)| <= i < |trace| :: CrashSafe(trace[i])
      ensures CrashSafe(Now()) && executed == old(executed) + [command]
    {
      hide CrashSafe;
      executed := executed + [command];
      match command
      case Install(plan) =>
        StagesAreSafe(Now(), plan);
        var r := Apply(plan);
        forall i | |old(trace)| <= i < |trace| ensures CrashSafe(trace[i]) {
          CrashSafeIsLasting(trace[i]);
        }
        CrashSafeIsLasting(Now());
      case Uninstall(name) =>
        var ok, report := Remove(name, "input-proxy");
        forall i | |old(trace)| <= i < |trace| ensures CrashSafe(trace[i]) {
          OrderIsSafe(old(Now()), trace[i], name);
        }
        OrderIsSafe(old(Now()), Now(), name);
    }
  }

  lemma StoredTextIsSame(source: string, name: string, c: Config)
    ensures PolicyText(source, name, StoredPolicy(source, name, c)) == PolicyText(source, name, c)
  {
  }

  /** No stage of an application is unsafe. */
  lemma StagesAreSafe(m: Machine, p: Plan)
    requires CrashSafe(m) && Planned(p)
    ensures forall stage | stage in Stages(Artifacts(m), p) :: CrashSafe(stage)
  {
    CrashSafeIsLasting(m);
    ResponseKeepsCrashSafe(Artifacts(m), p.source, p.name, p.policy);
    if p.rule.Some? {
      RuleKeepsCrashSafe(WithFile(Artifacts(m), ResponsePath(p.name), PlanText(p)), p.name, p.rule.value);
    }
  }

  /** No state of an orderly uninstallation is unsafe. */
  lemma OrderIsSafe(start: Machine, m: Machine, name: string)
    requires CrashSafe(start) && TornDownInOrder(start, m, name)
    ensures CrashSafe(m)
  {
    var gone := {ResponsePath(name), RulePath(name)};
    forall other | ValidName(other)
      ensures RulePath(other) in m.files ==> ResponsePath(other) in m.files
      ensures ResponsePath(other) in m.files ==> Complete(m.files[ResponsePath(other)], other)
    {
      ArtifactPathsDiffer(other, name);
      if other != name {
        assert ResponsePath(other) in m.files <==> ResponsePath(other) in m.files - gone;
        assert RulePath(other) in m.files <==> RulePath(other) in m.files - gone;
        assert ResponsePath(other) in m.files ==>
            m.files[ResponsePath(other)] == (start.files - gone)[ResponsePath(other)];
      }
    }
  }

  /** Every state on the way satisfies the order. */
  ghost predicate InOrder(start: Machine, name: string, before: seq<Machine>, after: seq<Machine>) {
    before <= after && forall i | |before| <= i < |after| :: TornDownInOrder(start, after[i], name)
  }

  lemma StoredSourceIsFound(source: string, name: string, c: Config)
    requires OneLine(source) && ValidName(name)
    ensures FirstSource(Lines(PolicyText(source, name, c))) == Some(source)
  {
    NameIsOneLine(name);
    PolicyLines(source, name, c);
    var options := PolicyOptions(source, name, c);
    assert Render(options) == Tokens(options[0]) + Render(options[1..]);
  }

  /** Stored text has few lines, and no NUL if its source has none. */
  lemma StoredTextIsReadable(source: string, name: string, c: Config)
    requires OneLine(source) && NUL !in source && ValidName(name)
    ensures NUL !in PolicyText(source, name, c) && |Lines(PolicyText(source, name, c))| == 14
  {
    hide PolicyText, Lines, Decimal;
    NameIsOneLine(name);
    StoredLines(source, name, c);
    DecimalRoundTrip(c.activityTimeoutMs);
    DecimalRoundTrip(c.detectionThrottleMs);
    NoNulInText(source, name, c);
  }

  lemma NoNulInText(source: string, name: string, c: Config)
    requires OneLine(source) && OneLine(name) && NUL !in source && NUL !in name
    requires NUL !in Decimal(c.activityTimeoutMs) && NUL !in Decimal(c.detectionThrottleMs)
    ensures NUL !in PolicyText(source, name, c)
  {
    hide Decimal, PolicyText, Lines, Render, PolicyOptions;
    var args := Render(PolicyOptions(source, name, c));
    PolicyTextIsJoined(source, name, c);
    PolicyLines(source, name, c);
    StoredLines(source, name, c);
    NoNulInLines(args);
  }

  lemma {:induction false} NoNulInLines(args: seq<string>)
    requires forall a | a in args :: NUL !in a
    ensures NUL !in JoinLines(args)
  {
    if args != [] {
      NoNulInLines(args[1..]);
    }
  }

  lemma CompleteTextNamesSource(text: string, name: string)
    requires Complete(text, name) && ValidName(name)
    ensures NUL !in text && |Lines(text)| == 14 && FirstSource(Lines(text)).Some?
    ensures exists c :: IsPolicyText(text, FirstSource(Lines(text)).value, name, c)
  {
    hide PolicyText, Lines, FirstSource;
    var path, c :| IsPolicyText(text, path, name, c);
    StoredSourceIsFound(path, name, c);
    StoredTextIsReadable(path, name, c);
  }

  lemma RolledBack(start: Machine, m: Machine, path: Path, text: string)
    requires path !in start.files && !IsTemporary(path) && Artifacts(m) == WithFile(Artifacts(start), path, text)
    ensures Artifacts(m.(files := m.files - {path})) == Artifacts(start)
  {
    assert Lasting(m.files - {path}) == Lasting(m.files) - {path};
    assert Lasting(m.files) - {path} == Lasting(start.files);
  }

  /** What an application ends with: everything, nothing, or, if even the
      rollback failed, the response file alone. */
  ghost predicate Applications(start: Machine, end: Machine, p: Plan, r: ApplicationResult) {
    var before := Artifacts(start);
    var stored := WithFile(before, ResponsePath(p.name), PlanText(p));
    match r
    case Applied =>
      && ResponsePath(p.name) !in start.files
      && if p.ignoreRule
         then
           && p.rule.Some? && RulePath(p.name) !in start.files
           && Artifacts(end) == WithFile(stored, RulePath(p.name), p.rule.value)
         else Artifacts(end) == stored
    case RollbackFailed(path) => path == ResponsePath(p.name) && Artifacts(end) == stored
    case _ => Artifacts(end) == before
  }

  /** What a crash during an application may leave behind, in artifacts. */
  ghost function Stages(before: Machine, p: Plan): set<Machine> {
    var stored := WithFile(before, ResponsePath(p.name), PlanText(p));
    {before, stored} +
    (if p.ignoreRule && p.rule.Some? then {WithFile(stored, RulePath(p.name), p.rule.value)} else {})
  }

  ghost function WithFile(m: Machine, path: Path, text: string): Machine {
    m.(files := m.files[path := text])
  }

  /** From `start` to `end`, `path` appeared with the whole `text` if it did at
      all, and not in place of another file. */
  ghost predicate Published(start: Machine, end: Machine, before: seq<Machine>, after: seq<Machine>,
                            path: Path, text: string, done: bool) {
    if done then
      && path !in start.files
      && Artifacts(end) == WithFile(Artifacts(start), path, text)
      && Through(before, after, {Artifacts(start), WithFile(Artifacts(start), path, text)})
    else
      Artifacts(end) == Artifacts(start) && Through(before, after, {Artifacts(start)})
  }

  lemma LinkedIsLasting(m: Machine, from: Path, to: Path)
    requires from in m.files && !IsTemporary(to)
    ensures Artifacts(WithFile(m, to, m.files[from])) == WithFile(Artifacts(m), to, m.files[from])
  {
  }
}
