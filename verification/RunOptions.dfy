/** The options of the run command: which argument lists are accepted, and what
    they mean. */
module RunOptions {
  import opened Input
  import opened InstanceNames
  import opened RuntimePolicy

  datatype Opt =
    | SourceOpt(path: string)
    | NameOpt(name: string)
    | VerboseOpt
    | TimeoutOpt(text: string)
    | ThrottleOpt(text: string)
    | RunningMotionOpt(on: bool)
    | PausedMotionOpt(on: bool)
    | StartPausedOpt(on: bool)

  /** Durations carry their text, which must be a duration. */
  predicate ValidOpt(o: Opt) {
    match o
    case TimeoutOpt(text) => ValidDuration(text)
    case ThrottleOpt(text) => ValidDuration(text)
    case _ => true
  }

  function Tokens(o: Opt): seq<string> {
    match o
    case SourceOpt(path) => ["--source", path]
    case NameOpt(name) => ["--name", name]
    case VerboseOpt => ["--verbose"]
    case TimeoutOpt(text) => ["--activity-timeout-ms", text]
    case ThrottleOpt(text) => ["--detection-throttle-ms", text]
    case RunningMotionOpt(on) => ["--running-motion-activity", OnOff(on)]
    case PausedMotionOpt(on) => ["--paused-motion-activity", OnOff(on)]
    case StartPausedOpt(on) => ["--start-paused", OnOff(on)]
  }

  /** The argument list that spells the options out. */
  function Render(opts: seq<Opt>): seq<string> {
    if opts == [] then [] else Tokens(opts[0]) + Render(opts[1..])
  }

  function Kind(o: Opt): nat {
    match o
    case SourceOpt(_) => 0
    case NameOpt(_) => 1
    case VerboseOpt => 2
    case TimeoutOpt(_) => 3
    case ThrottleOpt(_) => 4
    case RunningMotionOpt(_) => 5
    case PausedMotionOpt(_) => 6
    case StartPausedOpt(_) => 7
  }

  function Kinds(opts: seq<Opt>): set<nat> {
    set o | o in opts :: Kind(o)
  }

  /** No option is given twice. */
  predicate Distinct(opts: seq<Opt>) {
    forall i, j | 0 <= i < j < |opts| :: Kind(opts[i]) != Kind(opts[j])
  }

  function DurationOf(text: string): nat {
    if ValidDuration(text) then DecimalValue(text) else 0
  }

  function Meaning(c: Config, o: Opt): Config {
    match o
    case SourceOpt(path) => c.(source := Some(path))
    case NameOpt(name) => c.(name := Some(name))
    case VerboseOpt => c.(verbose := true)
    case TimeoutOpt(text) => c.(activityTimeoutMs := DurationOf(text))
    case ThrottleOpt(text) => c.(detectionThrottleMs := DurationOf(text))
    case RunningMotionOpt(on) => c.(runningMotionActivity := on)
    case PausedMotionOpt(on) => c.(pausedMotionActivity := on)
    case StartPausedOpt(on) => c.(startPaused := on)
  }

  function MeaningOf(opts: seq<Opt>): Config {
    if opts == [] then DEFAULTS
    else Meaning(MeaningOf(opts[..|opts| - 1]), opts[|opts| - 1])
  }

  /** `args` is an acceptable list of options that means `c`. */
  ghost predicate Spells(opts: seq<Opt>, args: seq<string>, c: Config) {
    && Render(opts) == args
    && (forall o | o in opts :: ValidOpt(o))
    && Distinct(opts)
    && c.source.Some? && c.name.Some?
    && c == MeaningOf(opts)
  }

  // ----- Spelling is unambiguous -----

  lemma RenderFirst(o: Opt, rest: seq<Opt>)
    ensures Render([o] + rest) == Tokens(o) + Render(rest)
  {
  }

  lemma {:induction false} RenderConcat(a: seq<Opt>, b: seq<Opt>)
    ensures Render(a + b) == Render(a) + Render(b)
    decreases |a|
  {
    if a == [] {
      assert a + b == b;
    } else {
      assert (a + b)[1..] == a[1..] + b;
      RenderConcat(a[1..], b);
    }
  }

  lemma OnOffInjective(a: bool, b: bool)
    ensures OnOff(a) == OnOff(b) ==> a == b
  {
  }

  lemma SameFlagSameKind(a: Opt, b: Opt)
    ensures Tokens(a)[0] == Tokens(b)[0] <==> Kind(a) == Kind(b)
  {
  }

  lemma FirstOptionUnique(a: Opt, b: Opt, ra: seq<string>, rb: seq<string>)
    requires Tokens(a) + ra == Tokens(b) + rb
    ensures a == b && ra == rb
  {
    var all := Tokens(a) + ra;
    assert all[0] == Tokens(a)[0] == Tokens(b)[0];
    SameFlagSameKind(a, b);
    if !a.VerboseOpt? {
      assert all[1] == Tokens(a)[1] == Tokens(b)[1];
      if a.RunningMotionOpt? || a.PausedMotionOpt? || a.StartPausedOpt? {
        OnOffInjective(a.on, b.on);
      }
    }
    assert ra == all[|Tokens(a)|..] && rb == all[|Tokens(b)|..];
  }

  lemma SomeTokens(o: Opt)
    ensures 1 <= |Tokens(o)| <= 2
  {
  }

  /** What spells a beginning of a list also begins any spelling of the list. */
  lemma {:induction false} SpellingsAgree(done: seq<Opt>, opts: seq<Opt>, rest: seq<string>)
    requires Render(done) + rest == Render(opts)
    ensures done <= opts && Render(opts[|done|..]) == rest
    decreases |done|
  {
    hide Tokens;
    if done == [] {
      assert Render(done) + rest == rest;
    } else {
      SomeTokens(done[0]);
      assert opts != [] by {
        assert |Render(done) + rest| >= |Tokens(done[0])|;
      }
      assert Render(done) + rest == Tokens(done[0]) + (Render(done[1..]) + rest);
      FirstOptionUnique(done[0], opts[0], Render(done[1..]) + rest, Render(opts[1..]));
      SpellingsAgree(done[1..], opts[1..], rest);
      assert opts[1..][|done[1..]|..] == opts[|done|..];
    }
  }

  // ----- The parser -----

  /** Reads the option at `index`, if there is one. */
  method DecodeOption(argv: seq<string>, index: nat) returns (o: Option<Opt>)
    requires index < |argv|
    ensures o.Some? ==> ValidOpt(o.value) && Tokens(o.value) <= argv[index..]
    ensures o.None? ==> forall p: Opt :: ValidOpt(p) ==> !(Tokens(p) <= argv[index..])
  {
    var flag := argv[index];
    if flag == "--verbose" {
      return Some(VerboseOpt);
    }
    o := None;
    if index + 1 < |argv| {
      o := DecodeValued(flag, argv[index + 1]);
      assert o.Some? ==> Tokens(o.value) == argv[index..][..2];
    }
    assert forall p: Opt :: Tokens(p) <= argv[index..] ==> Tokens(p) == argv[index..][..|Tokens(p)|];
    assert index + 1 < |argv| ==> argv[index..][..2] == [flag, argv[index + 1]];
    assert argv[index..][..1] == [flag];
  }

  /** An option with a value. */
  method DecodeValued(flag: string, value: string) returns (o: Option<Opt>)
    requires flag != "--verbose"
    ensures o.Some? ==> ValidOpt(o.value) && Tokens(o.value) == [flag, value]
    ensures o.None? ==> forall p: Opt :: ValidOpt(p) ==> Tokens(p) != [flag, value]
  {
    o := None;
    if flag == "--source" {
      o := Some(SourceOpt(value));
    } else if flag == "--name" {
      o := Some(NameOpt(value));
    } else if flag == "--activity-timeout-ms" || flag == "--detection-throttle-ms" {
      var duration := ParseDuration(value);
      if duration.Some? {
        o := Some(if flag == "--activity-timeout-ms" then TimeoutOpt(value) else ThrottleOpt(value));
      }
    } else if flag == "--running-motion-activity" || flag == "--paused-motion-activity" || flag == "--start-paused" {
      var enabled := ParseOnOff(value);
      if enabled.Some? {
        o := Some(
          if flag == "--running-motion-activity" then RunningMotionOpt(enabled.value)
          else if flag == "--paused-motion-activity" then PausedMotionOpt(enabled.value)
          else StartPausedOpt(enabled.value));
      }
    }
  }

  /** Beyond what was read so far, no new option can follow. */
  ghost predicate Stuck(args: seq<string>, i: nat, done: seq<Opt>)
    requires i <= |args|
  {
    forall o: Opt :: ValidOpt(o) && Tokens(o) <= args[i..] ==> Kind(o) in Kinds(done)
  }

  /** Any spelling of a list goes on, after what was read so far, with a new
      option. */
  lemma NextOption(args: seq<string>, i: nat, done: seq<Opt>, opts: seq<Opt>, c: Config) returns (o: Opt)
    requires i < |args| && Render(done) == args[..i] && Spells(opts, args, c)
    ensures ValidOpt(o) && Tokens(o) <= args[i..] && Kind(o) !in Kinds(done)
  {
    assert Render(done) + args[i..] == args;
    SpellingsAgree(done, opts, args[i..]);
    var rest := opts[|done|..];
    assert rest != [] by {
      assert Render([]) == [];
    }
    o := rest[0];
    assert o == opts[|done|];
    forall d | d in done ensures Kind(d) != Kind(o) {
      var j :| 0 <= j < |done| && done[j] == d;
      assert opts[j] == d;
    }
  }

  lemma StuckIsUnspellable(args: seq<string>, i: nat, done: seq<Opt>)
    requires i < |args| && Render(done) == args[..i] && Stuck(args, i, done)
    ensures forall opts: seq<Opt>, c: Config :: !Spells(opts, args, c)
  {
    forall opts: seq<Opt>, c: Config ensures !Spells(opts, args, c) {
      if Spells(opts, args, c) {
        var o := NextOption(args, i, done, opts, c);
      }
    }
  }

  lemma RenderNothing(opts: seq<Opt>)
    ensures Render(opts) == [] <==> opts == []
  {
  }

  /** The whole list has no other spelling. */
  lemma DoneIsTheSpelling(args: seq<string>, done: seq<Opt>)
    requires Render(done) == args
    ensures forall opts: seq<Opt>, c: Config :: Spells(opts, args, c) ==> opts == done && c == MeaningOf(done)
  {
    forall opts: seq<Opt>, c: Config | Spells(opts, args, c) ensures opts == done {
      assert Render(done) + [] == Render(opts);
      SpellingsAgree(done, opts, []);
      RenderNothing(opts[|done|..]);
    }
  }

  /** A second option of a kind, or no option at all, leaves the parser stuck. */
  lemma StuckHere(args: seq<string>, i: nat, done: seq<Opt>, o: Option<Opt>)
    requires i < |args|
    requires o.None? ==> forall p: Opt :: ValidOpt(p) ==> !(Tokens(p) <= args[i..])
    requires o.Some? ==> Tokens(o.value) <= args[i..] && Kind(o.value) in Kinds(done)
    ensures Stuck(args, i, done)
  {
    if o.Some? {
      forall p: Opt | ValidOpt(p) && Tokens(p) <= args[i..] ensures Kind(p) in Kinds(done) {
        assert Tokens(p)[0] == args[i..][0] == Tokens(o.value)[0];
        SameFlagSameKind(p, o.value);
      }
    }
  }

  /** `done` is what the first `i` arguments spell, and the rest follows. */
  ghost predicate Read(args: seq<string>, i: nat, done: seq<Opt>, config: Config, seen: set<nat>) {
    && i <= |args| && Render(done) == args[..i]
    && (forall o | o in done :: ValidOpt(o)) && Distinct(done)
    && config == MeaningOf(done) && seen == Kinds(done)
    && (config.source.Some? <==> 0 in seen) && (config.name.Some? <==> 1 in seen)
  }

  lemma ReadMore(args: seq<string>, i: nat, done: seq<Opt>, config: Config, seen: set<nat>, o: Opt)
    requires Read(args, i, done, config, seen) && ValidOpt(o) && Tokens(o) <= args[i..] && Kind(o) !in seen
    ensures 0 < |Tokens(o)| <= |args| - i
    ensures Read(args, i + |Tokens(o)|, done + [o], Meaning(config, o), seen + {Kind(o)})
  {
    hide Tokens, MeaningOf, Kinds, Render, Distinct;
    SomeTokens(o);
    DoneGrows(done, o);
    assert args[..i] + Tokens(o) == args[..i + |Tokens(o)|];
  }

  /** Accepts exactly the lists that spell distinct valid options with a source
      and a name, and returns what they mean. */
  method ParseRunConfig(argv: seq<string>) returns (r: Option<Config>)
    requires |argv| >= 2
    ensures forall c: Config :: r == Some(c) <==> exists opts :: Spells(opts, argv[2..], c)
  {
    hide Tokens, Meaning, Kind, Render, Stuck;
    var config := DEFAULTS;
    var seen: set<nat> := {};
    ghost var args := argv[2..];
    ghost var done: seq<Opt> := [];
    NothingRead(args);
    var index := 2;
    while index < |argv|
      invariant 2 <= index <= |argv| && Read(args, index - 2, done, config, seen)
    {
      var o := DecodeOption(argv, index);
      assert argv[index..] == args[index - 2..];
      if o.None? || Kind(o.value) in seen {
        StuckHere(args, index - 2, done, o);
        StuckIsUnspellable(args, index - 2, done);
        return None;
      }
      ReadMore(args, index - 2, done, config, seen, o.value);
      config := Meaning(config, o.value);
      seen := seen + {Kind(o.value)};
      done := done + [o.value];
      index := index + |Tokens(o.value)|;
    }
    assert args[..index - 2] == args;
    DoneIsTheSpelling(args, done);
    if config.source.None? || config.name.None? {
      return None;
    }
    assert Spells(done, args, config);
    return Some(config);
  }

  /** The shortest lists, and what they mean by default. */
  lemma ShortestLists(path: string, name: string)
    ensures Spells([SourceOpt(path), NameOpt(name)], ["--source", path, "--name", name],
                   Config(Some(path), Some(name), 5000, 250, true, true, false, false))
    ensures Spells([SourceOpt(path), NameOpt(name), VerboseOpt], ["--source", path, "--name", name, "--verbose"],
                   Config(Some(path), Some(name), 5000, 250, true, true, false, true))
  {
    hide Render, MeaningOf, Distinct, Kinds;
    var a, b := SourceOpt(path), NameOpt(name);
    NoOptions();
    DoneGrows([], a);
    DoneGrows([a], b);
    assert [] + [a] == [a] && [a] + [b] == [a, b];
    assert Tokens(a) + Tokens(b) == ["--source", path, "--name", name];
    VerboseAdded([a, b], ["--source", path, "--name", name],
                 Config(Some(path), Some(name), 5000, 250, true, true, false, false));
    assert [a, b] + [VerboseOpt] == [a, b, VerboseOpt];
    assert ["--source", path, "--name", name] + ["--verbose"] == ["--source", path, "--name", name, "--verbose"];
  }

  lemma VerboseAdded(opts: seq<Opt>, args: seq<string>, c: Config)
    requires Spells(opts, args, c) && 2 !in Kinds(opts)
    ensures Spells(opts + [VerboseOpt], args + ["--verbose"], c.(verbose := true))
  {
    hide Render, MeaningOf, Distinct, Kinds;
    DoneGrows(opts, VerboseOpt);
  }

  lemma NoOptions()
    ensures Render([]) == [] && MeaningOf([]) == DEFAULTS && Kinds([]) == {} && Distinct([])
  {
  }

  lemma NothingRead(args: seq<string>)
    ensures Read(args, 0, [], DEFAULTS, {})
  {
  }

  lemma DoneGrows(done: seq<Opt>, o: Opt)
    ensures Render(done + [o]) == Render(done) + Tokens(o) && |Tokens(o)| > 0
    ensures Kinds(done + [o]) == Kinds(done) + {Kind(o)}
    ensures MeaningOf(done + [o]) == Meaning(MeaningOf(done), o)
    ensures Distinct(done) && Kind(o) !in Kinds(done) ==> Distinct(done + [o])
  {
    hide Tokens, Kind, Meaning;
    SomeTokens(o);
    RenderConcat(done, [o]);
    assert Render([o]) == Tokens(o) by {
      assert [o] == [o] + [];
      RenderFirst(o, []);
    }
    assert (done + [o])[..|done|] == done;
    assert forall p | p in done :: Kind(p) in Kinds(done);
    assert Kinds(done + [o]) == Kinds(done) + {Kind(o)} by {
      assert forall p :: p in done + [o] <==> p in done || p == o;
    }
  }
}
