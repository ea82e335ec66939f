/** Response files: one argument per line, and the round trip of a policy
    through such a file. */
module ResponseFiles {
  import opened Input
  import opened InstanceNames
  import opened RuntimePolicy
  import opened RunOptions

  const NUL: char := '\0'
  const INT_MAX: nat := 0x7fff_ffff

  /** The length of the first line, without its newline. */
  function LineLength(content: string): (n: nat)
    ensures n <= |content| && '\n' !in content[..n]
    ensures n < |content| ==> content[n] == '\n'
  {
    if content == [] || content[0] == '\n' then 0 else 1 + LineLength(content[1..])
  }

  /** The lines of a file; the last one need not end in a newline. */
  function Lines(content: string): seq<string> {
    if content == [] then []
    else
      var n := LineLength(content);
      [content[..n]] + if n < |content| then Lines(content[n + 1..]) else []
  }

  /** Every argument on a line of its own. */
  function JoinLines(args: seq<string>): string {
    if args == [] then [] else args[0] + "\n" + JoinLines(args[1..])
  }

  predicate OneLine(text: string) {
    '\n' !in text
  }

  lemma {:induction false} LineLengthOfArgument(arg: string, rest: string)
    requires OneLine(arg)
    ensures LineLength(arg + ("\n" + rest)) == |arg|
    decreases |arg|
  {
    if arg != [] {
      assert arg[0] in arg;
      assert (arg + ("\n" + rest))[1..] == arg[1..] + ("\n" + rest);
      LineLengthOfArgument(arg[1..], rest);
    }
  }

  /** Splitting what was joined gives the arguments back, however many there
      are; only newlines inside an argument are excluded. */
  lemma {:induction false} SplitJoined(args: seq<string>)
    requires forall a | a in args :: OneLine(a)
    ensures Lines(JoinLines(args)) == args
    decreases |args|
  {
    if args != [] {
      var arg, rest := args[0], JoinLines(args[1..]);
      assert JoinLines(args) == arg + ("\n" + rest);
      LineLengthOfArgument(arg, rest);
      assert (arg + ("\n" + rest))[..|arg|] == arg;
      assert (arg + ("\n" + rest))[|arg| + 1..] == rest;
      SplitJoined(args[1..]);
    }
  }

  lemma NothingToRead()
    ensures Lines([]) == []
  {
  }

  /** The line read and what is left after it. */
  lemma FirstLine(content: string)
    requires content != []
    ensures var n := LineLength(content);
            var next := if n < |content| then n + 1 else n;
            0 < next <= |content| && Lines(content) == [content[..n]] + Lines(content[next..])
  {
    hide LineLength;
    var n := LineLength(content);
    if n == |content| {
      assert content[n..] == [];
      assert Lines(content) == [content[..n]];
    } else {
      assert Lines(content) == [content[..n]] + Lines(content[n + 1..]);
    }
  }

  /** Reads a file line by line into an argument list. An embedded NUL spoils
      the whole file; memory and input errors may as well. */
  method ReadResponseFile(content: string, programName: string)
    returns (argv: Option<seq<string>>, ghost trouble: bool)
    ensures argv.Some? ==> NUL !in content && argv.value == [programName, "run"] + Lines(content)
    ensures argv.None? <==> trouble || NUL in content || |Lines(content)| > INT_MAX - 2
  {
    hide LineLength, Lines;
    NothingToRead();
    var args := [programName, "run"];
    var unread := content;
    trouble := false;
    while unread != []
      invariant NUL in content <==> NUL in unread
      invariant !trouble && |args| <= INT_MAX
      invariant args + Lines(unread) == [programName, "run"] + Lines(content)
      decreases |unread|
    {
      FirstLine(unread);
      var n := LineLength(unread);
      var next := if n < |unread| then n + 1 else n;
      var line := unread[..next];
      if NUL in line {
        return None, trouble;
      }
      var memory: bool := *;
      trouble := !memory;
      if |args| == INT_MAX || !memory {
        return None, trouble;
      }
      assert unread == line + unread[next..];
      args := args + [unread[..n]];
      unread := unread[next..];
    }
    var inputError: bool := *;
    trouble := inputError;
    if inputError {
      return None, trouble;
    }
    return Some(args), trouble;
  }

  // ----- Policies in files -----

  function Setting(flag: string, value: string): string {
    flag + "\n" + value + "\n"
  }

  /** What installing an instance writes. */
  function PolicyText(source: string, name: string, c: Config): string {
    Setting("--source", source) + (
      Setting("--name", name) + (
        Setting("--activity-timeout-ms", Decimal(c.activityTimeoutMs)) + (
          Setting("--detection-throttle-ms", Decimal(c.detectionThrottleMs)) + (
            Setting("--running-motion-activity", OnOff(c.runningMotionActivity)) + (
              Setting("--paused-motion-activity", OnOff(c.pausedMotionActivity)) +
              Setting("--start-paused", OnOff(c.startPaused)))))))
  }

  function PolicyOptions(source: string, name: string, c: Config): seq<Opt> {
    [SourceOpt(source), NameOpt(name), TimeoutOpt(Decimal(c.activityTimeoutMs)),
     ThrottleOpt(Decimal(c.detectionThrottleMs)), RunningMotionOpt(c.runningMotionActivity),
     PausedMotionOpt(c.pausedMotionActivity), StartPausedOpt(c.startPaused)]
  }

  lemma JoinTwo(flag: string, value: string, rest: seq<string>)
    ensures JoinLines([flag, value] + rest) == Setting(flag, value) + JoinLines(rest)
  {
  }

  lemma JoinOption(o: Opt, rest: seq<Opt>)
    requires !o.VerboseOpt?
    ensures JoinLines(Render([o] + rest)) == Setting(Tokens(o)[0], Tokens(o)[1]) + JoinLines(Render(rest))
  {
    RenderFirst(o, rest);
    JoinTwo(Tokens(o)[0], Tokens(o)[1], Render(rest));
    assert Tokens(o) == [Tokens(o)[0], Tokens(o)[1]];
  }

  /** The text is the options of the policy, one argument per line. */
  lemma PolicyTextIsJoined(source: string, name: string, c: Config)
    ensures PolicyText(source, name, c) == JoinLines(Render(PolicyOptions(source, name, c)))
  {
    hide Tokens, Render, Setting, JoinLines, Decimal, OnOff;
    var o := PolicyOptions(source, name, c);
    PolicySettings(source, name, c);
    assert o[0..] == o && o[7..] == [];
    assert o[0..] == [o[0]] + o[1..] && o[1..] == [o[1]] + o[2..] && o[2..] == [o[2]] + o[3..];
    assert o[3..] == [o[3]] + o[4..] && o[4..] == [o[4]] + o[5..] && o[5..] == [o[5]] + o[6..];
    assert o[6..] == [o[6]] + o[7..];
    JoinOption(o[0], o[1..]);
    JoinOption(o[1], o[2..]);
    JoinOption(o[2], o[3..]);
    JoinOption(o[3], o[4..]);
    JoinOption(o[4], o[5..]);
    JoinOption(o[5], o[6..]);
    JoinOption(o[6], o[7..]);
    NothingJoined();
  }

  lemma NothingJoined()
    ensures JoinLines(Render([])) == []
  {
  }

  lemma PolicySettings(source: string, name: string, c: Config)
    ensures var o := PolicyOptions(source, name, c);
            && Tokens(o[0]) == ["--source", source] && Tokens(o[1]) == ["--name", name]
            && Tokens(o[2]) == ["--activity-timeout-ms", Decimal(c.activityTimeoutMs)]
            && Tokens(o[3]) == ["--detection-throttle-ms", Decimal(c.detectionThrottleMs)]
            && Tokens(o[4]) == ["--running-motion-activity", OnOff(c.runningMotionActivity)]
            && Tokens(o[5]) == ["--paused-motion-activity", OnOff(c.pausedMotionActivity)]
            && Tokens(o[6]) == ["--start-paused", OnOff(c.startPaused)]
  {
  }

  /** The policy a stored instance runs with: the same, never verbose. */
  function StoredPolicy(source: string, name: string, c: Config): Config {
    c.(source := Some(source), name := Some(name), verbose := false)
  }

  lemma PolicyMeaning(source: string, name: string, c: Config)
    requires c.activityTimeoutMs <= UINT32_MAX && c.detectionThrottleMs <= UINT32_MAX
    ensures MeaningOf(PolicyOptions(source, name, c)) == StoredPolicy(source, name, c)
    ensures forall o | o in PolicyOptions(source, name, c) :: ValidOpt(o)
  {
    DecimalRoundTrip(c.activityTimeoutMs);
    DecimalRoundTrip(c.detectionThrottleMs);
    var o := PolicyOptions(source, name, c);
    assert o[..1][..0] == [] && o[..2][..1] == o[..1] && o[..3][..2] == o[..2] && o[..4][..3] == o[..3];
    assert o[..5][..4] == o[..4] && o[..6][..5] == o[..5] && o[..7] == o;
    assert MeaningOf(o[..1]) == Meaning(DEFAULTS, o[0]);
    assert MeaningOf(o[..2]) == Meaning(MeaningOf(o[..1]), o[1]);
    assert MeaningOf(o[..3]) == Meaning(MeaningOf(o[..2]), o[2]);
    assert MeaningOf(o[..4]) == Meaning(MeaningOf(o[..3]), o[3]);
    assert MeaningOf(o[..5]) == Meaning(MeaningOf(o[..4]), o[4]);
    assert MeaningOf(o[..6]) == Meaning(MeaningOf(o[..5]), o[5]);
  }

  lemma DecimalIsOneLine(n: nat)
    ensures OneLine(Decimal(n))
  {
  }

  lemma NameIsOneLine(name: string)
    requires ValidName(name)
    ensures OneLine(name)
  {
  }

  lemma {:induction false} RenderedOneLine(opts: seq<Opt>)
    requires forall o | o in opts :: OneLineTokens(o)
    ensures forall a | a in Render(opts) :: OneLine(a)
  {
    if opts != [] {
      RenderedOneLine(opts[1..]);
      assert opts[0] in opts;
    }
  }

  ghost predicate OneLineTokens(o: Opt) {
    forall a | a in Tokens(o) :: OneLine(a)
  }

  lemma PolicyOptionsOneLine(source: string, name: string, c: Config)
    requires OneLine(source) && OneLine(name)
    ensures forall o | o in PolicyOptions(source, name, c) :: OneLineTokens(o)
  {
    hide Decimal;
    DecimalIsOneLine(c.activityTimeoutMs);
    DecimalIsOneLine(c.detectionThrottleMs);
    var o := PolicyOptions(source, name, c);
    PolicySettings(source, name, c);
    assert OneLineTokens(o[0]) && OneLineTokens(o[1]) && OneLineTokens(o[2]) && OneLineTokens(o[3]);
    assert OneLineTokens(o[4]) && OneLineTokens(o[5]) && OneLineTokens(o[6]);
  }

  lemma PolicyLines(source: string, name: string, c: Config)
    requires OneLine(source) && OneLine(name)
    ensures Lines(PolicyText(source, name, c)) == Render(PolicyOptions(source, name, c))
  {
    hide PolicyText, PolicyOptions, Render, OneLineTokens;
    var options := PolicyOptions(source, name, c);
    PolicyOptionsOneLine(source, name, c);
    RenderedOneLine(options);
    PolicyTextIsJoined(source, name, c);
    SplitJoined(Render(options));
  }

  /** The stored lines, word by word. */
  lemma StoredLines(source: string, name: string, c: Config)
    requires OneLine(source) && OneLine(name)
    ensures Lines(PolicyText(source, name, c)) ==
      ["--source", source, "--name", name,
       "--activity-timeout-ms", Decimal(c.activityTimeoutMs),
       "--detection-throttle-ms", Decimal(c.detectionThrottleMs),
       "--running-motion-activity", if c.runningMotionActivity then "on" else "off",
       "--paused-motion-activity", if c.pausedMotionActivity then "on" else "off",
       "--start-paused", if c.startPaused then "on" else "off"]
  {
    hide PolicyText, Render, Decimal, Tokens, Lines;
    var o := PolicyOptions(source, name, c);
    PolicySettings(source, name, c);
    PolicyLines(source, name, c);
    RenderTwo(o[0], o[1]);
    RenderTwo(o[2], o[3]);
    RenderTwo(o[4], o[5]);
    RenderSeven(o);
  }

  lemma RenderTwo(a: Opt, b: Opt)
    ensures Render([a, b]) == Tokens(a) + Tokens(b)
  {
    hide Tokens;
    assert [a, b][1..] == [b] && [b][1..] == [];
    assert Render([b]) == Tokens(b) + Render([]);
  }

  lemma RenderSeven(o: seq<Opt>)
    requires |o| == 7
    ensures Render(o) ==
            Render([o[0], o[1]]) + (Render([o[2], o[3]]) + (Render([o[4], o[5]]) + Tokens(o[6])))
  {
    hide Tokens, Render;
    RenderConcat([o[0], o[1]], o[2..]);
    RenderConcat([o[2], o[3]], o[4..]);
    RenderConcat([o[4], o[5]], o[6..]);
    assert o == [o[0], o[1]] + o[2..] && o[2..] == [o[2], o[3]] + o[4..] && o[4..] == [o[4], o[5]] + o[6..];
    LastRendered(o);
  }

  lemma LastRendered(o: seq<Opt>)
    requires |o| == 7
    ensures Render(o[6..]) == Tokens(o[6])
  {
    assert o[6..][1..] == [];
  }

  /** Main result: a policy that is stored, split into lines and parsed comes
      back as it was, exactly when both durations fit 32 bits. */
  lemma PolicyRoundTripIff(source: string, name: string, c: Config)
    requires OneLine(source) && ValidName(name)
    ensures (exists opts :: Spells(opts, Lines(PolicyText(source, name, c)), StoredPolicy(source, name, c))) <==>
            c.activityTimeoutMs <= UINT32_MAX && c.detectionThrottleMs <= UINT32_MAX
  {
    hide PolicyText, Render, Lines, MeaningOf, Tokens, Decimal, DecimalValue;
    NameIsOneLine(name);
    PolicyLines(source, name, c);
    var options, stored := PolicyOptions(source, name, c), StoredPolicy(source, name, c);
    var args := Render(options);
    if c.activityTimeoutMs <= UINT32_MAX && c.detectionThrottleMs <= UINT32_MAX {
      PolicyMeaning(source, name, c);
      assert Spells(options, args, stored);
    }
    if opts :| Spells(opts, args, stored) {
      DoneIsTheSpelling(args, options);
      assert ValidOpt(options[2]) && ValidOpt(options[3]);
      DecimalRoundTrip(c.activityTimeoutMs);
      DecimalRoundTrip(c.detectionThrottleMs);
    }
  }

  // ----- Finding the source of a stored instance -----

  /** The argument after the first "--source". */
  function FirstSource(args: seq<string>): Option<string> {
    if |args| < 2 then None
    else if args[0] == "--source" then Some(args[1])
    else FirstSource(args[1..])
  }

  method SourceFromResponse(argv: seq<string>) returns (source: Option<string>)
    ensures source == if |argv| < 2 then None else FirstSource(argv[2..])
  {
    var index := 2;
    while index + 1 < |argv|
      invariant 2 <= index && (|argv| >= 2 ==> index <= |argv|)
      invariant |argv| >= 2 ==> FirstSource(argv[2..]) == FirstSource(argv[index..])
    {
      if argv[index] == "--source" {
        return Some(argv[index + 1]);
      }
      assert argv[index..][1..] == argv[index + 1..];
      index := index + 1;
    }
    return None;
  }

  lemma {:induction false} MeaningHasSource(opts: seq<Opt>, i: nat)
    requires i < |opts| && opts[i].SourceOpt? && Distinct(opts)
    ensures MeaningOf(opts).source == Some(opts[i].path)
    decreases |opts|
  {
    var last := |opts| - 1;
    if i < last {
      assert Kind(opts[i]) != Kind(opts[last]);
      MeaningHasSource(opts[..last], i);
    }
  }

  lemma {:induction false} MeaningNeedsSource(opts: seq<Opt>)
    ensures MeaningOf(opts).source.Some? ==> exists i :: 0 <= i < |opts| && opts[i].SourceOpt?
    decreases |opts|
  {
    if opts != [] && !opts[|opts| - 1].SourceOpt? {
      var rest := opts[..|opts| - 1];
      MeaningNeedsSource(rest);
      if MeaningOf(rest).source.Some? {
        var i :| 0 <= i < |rest| && rest[i].SourceOpt?;
        assert opts[i].SourceOpt?;
      }
    }
  }

  const MISLEADING: Opt := NameOpt("--source")

  /** Where the name "--source" comes before the source, the lookup takes what
      follows the name, which must then be the source by chance. */
  ghost predicate NotMisled(opts: seq<Opt>, i: nat)
    requires i < |opts| && opts[i].SourceOpt?
  {
    forall k | 0 <= k < i && opts[k] == MISLEADING :: opts[i].path == Tokens(opts[k + 1])[0]
  }

  lemma {:induction false} FirstSourceRendered(opts: seq<Opt>, i: nat)
    requires i < |opts| && opts[i].SourceOpt? && (forall o | o in opts :: ValidOpt(o)) && Distinct(opts)
    ensures FirstSource(Render(opts)).Some?
    ensures FirstSource(Render(opts)).value == opts[i].path <==> NotMisled(opts, i)
    decreases i
  {
    var t, rest := Tokens(opts[0]), Render(opts[1..]);
    assert Render(opts) == t + rest;
    if i == 0 {
      assert Render(opts)[0] == "--source" && Render(opts)[1] == opts[0].path;
    } else {
      FirstSourceRendered(opts[1..], i - 1);
      SameFlagSameKind(opts[0], opts[i]);
      assert t[0] != "--source";
      assert opts[1..][i - 1] == opts[i];
      if opts[0] == MISLEADING {
        MisledByName(opts);
        assert forall k | 0 < k < i :: Kind(opts[k]) != Kind(opts[0]);
      } else {
        NoFlagAsValue(opts[0]);
        SkipTokens(t, rest);
        NotMisledLater(opts, i);
      }
    }
  }

  lemma NameTakenForSource(rest: seq<string>)
    requires rest != []
    ensures FirstSource(["--name", "--source"] + rest) == Some(rest[0])
  {
    var args := ["--name", "--source"] + rest;
    assert |args[0]| == 6 && |args[1]| == 8;
    assert args[1..][0] == "--source" && args[1..][1] == rest[0];
  }

  lemma MisledByName(opts: seq<Opt>)
    requires |opts| > 1 && opts[0] == MISLEADING
    ensures FirstSource(Render(opts)) == Some(Tokens(opts[1])[0])
  {
    hide FirstSource;
    var t, rest := Tokens(opts[1]), Render(opts[1..][1..]);
    assert Render(opts) == ["--name", "--source"] + (t + rest);
    NameTakenForSource(t + rest);
  }

  lemma NotMisledLater(opts: seq<Opt>, i: nat)
    requires 0 < i < |opts| && opts[i].SourceOpt? && opts[0] != MISLEADING
    ensures NotMisled(opts[1..], i - 1) <==> NotMisled(opts, i)
  {
    var rest := opts[1..];
    assert forall k | 0 <= k < i :: rest[k] == opts[k + 1];
    if NotMisled(rest, i - 1) {
      forall k | 0 <= k < i && opts[k] == MISLEADING ensures opts[i].path == Tokens(opts[k + 1])[0] {
        assert rest[k - 1] == MISLEADING;
      }
    }
  }

  lemma NoFlagAsValue(o: Opt)
    requires ValidOpt(o) && !o.SourceOpt? && (o.NameOpt? ==> o.name != "--source")
    ensures |Tokens(o)| == 2 ==> Tokens(o)[1] != "--source"
  {
    if o.TimeoutOpt? || o.ThrottleOpt? {
      assert o.text != "--source" by {
        assert "--source"[0] == '-' && '-' in "--source" && !IsDigit('-');
      }
    }
    assert |OnOff(true)| == 2 && |OnOff(false)| == 3 && |"--source"| == 8;
  }

  lemma SkipTokens(t: seq<string>, rest: seq<string>)
    requires 1 <= |t| <= 2 && t[0] != "--source" && (|t| == 2 ==> t[1] != "--source")
    requires |rest| >= 2
    ensures FirstSource(t + rest) == FirstSource(rest)
  {
  }

  /** On an accepted list the lookup finds the source the parser finds exactly
      when no name "--source" before it misleads the lookup. */
  lemma LookupFindsSourceIff(opts: seq<Opt>, args: seq<string>, c: Config, i: nat)
    requires Spells(opts, args, c) && i < |opts| && opts[i].SourceOpt?
    ensures FirstSource(args) == c.source <==>
            forall k | 0 <= k < i && opts[k] == NameOpt("--source") :: opts[i].path == Tokens(opts[k + 1])[0]
  {
    MeaningHasSource(opts, i);
    FirstSourceRendered(opts, i);
    assert NotMisled(opts, i) <==>
      forall k | 0 <= k < i && opts[k] == NameOpt("--source") :: opts[i].path == Tokens(opts[k + 1])[0];
  }

  /** So with a valid name, not just on stored lists, it always does. */
  lemma LookupFindsSource(opts: seq<Opt>, args: seq<string>, c: Config)
    requires Spells(opts, args, c) && ValidName(c.name.value)
    ensures FirstSource(args) == c.source
  {
    MeaningNeedsSource(opts);
    var i :| 0 <= i < |opts| && opts[i].SourceOpt?;
    forall k | 0 <= k < i ensures opts[k] != NameOpt("--source") {
      if opts[k].NameOpt? {
        MeaningHasName(opts, k);
        assert !IsAsciiLetter("--source"[0]) && "--source"[0] != '_';
      }
    }
    LookupFindsSourceIff(opts, args, c, i);
  }

  lemma {:induction false} MeaningHasName(opts: seq<Opt>, i: nat)
    requires i < |opts| && opts[i].NameOpt? && Distinct(opts)
    ensures MeaningOf(opts).name == Some(opts[i].name)
    decreases |opts|
  {
    var last := |opts| - 1;
    if i < last {
      assert Kind(opts[i]) != Kind(opts[last]);
      MeaningHasName(opts[..last], i);
    }
  }

  /** A name the parser accepts and the name rule forbids misleads the lookup. */
  lemma LookupMisledByInvalidName()
    ensures exists opts, args, c :: Spells(opts, args, c) && FirstSource(args) != c.source
  {
    var opts := [NameOpt("--source"), SourceOpt("/dev/input/event0")];
    var args := ["--name", "--source", "--source", "/dev/input/event0"];
    var c := DEFAULTS.(name := Some("--source"), source := Some("/dev/input/event0"));
    assert opts[1..][1..] == [] && opts[1..] == [opts[1]];
    assert Render(opts[1..]) == Tokens(opts[1]);
    assert Render(opts) == args;
    assert opts[..1][..0] == [];
    assert MeaningOf(opts[..1]) == Meaning(DEFAULTS, opts[0]);
    assert Spells(opts, args, c);
    assert args[1..][0] == "--source" && FirstSource(args[1..]) == Some("--source");
    assert |"--source"| == 8 && |"--name"| == 6 && |"/dev/input/event0"| == 17;
    assert FirstSource(args) == Some("--source");
  }
}
