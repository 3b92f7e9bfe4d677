/** The control state of the `while background` loop in `generate_images`:
    each received datagram is one message; receiving, inference and the image
    write are abstracted into a "generated" event carrying the seed used. */
module Listen {
  import opened Wrappers
  import opened Strings
  import opened Ints

  /** `background` keeps the loop running; `seed` is the last seed generated from. */
  datatype State = State(background: bool, seed: int)

  /** The state before the first message: listening, seed 1. */
  const Initial: State := State(true, 1)

  /** The seeds `np.random.RandomState(seed)` accepts: 0 up to 2^32 - 1. */
  predicate ValidSeed(n: int) {
    0 <= n < 0x1_0000_0000
  }

  /** The exceptions a message can raise; none is caught, so each ends the loop. */
  datatype LoopError =
    | MissingSeedToken              // `reply[1]` on a one-token "seed" message (IndexError)
    | BadSeedToken(cause: IntError) // `int(reply[1])` on a non-integer token (ValueError)
    | SeedOutOfRange(seed: int)     // `RandomState(seed)` on a seed outside 0..2^32-1 (ValueError)

  /** The state after one message, and whether an image was generated. */
  datatype StepOut = StepOut(next: State, generated: bool)

  /** One loop iteration on the decoded message `msg`. */
  function Step(s: State, msg: string): (r: Result<StepOut, LoopError>)
    ensures r.Success? ==> r.value.next.background == (s.background && msg != "Exit")
    ensures r.Success? && !r.value.generated ==> r.value.next.seed == s.seed
    ensures r.Success? && r.value.generated ==> msg != "Exit" && ValidSeed(r.value.next.seed)
  {
    var background := if msg == "Exit" then false else s.background;
    var tokens := Split(msg, '_');
    if tokens[0] == "seed" then
      if |tokens| < 2 then Failure(MissingSeedToken)
      else
        match ParseInt(tokens[1])
        case Failure(e) => Failure(BadSeedToken(e))
        case Success(n) =>
          if ValidSeed(n) then Success(StepOut(State(background, n), true))
          else Failure(SeedOutOfRange(n))
    else
      Success(StepOut(State(background, s.seed), false))
  }

  /** What a message asks for, read off its prefix. */
  datatype Command =
    | ExitCmd                      // exactly "Exit"
    | SeedCmd(arg: Option<string>) // "seed", or "seed_" followed by the argument token
    | Ignored                      // anything else

  /** Reference decoder: classifies a message by prefix tests, without splitting it. */
  function Classify(msg: string): Command {
    if msg == "Exit" then ExitCmd
    else if msg == "seed" then SeedCmd(None)
    else if |msg| >= 5 && msg[..5] == "seed_" then SeedCmd(Some(FirstField(msg[5..], '_')))
    else Ignored
  }

  /** Reference meaning of a command on a state. */
  function Apply(s: State, c: Command): Result<StepOut, LoopError> {
    match c
    case ExitCmd => Success(StepOut(s.(background := false), false))
    case SeedCmd(None) => Failure(MissingSeedToken)
    case SeedCmd(Some(t)) =>
      (match ParseInt(t)
       case Failure(e) => Failure(BadSeedToken(e))
       case Success(n) =>
         if ValidSeed(n) then Success(StepOut(s.(seed := n), true)) else Failure(SeedOutOfRange(n)))
    case Ignored => Success(StepOut(s, false))
  }

  /** The first `_` token is "seed" exactly when the message is "seed" or starts with "seed_". */
  lemma FirstTokenIsSeed(msg: string)
    ensures Split(msg, '_')[0] == "seed" <==> msg == "seed" || (|msg| >= 5 && msg[..5] == "seed_")
  {
    if Split(msg, '_')[0] == "seed" {
      SeedTokenPrefix(msg);
    }
    if |msg| >= 5 && msg[..5] == "seed_" {
      SplitSeedPrefix(msg);
    }
    if msg == "seed" {
      SplitNoSep(msg, '_');
    }
  }

  /** A message starting "seed_" splits into "seed" and the tokens of the remainder. */
  lemma SplitSeedPrefix(msg: string)
    requires |msg| >= 5 && msg[..5] == "seed_"
    ensures Split(msg, '_') == ["seed"] + Split(msg[5..], '_')
  {
    var head: string := "seed";
    assert msg == head + ['_'] + msg[5..] by {
      assert msg == msg[..5] + msg[5..];
    }
    SplitCons(head, '_', msg[5..]);
  }

  /** A first `_` token equal to "seed" means the message is "seed" or starts with "seed_". */
  lemma SeedTokenPrefix(msg: string)
    requires Split(msg, '_')[0] == "seed"
    ensures msg == "seed" || (|msg| >= 5 && msg[..5] == "seed_")
  {
    var tokens := Split(msg, '_');
    if |tokens| > 1 {
      var tail := Join(tokens[1..], '_');
      assert msg == "seed" + ['_'] + tail;
      assert msg[..5] == "seed_";
    }
  }

  /** The split-based loop body and the prefix-based reference decoder agree on every message. */
  lemma StepMatchesCommand(s: State, msg: string)
    ensures Step(s, msg) == Apply(s, Classify(msg))
  {
    FirstTokenIsSeed(msg);
    if msg == "Exit" {
      SplitNoSep(msg, '_');
    } else if msg == "seed" {
      SplitNoSep(msg, '_');
    } else if |msg| >= 5 && msg[..5] == "seed_" {
      SplitSeedPrefix(msg);
      SplitHead(msg[5..], '_');
    }
  }

  /** "Exit" stops the loop and touches nothing else. */
  lemma StepExit(s: State)
    ensures Step(s, "Exit") == Success(StepOut(s.(background := false), false))
  {
    StepMatchesCommand(s, "Exit");
  }

  /** Only the exact text "Exit" stops the loop: "Exit_now" is ignored. */
  lemma StepExitNow(s: State)
    ensures Step(s, "Exit_now") == Success(StepOut(s, false))
  {
    StepMatchesCommand(s, "Exit_now");
  }

  /** `seed_<n>` sets the seed to n and generates once, unless the generator
      rejects n; tokens after the second are ignored. */
  lemma StepSeed(s: State, n: int, rest: string)
    requires rest == [] || rest[0] == '_'
    ensures Step(s, "seed_" + ShowInt(n) + rest)
         == if ValidSeed(n) then Success(StepOut(s.(seed := n), true)) else Failure(SeedOutOfRange(n))
  {
    var t := ShowInt(n);
    var msg := "seed_" + t + rest;
    ParseShowInt(n);
    if n < 0 {
      DigitsExclude(t[1..], '_');
      assert t == [t[0]] + t[1..];
    } else {
      DigitsExclude(t, '_');
    }
    assert msg[..5] == "seed_" && msg[5..] == t + rest;
    FirstFieldOf(t, rest);
    StepMatchesCommand(s, msg);
  }

  /** The first `_` field of `t + rest` is `t` when `t` has no `_` and `rest` starts a new field. */
  lemma {:induction false} FirstFieldOf(t: string, rest: string)
    requires '_' !in t && (rest == [] || rest[0] == '_')
    ensures FirstField(t + rest, '_') == t
    decreases |t|
  {
    if |t| > 0 {
      assert (t + rest)[1..] == t[1..] + rest;
      FirstFieldOf(t[1..], rest);
      assert [t[0]] + t[1..] == t;
    }
  }

  /** A "seed" message without an integer second token raises. */
  lemma StepSeedErrors(s: State, t: string, rest: string)
    requires '_' !in t && !IsIntLiteral(t) && (rest == [] || rest[0] == '_')
    ensures Step(s, "seed") == Failure(MissingSeedToken)
    ensures Step(s, "seed_" + t + rest) == Failure(BadSeedToken(NotAnInteger(t)))
  {
    StepMatchesCommand(s, "seed");
    SeedTokenOf(t, rest);
    StepMatchesCommand(s, "seed_" + t + rest);
  }

  /** `seed_` followed by a `_`-free token and a new field or nothing is a seed command for that token. */
  lemma SeedTokenOf(t: string, rest: string)
    requires '_' !in t && (rest == [] || rest[0] == '_')
    ensures Classify("seed_" + t + rest) == SeedCmd(Some(t))
  {
    var msg := "seed_" + t + rest;
    assert msg[..5] == "seed_" && msg[5..] == t + rest;
    FirstFieldOf(t, rest);
  }

  /** Any other message changes nothing and generates nothing. */
  lemma StepIgnored(s: State, msg: string)
    requires msg != "Exit" && msg != "seed" && !(|msg| >= 5 && msg[..5] == "seed_")
    ensures Step(s, msg) == Success(StepOut(s, false))
  {
    StepMatchesCommand(s, msg);
  }

  /** What the loop leaves behind: the final state, the seeds it generated
      from in order, how many messages it took, and the exception that ended it. */
  datatype Trace = Trace(final: State, seeds: seq<int>, consumed: nat, failure: Option<LoopError>)

  function LastSeed(s: State, seeds: seq<int>): int {
    if |seeds| == 0 then s.seed else seeds[|seeds| - 1]
  }

  /** The `while background` loop over the messages received, stopping after
      "Exit" or at the first uncaught exception. */
  function Run(s: State, msgs: seq<string>): (t: Trace)
    ensures t.consumed <= |msgs|
    ensures !s.background ==> t == Trace(s, [], 0, None)
    ensures t.failure.None? && t.consumed < |msgs| ==> !t.final.background
    ensures s.background && !t.final.background ==> t.consumed >= 1 && msgs[t.consumed - 1] == "Exit"
    ensures forall i :: 0 <= i < t.consumed - 1 ==> msgs[i] != "Exit"
    ensures t.failure.None? && t.consumed >= 1 && msgs[t.consumed - 1] == "Exit" ==> !t.final.background
    ensures t.failure.Some? ==> t.consumed >= 1 && Classify(msgs[t.consumed - 1]).SeedCmd?
    ensures t.final.seed == LastSeed(s, t.seeds)
    decreases |msgs|
  {
    if !s.background || |msgs| == 0 then Trace(s, [], 0, None)
    else
      match Step(s, msgs[0])
      case Failure(e) =>
        StepMatchesCommand(s, msgs[0]);
        Trace(s, [], 1, Some(e))
      case Success(out) =>
        var rest := Run(out.next, msgs[1..]);
        var here := if out.generated then [out.next.seed] else [];
        assert forall i :: 1 <= i < rest.consumed ==> msgs[i] == msgs[1..][i - 1];
        Trace(rest.final, here + rest.seeds, rest.consumed + 1, rest.failure)
  }

  /** The listener as started: from the initial state, reading at least the
      first message, and generating from the seeds the consumed seed commands name. */
  function Listen(msgs: seq<string>): (t: Trace)
    ensures 0 < |msgs| ==> 1 <= t.consumed
    ensures t.consumed <= |msgs|
    ensures t.seeds == [] ==> t.final.seed == 1
    ensures t.seeds == SeedValues(msgs[..t.consumed])
  {
    RunSeeds(Initial, msgs);
    Run(Initial, msgs)
  }

  /** How many messages are seed commands. */
  function CountSeedCommands(msgs: seq<string>): nat {
    if |msgs| == 0 then 0
    else (if Classify(msgs[0]).SeedCmd? then 1 else 0) + CountSeedCommands(msgs[1..])
  }

  /** Reference list of the seeds that the seed commands name, in order. */
  function SeedValues(msgs: seq<string>): seq<int> {
    if |msgs| == 0 then []
    else
      var here := match Classify(msgs[0])
        case SeedCmd(Some(t)) =>
          (if IsIntLiteral(t) && ValidSeed(ParseInt(t).value) then [ParseInt(t).value] else [])
        case _ => [];
      here + SeedValues(msgs[1..])
  }

  /** The loop generates from exactly the seeds named by the seed commands it
      consumed, in order, including a run that ends in an exception. */
  lemma {:induction false} RunSeeds(s: State, msgs: seq<string>)
    ensures var t := Run(s, msgs); t.seeds == SeedValues(msgs[..t.consumed])
    decreases |msgs|
  {
    if s.background && |msgs| > 0 {
      var t := Run(s, msgs);
      StepMatchesCommand(s, msgs[0]);
      var p := msgs[..t.consumed];
      assert p[0] == msgs[0];
      if Step(s, msgs[0]).Success? {
        var out := Step(s, msgs[0]).value;
        var rest := Run(out.next, msgs[1..]);
        RunSeeds(out.next, msgs[1..]);
        assert t.consumed == rest.consumed + 1;
        assert p[1..] == msgs[1..][..rest.consumed];
        assert t.seeds == (if out.generated then [out.next.seed] else []) + rest.seeds;
      } else {
        assert p == [msgs[0]];
        assert p[1..] == [];
      }
    }
  }

  /** Without an exception, there is one generation per seed command consumed. */
  lemma {:induction false} RunGenerations(s: State, msgs: seq<string>)
    requires Run(s, msgs).failure.None?
    ensures var t := Run(s, msgs); |t.seeds| == CountSeedCommands(msgs[..t.consumed])
    decreases |msgs|
  {
    if s.background && |msgs| > 0 {
      var t := Run(s, msgs);
      StepMatchesCommand(s, msgs[0]);
      var out := Step(s, msgs[0]).value;
      var rest := Run(out.next, msgs[1..]);
      RunGenerations(out.next, msgs[1..]);
      var p := msgs[..t.consumed];
      assert t.consumed == rest.consumed + 1;
      assert p[0] == msgs[0];
      assert p[1..] == msgs[1..][..rest.consumed];
      assert t.seeds == (if out.generated then [out.next.seed] else []) + rest.seeds;
    }
  }

  /** A seed the generator rejects raises, so the loop ends on that message
      without generating and never reads the messages after it. */
  lemma SeedOutOfRangeEndsLoop(s: State, n: int, more: seq<string>)
    requires s.background && !ValidSeed(n)
    ensures Run(s, ["seed_" + ShowInt(n)] + more) == Trace(s, [], 1, Some(SeedOutOfRange(n)))
  {
    StepSeed(s, n, "");
    assert "seed_" + ShowInt(n) + "" == "seed_" + ShowInt(n);
    assert (["seed_" + ShowInt(n)] + more)[0] == "seed_" + ShowInt(n);
  }

  /** Once the loop has stopped, later messages are never read. */
  lemma {:induction false} RunIgnoresTail(s: State, msgs: seq<string>, more: seq<string>)
    requires Run(s, msgs).failure.Some? || !Run(s, msgs).final.background
    ensures Run(s, msgs + more) == Run(s, msgs)
    decreases |msgs|
  {
    if s.background {
      assert (msgs + more)[0] == msgs[0];
      match Step(s, msgs[0])
      case Failure(_) =>
      case Success(out) =>
        assert (msgs + more)[1..] == msgs[1..] + more;
        RunIgnoresTail(out.next, msgs[1..], more);
    }
  }

  /** With no exception, the loop reads up to and including the first "Exit" and
      generates once per seed command before it. */
  lemma RunStopsAtFirstExit(s: State, msgs: seq<string>, k: nat)
    requires s.background
    requires k < |msgs| && msgs[k] == "Exit"
    requires forall i :: 0 <= i < k ==> msgs[i] != "Exit"
    requires Run(s, msgs).failure.None?
    ensures Run(s, msgs).consumed == k + 1
    ensures !Run(s, msgs).final.background
    ensures |Run(s, msgs).seeds| == CountSeedCommands(msgs[..k])
  {
    RunGenerations(s, msgs);
    assert msgs[..k + 1] == msgs[..k] + ["Exit"];
    CountAppendExit(msgs[..k]);
  }

  /** Appending "Exit" adds no seed command. */
  lemma {:induction false} CountAppendExit(msgs: seq<string>)
    ensures CountSeedCommands(msgs + ["Exit"]) == CountSeedCommands(msgs)
    decreases |msgs|
  {
    if |msgs| == 0 {
      assert (msgs + ["Exit"])[1..] == [];
    } else {
      assert (msgs + ["Exit"])[1..] == msgs[1..] + ["Exit"];
      CountAppendExit(msgs[1..]);
    }
  }

  /** Messages without a seed command never raise, never generate, and keep the seed. */
  lemma {:induction false} RunWithoutSeedCommands(s: State, msgs: seq<string>)
    requires CountSeedCommands(msgs) == 0
    ensures Run(s, msgs).failure.None?
    ensures Run(s, msgs).seeds == []
    ensures Run(s, msgs).final.seed == s.seed
    decreases |msgs|
  {
    if s.background && |msgs| > 0 {
      StepMatchesCommand(s, msgs[0]);
      RunWithoutSeedCommands(Step(s, msgs[0]).value.next, msgs[1..]);
    }
  }

  /** The listener's seed is 1 until a seed command arrives. */
  lemma ListenStartsAtSeedOne(msgs: seq<string>)
    requires CountSeedCommands(msgs) == 0
    ensures Listen(msgs).final.seed == 1 && Listen(msgs).seeds == []
  {
    RunWithoutSeedCommands(Initial, msgs);
  }

  /** After generating from 42, the session ignores "hello" and stops at "Exit". */
  lemma ScenarioAfterSeed()
    ensures Run(State(true, 42), ["hello", "Exit", "seed_7"]) == Trace(State(false, 42), [], 2, None)
  {
    var s1 := State(true, 42);
    var s2 := State(false, 42);
    assert "hello"[..5] == "hello";
    StepIgnored(s1, "hello");
    StepExit(s1);
    assert ["hello", "Exit", "seed_7"][1..] == ["Exit", "seed_7"];
    assert Run(s1, ["Exit", "seed_7"]) == Trace(s2, [], 1, None);
  }

  /** A listening session: generate for seed 42, ignore a stray message, stop at
      "Exit", and never read the message after it. */
  lemma ListenScenario()
    ensures Listen(["seed_42", "hello", "Exit", "seed_7"]) == Trace(State(false, 42), [42], 3, None)
  {
    var msgs := ["seed_42", "hello", "Exit", "seed_7"];
    assert ShowInt(42) == "42";
    StepSeed(Initial, 42, "");
    assert "seed_" + ShowInt(42) + "" == msgs[0];
    assert msgs[1..] == ["hello", "Exit", "seed_7"];
    ScenarioAfterSeed();
  }
}
