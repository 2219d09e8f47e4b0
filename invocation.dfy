/**
 * `invocate`: run an external program with the arguments that are not
 * `None`, and either hand back its result or end the whole run. The process
 * itself is not modelled; only the outcome the code branches on is.
 */
module Invocation {
  import opened Wrappers

  /** The exit codes `main` passes: 2 for spotdl, 3 for ffmpeg, and the default -1 for ffprobe. */
  const SpotdlErrcode: int := 2
  const FfmpegErrcode: int := 3
  const DefaultErrcode: int := -1

  /** The arguments that are present, in their original order. */
  function Present(args: seq<Option<string>>): (r: seq<string>)
    ensures |r| <= |args|
    ensures forall i | 0 <= i < |r| :: Some(r[i]) in args
  {
    if args == [] then []
    else
      var last := args[|args| - 1];
      Present(args[..|args| - 1]) + (if last.Some? then [last.value] else [])
  }

  /** Lines 268-272: `[name]` followed by every argument that is not `None`. */
  method BuildInvocation(name: string, args: seq<Option<string>>) returns (invocation: seq<string>)
    ensures invocation == [name] + Present(args)
  {
    invocation := [name];
    for i := 0 to |args|
      invariant invocation == [name] + Present(args[..i])
    {
      assert args[..i + 1][..i] == args[..i];
      if args[i].Some? {
        invocation := invocation + [args[i].value];
      }
    }
    assert args[..|args|] == args;
  }

  /** Dropping `None` distributes over concatenation, so the relative order of arguments is kept. */
  lemma {:induction false} PresentAppend(a: seq<Option<string>>, b: seq<Option<string>>)
    ensures Present(a + b) == Present(a) + Present(b)
    decreases |b|
  {
    if b != [] {
      var ab := a + b;
      assert ab[..|ab| - 1] == a + b[..|b| - 1];
      PresentAppend(a, b[..|b| - 1]);
    } else {
      assert a + b == a;
    }
  }

  /** An argument string is in the invocation's tail exactly when it was passed as `Some`. */
  lemma {:induction false} PresentMembership(args: seq<Option<string>>, x: string)
    ensures x in Present(args) <==> Some(x) in args
  {
    if args != [] {
      var init := args[..|args| - 1];
      PresentMembership(init, x);
      assert args == init + [args[|args| - 1]];
    }
  }

  /** Number of arguments that are present. */
  function CountPresent(args: seq<Option<string>>): nat
  {
    if args == [] then 0 else (if args[0].Some? then 1 else 0) + CountPresent(args[1..])
  }

  /** The invocation has one entry per present argument, plus the program name. */
  lemma {:induction false} PresentLength(args: seq<Option<string>>)
    ensures |Present(args)| == CountPresent(args)
  {
    if args != [] {
      PresentLength(args[1..]);
      PresentAppend([args[0]], args[1..]);
      assert [args[0]] + args[1..] == args;
      assert [args[0]][..0] == [];
    }
  }

  /** When no argument is `None`, nothing is dropped. */
  lemma {:induction false} PresentAllSome(args: seq<string>)
    ensures Present(seq(|args|, i requires 0 <= i < |args| => Some(args[i]))) == args
  {
    if args != [] {
      var opts := seq(|args|, i requires 0 <= i < |args| => Some(args[i]));
      var init := args[..|args| - 1];
      PresentAllSome(init);
      assert opts[..|opts| - 1] == seq(|init|, i requires 0 <= i < |init| => Some(init[i]));
    }
  }

  /** What launching the program came to. */
  datatype LaunchOutcome =
    | Completed(returncode: int)  // `subprocess.run` returned
    | FileNotFound                // `FileNotFoundError`: the program or working directory is missing
    | OtherError                  // any other `Exception` while launching

  /** `invocate` either returns the completed process or ends the run with `exit(code)`. */
  datatype Disposition = Return | Exit(code: int)

  /** Lines 274-315: the branches taken after launching. */
  function ExitPolicy(outcome: LaunchOutcome, errcode: int): (d: Disposition)
    ensures d == Return <==> outcome == Completed(0)
    ensures d.Exit? && outcome.Completed? ==> d.code == outcome.returncode
    ensures !outcome.Completed? ==> d == Exit(errcode)
  {
    match outcome
    case Completed(returncode) => if returncode != 0 then Exit(returncode) else Return
    case FileNotFound => Exit(errcode)
    case OtherError => Exit(errcode)
  }

  /** One call of `invocate` in `main`: its outcome and the `errcode` it was given. */
  datatype Call = Call(outcome: LaunchOutcome, errcode: int)

  /**
   * The calls `main` makes run in order, and the first one that does not
   * return ends the run with its code; if all return, the run finishes.
   */
  function RunDisposition(calls: seq<Call>): (d: Disposition)
    ensures d == Return <==> forall i | 0 <= i < |calls| :: ExitPolicy(calls[i].outcome, calls[i].errcode) == Return
    ensures d.Exit? ==> exists i | 0 <= i < |calls| :: (ExitPolicy(calls[i].outcome, calls[i].errcode) == d &&
      forall j | 0 <= j < i :: ExitPolicy(calls[j].outcome, calls[j].errcode) == Return)
  {
    if calls == [] then Return
    else
      match ExitPolicy(calls[0].outcome, calls[0].errcode)
      case Return =>
        var rest := calls[1..];
        assert forall i | 1 <= i < |calls| :: calls[i] == rest[i - 1];
        var d := RunDisposition(rest);
        assert d.Exit? ==> exists i | 0 <= i < |calls| :: (ExitPolicy(calls[i].outcome, calls[i].errcode) == d &&
          forall j | 0 <= j < i :: ExitPolicy(calls[j].outcome, calls[j].errcode) == Return)
        by {
          if d.Exit? {
            var k :| 0 <= k < |rest| && ExitPolicy(rest[k].outcome, rest[k].errcode) == d &&
              forall j | 0 <= j < k :: ExitPolicy(rest[j].outcome, rest[j].errcode) == Return;
            assert ExitPolicy(calls[k + 1].outcome, calls[k + 1].errcode) == d;
          }
        }
        d
      case Exit(code) => Exit(code)
  }

  /** With non-zero error codes, the run finishes exactly when every call returned 0, and otherwise exits non-zero. */
  lemma {:induction false} RunSucceedsIffAllZero(calls: seq<Call>)
    requires forall i | 0 <= i < |calls| :: calls[i].errcode != 0
    ensures RunDisposition(calls) == Return <==> forall i | 0 <= i < |calls| :: calls[i].outcome == Completed(0)
    ensures RunDisposition(calls).Exit? ==> RunDisposition(calls).code != 0
  {
    if calls != [] {
      RunSucceedsIffAllZero(calls[1..]);
      assert forall i | 1 <= i < |calls| :: calls[i] == calls[1..][i - 1];
    }
  }

  /**
   * `main` calls `invocate` for spotdl with 2, for ffprobe with the default
   * -1 and for ffmpeg with 3. Whatever the order and number of songs, the run
   * finishes iff every call returned 0; otherwise it exits with a non-zero
   * code, which is either one of those three or a child's own return code.
   */
  lemma MainRunSucceedsIffAllZero(calls: seq<Call>)
    requires forall i | 0 <= i < |calls| :: calls[i].errcode in {SpotdlErrcode, DefaultErrcode, FfmpegErrcode}
    ensures RunDisposition(calls) == Return <==> forall i | 0 <= i < |calls| :: calls[i].outcome == Completed(0)
    ensures RunDisposition(calls).Exit? ==> RunDisposition(calls).code != 0
    ensures RunDisposition(calls).Exit? ==>
      RunDisposition(calls).code in {SpotdlErrcode, DefaultErrcode, FfmpegErrcode} ||
      exists i | 0 <= i < |calls| :: calls[i].outcome == Completed(RunDisposition(calls).code)
  {
    RunSucceedsIffAllZero(calls);
    var d := RunDisposition(calls);
    if d.Exit? {
      var i :| 0 <= i < |calls| && ExitPolicy(calls[i].outcome, calls[i].errcode) == d;
      if calls[i].outcome.Completed? {
        assert calls[i].outcome == Completed(d.code);
      }
    }
  }
}
