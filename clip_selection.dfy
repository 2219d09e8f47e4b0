/**
 * The two re-prompt loops of `main` that choose a clip range for one song:
 * first the clip start, validated against the probed song duration, then the
 * clip end, which defaults to start + clip length and may be given relative
 * to the accepted start. Each loop reads one response per round until it
 * accepts one; the responses are given as a sequence.
 */
module ClipSelection {
  import opened Wrappers
  import opened Strings
  import opened Timestamp

  /** Which prompt is being answered, with what it depends on. */
  datatype Prompt =
    | StartPrompt(songDuration: int)
    | EndPrompt(startTimestamp: int, clipLength: int)

  /**
   * A prompt loop either accepts a value after `consumed` responses, or runs
   * out of responses first (where `input()` would raise `EOFError`).
   */
  datatype Selection = Accepted(timestamp: int, consumed: nat) | EndOfInput

  /** The value one response is accepted with, or `None` when the loop asks again. */
  function Answer(prompt: Prompt, response: string): (r: Option<int>)
    ensures response == "" ==> r.Some?
    ensures prompt.StartPrompt? && r.Some? ==> 0 <= r.value && (response == "" || r.value < prompt.songDuration)
    ensures prompt.EndPrompt? && response != "" && response[0] == '+' && r.Some? ==> r.value >= prompt.startTimestamp
    ensures prompt.EndPrompt? && response != "" && r.Some? ==> r.value >= 0 || response[0] == '+'
  {
    match prompt
    case StartPrompt(songDuration) =>
      if response == "" then Some(0)
      else (
        match Parse(response, Some(0))
        case None => None
        case Some(t) => if t >= songDuration then None else Some(t))
    case EndPrompt(startTimestamp, clipLength) =>
      if response == "" then Some(startTimestamp + clipLength)
      else Parse(response, Some(startTimestamp))
  }

  /** The outcome of a prompt loop fed `responses`: the first response that is accepted decides. */
  function Select(prompt: Prompt, responses: seq<string>): (s: Selection)
    ensures s.Accepted? ==> 1 <= s.consumed <= |responses|
  {
    if responses == [] then EndOfInput
    else
      match Answer(prompt, responses[0])
      case Some(t) => Accepted(t, 1)
      case None =>
        match Select(prompt, responses[1..])
        case Accepted(t, k) => Accepted(t, k + 1)
        case EndOfInput => EndOfInput
  }

  /** The loop stops at the first response it accepts, and every earlier one was rejected. */
  lemma {:induction false} SelectIsFirstAccepted(prompt: Prompt, responses: seq<string>, t: int, k: nat)
    ensures Select(prompt, responses) == Accepted(t, k) <==>
      1 <= k <= |responses| && Answer(prompt, responses[k - 1]) == Some(t) &&
      forall j | 0 <= j < k - 1 :: Answer(prompt, responses[j]).None?
  {
    if responses != [] && Answer(prompt, responses[0]).None? && 1 < k <= |responses| {
      var rest := responses[1..];
      SelectIsFirstAccepted(prompt, rest, t, k - 1);
      assert rest[k - 2] == responses[k - 1];
      assert (forall j | 0 <= j < k - 1 :: Answer(prompt, responses[j]).None?) <==>
        (forall j | 0 <= j < k - 2 :: Answer(prompt, rest[j]).None?)
      by {
        forall j | 0 <= j < k - 2 ensures rest[j] == responses[j + 1] { }
      }
    } else if responses != [] && Answer(prompt, responses[0]).None? && k > |responses| {
      SelectIsFirstAccepted(prompt, responses[1..], t, k - 1);
    }
  }

  /** The loop runs out of input exactly when it rejects every response. */
  lemma {:induction false} SelectExhausted(prompt: Prompt, responses: seq<string>)
    ensures Select(prompt, responses) == EndOfInput <==>
      forall j | 0 <= j < |responses| :: Answer(prompt, responses[j]).None?
  {
    if responses != [] {
      SelectExhausted(prompt, responses[1..]);
      if Answer(prompt, responses[0]).None? {
        assert forall j | 0 <= j < |responses| - 1 :: responses[1..][j] == responses[j + 1];
        if forall j | 0 <= j < |responses| - 1 :: Answer(prompt, responses[1..][j]).None? {
          forall j | 0 <= j < |responses| ensures Answer(prompt, responses[j]).None? {
            if j > 0 { assert responses[j] == responses[1..][j - 1]; }
          }
        }
      }
    }
  }

  lemma AcceptedAfterRejections(prompt: Prompt, responses: seq<string>, t: int, k: nat)
    requires 1 <= k <= |responses|
    requires forall j | 0 <= j < k - 1 :: Answer(prompt, responses[j]).None?
    requires Answer(prompt, responses[k - 1]) == Some(t)
    ensures Select(prompt, responses) == Accepted(t, k)
  {
    SelectIsFirstAccepted(prompt, responses, t, k);
  }

  lemma RejectedAll(prompt: Prompt, responses: seq<string>)
    requires forall j | 0 <= j < |responses| :: Answer(prompt, responses[j]).None?
    ensures Select(prompt, responses) == EndOfInput
  {
    SelectExhausted(prompt, responses);
  }

  /** The clip start loop of `main`: a response is parsed (base 0) and must be below the song duration. */
  method PromptStart(responses: seq<string>, songDuration: int) returns (s: Selection)
    ensures s == Select(StartPrompt(songDuration), responses)
  {
    var startTimestamp := 0;
    var i := 0;
    while true
      invariant 0 <= i <= |responses|
      invariant forall j | 0 <= j < i :: Answer(StartPrompt(songDuration), responses[j]).None?
      invariant startTimestamp == 0
      decreases |responses| - i
    {
      if i == |responses| {
        RejectedAll(StartPrompt(songDuration), responses);
        return EndOfInput;
      }
      var response := responses[i];
      i := i + 1;
      if response != "" {
        var parsed := ParseTimestamp(response, Some(0));
        if parsed.None? {
          // invalid format: ask again
          assert Answer(StartPrompt(songDuration), response) == None;
        } else if parsed.value >= songDuration {
          // at or past the end of the song: ask again
          assert Answer(StartPrompt(songDuration), response) == None;
        } else {
          startTimestamp := parsed.value;
          break;
        }
      } else {
        break;
      }
    }
    AcceptedAfterRejections(StartPrompt(songDuration), responses, startTimestamp, i);
    return Accepted(startTimestamp, i);
  }

  /** The clip end loop of `main`: an empty response keeps start + clip length, any other must parse relative to the start. */
  method PromptEnd(responses: seq<string>, startTimestamp: int, clipLength: int) returns (s: Selection)
    ensures s == Select(EndPrompt(startTimestamp, clipLength), responses)
  {
    var endTimestamp := startTimestamp + clipLength;
    var i := 0;
    while true
      invariant 0 <= i <= |responses|
      invariant forall j | 0 <= j < i :: Answer(EndPrompt(startTimestamp, clipLength), responses[j]).None?
      invariant endTimestamp == startTimestamp + clipLength
      decreases |responses| - i
    {
      if i == |responses| {
        RejectedAll(EndPrompt(startTimestamp, clipLength), responses);
        return EndOfInput;
      }
      var response := responses[i];
      i := i + 1;
      if response != "" {
        var parsed := ParseTimestamp(response, Some(startTimestamp));
        if parsed.None? {
          // invalid format: ask again
          assert Answer(EndPrompt(startTimestamp, clipLength), response) == None;
        } else {
          endTimestamp := parsed.value;
          break;
        }
      } else {
        break;
      }
    }
    AcceptedAfterRejections(EndPrompt(startTimestamp, clipLength), responses, endTimestamp, i);
    return Accepted(endTimestamp, i);
  }

  /** An accepted start is never negative, and unless it is the default 0 it lies before the end of the song. */
  lemma AcceptedStartInRange(songDuration: int, responses: seq<string>, t: int, k: nat)
    requires Select(StartPrompt(songDuration), responses) == Accepted(t, k)
    ensures 0 <= t
    ensures responses[k - 1] == "" ==> t == 0
    ensures responses[k - 1] != "" ==> t < songDuration
  {
    SelectIsFirstAccepted(StartPrompt(songDuration), responses, t, k);
  }

  /** A start response is rejected exactly when it does not parse or reaches the song duration. */
  lemma StartRejection(songDuration: int, response: string)
    requires response != ""
    ensures Answer(StartPrompt(songDuration), response).None? <==>
      Parse(response, Some(0)).None? || Parse(response, Some(0)).value >= songDuration
  {
  }

  /** The start prompt parses with the default base 0, so "+n" is accepted as n. */
  lemma StartAcceptsPlusPrefix(songDuration: int, n: nat)
    ensures Answer(StartPrompt(songDuration), "+" + DecimalString(n)) ==
      if n < songDuration then Some(n) else None
  {
    RelativeRoundTrip(n, 0);
  }

  /** A relative end "+n" is n seconds after the accepted start. */
  lemma EndRelativeToStart(startTimestamp: int, clipLength: int, n: nat)
    ensures Answer(EndPrompt(startTimestamp, clipLength), "+" + DecimalString(n)) == Some(startTimestamp + n)
  {
    RelativeRoundTrip(n, startTimestamp);
  }

  /** An absolute end `[hh:mm:]ss` is taken as typed, whatever the start. */
  lemma EndAbsolute(startTimestamp: int, clipLength: int, ds: seq<string>)
    requires 1 <= |ds| <= 3 && AllNumeric(ds)
    ensures Answer(EndPrompt(startTimestamp, clipLength), Join(ds, ':')) == Some(HmsSeconds(Values(ds)))
  {
    ParseJoined(ds, Some(startTimestamp));
    JoinStartsWithFirst(ds, ':');
  }

  /** The end prompt has no "to the end" sentinel: "-1" is rejected and asked again. */
  lemma EndSentinelRejected(startTimestamp: int, clipLength: int)
    ensures Answer(EndPrompt(startTimestamp, clipLength), "-1") == None
  {
    SplitNoSeparator("-1", ':');
    NonNumericSegmentIsInvalid("-1", Some(startTimestamp), 0);
  }

  /** Nothing compares the end with the start: an end before the start is accepted. */
  lemma EndMayPrecedeStart()
    ensures Select(EndPrompt(10, 15), ["5"]) == Accepted(5, 1)
  {
    assert Join(["5"], ':') == "5";
    assert DecimalValue("5") == 5;
    EndAbsolute(10, 15, ["5"]);
  }

  /** A clip range: the start and end seconds handed to ffmpeg. */
  datatype ClipRange = ClipRange(start: int, end: int)

  /** Both prompts of one song in turn, the end prompt reading the responses the start prompt left. */
  function ChooseClip(responses: seq<string>, songDuration: int, clipLength: int): (r: Option<ClipRange>)
    ensures r.Some? ==> |responses| >= 2
    ensures |responses| >= 2 && responses[0] == "" && responses[1] == "" ==> r.Some?
  {
    match Select(StartPrompt(songDuration), responses)
    case EndOfInput => None
    case Accepted(start, k) =>
      match Select(EndPrompt(start, clipLength), responses[k..])
      case EndOfInput => None
      case Accepted(end, _) => Some(ClipRange(start, end))
  }

  /** Lines 90-144 of `main` for one song. */
  method PromptClip(responses: seq<string>, songDuration: int, clipLength: int) returns (clip: Option<ClipRange>)
    ensures clip == ChooseClip(responses, songDuration, clipLength)
  {
    var start := PromptStart(responses, songDuration);
    if start.EndOfInput? {
      return None;
    }
    var end := PromptEnd(responses[start.consumed..], start.timestamp, clipLength);
    if end.EndOfInput? {
      return None;
    }
    return Some(ClipRange(start.timestamp, end.timestamp));
  }

  /** A chosen clip starts at 0 or later, and before the end of the song unless it is the default 0. */
  lemma ChosenStartInRange(responses: seq<string>, songDuration: int, clipLength: int)
    requires ChooseClip(responses, songDuration, clipLength).Some?
    ensures 0 <= ChooseClip(responses, songDuration, clipLength).value.start
    ensures ChooseClip(responses, songDuration, clipLength).value.start == 0 ||
      ChooseClip(responses, songDuration, clipLength).value.start < songDuration
  {
    var start := Select(StartPrompt(songDuration), responses);
    AcceptedStartInRange(songDuration, responses, start.timestamp, start.consumed);
  }

  /** Pressing enter twice gives the default clip [0, clip length], whatever the duration. */
  lemma DefaultClip(songDuration: int, clipLength: int, rest: seq<string>)
    ensures ChooseClip(["", ""] + rest, songDuration, clipLength) == Some(ClipRange(0, clipLength))
  {
    var responses := ["", ""] + rest;
    assert responses[1..] == [""] + rest;
  }

  /** Start "10", then "-1" is refused and enter keeps the default: the clip is [10, 25]. */
  lemma MinusOneEndRefused()
    ensures ChooseClip(["10", "-1", ""], 200, 15) == Some(ClipRange(10, 25))
  {
    assert Join(["10"], ':') == "10";
    assert DecimalValue("10") == 10 by { assert "10"[..1] == "1"; }
    ParseJoined(["10"], Some(0));
    var responses := ["10", "-1", ""];
    assert responses[1..] == ["-1", ""];
    EndSentinelRejected(10, 15);
    assert ["-1", ""][1..] == [""];
  }
}
