/**
 * `parse_timestamp`: typed `[hh:mm:]ss` text, optionally prefixed with `+`
 * to mean "relative to a base", turned into whole seconds or `None`.
 */
module Timestamp {
  import opened Wrappers
  import opened Strings

  /** Seconds per segment, read from the right: seconds, minutes, hours. */
  const TimeUnits: seq<nat> := [1, 60, 3600]

  /** The `+` prefix is honoured only when a base is supplied. */
  predicate IsRelative(ts: string, relativeTo: Option<int>)
  {
    |ts| > 0 && ts[0] == '+' && relativeTo.Some?
  }

  /** The value `timestamp` holds before the segments are added. */
  function BaseSeconds(ts: string, relativeTo: Option<int>): int
  {
    if IsRelative(ts, relativeTo) then relativeTo.value else 0
  }

  /** The text that is split into segments, with an honoured `+` removed. */
  function Body(ts: string, relativeTo: Option<int>): string
  {
    if IsRelative(ts, relativeTo) then ts[1..] else ts
  }

  /** The colon-separated segments, seconds first. */
  function Segments(ts: string, relativeTo: Option<int>): seq<string>
  {
    Reverse(Split(Body(ts, relativeTo), ':'))
  }

  predicate AllNumeric(sts: seq<string>)
  {
    forall i | 0 <= i < |sts| :: IsNumeric(sts[i])
  }

  /** The first `n` segments (seconds first) weighted by their time units. */
  function WeightedSum(sts: seq<string>, n: nat): nat
    requires n <= |sts| && n <= |TimeUnits|
    requires forall i | 0 <= i < n :: IsNumeric(sts[i])
  {
    if n == 0 then 0
    else
      assert IsNumeric(sts[n - 1]);
      WeightedSum(sts, n - 1) + DecimalValue(sts[n - 1]) * TimeUnits[n - 1]
  }

  /** What `parse_timestamp(ts, relative_to)` returns. */
  function Parse(ts: string, relativeTo: Option<int>): (r: Option<int>)
    ensures r.Some? ==> r.value >= BaseSeconds(ts, relativeTo)
    ensures r.Some? ==> |Segments(ts, relativeTo)| <= 3 && AllNumeric(Segments(ts, relativeTo))
  {
    var sts := Segments(ts, relativeTo);
    if |sts| < 4 && AllNumeric(sts) then Some(BaseSeconds(ts, relativeTo) + WeightedSum(sts, |sts|))
    else None
  }

  /** `parse_timestamp` as the source runs it: strip the prefix, split, reverse, accumulate. */
  method ParseTimestamp(ts: string, relativeTo: Option<int>) returns (r: Option<int>)
    ensures r == Parse(ts, relativeTo)
  {
    var timestamp := 0;
    var text := ts;
    if |text| > 0 && text[0] == '+' && relativeTo.Some? {
      text := text[1..];
      timestamp := timestamp + relativeTo.value;
    }
    var sts := Reverse(Split(text, ':'));
    var totalSs := 0;
    if |sts| < 4 {
      for i := 0 to |sts|
        invariant forall j | 0 <= j < i :: IsNumeric(sts[j])
        invariant totalSs == WeightedSum(sts, i)
      {
        if IsNumeric(sts[i]) {
          totalSs := totalSs + DecimalValue(sts[i]) * TimeUnits[i];
        } else {
          return None;
        }
      }
      return Some(timestamp + totalSs);
    } else {
      return None;
    }
  }

  /** The value in seconds of `ss`, `mm:ss` or `hh:mm:ss` given as numbers, most significant first. */
  function HmsSeconds(xs: seq<nat>): nat
    requires 1 <= |xs| <= 3
  {
    if |xs| == 1 then xs[0]
    else if |xs| == 2 then xs[0] * 60 + xs[1]
    else xs[0] * 3600 + xs[1] * 60 + xs[2]
  }

  /** `int` of each digit string. */
  function Values(ds: seq<string>): (xs: seq<nat>)
    requires AllNumeric(ds)
    ensures |xs| == |ds|
    ensures forall i | 0 <= i < |ds| :: xs[i] == DecimalValue(ds[i])
  {
    if ds == [] then [] else [DecimalValue(ds[0])] + Values(ds[1..])
  }

  lemma NoColonInNumeric(s: string)
    requires IsNumeric(s)
    ensures ':' !in s
  {
    forall i | 0 <= i < |s| ensures s[i] != ':' {
      assert IsDigit(s[i]);
    }
  }

  lemma {:induction false} JoinStartsWithFirst(ps: seq<string>, sep: char)
    requires ps != [] && ps[0] != []
    ensures |Join(ps, sep)| > 0 && Join(ps, sep)[0] == ps[0][0]
  {
  }

  /** The weighted sum written out for one, two and three segments. */
  lemma WeightedSumClosedForm(sts: seq<string>)
    requires 1 <= |sts| <= 3 && AllNumeric(sts)
    ensures |sts| == 1 ==> WeightedSum(sts, 1) == DecimalValue(sts[0])
    ensures |sts| == 2 ==> WeightedSum(sts, 2) == DecimalValue(sts[0]) + DecimalValue(sts[1]) * 60
    ensures |sts| == 3 ==>
      WeightedSum(sts, 3) == DecimalValue(sts[0]) + DecimalValue(sts[1]) * 60 + DecimalValue(sts[2]) * 3600
  {
    assert TimeUnits[0] == 1 && TimeUnits[1] == 60 && TimeUnits[2] == 3600;
    assert WeightedSum(sts, 0) == 0;
    assert WeightedSum(sts, 1) == WeightedSum(sts, 0) + DecimalValue(sts[0]) * TimeUnits[0];
    if |sts| > 1 {
      assert WeightedSum(sts, 2) == WeightedSum(sts, 1) + DecimalValue(sts[1]) * TimeUnits[1];
    }
    if |sts| > 2 {
      assert WeightedSum(sts, 3) == WeightedSum(sts, 2) + DecimalValue(sts[2]) * TimeUnits[2];
    }
  }

  /** Digit strings joined by colons split back into themselves, and no `+` is seen. */
  lemma JoinedSegments(ds: seq<string>, relativeTo: Option<int>)
    requires 1 <= |ds| && AllNumeric(ds)
    ensures !IsRelative(Join(ds, ':'), relativeTo)
    ensures Segments(Join(ds, ':'), relativeTo) == Reverse(ds)
  {
    forall i | 0 <= i < |ds| ensures ':' !in ds[i] {
      NoColonInNumeric(ds[i]);
    }
    JoinStartsWithFirst(ds, ':');
    assert IsDigit(ds[0][0]);
    SplitJoin(ds, ':');
  }

  lemma ReverseKeepsNumeric(ds: seq<string>)
    requires AllNumeric(ds)
    ensures AllNumeric(Reverse(ds))
  {
    var sts, n := Reverse(ds), |ds|;
    forall i | 0 <= i < n ensures IsNumeric(sts[i]) {
      assert sts[i] == ds[n - 1 - i];
    }
  }

  /** Reversed digit strings weigh up to the `[hh:mm:]ss` value of their numbers. */
  lemma WeightedSumOfReversed(ds: seq<string>, sts: seq<string>)
    requires 1 <= |ds| <= 3 && AllNumeric(ds)
    requires sts == Reverse(ds)
    ensures AllNumeric(sts) && WeightedSum(sts, |sts|) == HmsSeconds(Values(ds))
  {
    ReverseKeepsNumeric(ds);
    WeightedSumClosedForm(sts);
    var xs := Values(ds);
    if |ds| == 1 {
      assert sts[0] == ds[0];
    } else if |ds| == 2 {
      assert sts[0] == ds[1] && sts[1] == ds[0];
    } else {
      assert sts[0] == ds[2] && sts[1] == ds[1] && sts[2] == ds[0];
    }
  }

  /**
   * One to three digit strings joined by colons parse to their `[hh:mm:]ss`
   * value: the leftmost is hours, minutes or seconds according to how many
   * there are. No base is added, because the text does not start with `+`.
   */
  lemma ParseJoined(ds: seq<string>, relativeTo: Option<int>)
    requires 1 <= |ds| <= 3 && AllNumeric(ds)
    ensures Parse(Join(ds, ':'), relativeTo) == Some(HmsSeconds(Values(ds)))
  {
    JoinedSegments(ds, relativeTo);
    WeightedSumOfReversed(ds, Segments(Join(ds, ':'), relativeTo));
  }

  /** A `+` with a base adds the base to the plain value of the rest. */
  lemma RelativeAddsBase(rest: string, base: int)
    ensures Parse("+" + rest, Some(base)) ==
      match Parse(rest, None)
      case Some(v) => Some(base + v)
      case None => None
  {
    assert ("+" + rest)[1..] == rest;
  }

  lemma {:induction false} SplitKeepsFirstChar(s: string, sep: char)
    requires |s| > 0 && s[0] != sep
    ensures |Split(s, sep)[0]| > 0 && Split(s, sep)[0][0] == s[0]
  {
  }

  /** Without a base the `+` stays in the leftmost segment, which is then not numeric. */
  lemma PlusWithoutBaseIsInvalid(rest: string)
    ensures Parse("+" + rest, None) == None
  {
    var ts := "+" + rest;
    var pieces := Split(ts, ':');
    SplitKeepsFirstChar(ts, ':');
    var sts := Segments(ts, None);
    assert sts[|sts| - 1] == pieces[0];
    assert !IsNumeric(sts[|sts| - 1]);
  }

  /** Text without a leading `+` parses the same whatever the base. */
  lemma UnprefixedIgnoresBase(ts: string, r1: Option<int>, r2: Option<int>)
    requires |ts| == 0 || ts[0] != '+'
    ensures Parse(ts, r1) == Parse(ts, r2)
  {
  }

  lemma {:induction false} CountAfterPrefix(ts: string, c: char)
    requires |ts| > 0 && ts[0] != c
    ensures Count(ts[1..], c) == Count(ts, c)
  {
  }

  /** Three or more colons mean four or more segments, which are rejected. */
  lemma TooManySegmentsIsInvalid(ts: string, relativeTo: Option<int>)
    requires Count(ts, ':') >= 3
    ensures Parse(ts, relativeTo) == None
  {
    if IsRelative(ts, relativeTo) {
      CountAfterPrefix(ts, ':');
    }
  }

  /** A segment that is not all digits (empty, signed, alphabetic) makes the whole text invalid. */
  lemma NonNumericSegmentIsInvalid(ts: string, relativeTo: Option<int>, k: nat)
    requires k < |Split(Body(ts, relativeTo), ':')|
    requires !IsNumeric(Split(Body(ts, relativeTo), ':')[k])
    ensures Parse(ts, relativeTo) == None
  {
    var pieces := Split(Body(ts, relativeTo), ':');
    var sts := Segments(ts, relativeTo);
    assert sts == Reverse(pieces);
    assert sts[|pieces| - 1 - k] == pieces[k];
    assert !AllNumeric(sts);
  }

  /** A relative end typed as `+<seconds>`, the form the end prompt's hint shows (pymtheg.py:126), parses back to base + seconds. */
  lemma RelativeRoundTrip(seconds: nat, base: int)
    ensures Parse("+" + DecimalString(seconds), Some(base)) == Some(base + seconds)
  {
    var digits := DecimalString(seconds);
    RelativeAddsBase(digits, base);
    ParseJoined([digits], None);
    assert Join([digits], ':') == digits;
  }

  /** The examples of the `parse_timestamp` docstring, with the default base 0. */
  lemma ExampleMinutes()
    ensures Parse("2:49", Some(0)) == Some(169)
  {
    assert Join(["2", "49"], ':') == "2:49";
    assert DecimalValue("49") == 49 by { assert "49"[..1] == "4"; }
    assert Values(["2", "49"]) == [2, 49];
    ParseJoined(["2", "49"], Some(0));
  }

  lemma ExampleHours()
    ensures Parse("5:18:18", Some(0)) == Some(19098)
  {
    assert Join(["5", "18", "18"], ':') == "5:18:18";
    assert DecimalValue("18") == 18 by { assert "18"[..1] == "1"; }
    assert Values(["5", "18", "18"]) == [5, 18, 18];
    ParseJoined(["5", "18", "18"], Some(0));
  }

  /** Texts the parser rejects: empty, alphabetic, negative, an empty segment, four segments. */
  lemma RejectsEmpty()
    ensures Parse("", Some(0)) == None
  {
    NonNumericSegmentIsInvalid("", Some(0), 0);
  }

  lemma RejectsLetters()
    ensures Parse("abc", Some(0)) == None
  {
    SplitNoSeparator("abc", ':');
    NonNumericSegmentIsInvalid("abc", Some(0), 0);
  }

  lemma RejectsNegative()
    ensures Parse("-1", Some(0)) == None
  {
    SplitNoSeparator("-1", ':');
    NonNumericSegmentIsInvalid("-1", Some(0), 0);
  }

  lemma RejectsEmptySegment()
    ensures Parse("1::2", Some(0)) == None
  {
    SplitAfterSeparator("", ':', "2");
    assert "1::2" == "1" + [':'] + ":2";
    SplitAfterSeparator("1", ':', ":2");
    assert ":2" == "" + [':'] + "2";
    NonNumericSegmentIsInvalid("1::2", Some(0), 1);
  }

  lemma RejectsFourSegments()
    ensures Parse("1:2:3:4", Some(0)) == None
  {
    assert Count("1:2:3:4", ':') == 3;
    TooManySegmentsIsInvalid("1:2:3:4", Some(0));
  }
}
