/** The text rules of the PDF report (`PDFGenerator`): how a timestamp and
    the meeting's duration are printed, how long tasks are cut in the
    action-item table, and how the participant line is abbreviated. The
    rendering itself is not modelled. */
module PdfFormat {
  import opened Common
  import opened Text
  import opened Records
  import opened Minutes

  /** Python's `x % 60` on a float: the remainder takes the sign of the
      divisor, so it lies in [0, 60). */
  function ModSixty(x: real): (r: real)
    ensures 0.0 <= r < 60.0
  {
    x - 60.0 * ((x / 60.0).Floor as real)
  }

  /** `_format_timestamp`: `--:--` for a missing or zero timestamp,
      otherwise whole minutes and whole seconds, each zero-padded to two
      digits. */
  function FormatTimestamp(ts: Option<real>): string {
    match ts
    case None => "--:--"
    case Some(x) =>
      if x == 0.0 then "--:--"
      else Pad2(Trunc(x / 60.0)) + ":" + Pad2(Trunc(ModSixty(x)))
  }

  /** The whole seconds shown are below 60, and for a positive timestamp
      minutes and seconds read back as its whole number of seconds. */
  lemma FormatTimestampReadsBack(x: real)
    requires x > 0.0
    ensures 0 <= Trunc(ModSixty(x)) < 60
    ensures var s := FormatTimestamp(Some(x));
      && |s| >= 5
      && s[|s| - 3] == ':'
      && ReadClock(s) == x.Floor
  {
    var q := Trunc(x / 60.0);
    var sec := Trunc(ModSixty(x));
    assert q == (x / 60.0).Floor;
    WholeSeconds(x, q);
    TwoDigits(sec);
    var s := FormatTimestamp(Some(x));
    var mm, ss := Pad2(q), Pad2(sec);
    assert s == mm + ":" + ss;
    assert s[..|s| - 3] == mm;
    assert s[|s| - 2..] == ss;
    Pad2RoundTrip(q);
    Pad2RoundTrip(sec);
  }

  /** Splitting a non-negative time at whole minutes `q` keeps its whole
      seconds. */
  lemma WholeSeconds(x: real, q: int)
    requires x > 0.0 && q == (x / 60.0).Floor
    ensures 0 <= q && 0 <= Trunc(ModSixty(x)) < 60
    ensures q * 60 + Trunc(ModSixty(x)) == x.Floor
  {
    var r := ModSixty(x);
    assert x == 60.0 * (q as real) + r;
    var f := r.Floor;
    assert (q * 60 + f) as real <= x < (q * 60 + f) as real + 1.0;
  }

  /** A missing or zero timestamp is shown as `--:--`, any other never. */
  lemma PlaceholderOnlyWithoutTime(ts: Option<real>)
    ensures FormatTimestamp(ts) == "--:--" <==> ts.None? || ts == Some(0.0)
  {
    if ts.Some? && ts.value != 0.0 {
      var x := ts.value;
      var s := FormatTimestamp(ts);
      assert s == Pad2(Trunc(x / 60.0)) + ":" + Pad2(Trunc(ModSixty(x)));
      TwoDigits(Trunc(ModSixty(x)));
      assert |Pad2(Trunc(ModSixty(x)))| == 2;
      assert s[|s| - 1] != '-' by {
        assert s[|s| - 1] == Pad2(Trunc(ModSixty(x)))[1];
      }
    }
  }

  /** `_calculate_duration`: "Unknown" unless some timestamp is present and
      non-zero; else the whole minutes between the first and last. */
  function CalculateDuration(transcript: seq<Entry>): string {
    if transcript == [] then "Unknown"
    else if TruthyTimestamps(transcript) == [] then "Unknown"
    else MinutesCaption(Trunc(Duration(transcript) / 60.0))
  }

  /** `{h}h {m}m` from one hour on, `{m}m` below. */
  function MinutesCaption(minutes: nat): string {
    var hours, mins := minutes / 60, minutes % 60;
    if hours > 0 then NatStr(hours) + "h " + NatStr(mins) + "m"
    else NatStr(mins) + "m"
  }

  /** A duration label for `minutes` whole minutes: it ends in `m`, has an
      hour part exactly from 60 minutes on, and its numbers read back as
      the minutes. */
  predicate DurationLabelFits(caption: string, minutes: int) {
    && minutes >= 0
    && |caption| >= 2
    && caption[|caption| - 1] == 'm'
    && ('h' in caption <==> minutes >= 60)
    && (minutes < 60 ==> ParseNat(caption[..|caption| - 1]) == minutes)
    && (minutes >= 60 ==>
          var n := |NatStr(minutes / 60)|;
          n + 2 <= |caption| - 1 && ParseNat(caption[..n]) * 60 + ParseNat(caption[n + 2..|caption| - 1]) == minutes)
  }

  lemma ShortCaptionFits(minutes: nat)
    requires minutes < 60
    ensures DurationLabelFits(MinutesCaption(minutes), minutes)
  {
    var ms := NatStr(minutes);
    var caption := MinutesCaption(minutes);
    NatStrRoundTrip(minutes);
    assert caption == ms + "m";
    assert caption[..|caption| - 1] == ms;
    assert 'h' !in caption by {
      assert forall i :: 0 <= i < |caption| - 1 ==> caption[i] == ms[i];
    }
  }

  lemma LongCaptionFits(minutes: nat)
    requires minutes >= 60
    ensures DurationLabelFits(MinutesCaption(minutes), minutes)
  {
    var hs, ms := NatStr(minutes / 60), NatStr(minutes % 60);
    var caption := MinutesCaption(minutes);
    NatStrRoundTrip(minutes / 60);
    NatStrRoundTrip(minutes % 60);
    assert caption == hs + "h " + ms + "m";
    assert caption[..|hs|] == hs;
    assert caption[|hs| + 2..|caption| - 1] == ms;
    assert caption[|hs|] == 'h';
  }

  /** The duration is unknown exactly when no timestamp counts; otherwise
      the label fits the whole minutes between the first and the last
      counted timestamp. */
  lemma DurationLabelReadsBack(transcript: seq<Entry>)
    ensures CalculateDuration(transcript) == "Unknown" <==> TruthyTimestamps(transcript) == []
    ensures TruthyTimestamps(transcript) != [] ==>
      DurationLabelFits(CalculateDuration(transcript), Trunc(Duration(transcript) / 60.0))
  {
    if TruthyTimestamps(transcript) != [] {
      var minutes := Trunc(Duration(transcript) / 60.0);
      if minutes < 60 {
        ShortCaptionFits(minutes);
      } else {
        LongCaptionFits(minutes);
      }
      var caption := CalculateDuration(transcript);
      assert caption[|caption| - 1] == 'm';
    }
  }

  /** Each action item's task cell: `task[:50] + '...'` when longer than 50 characters. */
  function TruncateTask(task: string): (r: string)
    ensures |task| <= 50 ==> r == task
    ensures |task| > 50 ==> |r| == 53 && r[..50] == task[..50] && r[50..] == "..."
  {
    if |task| > 50 then task[..50] + "..." else task
  }

  /** The participant cell: the first five names joined by ", ", with
      "..." after them exactly when more names were left out. */
  function ParticipantsLine(names: seq<string>): string {
    var shown := if |names| > 5 then names[..5] else names;
    Join(", ", shown) + (if |names| > 5 then "..." else "")
  }

  /** Every one of the first five names appears in the participant line,
      and the line ends with "..." when names were left out. */
  lemma ParticipantsLineShowsFirstFive(names: seq<string>)
    ensures forall k :: 0 <= k < |names| && k < 5 ==> Contains(ParticipantsLine(names), names[k])
    ensures |names| > 5 ==> EndsWith(ParticipantsLine(names), "...")
    ensures |names| <= 5 ==> ParticipantsLine(names) == Join(", ", names)
  {
    forall k | 0 <= k < |names| && k < 5 ensures Contains(ParticipantsLine(names), names[k]) {
      ShownNameOccurs(names, k);
    }
    if |names| <= 5 {
      assert ParticipantsLine(names) == Join(", ", names) + "";
    }
  }

  lemma ShownNameOccurs(names: seq<string>, k: nat)
    requires k < |names| && k < 5
    ensures Contains(ParticipantsLine(names), names[k])
  {
    var shown := if |names| > 5 then names[..5] else names;
    var joined := Join(", ", shown);
    var line := ParticipantsLine(names);
    assert line == joined + (if |names| > 5 then "..." else "");
    assert shown[k] == names[k];
    var i := JoinShows(", ", shown, k);
    assert line[i..i + |names[k]|] == joined[i..i + |names[k]|];
    assert OccursAt(line, names[k], i);
  }

  /** Each joined item occurs in the joined text; `i` is where. */
  lemma {:induction false} JoinShows(sep: string, xs: seq<string>, k: nat) returns (i: nat)
    requires k < |xs|
    ensures OccursAt(Join(sep, xs), xs[k], i)
    decreases k
  {
    if |xs| == 1 {
      i := 0;
      assert Join(sep, xs)[0..|xs[0]|] == xs[0];
    } else if k == 0 {
      i := 0;
      assert Join(sep, xs) == xs[0] + (sep + Join(sep, xs[1..]));
    } else {
      var j := JoinShows(sep, xs[1..], k - 1);
      var offset := |xs[0] + sep|;
      var rest := Join(sep, xs[1..]);
      assert Join(sep, xs) == (xs[0] + sep) + rest;
      i := offset + j;
      assert Join(sep, xs)[i..i + |xs[k]|] == rest[j..j + |xs[k]|];
    }
  }
}
