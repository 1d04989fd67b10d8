/** Minutes assembly (`MinutesBuilder`): a meeting's transcript and Q&A
    pairs become a document made of a participant list, a discussion log
    grouped into five-minute blocks, the restated Q&A section, decisions
    with their context, action items and summary counters. */
module Minutes {
  import opened Common
  import opened Text
  import opened Records
  import opened QAEngine

  // ---------------------------------------------------------------------
  // Time labels

  /** `_format_duration`: minutes as `HH:MM`, both parts zero-padded to
      two digits (floor division and a non-negative remainder, as
      Python's `//` and `%` by 60). */
  function FormatDuration(minutes: int): string {
    Pad2(minutes / 60) + ":" + Pad2(minutes % 60)
  }

  /** A number below 60 is written with exactly two digits. */
  lemma TwoDigits(n: nat)
    requires n < 60
    ensures |Pad2(n)| == 2
  {
    if n >= 10 {
      assert NatStr(n) == NatStr(n / 10) + [DigitChar(n % 10)];
    }
  }

  /** Reads a clock label back: the number before the colon counts sixty
      times the two digits after it. */
  function ReadClock(s: string): nat {
    if |s| < 3 then 0 else ParseNat(s[..|s| - 3]) * 60 + ParseNat(s[|s| - 2..])
  }

  /** The label reads back: the hours before the colon and the two minute
      digits after it give the number of minutes again, so two different
      bucket starts never share a label. */
  lemma FormatDurationReadsBack(minutes: nat)
    ensures var s := FormatDuration(minutes);
      && |s| >= 5
      && s[|s| - 3] == ':'
      && ReadClock(s) == minutes
  {
    var s := FormatDuration(minutes);
    var h, m := Pad2(minutes / 60), Pad2(minutes % 60);
    TwoDigits(minutes % 60);
    assert s == h + ":" + m;
    assert s[..|s| - 3] == h;
    assert s[|s| - 2..] == m;
    Pad2RoundTrip(minutes / 60);
    Pad2RoundTrip(minutes % 60);
  }

  lemma FormatDurationInjective(a: nat, b: nat)
    requires FormatDuration(a) == FormatDuration(b)
    ensures a == b
  {
    FormatDurationReadsBack(a);
    FormatDurationReadsBack(b);
  }

  // ---------------------------------------------------------------------
  // Discussion log

  /** `int(entry.get('timestamp', 0) / 300) * 5`: the start, in minutes, of
      the five-minute block the entry falls in. */
  function Bucket(e: Entry): int {
    Trunc(e.timestamp.GetOr(0.0) / 300.0) * 5
  }

  /** A timestamp `ts >= 0` falls in the block starting at `b` exactly when
      `b` minutes <= `ts` < `b + 5` minutes. */
  lemma BucketBounds(e: Entry)
    requires e.timestamp.GetOr(0.0) >= 0.0
    ensures var ts := e.timestamp.GetOr(0.0);
      && Bucket(e) >= 0 && Bucket(e) % 5 == 0
      && (Bucket(e) as real) * 60.0 <= ts < (Bucket(e) as real + 5.0) * 60.0
  {
  }

  function InBucket(b: int): Entry -> bool {
    e => Bucket(e) == b
  }

  /** `f"{fmt(b)}-{fmt(b + 5)}"`. */
  function TimeRange(b: int): string {
    FormatDuration(b) + "-" + FormatDuration(b + 5)
  }

  /** An entry with only a timestamp. */
  function StampedAt(ts: real): Entry {
    Entry(Some(ts), None, None, None, None)
  }

  /** Timestamps 10 and 250 share the first block, labelled "00:00-00:05";
      305 opens the second, labelled "00:05-00:10". */
  lemma FirstBlocks(early: real, late: real, next: real)
    requires early == 10.0 && late == 250.0 && next == 305.0
    ensures Bucket(StampedAt(early)) == 0 && Bucket(StampedAt(late)) == 0 && Bucket(StampedAt(next)) == 5
    ensures TimeRange(Bucket(StampedAt(early))) == "00:00-00:05"
    ensures TimeRange(Bucket(StampedAt(late))) == "00:00-00:05"
    ensures TimeRange(Bucket(StampedAt(next))) == "00:05-00:10"
  {
    TruncIs(early / 300.0, 0);
    TruncIs(late / 300.0, 0);
    TruncIs(next / 300.0, 1);
    FirstRanges(Bucket(StampedAt(early)), Bucket(StampedAt(next)));
  }

  /** The labels of the blocks starting at minutes 0 and 5. */
  lemma FirstRanges(first: int, second: int)
    requires first == 0 && second == 5
    ensures TimeRange(first) == "00:00-00:05"
    ensures TimeRange(second) == "00:05-00:10"
  {
    FirstLabels();
    DashJoins();
    LabelFrom(first, "00:00", "00:05", "00:00-00:05");
    LabelFrom(second, "00:05", "00:10", "00:05-00:10");
  }

  lemma DashJoins()
    ensures "00:00" + "-" + "00:05" == "00:00-00:05"
    ensures "00:05" + "-" + "00:10" == "00:05-00:10"
  {
  }

  /** A non-negative number between `n` and `n + 1` truncates to `n`. */
  lemma TruncIs(x: real, n: int)
    requires 0.0 <= x && n as real <= x < n as real + 1.0
    ensures Trunc(x) == n
  {
  }

  /** The label of block `b` from the labels of its two ends. */
  lemma LabelFrom(b: int, start: string, end: string, caption: string)
    requires FormatDuration(b) == start && FormatDuration(b + 5) == end
    requires caption == start + "-" + end
    ensures TimeRange(b) == caption
  {
  }

  /** The labels of the first two blocks. */
  lemma FirstLabels()
    ensures FormatDuration(0) == "00:00"
    ensures FormatDuration(5) == "00:05"
    ensures FormatDuration(10) == "00:10"
  {
    assert Pad2(0) == "00";
    assert Pad2(5) == "05";
    assert Pad2(10) == "10" by {
      assert NatStr(10) == NatStr(1) + [DigitChar(0)];
    }
  }

  /** Some entry of `t` falls in block `b`. */
  predicate HasBucket(t: seq<Entry>, b: int) {
    exists j :: 0 <= j < |t| && Bucket(t[j]) == b
  }

  predicate Distinct(ks: seq<int>) {
    forall i, j :: 0 <= i < j < |ks| ==> ks[i] != ks[j]
  }

  predicate Ascending(ks: seq<int>) {
    forall i, j :: 0 <= i < j < |ks| ==> ks[i] < ks[j]
  }

  /** The keys of `time_groups`, in the order a dict receives them. */
  function FirstSeen(t: seq<Entry>): (ks: seq<int>)
    ensures Distinct(ks)
    ensures forall b :: b in ks <==> HasBucket(t, b)
  {
    if t == [] then []
    else
      var ks := FirstSeen(t[..|t| - 1]);
      var b := Bucket(t[|t| - 1]);
      assert forall c :: HasBucket(t, c) <==> HasBucket(t[..|t| - 1], c) || c == b by {
        forall c ensures HasBucket(t, c) <==> HasBucket(t[..|t| - 1], c) || c == b {
          if HasBucket(t[..|t| - 1], c) {
            var j :| 0 <= j < |t| - 1 && Bucket(t[..|t| - 1][j]) == c;
            assert Bucket(t[j]) == c;
          }
          if HasBucket(t, c) && c != b {
            var j :| 0 <= j < |t| && Bucket(t[j]) == c;
            assert Bucket(t[..|t| - 1][j]) == c;
          }
        }
      }
      if b in ks then ks else ks + [b]
  }

  /** Places `x` in an ascending sequence that lacks it. */
  function Insert(x: int, ks: seq<int>): (r: seq<int>)
    requires Ascending(ks) && x !in ks
    ensures Ascending(r)
    ensures forall y :: y in r <==> y == x || y in ks
  {
    if ks == [] then [x]
    else if x < ks[0] then [x] + ks
    else
      var r := Insert(x, ks[1..]);
      assert forall j :: 0 <= j < |r| ==> ks[0] < r[j] by {
        forall j | 0 <= j < |r| ensures ks[0] < r[j] {
          assert r[j] in r;
        }
      }
      [ks[0]] + r
  }

  /** `sorted(keys)` for distinct keys: the same keys, ascending. */
  function Sort(ks: seq<int>): (r: seq<int>)
    requires Distinct(ks)
    ensures Ascending(r)
    ensures forall y :: y in r <==> y in ks
  {
    if ks == [] then []
    else Insert(ks[|ks| - 1], Sort(ks[..|ks| - 1]))
  }

  /** The block starts that occur, ascending. */
  function BucketOrder(t: seq<Entry>): (ks: seq<int>)
    ensures Ascending(ks)
    ensures forall b :: b in ks <==> HasBucket(t, b)
  {
    Sort(FirstSeen(t))
  }

  /** `{time_range, entries}`. */
  datatype LogBlock = LogBlock(timeRange: string, entries: seq<Entry>)

  /** The specification of `_build_discussion_log`. */
  function DiscussionLog(t: seq<Entry>): (log: seq<LogBlock>)
    ensures |log| == |BucketOrder(t)|
  {
    var ks := BucketOrder(t);
    seq(|ks|, k requires 0 <= k < |ks| => LogBlock(TimeRange(ks[k]), Select(t, InBucket(ks[k]))))
  }

  /** Each block holds exactly the entries of its five minutes, in
      arrival order, under the label of its start. */
  lemma BlockContents(t: seq<Entry>, k: nat)
    requires k < |DiscussionLog(t)|
    ensures var block, b := DiscussionLog(t)[k], BucketOrder(t)[k];
      && block.timeRange == TimeRange(b)
      && IsSubsequence(block.entries, t)
      && (forall e :: e in block.entries <==> e in t && Bucket(e) == b)
  {
    SelectIsOrderedFilter(t, InBucket(BucketOrder(t)[k]));
  }

  /** Blocks come in ascending time order, and every entry lands in
      exactly one block: the one of its own five minutes. */
  lemma DiscussionLogPartitions(t: seq<Entry>)
    ensures Ascending(BucketOrder(t))
    ensures forall e :: e in t ==>
      exists k :: 0 <= k < |DiscussionLog(t)| && e in DiscussionLog(t)[k].entries
    ensures forall e, k1, k2 ::
      (0 <= k1 < |DiscussionLog(t)| && 0 <= k2 < |DiscussionLog(t)|
       && e in DiscussionLog(t)[k1].entries && e in DiscussionLog(t)[k2].entries) ==> k1 == k2
  {
    var log, ks := DiscussionLog(t), BucketOrder(t);
    forall e | e in t
      ensures exists k :: 0 <= k < |log| && e in log[k].entries
    {
      var j :| 0 <= j < |t| && t[j] == e;
      assert HasBucket(t, Bucket(e));
      var k :| 0 <= k < |ks| && ks[k] == Bucket(e);
      BlockContents(t, k);
    }
    forall e, k1, k2 |
      0 <= k1 < |log| && 0 <= k2 < |log| && e in log[k1].entries && e in log[k2].entries
      ensures k1 == k2
    {
      BlockContents(t, k1);
      BlockContents(t, k2);
    }
  }

  /** A selection that accepts nothing is empty. */
  lemma NothingSelected(t: seq<Entry>, keep: Entry -> bool)
    requires forall j :: 0 <= j < |t| ==> !keep(t[j])
    ensures Select(t, keep) == []
  {
    SelectIsOrderedFilter(t, keep);
  }

  /** One more entry: its block is added to the keys if new, and it joins
      the selection of its own block only. */
  lemma GroupingStep(t: seq<Entry>, i: nat)
    requires i < |t|
    ensures FirstSeen(t[..i + 1])
      == if Bucket(t[i]) in FirstSeen(t[..i]) then FirstSeen(t[..i]) else FirstSeen(t[..i]) + [Bucket(t[i])]
  {
    assert t[..i + 1][..i] == t[..i];
  }

  /** The entries of block `c` among the first `i + 1` entries. */
  lemma BlockStep(t: seq<Entry>, i: nat, c: int)
    requires i < |t|
    ensures Select(t[..i + 1], InBucket(c)) == Select(t[..i], InBucket(c)) + (if Bucket(t[i]) == c then [t[i]] else [])
  {
    assert t[..i + 1][..i] == t[..i];
  }

  /** The grouping loop of `_build_discussion_log`: a dictionary from
      block start to its entries, with its keys in insertion order. */
  method GroupByBucket(transcript: seq<Entry>) returns (groups: map<int, seq<Entry>>, keys: seq<int>)
    ensures keys == FirstSeen(transcript)
    ensures forall b :: b in groups <==> b in keys
    ensures forall b :: b in groups ==> groups[b] == Select(transcript, InBucket(b))
  {
    groups, keys := map[], [];
    var i := 0;
    while i < |transcript|
      invariant 0 <= i <= |transcript|
      invariant keys == FirstSeen(transcript[..i])
      invariant forall b :: b in groups <==> b in keys
      invariant forall b :: b in groups ==> groups[b] == Select(transcript[..i], InBucket(b))
    {
      groups, keys := FileEntry(transcript, i, groups, keys);
      i := i + 1;
    }
    assert transcript[..i] == transcript;
  }

  /** One step of the grouping loop: open the entry's block if it is new,
      then append the entry to it. */
  method FileEntry(t: seq<Entry>, i: nat, groups: map<int, seq<Entry>>, keys: seq<int>)
    returns (filed: map<int, seq<Entry>>, known: seq<int>)
    requires i < |t| && keys == FirstSeen(t[..i])
    requires forall b :: b in groups <==> b in keys
    requires forall b :: b in groups ==> groups[b] == Select(t[..i], InBucket(b))
    ensures known == FirstSeen(t[..i + 1])
    ensures forall c :: c in filed <==> c in known
    ensures forall c :: c in filed ==> filed[c] == Select(t[..i + 1], InBucket(c))
  {
    var entry := t[i];
    var b := Bucket(entry);
    if b in groups {
      filed, known := groups[b := groups[b] + [entry]], keys;
    } else {
      filed, known := groups[b := [entry]], keys + [b];
    }
    GroupsGrow(t, i, groups, keys, filed, known);
  }

  /** Filing entry `i` under its block keeps the dictionary equal to the
      grouping of the first `i + 1` entries. */
  lemma GroupsGrow(t: seq<Entry>, i: nat, groups: map<int, seq<Entry>>, keys: seq<int>,
                    after: map<int, seq<Entry>>, order: seq<int>)
    requires i < |t| && keys == FirstSeen(t[..i])
    requires forall b :: b in groups <==> b in keys
    requires forall b :: b in groups ==> groups[b] == Select(t[..i], InBucket(b))
    requires var b := Bucket(t[i]);
      && after == (if b in groups then groups[b := groups[b] + [t[i]]] else groups[b := [t[i]]])
      && order == (if b in groups then keys else keys + [b])
    ensures order == FirstSeen(t[..i + 1])
    ensures forall c :: c in after <==> c in order
    ensures forall c :: c in after ==> after[c] == Select(t[..i + 1], InBucket(c))
  {
    var b := Bucket(t[i]);
    GroupingStep(t, i);
    forall c | c in after ensures after[c] == Select(t[..i + 1], InBucket(c)) {
      BlockStep(t, i, c);
      if c == b && b !in groups {
        NothingSelected(t[..i], InBucket(b));
      }
    }
  }

  /** A sequence of blocks that agrees with the specification block by
      block is the discussion log. */
  lemma IsDiscussionLog(t: seq<Entry>, log: seq<LogBlock>)
    requires |log| == |BucketOrder(t)|
    requires forall n :: 0 <= n < |log| ==>
      log[n] == LogBlock(TimeRange(BucketOrder(t)[n]), Select(t, InBucket(BucketOrder(t)[n])))
    ensures log == DiscussionLog(t)
  {
  }

  /** The emitting loop: one block per key, in the given order, holding
      that key's group under its label. */
  method EmitBlocks(order: seq<int>, groups: map<int, seq<Entry>>) returns (log: seq<LogBlock>)
    requires forall n :: 0 <= n < |order| ==> order[n] in groups
    ensures |log| == |order|
    ensures forall n :: 0 <= n < |order| ==> log[n] == LogBlock(TimeRange(order[n]), groups[order[n]])
  {
    log := [];
    var k := 0;
    while k < |order|
      invariant 0 <= k <= |order|
      invariant |log| == k
      invariant forall n :: 0 <= n < k ==> log[n] == LogBlock(TimeRange(order[n]), groups[order[n]])
    {
      EmitStep(log, order, groups, k);
      log := log + [LogBlock(TimeRange(order[k]), groups[order[k]])];
      k := k + 1;
    }
  }

  lemma EmitStep(log: seq<LogBlock>, order: seq<int>, groups: map<int, seq<Entry>>, k: nat)
    requires k < |order| && |log| == k && order[k] in groups
    requires forall n :: 0 <= n < k && order[n] in groups ==> log[n] == LogBlock(TimeRange(order[n]), groups[order[n]])
    ensures var next := log + [LogBlock(TimeRange(order[k]), groups[order[k]])];
      forall n :: 0 <= n <= k && order[n] in groups ==> next[n] == LogBlock(TimeRange(order[n]), groups[order[n]])
  {
  }

  /** `_build_discussion_log`: group the entries by block, then emit the
      blocks by ascending start. */
  method BuildDiscussionLog(transcript: seq<Entry>) returns (log: seq<LogBlock>)
    ensures log == DiscussionLog(transcript)
  {
    var groups, keys := GroupByBucket(transcript);
    var order := Sort(keys);
    assert order == BucketOrder(transcript);
    assert forall n :: 0 <= n < |order| ==> order[n] in keys;
    log := EmitBlocks(order, groups);
    IsDiscussionLog(transcript, log);
  }

  // ---------------------------------------------------------------------
  // Context of an entry

  /** `next(i for i, e in enumerate(transcript) if e.get('id') == entry_id)`:
      the first position holding the id, if any. */
  function FirstWithId(t: seq<Entry>, id: string): (r: Option<nat>)
    ensures r.None? ==> forall j :: 0 <= j < |t| ==> t[j].id != Some(id)
    ensures r.Some? ==>
      && r.value < |t| && t[r.value].id == Some(id)
      && forall j :: 0 <= j < r.value ==> t[j].id != Some(id)
  {
    if t == [] then None
    else if t[0].id == Some(id) then Some(0)
    else
      match FirstWithId(t[1..], id)
      case None => None
      case Some(k) => Some(k + 1)
  }

  /** The window around position `idx`: the text `x` between the texts
      of its neighbours, those that exist, joined by spaces. */
  function Window(t: seq<Entry>, idx: nat, x: string): string
    requires idx < |t|
  {
    var before := if idx > 0 then [TextOf(t[idx - 1])] else [];
    var after := if idx < |t| - 1 then [TextOf(t[idx + 1])] else [];
    Join(" ", before + [x] + after)
  }

  /** `_get_context_for_entry`: the entry's own text between the texts of
      the transcript entries around the first one sharing its id. */
  function ContextFor(entry: Entry, t: seq<Entry>): string {
    match entry.id
    case None => ""
    case Some(id) =>
      if id == "" then ""
      else
        match FirstWithId(t, id)
        case None => ""
        case Some(idx) => Window(t, idx, TextOf(entry))
  }

  /** No context without an id or when no entry carries it. Otherwise the
      window around the first entry carrying the id. */
  lemma ContextWindow(entry: Entry, t: seq<Entry>)
    ensures entry.id.None? || entry.id == Some("") ==> ContextFor(entry, t) == ""
    ensures entry.id.Some? && entry.id.value != "" && FirstWithId(t, entry.id.value).None? ==> ContextFor(entry, t) == ""
    ensures entry.id.Some? && entry.id.value != "" && FirstWithId(t, entry.id.value).Some? ==>
      WindowFits(t, FirstWithId(t, entry.id.value).value, TextOf(entry), ContextFor(entry, t))
  {
    if entry.id.Some? && entry.id.value != "" && FirstWithId(t, entry.id.value).Some? {
      WindowShape(t, FirstWithId(t, entry.id.value).value, TextOf(entry));
    }
  }

  /** `w` is the text `x` at `idx` with its neighbours: the previous text
      when there is a previous entry, then `x`, then the next text when
      there is a next entry, separated by single spaces. */
  predicate WindowFits(t: seq<Entry>, idx: nat, x: string, w: string)
    requires idx < |t|
  {
    && (idx == 0 && idx == |t| - 1 ==> w == x)
    && (idx == 0 && idx < |t| - 1 ==> w == x + " " + TextOf(t[idx + 1]))
    && (idx > 0 && idx == |t| - 1 ==> w == TextOf(t[idx - 1]) + " " + x)
    && (idx > 0 && idx < |t| - 1 ==> w == TextOf(t[idx - 1]) + " " + x + " " + TextOf(t[idx + 1]))
  }

  lemma WindowShape(t: seq<Entry>, idx: nat, x: string)
    requires idx < |t|
    ensures WindowFits(t, idx, x, Window(t, idx, x))
  {
    if idx > 0 && idx < |t| - 1 {
      WindowBoth(t, idx, x);
    } else if idx > 0 {
      WindowAfterLast(t, idx, x);
    } else if idx < |t| - 1 {
      WindowBeforeFirst(t, idx, x);
    } else {
      WindowAlone(t, idx, x);
    }
  }

  lemma WindowBoth(t: seq<Entry>, idx: nat, x: string)
    requires 0 < idx < |t| - 1
    ensures Window(t, idx, x) == TextOf(t[idx - 1]) + " " + x + " " + TextOf(t[idx + 1])
  {
    var p, n := TextOf(t[idx - 1]), TextOf(t[idx + 1]);
    assert [p] + [x] + [n] == [p, x, n];
    JoinThree(p, x, n);
  }

  lemma WindowAfterLast(t: seq<Entry>, idx: nat, x: string)
    requires 0 < idx == |t| - 1
    ensures Window(t, idx, x) == TextOf(t[idx - 1]) + " " + x
  {
    var p := TextOf(t[idx - 1]);
    assert [p] + [x] + [] == [p, x];
    JoinTwo(p, x);
  }

  lemma WindowBeforeFirst(t: seq<Entry>, idx: nat, x: string)
    requires 0 == idx < |t| - 1
    ensures Window(t, idx, x) == x + " " + TextOf(t[idx + 1])
  {
    var n := TextOf(t[idx + 1]);
    assert [] + [x] + [n] == [x, n];
    JoinTwo(x, n);
  }

  lemma WindowAlone(t: seq<Entry>, idx: nat, x: string)
    requires 0 == idx == |t| - 1
    ensures Window(t, idx, x) == x
  {
    assert [] + [x] + [] == [x];
  }

  lemma JoinTwo(a: string, b: string)
    ensures Join(" ", [a, b]) == a + " " + b
  {
    assert [a, b][1..] == [b];
  }

  lemma JoinThree(a: string, b: string, c: string)
    ensures Join(" ", [a, b, c]) == a + " " + b + " " + c
  {
    assert [a, b, c][1..] == [b, c];
    JoinTwo(b, c);
  }

  // ---------------------------------------------------------------------
  // Q&A section

  /** A stored pair `{question, answers, resolved}`, any key of which may
      be missing. */
  datatype PairInput = PairInput(question: Option<Entry>, answers: Option<seq<Entry>>, resolved: Option<bool>)

  /** A pair as the live meeting keeps it. */
  function FromLive(p: QAPair): PairInput {
    PairInput(Some(p.question), Some(p.answers), Some(p.resolved))
  }

  /** `{}`: an entry with no keys. */
  const NoEntry: Entry := Entry(None, None, None, None, None)

  datatype QuestionRecord = QuestionRecord(text: string, askedBy: string, timestamp: Option<real>, kind: string)
  datatype AnswerRecord = AnswerRecord(text: string, speaker: string, timestamp: Option<real>)
  datatype ProcessedPair = ProcessedPair(question: QuestionRecord, answers: seq<AnswerRecord>, resolved: bool)

  function AnswerOf(a: Entry): AnswerRecord {
    AnswerRecord(TextOf(a), SpeakerOf(a), a.timestamp)
  }

  /** One iteration of `_process_qa_pairs`. */
  function ProcessPair(p: PairInput): (r: ProcessedPair)
    ensures |r.answers| == |p.answers.GetOr([])|
    ensures r.question.kind in QuestionLabels
  {
    var q := p.question.GetOr(NoEntry);
    var answers := p.answers.GetOr([]);
    QuestionTypeIsFirstMatchingFamily(TextOf(q));
    ProcessedPair(
      QuestionRecord(TextOf(q), SpeakerOf(q), q.timestamp, ExtractQuestionType(TextOf(q))),
      seq(|answers|, k requires 0 <= k < |answers| => AnswerOf(answers[k])),
      p.resolved.GetOr(false))
  }

  /** Restating a live pair keeps its question, its answers in number and
      order, and its resolution. */
  lemma LivePairRestated(p: QAPair)
    ensures var r := ProcessPair(FromLive(p));
      && r.question == QuestionRecord(TextOf(p.question), SpeakerOf(p.question), p.question.timestamp, ExtractQuestionType(TextOf(p.question)))
      && |r.answers| == |p.answers|
      && (forall k :: 0 <= k < |p.answers| ==> r.answers[k].text == TextOf(p.answers[k]) && r.answers[k].speaker == SpeakerOf(p.answers[k]))
      && r.resolved == p.resolved
  {
  }

  /** Missing keys fall back to an open pair with an anonymous, empty,
      general question and no answers. */
  lemma EmptyPairDefaults()
    ensures ProcessPair(PairInput(None, None, None))
      == ProcessedPair(QuestionRecord("", "Unknown", None, " general"), [], false)
  {
    assert Lower("") == "";
    assert !ContainsAny("", ["what", "which"]);
    assert !ContainsAny("", ["when", "time", "date"]);
    assert !ContainsAny("", ["who", "whom"]);
    assert !ContainsAny("", ["how"]);
    assert !ContainsAny("", ["why"]);
    assert !ContainsAny("", ["where"]);
  }

  /** `_process_qa_pairs`: one restated pair per pair, in order. */
  method ProcessQAPairs(pairs: seq<PairInput>) returns (processed: seq<ProcessedPair>)
    ensures |processed| == |pairs|
    ensures forall i :: 0 <= i < |pairs| ==> processed[i] == ProcessPair(pairs[i])
  {
    processed := [];
    var i := 0;
    while i < |pairs|
      invariant 0 <= i <= |pairs|
      invariant |processed| == i
      invariant forall j :: 0 <= j < i ==> processed[j] == ProcessPair(pairs[j])
    {
      processed := processed + [ProcessPair(pairs[i])];
      i := i + 1;
    }
  }

  // ---------------------------------------------------------------------
  // Summary

  /** `[e.get('timestamp', 0) for e in transcript if e.get('timestamp')]`:
      the timestamps that are present and not zero, in order. */
  function TruthyTimestamps(t: seq<Entry>): (r: seq<real>)
    ensures |r| <= |t|
    ensures forall k :: 0 <= k < |r| ==> r[k] != 0.0
  {
    if t == [] then []
    else
      var ts := t[|t| - 1].timestamp;
      TruthyTimestamps(t[..|t| - 1]) + (if ts.Some? && ts.value != 0.0 then [ts.value] else [])
  }

  /** A timestamp counts toward the duration exactly when some entry
      carries it and it is not zero. */
  lemma {:induction false} TruthyTimestampsAreTheNonZeroOnes(t: seq<Entry>, x: real)
    ensures x in TruthyTimestamps(t) <==> x != 0.0 && exists j :: 0 <= j < |t| && t[j].timestamp == Some(x)
  {
    if t != [] {
      var init := t[..|t| - 1];
      TruthyTimestampsAreTheNonZeroOnes(init, x);
      if exists j :: 0 <= j < |init| && init[j].timestamp == Some(x) {
        var j :| 0 <= j < |init| && init[j].timestamp == Some(x);
        assert t[j].timestamp == Some(x);
      }
      if x != 0.0 && exists j :: 0 <= j < |t| && t[j].timestamp == Some(x) {
        var j :| 0 <= j < |t| && t[j].timestamp == Some(x);
        if j < |t| - 1 {
          assert init[j].timestamp == Some(x);
        }
      }
    }
  }

  /** `max(xs)`. */
  function MaxOf(xs: seq<real>): (m: real)
    requires xs != []
    ensures m in xs && forall k :: 0 <= k < |xs| ==> xs[k] <= m
  {
    if |xs| == 1 then xs[0]
    else
      var m := MaxOf(xs[..|xs| - 1]);
      assert forall k :: 0 <= k < |xs| - 1 ==> xs[..|xs| - 1][k] == xs[k];
      if xs[|xs| - 1] > m then xs[|xs| - 1] else m
  }

  /** `min(xs)`. */
  function MinOf(xs: seq<real>): (m: real)
    requires xs != []
    ensures m in xs && forall k :: 0 <= k < |xs| ==> m <= xs[k]
  {
    if |xs| == 1 then xs[0]
    else
      var m := MinOf(xs[..|xs| - 1]);
      assert forall k :: 0 <= k < |xs| - 1 ==> xs[..|xs| - 1][k] == xs[k];
      if xs[|xs| - 1] < m then xs[|xs| - 1] else m
  }

  /** Seconds between the earliest and the latest non-zero timestamp, 0
      when there is none: never negative, and no two counted timestamps
      are further apart. */
  function Duration(t: seq<Entry>): (d: real)
    ensures d >= 0.0
    ensures forall i, j :: 0 <= i < |TruthyTimestamps(t)| && 0 <= j < |TruthyTimestamps(t)| ==>
      TruthyTimestamps(t)[i] - TruthyTimestamps(t)[j] <= d
  {
    var ts := TruthyTimestamps(t);
    if ts == [] then 0.0 else MaxOf(ts) - MinOf(ts)
  }

  /** `speaker_counts`, as the `(speaker, count)` items of the dict in
      insertion order. */
  type Counts = seq<(string, nat)>

  /** `speaker_counts[speaker] += 1`. */
  function Bump(counts: Counts, speaker: string): (r: Counts)
    ensures |r| == |counts| || |r| == |counts| + 1
  {
    if counts == [] then [(speaker, 1)]
    else if counts[0].0 == speaker then [(speaker, counts[0].1 + 1)] + counts[1..]
    else [counts[0]] + Bump(counts[1..], speaker)
  }

  /** `counts[speaker]` of a defaultdict: 0 when absent. */
  function CountOf(counts: Counts, speaker: string): nat {
    if counts == [] then 0
    else if counts[0].0 == speaker then counts[0].1
    else CountOf(counts[1..], speaker)
  }

  /** `sum(counts.values())`. */
  function Total(counts: Counts): nat {
    if counts == [] then 0 else counts[0].1 + Total(counts[1..])
  }

  /** The speakers that have a count. */
  predicate Counted(counts: Counts, speaker: string) {
    exists k :: 0 <= k < |counts| && counts[k].0 == speaker
  }

  /** Each speaker is counted once. */
  predicate NoSpeakerTwice(counts: Counts) {
    forall i, j :: 0 <= i < j < |counts| ==> counts[i].0 != counts[j].0
  }

  /** Counting one more utterance adds one to that speaker's count only,
      and one to the total. */
  lemma {:induction false} BumpAddsOne(counts: Counts, speaker: string)
    ensures Total(Bump(counts, speaker)) == Total(counts) + 1
    ensures forall x :: CountOf(Bump(counts, speaker), x) == CountOf(counts, x) + (if x == speaker then 1 else 0)
  {
    if counts != [] && counts[0].0 != speaker {
      BumpAddsOne(counts[1..], speaker);
      assert Bump(counts, speaker)[1..] == Bump(counts[1..], speaker);
    } else if counts != [] {
      assert Bump(counts, speaker)[1..] == counts[1..];
    }
  }

  /** Counting registers the speaker and forgets no one. */
  lemma {:induction false} BumpRegisters(counts: Counts, speaker: string)
    ensures forall x :: Counted(Bump(counts, speaker), x) <==> Counted(counts, x) || x == speaker
  {
    var r := Bump(counts, speaker);
    if counts != [] && counts[0].0 != speaker {
      var rest := Bump(counts[1..], speaker);
      BumpRegisters(counts[1..], speaker);
      assert r == [counts[0]] + rest;
      forall x ensures Counted(r, x) <==> Counted(counts, x) || x == speaker {
        if x == counts[0].0 {
          assert r[0].0 == x;
        }
        if Counted(counts, x) && x != counts[0].0 {
          var k :| 0 <= k < |counts| && counts[k].0 == x;
          assert counts[1..][k - 1].0 == x;
          assert Counted(rest, x);
          var m :| 0 <= m < |rest| && rest[m].0 == x;
          assert r[m + 1].0 == x;
        }
        if x == speaker {
          assert Counted(rest, x);
          var m :| 0 <= m < |rest| && rest[m].0 == x;
          assert r[m + 1].0 == x;
        }
        if Counted(r, x) && x != speaker && x != counts[0].0 {
          var k :| 0 <= k < |r| && r[k].0 == x;
          assert rest[k - 1].0 == x;
          assert Counted(counts[1..], x);
          var m :| 0 <= m < |counts[1..]| && counts[1..][m].0 == x;
          assert counts[m + 1].0 == x;
        }
      }
    } else if counts != [] {
      forall x ensures Counted(r, x) <==> Counted(counts, x) || x == speaker {
        if Counted(r, x) {
          var k :| 0 <= k < |r| && r[k].0 == x;
          assert counts[k].0 == x;
        }
        if Counted(counts, x) {
          var k :| 0 <= k < |counts| && counts[k].0 == x;
          assert r[k].0 == x;
        }
      }
    } else {
      assert r[0].0 == speaker;
    }
  }

  /** Counting never lists a speaker twice. */
  lemma {:induction false} BumpKeepsSpeakersOnce(counts: Counts, speaker: string)
    requires NoSpeakerTwice(counts)
    ensures NoSpeakerTwice(Bump(counts, speaker))
  {
    if counts != [] && counts[0].0 != speaker {
      var rest := Bump(counts[1..], speaker);
      BumpKeepsSpeakersOnce(counts[1..], speaker);
      BumpRegisters(counts[1..], speaker);
      forall m | 0 <= m < |rest| ensures rest[m].0 != counts[0].0 {
        var y := rest[m].0;
        assert Counted(rest, y);
        if y != speaker {
          var k :| 0 <= k < |counts[1..]| && counts[1..][k].0 == y;
          assert counts[k + 1] == counts[1..][k];
        }
      }
    }
  }

  /** `speaker_counts` after the counting loop over `t`. */
  function Participation(t: seq<Entry>): Counts {
    if t == [] then [] else Bump(Participation(t[..|t| - 1]), SpeakerOf(t[|t| - 1]))
  }

  function SpokenBy(speaker: string): Entry -> bool {
    e => SpeakerOf(e) == speaker
  }

  /** The participation counts add up to the number of entries; each
      speaker's count is the number of its entries; the counted speakers
      are exactly the transcript's speakers, each once. */
  lemma {:induction false} ParticipationCounts(t: seq<Entry>)
    ensures Total(Participation(t)) == |t|
    ensures forall x :: CountOf(Participation(t), x) == |Select(t, SpokenBy(x))|
    ensures forall x :: Counted(Participation(t), x) <==> x in Speakers(t)
    ensures NoSpeakerTwice(Participation(t))
  {
    if t != [] {
      var init, last := t[..|t| - 1], t[|t| - 1];
      ParticipationCounts(init);
      BumpAddsOne(Participation(init), SpeakerOf(last));
      BumpRegisters(Participation(init), SpeakerOf(last));
      BumpKeepsSpeakersOnce(Participation(init), SpeakerOf(last));
      assert init + [last] == t;
      forall x ensures x in Speakers(t) <==> x in Speakers(init) || x == SpeakerOf(last) {
        if x in Speakers(t) {
          var e :| e in t && SpeakerOf(e) == x;
          assert e in init || e == last;
        }
        if x in Speakers(init) {
          var e :| e in init && SpeakerOf(e) == x;
          assert e in t;
        }
      }
    }
  }

  /** `list(set(entry.get('speaker', 'Unknown') for entry in transcript))`,
      as a set. */
  function Speakers(t: seq<Entry>): set<string> {
    set e | e in t :: SpeakerOf(e)
  }

  /** The summary dict. */
  datatype Summary = Summary(
    totalEntries: nat,
    totalQuestions: nat,
    durationMinutes: int,
    participants: nat,
    participation: Counts)

  /** `_generate_summary`: nothing (`{}`) for an empty transcript;
      otherwise the counts, the duration in whole minutes and the
      per-speaker participation. */
  method GenerateSummary(transcript: seq<Entry>, numParticipants: nat) returns (summary: Option<Summary>)
    ensures summary.None? <==> transcript == []
    ensures summary.Some? ==> summary.value == Summary(
      |transcript|,
      |Questions(transcript)|,
      Trunc(Duration(transcript) / 60.0),
      numParticipants,
      Participation(transcript))
  {
    if transcript == [] {
      return None;
    }
    var questions := |Questions(transcript)|;
    var timestamps := TruthyTimestamps(transcript);
    var duration := if timestamps != [] then MaxOf(timestamps) - MinOf(timestamps) else 0.0;
    var counts: Counts := [];
    var i := 0;
    while i < |transcript|
      invariant 0 <= i <= |transcript|
      invariant counts == Participation(transcript[..i])
    {
      assert transcript[..i + 1][..i] == transcript[..i];
      counts := Bump(counts, SpeakerOf(transcript[i]));
      i := i + 1;
    }
    assert transcript[..i] == transcript;
    summary := Some(Summary(|transcript|, questions, Trunc(duration / 60.0), numParticipants, counts));
  }

  /** In a summary the questions never outnumber the entries, the
      duration is a whole, non-negative number of minutes, and the
      participation adds up to the entries. */
  lemma SummaryCounts(t: seq<Entry>)
    requires t != []
    ensures |Questions(t)| <= |t|
    ensures 0 <= Trunc(Duration(t) / 60.0)
    ensures Total(Participation(t)) == |t|
  {
    ParticipationCounts(t);
  }

  // ---------------------------------------------------------------------
  // Decisions and action items

  /** `{timestamp, text, context}` for one decision. */
  datatype DecisionRecord = DecisionRecord(timestamp: Option<real>, text: Option<string>, context: string)

  function DecisionRecordFor(d: Entry, t: seq<Entry>): DecisionRecord {
    DecisionRecord(d.timestamp, d.text, ContextFor(d, t))
  }

  /** An action item handed to the builder, any key of which may be
      missing: freshly extracted items carry `text`, the items of stored
      minutes carry `task`. */
  datatype ItemInput = ItemInput(text: Option<string>, task: Option<string>, assignedTo: Option<string>, timestamp: Option<real>)

  /** An item as the extractor produces it. */
  function FromExtracted(a: ActionItem): ItemInput {
    ItemInput(Some(a.text), None, Some(a.assignedTo), a.timestamp)
  }

  /** `{task, assigned_to, timestamp, status}`. */
  datatype MinutesItem = MinutesItem(task: string, assignedTo: string, timestamp: Option<real>, status: string)

  /** An item of the minutes as it is stored and read back later. */
  function Stored(m: MinutesItem): ItemInput {
    ItemInput(None, Some(m.task), Some(m.assignedTo), m.timestamp)
  }

  /** The item rule as written: an item's task is read from `text` only. */
  function MinutesItemAsWritten(i: ItemInput): MinutesItem {
    MinutesItem(i.text.GetOr(""), i.assignedTo.GetOr("Unassigned"), i.timestamp, "Open")
  }

  /** As written, an item keyed by `task`, the key the minutes themselves
      use, loses its task: only `text` is read. */
  lemma StoredTaskIsLost()
    ensures var m := MinutesItemAsWritten(FromExtracted(ActionItem("send the report", "Alex", Some(12.0), "Alex")));
      && m.task == "send the report"
      && MinutesItemAsWritten(Stored(m)).task == ""
  {
  }

  /** The item rule, reading an item's task from `text` and else from `task`. */
  function MinutesItemFor(i: ItemInput): (m: MinutesItem)
    ensures m.status == "Open"
    ensures i.assignedTo.None? ==> m.assignedTo == "Unassigned"
  {
    var task := if i.text.Some? then i.text.value else i.task.GetOr("");
    MinutesItem(task, i.assignedTo.GetOr("Unassigned"), i.timestamp, "Open")
  }

  /** Corrected, an item survives being stored and read back, and fresh
      items are treated as before. */
  lemma StoredItemRebuilds(i: ItemInput)
    ensures MinutesItemFor(Stored(MinutesItemFor(i))) == MinutesItemFor(i)
    ensures i.text.Some? ==> MinutesItemFor(i) == MinutesItemAsWritten(i)
  {
  }

  /** The items the builder restates: the supplied ones, or when none are
      supplied, the ones extracted from the transcript. */
  function ItemSource(transcript: seq<Entry>, supplied: seq<ItemInput>): seq<ItemInput> {
    if supplied != [] then supplied
    else
      var extracted := ItemsFor(Select(transcript, IsAction));
      seq(|extracted|, k requires 0 <= k < |extracted| => FromExtracted(extracted[k]))
  }

  /** The decisions the builder restates: the supplied ones, or when none
      are supplied, the ones found in the transcript. */
  function DecisionSource(transcript: seq<Entry>, supplied: seq<Entry>): seq<Entry> {
    if supplied != [] then supplied else Select(transcript, IsDecision)
  }

  // ---------------------------------------------------------------------
  // The document

  datatype MinutesDoc = MinutesDoc(
    participants: set<string>,
    discussionLog: seq<LogBlock>,
    qaSection: seq<ProcessedPair>,
    decisions: seq<DecisionRecord>,
    actionItems: seq<MinutesItem>,
    summary: Option<Summary>)

  /** `build_minutes`. */
  method BuildMinutes(transcript: seq<Entry>, qaPairs: seq<PairInput>, decisions: seq<Entry>, actionItems: seq<ItemInput>)
    returns (minutes: MinutesDoc)
    ensures minutes.participants == Speakers(transcript)
    ensures minutes.discussionLog == DiscussionLog(transcript)
    ensures |minutes.qaSection| == |qaPairs|
    ensures forall i :: 0 <= i < |qaPairs| ==> minutes.qaSection[i] == ProcessPair(qaPairs[i])
    ensures var ds := DecisionSource(transcript, decisions);
      && |minutes.decisions| == |ds|
      && forall i :: 0 <= i < |ds| ==> minutes.decisions[i] == DecisionRecordFor(ds[i], transcript)
    ensures var items := ItemSource(transcript, actionItems);
      && |minutes.actionItems| == |items|
      && forall i :: 0 <= i < |items| ==> minutes.actionItems[i] == MinutesItemAsWritten(items[i])
    ensures forall i :: 0 <= i < |minutes.actionItems| ==> minutes.actionItems[i].status == "Open"
    ensures minutes.summary.None? <==> transcript == []
    ensures minutes.summary.Some? ==> minutes.summary.value == Summary(
      |transcript|,
      |Questions(transcript)|,
      Trunc(Duration(transcript) / 60.0),
      |minutes.participants|,
      Participation(transcript))
  {
    var processed := ProcessQAPairs(qaPairs);
    var ds := ChooseDecisions(transcript, decisions);
    var items := ChooseItems(transcript, actionItems);
    var log := BuildDiscussionLog(transcript);
    var participants := Speakers(transcript);
    var summary := GenerateSummary(transcript, |participants|);
    minutes := MinutesDoc(participants, log, processed, DecisionRecords(ds, transcript), MinutesItems(items), summary);
  }

  /** `if not decisions: decisions = extract_decisions(transcript)`. */
  method ChooseDecisions(transcript: seq<Entry>, supplied: seq<Entry>) returns (ds: seq<Entry>)
    ensures ds == DecisionSource(transcript, supplied)
  {
    ds := supplied;
    if ds == [] {
      ds := ExtractDecisions(transcript);
    }
  }

  /** `if not action_items: action_items = extract_action_items(transcript)`. */
  method ChooseItems(transcript: seq<Entry>, supplied: seq<ItemInput>) returns (items: seq<ItemInput>)
    ensures items == ItemSource(transcript, supplied)
  {
    items := supplied;
    if items == [] {
      var extracted := ExtractActionItems(transcript);
      items := seq(|extracted|, k requires 0 <= k < |extracted| => FromExtracted(extracted[k]));
    }
  }

  /** The `decisions` list of the minutes, one record per decision. A
      helper: its ensures only expose the comprehension to BuildMinutes. */
  function DecisionRecords(ds: seq<Entry>, t: seq<Entry>): (r: seq<DecisionRecord>)
    ensures |r| == |ds|
    ensures forall i :: 0 <= i < |ds| ==> r[i] == DecisionRecordFor(ds[i], t)
  {
    seq(|ds|, i requires 0 <= i < |ds| => DecisionRecordFor(ds[i], t))
  }

  /** The `action_items` list of the minutes, one open item per input,
      by the item rule as written. A helper: its ensures only expose the
      comprehension to BuildMinutes and ExtractedItemsRestated. */
  function MinutesItems(items: seq<ItemInput>): (r: seq<MinutesItem>)
    ensures |r| == |items|
    ensures forall i :: 0 <= i < |items| ==> r[i] == MinutesItemAsWritten(items[i]) && r[i].status == "Open"
  {
    seq(|items|, i requires 0 <= i < |items| => MinutesItemAsWritten(items[i]))
  }

  /** When no items are supplied, the minutes restate each extracted item:
      its task is the entry's raw text, its assignee the extractor's, its
      timestamp the entry's, and it is open. */
  lemma ExtractedItemsRestated(transcript: seq<Entry>, k: nat)
    requires k < |Select(transcript, IsAction)|
    ensures var e := Select(transcript, IsAction)[k];
      && k < |ItemSource(transcript, [])|
      && MinutesItemAsWritten(ItemSource(transcript, [])[k])
         == MinutesItem(TextOf(e), AssigneeFor(Lower(TextOf(e)), SpeakerOf(e)), e.timestamp, "Open")
  {
    var extracted := ItemsFor(Select(transcript, IsAction));
    assert extracted[k] == ItemFor(Select(transcript, IsAction)[k]);
  }
}
