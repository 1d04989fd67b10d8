/** The records that flow through a meeting: transcript entries and
    question/answer pairs. Every field of an entry is optional because the
    readers of these records (the minutes builder, the extractors) look
    fields up with a default; the live path always fills all of them. */
module Records {
  import opened Common

  /** A transcript entry `{timestamp, speaker, text, is_question, id}`. */
  datatype Entry = Entry(
    timestamp: Option<real>,
    speaker: Option<string>,
    text: Option<string>,
    isQuestion: Option<bool>,
    id: Option<string>)

  /** `entry.get('text', '')`. */
  function TextOf(e: Entry): string { e.text.GetOr("") }

  /** `entry.get('speaker', 'Unknown')`. */
  function SpeakerOf(e: Entry): string { e.speaker.GetOr("Unknown") }

  /** `entry.get('is_question')` is truthy. */
  predicate Asked(e: Entry) { e.isQuestion == Some(true) }

  /** `{question, answers, resolved}`. */
  datatype QAPair = QAPair(question: Entry, answers: seq<Entry>, resolved: bool)

  /** The entries of `t` that `keep` accepts, in transcript order. */
  function Select(t: seq<Entry>, keep: Entry -> bool): (r: seq<Entry>)
    ensures |r| <= |t|
  {
    if t == [] then []
    else Select(t[..|t| - 1], keep) + (if keep(t[|t| - 1]) then [t[|t| - 1]] else [])
  }

  /** A selection keeps transcript order, takes each entry at most once,
      and holds exactly the accepted entries. */
  lemma {:induction false} SelectIsOrderedFilter(t: seq<Entry>, keep: Entry -> bool)
    ensures IsSubsequence(Select(t, keep), t)
    ensures forall e :: e in Select(t, keep) <==> e in t && keep(e)
  {
    if t == [] {
    } else {
      var init, last := t[..|t| - 1], t[|t| - 1];
      SelectIsOrderedFilter(init, keep);
      var tail: seq<Entry> := if keep(last) then [last] else [];
      SubsequenceOfSelf([last]);
      SubsequenceAppend(Select(init, keep), init, tail, [last]);
      assert init + [last] == t;
      forall e ensures e in Select(t, keep) <==> e in t && keep(e) {
        assert e in t <==> e in init || e == last;
      }
    }
  }

  /** The entries flagged as questions, in order. */
  function Questions(t: seq<Entry>): (r: seq<Entry>)
    ensures |r| <= |t|
  {
    Select(t, Asked)
  }
}
