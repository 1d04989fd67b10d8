/** The live meeting record that every processed audio chunk updates: the
    transcript, the question/answer pairs and the per-meeting speaker
    names. An utterance arrives already transcribed and attributed to a
    diarizer speaker id; the engine's tests classify it. */
module Meeting {
  import opened Common
  import opened Text
  import opened Records
  import opened QAEngine

  /** `f"Participant {k}"`. */
  function ParticipantName(k: nat): (name: string)
    ensures |name| > 12 && name[..12] == "Participant "
  {
    "Participant " + NatStr(k)
  }

  /** Different participant numbers give different names. */
  lemma ParticipantNamesDiffer(j: nat, k: nat)
    requires j != k
    ensures ParticipantName(j) != ParticipantName(k)
  {
    var a, b := ParticipantName(j), ParticipantName(k);
    assert a[12..] == NatStr(j) && b[12..] == NatStr(k);
    NatStrRoundTrip(j);
    NatStrRoundTrip(k);
  }

  /** A row of the speakers table for this meeting. */
  datatype SpeakerRow = SpeakerRow(speakerId: string, displayName: string)

  /** The display name stored for `id`: what the `SELECT display_name`
      query fetches first. */
  function NameOf(rows: seq<SpeakerRow>, id: string): (r: Option<string>)
    ensures r.None? <==> forall k :: 0 <= k < |rows| ==> rows[k].speakerId != id
    ensures r.Some? ==> exists k :: 0 <= k < |rows| && rows[k] == SpeakerRow(id, r.value)
  {
    if rows == [] then None
    else if rows[0].speakerId == id then Some(rows[0].displayName)
    else NameOf(rows[1..], id)
  }

  /** The pair a statement joins: the last pair not yet resolved, as the
      backward scan over `reversed(qa_pairs)` finds it. */
  function LastUnresolved(pairs: seq<QAPair>): (r: Option<nat>)
    ensures r.Some? ==> r.value < |pairs| && !pairs[r.value].resolved
    ensures r.Some? ==> forall j :: r.value < j < |pairs| ==> pairs[j].resolved
    ensures r.None? <==> forall j :: 0 <= j < |pairs| ==> pairs[j].resolved
  {
    if pairs == [] then None
    else if !pairs[|pairs| - 1].resolved then Some(|pairs| - 1)
    else LastUnresolved(pairs[..|pairs| - 1])
  }

  /** The pairs after one utterance: a question opens a pair; a statement
      joins the last unresolved pair and resolves it when conclusive. */
  function Correlate(pairs: seq<QAPair>, entry: Entry, question: bool, conclusive: bool): seq<QAPair> {
    if question then pairs + [QAPair(entry, [], false)]
    else
      match LastUnresolved(pairs)
      case None => pairs
      case Some(k) => pairs[k := QAPair(pairs[k].question, pairs[k].answers + [entry], conclusive)]
  }

  /** The question of each pair, in order. */
  function PairQuestions(pairs: seq<QAPair>): (qs: seq<Entry>)
    ensures |qs| == |pairs|
    ensures forall k :: 0 <= k < |pairs| ==> qs[k] == pairs[k].question
  {
    seq(|pairs|, k requires 0 <= k < |pairs| => pairs[k].question)
  }

  /** A question adds exactly one fresh, unanswered, unresolved pair at
      the end and leaves the others alone. */
  lemma QuestionOpensPair(pairs: seq<QAPair>, entry: Entry, conclusive: bool)
    ensures Correlate(pairs, entry, true, conclusive) == pairs + [QAPair(entry, [], false)]
    ensures PairQuestions(Correlate(pairs, entry, true, conclusive)) == PairQuestions(pairs) + [entry]
  {
    assert PairQuestions(pairs + [QAPair(entry, [], false)]) == PairQuestions(pairs) + [entry];
  }

  /** A statement changes at most the last unresolved pair: it gains the
      statement as its last answer and becomes resolved exactly when the
      statement is conclusive. With no unresolved pair nothing changes. */
  lemma StatementJoinsLastUnresolved(pairs: seq<QAPair>, entry: Entry, conclusive: bool)
    ensures var r := Correlate(pairs, entry, false, conclusive);
      && |r| == |pairs|
      && PairQuestions(r) == PairQuestions(pairs)
      && (LastUnresolved(pairs).None? ==> r == pairs)
      && (LastUnresolved(pairs).Some? ==>
            var k := LastUnresolved(pairs).value;
            && r[k].answers == pairs[k].answers + [entry]
            && r[k].resolved == conclusive
            && forall j :: 0 <= j < |pairs| && j != k ==> r[j] == pairs[j])
  {
    var r := Correlate(pairs, entry, false, conclusive);
    if LastUnresolved(pairs).Some? {
      assert forall j :: 0 <= j < |pairs| ==> r[j].question == pairs[j].question;
    }
  }

  /** No utterance reopens a resolved pair, and a pair becomes resolved
      only by a conclusive statement. */
  lemma ResolutionIsMonotone(pairs: seq<QAPair>, entry: Entry, question: bool, conclusive: bool)
    ensures var r := Correlate(pairs, entry, question, conclusive);
      forall j :: 0 <= j < |pairs| ==>
        && (pairs[j].resolved ==> r[j].resolved)
        && (r[j].resolved && !pairs[j].resolved ==> !question && conclusive)
  {
  }

  /** The entry recorded for an utterance (every field filled). */
  function Utterance(timestamp: real, name: string, text: string, id: string): (e: Entry)
    ensures TextOf(e) == text && SpeakerOf(e) == name
    ensures Asked(e) <==> IsQuestion(text)
  {
    Entry(Some(timestamp), Some(name), Some(text), Some(IsQuestion(text)), Some(id))
  }

  /** The pairs are the transcript's questions, in order, and every answer
      is a transcript entry that is not a question. */
  ghost predicate PairsConsistent(transcript: seq<Entry>, pairs: seq<QAPair>) {
    && PairQuestions(pairs) == Questions(transcript)
    && forall p, a :: p in pairs && a in p.answers ==> a in transcript && !Asked(a)
  }

  /** Speaker `k` (from 0) is "Participant k+1" and speaker ids are
      distinct. */
  ghost predicate SpeakersConsistent(rows: seq<SpeakerRow>) {
    && (forall k :: 0 <= k < |rows| ==> rows[k].displayName == ParticipantName(k + 1))
    && (forall j, k :: 0 <= j < k < |rows| ==> rows[j].speakerId != rows[k].speakerId)
  }

  /** The speaker rows after naming `id`: a new id gets the next
      participant number. */
  function NameSpeaker(rows: seq<SpeakerRow>, id: string): seq<SpeakerRow> {
    if NameOf(rows, id).Some? then rows
    else rows + [SpeakerRow(id, ParticipantName(|rows| + 1))]
  }

  /** With distinct ids, `NameOf` finds the row stored for an id. */
  lemma NameIsStoredRow(rows: seq<SpeakerRow>, id: string, name: string)
    requires forall j, k :: 0 <= j < k < |rows| ==> rows[j].speakerId != rows[k].speakerId
    requires SpeakerRow(id, name) in rows
    ensures NameOf(rows, id) == Some(name)
  {
    var r := NameOf(rows, id);
    var i :| 0 <= i < |rows| && rows[i] == SpeakerRow(id, name);
    var k :| 0 <= k < |rows| && rows[k] == SpeakerRow(id, r.value);
    assert i == k;
  }

  /** Naming keeps the rows consistent; afterwards the id has a name: the
      stored one if it had one, else "Participant k" with k one more than
      the number of speakers named before. */
  lemma NamingKeepsSpeakersConsistent(rows: seq<SpeakerRow>, id: string)
    requires SpeakersConsistent(rows)
    ensures SpeakersConsistent(NameSpeaker(rows, id))
    ensures NameOf(rows, id).Some? ==> NameOf(NameSpeaker(rows, id), id) == NameOf(rows, id)
    ensures NameOf(rows, id).None? ==>
      && |NameSpeaker(rows, id)| == |rows| + 1
      && NameOf(NameSpeaker(rows, id), id) == Some(ParticipantName(|rows| + 1))
  {
    var r := NameSpeaker(rows, id);
    if NameOf(rows, id).None? {
      assert r[|rows|] == SpeakerRow(id, ParticipantName(|rows| + 1));
      NameIsStoredRow(r, id, ParticipantName(|rows| + 1));
    }
  }

  /** Appending an entry adds it to the questions exactly when it is one. */
  lemma QuestionsAppend(t: seq<Entry>, e: Entry)
    ensures Questions(t + [e]) == Questions(t) + (if Asked(e) then [e] else [])
  {
    assert (t + [e])[..|t|] == t;
  }

  /** Recording an utterance and correlating it keeps the pairs aligned
      with the transcript's questions. */
  lemma CorrelateKeepsPairsConsistent(t: seq<Entry>, pairs: seq<QAPair>, entry: Entry, conclusive: bool)
    requires PairsConsistent(t, pairs)
    ensures PairsConsistent(t + [entry], Correlate(pairs, entry, Asked(entry), conclusive))
  {
    QuestionsAppend(t, entry);
    var r := Correlate(pairs, entry, Asked(entry), conclusive);
    if Asked(entry) {
      QuestionOpensPair(pairs, entry, conclusive);
    } else {
      StatementJoinsLastUnresolved(pairs, entry, conclusive);
    }
    forall p, a | p in r && a in p.answers
      ensures a in t + [entry] && !Asked(a)
    {
      var j :| 0 <= j < |r| && r[j] == p;
      if j < |pairs| {
        assert a in pairs[j].answers || a == entry;
      }
    }
  }

  /** The backward scan over `reversed(qa_pairs)`: the statement joins the
      first unresolved pair met, which is resolved when the statement is
      conclusive, and the scan stops there. */
  method JoinLastUnresolved(pairs: seq<QAPair>, entry: Entry, conclusive: bool) returns (r: seq<QAPair>)
    ensures r == Correlate(pairs, entry, false, conclusive)
  {
    r := pairs;
    var k := |r|;
    while k > 0
      invariant 0 <= k <= |r| && r == pairs
      invariant forall j :: k <= j < |r| ==> r[j].resolved
    {
      k := k - 1;
      if !r[k].resolved {
        var pair := r[k];
        var resolved := pair.resolved;
        if conclusive {
          resolved := true;
        }
        r := r[k := QAPair(pair.question, pair.answers + [entry], resolved)];
        return;
      }
    }
  }

  /** One meeting's record, kept in memory rather than as JSON columns. */
  class MeetingRecord {
    var transcript: seq<Entry>
    var qaPairs: seq<QAPair>
    var speakers: seq<SpeakerRow>
    var participantCount: nat

    /** The pairs follow the transcript, the speakers are numbered in
        order of appearance, and the participant count is the number of
        named speakers. */
    ghost predicate Valid()
      reads this
    {
      && PairsConsistent(transcript, qaPairs)
      && SpeakersConsistent(speakers)
      && participantCount == |speakers|
    }

    /** A meeting as `start_meeting` stores it: nothing said, nobody named. */
    constructor ()
      ensures Valid()
      ensures transcript == [] && qaPairs == [] && speakers == [] && participantCount == 0
    {
      transcript, qaPairs, speakers, participantCount := [], [], [], 0;
    }

    /** The speaker-naming step: a known speaker keeps its stored name; a
        new one becomes "Participant k" with k one more than the number of
        named speakers, and the participant count becomes k. */
    method RegisterSpeaker(speakerId: string) returns (name: string)
      requires SpeakersConsistent(speakers) && participantCount == |speakers|
      modifies this
      ensures speakers == NameSpeaker(old(speakers), speakerId)
      ensures SpeakersConsistent(speakers) && participantCount == |speakers|
      ensures NameOf(speakers, speakerId) == Some(name)
      ensures transcript == old(transcript) && qaPairs == old(qaPairs)
    {
      NamingKeepsSpeakersConsistent(speakers, speakerId);
      var stored := NameOf(speakers, speakerId);
      if stored.Some? {
        name := stored.value;
      } else {
        var number := |speakers| + 1;
        name := ParticipantName(number);
        speakers := speakers + [SpeakerRow(speakerId, name)];
        participantCount := number;
      }
    }

    /** The state-update block of `process_audio_chunk` for one transcribed
        utterance: a blank transcription changes nothing; otherwise the
        speaker is named if new, one entry is appended at the end and the
        pairs are correlated. */
    method ProcessUtterance(speakerId: string, transcription: string, timestamp: real, entryId: string)
      requires Valid()
      modifies this
      ensures Valid()
      ensures IsBlank(transcription) ==>
        transcript == old(transcript) && qaPairs == old(qaPairs) &&
        speakers == old(speakers) && participantCount == old(participantCount)
      ensures !IsBlank(transcription) ==>
        && speakers == NameSpeaker(old(speakers), speakerId)
        && NameOf(speakers, speakerId).Some?
        && var entry := Utterance(timestamp, NameOf(speakers, speakerId).value, transcription, entryId);
           && transcript == old(transcript) + [entry]
           && qaPairs == Correlate(old(qaPairs), entry, IsQuestion(transcription), IsConclusiveAnswer(transcription))
    {
      if IsBlank(transcription) {
        return;
      }
      RecordUtterance(speakerId, transcription, timestamp, entryId);
    }

    /** Recording a non-blank utterance. */
    method RecordUtterance(speakerId: string, transcription: string, timestamp: real, entryId: string)
      requires Valid()
      modifies this
      ensures Valid()
      ensures speakers == NameSpeaker(old(speakers), speakerId)
      ensures NameOf(speakers, speakerId).Some?
      ensures var entry := Utterance(timestamp, NameOf(speakers, speakerId).value, transcription, entryId);
        && transcript == old(transcript) + [entry]
        && qaPairs == Correlate(old(qaPairs), entry, IsQuestion(transcription), IsConclusiveAnswer(transcription))
    {
      var conclusive := IsConclusiveAnswer(transcription);
      var name := RegisterSpeaker(speakerId);
      var entry := Utterance(timestamp, name, transcription, entryId);
      AddEntry(entry, conclusive);
    }

    /** `transcript.append(entry)`, then the question/answer step: a
        question opens a pair, a statement joins the last unresolved one. */
    method AddEntry(entry: Entry, conclusive: bool)
      requires PairsConsistent(transcript, qaPairs)
      modifies this
      ensures transcript == old(transcript) + [entry]
      ensures qaPairs == Correlate(old(qaPairs), entry, Asked(entry), conclusive)
      ensures PairsConsistent(transcript, qaPairs)
      ensures speakers == old(speakers) && participantCount == old(participantCount)
    {
      CorrelateKeepsPairsConsistent(transcript, qaPairs, entry, conclusive);
      transcript := transcript + [entry];
      if Asked(entry) {
        qaPairs := qaPairs + [QAPair(entry, [], false)];
      } else {
        qaPairs := JoinLastUnresolved(qaPairs, entry, conclusive);
      }
    }
  }
}
