# Minmeet meeting core, modelled in Dafny

Minmeet records a meeting live and turns it into minutes. Audio arrives in
chunks. Each chunk is attributed to a speaker by a voice-embedding
diarizer, transcribed, and appended to the meeting's transcript. A
rule-based engine decides whether each utterance is a question, and every
statement is linked to the most recent unresolved question. When the
meeting ends, a builder assembles the minutes and a PDF report prints
them. The minutes hold:

- the participants;
- a discussion log in five-minute blocks;
- the question/answer section;
- decisions and action items;
- summary counters.

This project models the logic of that pipeline:

| module | file | what it models |
|---|---|---|
| `Common` | `common.dfy` | `Option`, truncation toward zero (`int()`), order-preserving subsequences |
| `Text` | `text.dfy` | `lower`, `strip`, `split`, substring search, `' '.join`, `title`, zero-padded numbers and their read-back |
| `Records` | `records.dfy` | transcript entries and Q&A pairs; an ordered filter over a transcript |
| `QAEngine` | `qa_engine.dfy` | `QAProcessor`: question/answer/conclusive tests, question type, the answer linker, the decision and action-item extractors |
| `Meeting` | `meeting.dfy` | the state-update block of `process_audio_chunk` as a class `MeetingRecord` (speaker naming, transcript append, live Q&A linking) |
| `Diarization` | `diarization.dfy` | `SpeakerDiarizer.identify_speaker` as a class over per-meeting speaker profiles; cosine similarity; the feature length guard |
| `Audio` | `audio.dfy` | `AudioBuffer` as a class (chunking with overlap, flush); `remove_silence` |
| `Minutes` | `minutes.dfy` | `MinutesBuilder`: discussion log, Q&A restatement, context windows, summary, the minutes document |
| `PdfFormat` | `pdf.dfy` | the PDF text rules: timestamps, duration, task truncation, the participants line |

Code that works step by step has an imperative model. This covers the
meeting record, the diarizer, the audio buffer, the counting and grouping
loops, and the scanning loops of the extractors. Each such method is
proved against a specification function, and the properties the
application relies on are lemmas about that function. The string rules
and regular expressions are modelled as functions and predicates. Every
regular expression is written out by hand as a predicate over positions.

Where the code and its design description disagree, the model follows the
code:

- `_generate_summary` returns an empty dict for an empty transcript. It is
  modelled as `None`.
- The live path links a statement greedily to the last unresolved pair.
  The scored linker `link_answer` is modelled on its own, but nothing in
  the live path calls it.

## Model

| member | source | states |
|---|---|---|
| QAEngine.IsQuestion | core/qa_engine.py:46-72 | `is_question` as written, with its four tests in order: the raw text ends with `?`, the first word is a starter, a question pattern matches, or the first of at least two words is an auxiliary. IsQuestionExactly and EmptyIsNotQuestion state its properties. |
| QAEngine.IsQuestionExactly | core/qa_engine.py:46-72 | `is_question` holds exactly when the stripped, lower-cased text ends with `?` or its first word is one of the 29 starters. The inversion and pattern rules never change the outcome. |
| QAEngine.EmptyIsNotQuestion | core/qa_engine.py:46-72 | the empty utterance is not a question |
| QAEngine.QuestionMarkSurvives | core/qa_engine.py:50-54 | a raw text ending with `?` still ends with `?` after lower-casing and stripping |
| QAEngine.StrippedHasNoFinalNewline | core/qa_engine.py:27 | stripped text never ends in a newline, so the `\?$` pattern means "ends with `?`" |
| QAEngine.WhPatternNeedsStarter | core/qa_engine.py:25 | text matching the wh-pattern has a starter as its first word |
| QAEngine.InversionPatternNeedsStarter | core/qa_engine.py:26 | text matching the auxiliary pattern has a starter as its first word |
| QAEngine.PolitePatternNeedsStarter | core/qa_engine.py:28 | text matching the "can you / could you …" pattern has a starter as its first word |
| QAEngine.ExistentialPatternNeedsStarter | core/qa_engine.py:29 | text matching the "has anyone / is there …" pattern has a starter as its first word |
| QAEngine.LeadingWordIsFirstWord | core/qa_engine.py:57-58 | an anchored alternative followed by whitespace determines the first word of `split()` |
| QAEngine.StartersListThem | core/qa_engine.py:17-26 | the wh-words open the starter list and the inverted auxiliaries are a contiguous run of it |
| QAEngine.StarterIsOneWord | core/qa_engine.py:17-22 | no starter is empty or contains whitespace |
| QAEngine.StarterIsFirstWord | core/qa_engine.py:57-58 | a text that opens with a starter followed by whitespace has that starter as the first word of `split()` |
| QAEngine.IsAnswer | core/qa_engine.py:74-90 | `is_answer` as written: an answer starter as a raw prefix of the stripped, lower-cased text, or more than three words and not a question. IsAnswerExactly states its properties. |
| QAEngine.IsAnswerExactly | core/qa_engine.py:74-90 | `is_answer` holds exactly when the stripped, lower-cased text starts with an answer starter as a raw prefix, or has more than three words and is not a question |
| QAEngine.IsConclusiveAnswer | core/qa_engine.py:92-107 | `is_conclusive_answer` as written, over the stripped, lower-cased text: the three conclusive patterns, then the five keywords as plain substrings. ConclusiveMatchesReference states its properties. |
| QAEngine.ConclusiveMatchesReference | core/qa_engine.py:92-107 | `is_conclusive_answer` agrees with a reference rule that has no "will do" alternative, because "will do" already contains the keyword "will" |
| QAEngine.WillDoContainsWill | core/qa_engine.py:104-105 | a "will do" match implies the "will" keyword test |
| QAEngine.CommitmentPhraseCovered | core/qa_engine.py:43-44 | a match of the third conclusive pattern is a hand-over match or contains a commitment keyword |
| QAEngine.HandoverPhraseCovered | core/qa_engine.py:43 | every hand-over phrase match is a match of the third conclusive pattern |
| QAEngine.ExtractQuestionType | core/qa_engine.py:109-128 | `extract_question_type` as written: the keyword families checked in order on the lower-cased text, " general" when none matches. QuestionTypeIsFirstMatchingFamily states its properties. |
| QAEngine.QuestionTypeIsFirstMatchingFamily | core/qa_engine.py:109-128 | the category is the label of the first keyword family, in the stated order, with a member in the lower-cased text. It is always one of the seven labels and starts with a space. |
| QAEngine.LinkScore | core/qa_engine.py:142-157 | every open question scores at least 0.5 |
| QAEngine.ScoreQuestions | core/qa_engine.py:141-159 | the scoring loop builds exactly the specified score list |
| QAEngine.FirstMaximum | core/qa_engine.py:162-163 | `max` by score returns the first index of the maximal score |
| QAEngine.LinkAnswer | core/qa_engine.py:130-168 | -1 exactly when there is no open question; otherwise a valid index holding the first maximal score, so the fallback is never reached |
| QAEngine.NoOverlapScoresFall | core/qa_engine.py:149-153 | without shared words, an earlier question scores strictly higher than a later one |
| QAEngine.NoOverlapPrefersOldest | core/qa_engine.py:149-165 | when the answer shares no word with any open question, the oldest question is linked |
| QAEngine.ExtractDecisions | core/qa_engine.py:170-190 | the decisions are the transcript entries matching a decision pattern, in transcript order, each at most once, and membership is an if-and-only-if |
| QAEngine.NameAt | core/qa_engine.py:206 | the first listed name occurring at a position, or none of them occurs there |
| QAEngine.LeftmostName | core/qa_engine.py:206-221 | the name `re.search` finds: a listed name at the leftmost position where one occurs, or none occurs at all |
| QAEngine.AssigneeFor | core/qa_engine.py:218-226 | the assignee is a title-cased listed name contained in the text when one is, and otherwise the speaker |
| QAEngine.ItemsFor | core/qa_engine.py:228-233 | one `{text, assigned_to, timestamp, speaker}` item per entry, in order |
| QAEngine.NoTextNoAction | core/qa_engine.py:210-212 | an entry without a `text` key is never an action entry: its text is read as `""`, which no action pattern matches |
| QAEngine.ExtractActionItems | core/qa_engine.py:192-236 | the items are exactly those of the entries matching an action pattern, in order, at most one per entry |
| Records.SelectIsOrderedFilter | core/qa_engine.py:183-190 | a transcript scan keeps order and holds exactly the accepted entries |
| Text.BlankIffStripsToEmpty | app.py:204 | a transcription is blank exactly when stripping leaves nothing |
| Meeting.ParticipantName | app.py:225 | every new name starts with "Participant " (the number follows) |
| Meeting.ParticipantNamesDiffer | app.py:221-225 | different participant numbers give different names |
| Meeting.NameOf | app.py:212-218 | the stored display name for an id, or none when no row has that id |
| Meeting.NameIsStoredRow | app.py:212-218 | with distinct ids, the lookup finds the row stored for the id |
| Meeting.NameSpeaker | app.py:210-236 | the speakers table after the naming step: unchanged for a known id, otherwise extended by the id under "Participant k", k being one more than the number of rows. NamingKeepsSpeakersConsistent states its properties. |
| Meeting.NamingKeepsSpeakersConsistent | app.py:217-236 | a known speaker keeps its name. A new one becomes "Participant k", where k is one more than the number already named. Ids stay distinct. |
| Meeting.LastUnresolved | app.py:266-267 | the pair a statement joins: unresolved, and every later pair is resolved. It is absent exactly when all pairs are resolved. |
| Meeting.Correlate | app.py:257-272 | the pairs after one utterance: a question appends a fresh unresolved pair; a statement joins the last unresolved pair, which becomes resolved exactly when the statement is conclusive; otherwise nothing changes. QuestionOpensPair, StatementJoinsLastUnresolved and ResolutionIsMonotone state its properties. |
| Meeting.QuestionOpensPair | app.py:258-263 | a question appends exactly one fresh pair with no answers, unresolved, and leaves the others alone |
| Meeting.StatementJoinsLastUnresolved | app.py:264-272 | a statement joins only the last unresolved pair. That pair gains the statement as its last answer and is resolved exactly when the statement is conclusive. With no unresolved pair nothing changes. |
| Meeting.ResolutionIsMonotone | app.py:259-271 | a resolved pair is never reopened; a pair becomes resolved only through a conclusive statement |
| Meeting.Utterance | app.py:248-254 | the entry carries the transcription, the speaker's name and the question flag |
| Meeting.QuestionsAppend | app.py:255 | appending an entry adds it to the questions exactly when it is flagged as one |
| Meeting.CorrelateKeepsPairsConsistent | app.py:255-272 | the pairs' questions are the transcript's questions, in order, so there are as many pairs as questions. Every answer is a non-question transcript entry. |
| Meeting.JoinLastUnresolved | app.py:266-272 | the backward scan with early exit gives the specified join |
| Meeting.MeetingRecord.constructor | app.py:204-272 | an empty meeting: no transcript, no pairs, no speakers |
| Meeting.MeetingRecord.RegisterSpeaker | app.py:210-236 | the speaker table gains a row only for a new id; the participant count equals the number of named speakers |
| Meeting.MeetingRecord.ProcessUtterance | app.py:204-272 | a blank transcription changes nothing. Otherwise the speaker is named, exactly one entry is appended at the end, and the pairs are correlated. The record's invariant is kept. |
| Meeting.MeetingRecord.RecordUtterance | app.py:207-272 | recording a non-blank utterance: naming, then append, then correlation |
| Meeting.MeetingRecord.AddEntry | app.py:255-272 | the transcript gains the entry at its end, the pairs follow the Q&A rule, and the speakers are untouched |
| Diarization.CosineSimilarity | core/diarization.py:124-129 | similarity is 0 unless both norms are positive |
| Diarization.SelfSimilarityIsOne | core/diarization.py:124-129 | a non-zero vector has similarity 1 with itself |
| Diarization.Blend | core/diarization.py:113-116 | the refined embedding has the stored length, and each of its values lies between the stored and the incoming value |
| Diarization.BlendWithItself | core/diarization.py:113-116 | refining an embedding with itself leaves it unchanged |
| Diarization.BestMatch | core/diarization.py:100-108 | the best score is the maximal similarity and belongs to the first speaker that reaches it. With no score above -1 there is no match. |
| Diarization.IndexOf | core/diarization.py:121 | the position of a stored id, or none |
| Diarization.Put | core/diarization.py:121 | the dict assignment: the list grows by one exactly when the id is not stored, and the new profile then goes last. With distinct ids, a stored id is replaced in its place, every other profile keeps its place, and ids stay distinct. |
| Diarization.ScanSpeakers | core/diarization.py:100-108 | the loop computes exactly the specified best match |
| Diarization.Resolve | core/diarization.py:94-122 | the id returned and the profiles stored for usable features: the first profile becomes a minted id; a best similarity above the threshold returns that speaker and blends its embedding; otherwise a minted id is stored. ResolveOutcomes, ResolveKeepsIds and the recognition lemmas state its properties. |
| Diarization.ResolveOutcomes | core/diarization.py:94-122 | above the threshold: the matched id is returned, and only its embedding changes, to the blend. Otherwise: a minted id is stored with the new vector, in the place of a speaker stored under that id or else last. Every other speaker keeps its place and embedding, and nothing else is added. |
| Diarization.ResolveKeepsIds | core/diarization.py:88-122 | no speaker is forgotten; the count never decreases |
| Diarization.ZeroVectorNeverMatches | core/diarization.py:111-129 | a vector without positive norm becomes a new speaker under any non-negative threshold |
| Diarization.StoredVectorIsRecognised | core/diarization.py:104-117 | a stored vector finds its own speaker again, unchanged, when no earlier speaker is as similar |
| Diarization.RepeatedVectorIsStable | core/diarization.py:104-122 | after a vector became a new speaker, submitting it again returns that speaker and changes nothing |
| Diarization.SpeakerDiarizer.constructor | core/diarization.py:20-24 | no meeting has profiles yet |
| Diarization.SpeakerDiarizer.IdentifySpeaker | core/diarization.py:76-122 | audio shorter than half a second gives "unknown" and changes nothing. Otherwise the specified resolution happens, and only this meeting's profiles change. |
| Audio.Chunking | core/audio_processor.py:30-37 | the chunking loop over the old buffer plus new data: cut `chunk_samples` samples while that many are buffered, advance by a forward step `chunk_samples - overlap_samples`, keep the rest. ChunkAt, ChunkingUnfolds, ChunkingRemainder and ChunksHaveChunkSize state its properties. |
| Audio.ChunkAt | core/audio_processor.py:30-37 | chunk k is the slice of old buffer plus new data that starts at k·(C−O) and has length C |
| Audio.ChunkingUnfolds | core/audio_processor.py:33-37 | with a full chunk buffered, one loop turn emits the first `chunk_samples` samples and chunking continues on the buffer advanced by `chunk_samples - overlap_samples` |
| Audio.ChunkingRemainder | core/audio_processor.py:33-37 | what stays buffered is shorter than a chunk and is the tail after the last step |
| Audio.ChunksHaveChunkSize | core/audio_processor.py:34 | every chunk has exactly `chunk_samples` samples |
| Audio.ChunksFor | core/audio_processor.py:30-37 | what the loop cuts and keeps on every size it ends on: the chunking for a forward step; for a backward step shorter than a chunk, at most one chunk and then the buffer's last `overlap - chunk` samples. The kept buffer is shorter than a chunk and every chunk is full. |
| Audio.BackwardStepCutsOnce | core/audio_processor.py:33-37 | with `chunk < overlap < 2·chunk` and a full chunk buffered, exactly one chunk is cut, and `buffer[chunk - overlap:]` keeps the last `overlap - chunk` samples |
| Audio.AudioBuffer.constructor | core/audio_processor.py:17-23 | sizes are the truncated products of duration and rate, and the buffer is empty |
| Audio.AudioBuffer.AddAudio | core/audio_processor.py:25-39 | the returned chunks and the new buffer are exactly ChunksFor of the old buffer plus the data, for a forward step and for a backward one alike. The buffer is then shorter than a chunk, and every chunk is full. |
| Audio.AudioBuffer.Flush | core/audio_processor.py:41-45 | the old buffer is returned exactly when it is longer than half a second; the buffer is empty afterwards |
| Audio.RunStart | core/audio_processor.py:93-95 | the run through a sample starts at or before it, every sample from the start up to it is loud, and the sample before the start, if any, is quiet |
| Audio.RunEnd | core/audio_processor.py:96-103 | the run through a sample ends after it, every sample after it up to the end is loud, and the sample at the end, if any, is quiet |
| Audio.RunThrough | core/audio_processor.py:93-103 | a loud sample lies in the maximal loud run that RunStart and RunEnd delimit |
| Audio.RunBounds | core/audio_processor.py:93-99 | inside a maximal loud run, every sample sees that run's start and end |
| Audio.StartOfRun | core/audio_processor.py:94-95 | the start of a maximal run is where the loud samples began |
| Audio.EndOfRun | core/audio_processor.py:96-102 | the end of a maximal run is the next quiet sample or the end of the audio |
| Audio.KeptWithinRun | core/audio_processor.py:93-103 | inside a maximal run, the output grows sample by sample exactly when the run is long enough |
| Audio.KeptWithinLongRun | core/audio_processor.py:97-99 | inside a long enough run, the output grows by exactly the run's samples so far |
| Audio.KeptWithinShortRun | core/audio_processor.py:97-103 | inside a too-short run, the output does not grow |
| Audio.AllKept | core/audio_processor.py:93-103 | when each of a range of samples is kept, the output grows by exactly that range |
| Audio.NoneKept | core/audio_processor.py:93-103 | when none of a range of samples is kept, the output does not grow |
| Audio.RunKeptIffLong | core/audio_processor.py:97-103 | a maximal loud run, trailing or not, is kept whole when it lasts at least `min_length` at 16000 samples per second, and dropped whole otherwise |
| Audio.KeptPrefix | core/audio_processor.py:84-107 | the reference for `remove_silence`: among the first n samples, in order, those that are loud and whose maximal loud run lasts at least `min_length`. RunKeptIffLong and KeptSamplesAreLoud state its properties. |
| Audio.KeptSamplesAreLoud | core/audio_processor.py:84-107 | the output is loud samples only, in original order, and no longer than the input |
| Audio.RemoveSilence | core/audio_processor.py:77-107 | the loop computes exactly the specified concatenation of kept runs |
| Minutes.FormatDuration | core/minutes_builder.py:122-126 | `_format_duration` as written: hours and minutes, each zero-padded to two digits, joined by `:`. FormatDurationReadsBack and FormatDurationInjective state its properties. |
| Minutes.FormatDurationReadsBack | core/minutes_builder.py:122-126 | the `HH:MM` label reads back as the number of minutes |
| Minutes.FormatDurationInjective | core/minutes_builder.py:122-126 | different block starts never share a label |
| Minutes.TwoDigits | core/minutes_builder.py:126 | a number below 60 is written with two digits |
| Minutes.Bucket | core/minutes_builder.py:107-109 | the block start of an entry: `int(timestamp / 300) * 5`, a missing timestamp read as 0. BucketBounds and FirstBlocks state its properties. |
| Minutes.BucketBounds | core/minutes_builder.py:107-109 | the block start is a non-negative multiple of 5, and the entry's time lies within those five minutes |
| Minutes.FirstBlocks | core/minutes_builder.py:109-116 | times 10 and 250 fall in "00:00-00:05"; time 305 falls in "00:05-00:10" |
| Minutes.FirstRanges | core/minutes_builder.py:116 | the blocks starting at minutes 0 and 5 are labelled "00:00-00:05" and "00:05-00:10" |
| Minutes.FirstLabels | core/minutes_builder.py:122-126 | minutes 0, 5 and 10 are written "00:00", "00:05" and "00:10" |
| Minutes.FirstSeen | core/minutes_builder.py:104-110 | the keys of the grouping dict: distinct, one per occupied block |
| Minutes.Insert | core/minutes_builder.py:113 | inserting a key keeps the keys ascending |
| Minutes.Sort | core/minutes_builder.py:113 | `sorted` gives the same keys in ascending order |
| Minutes.BucketOrder | core/minutes_builder.py:113 | the blocks are emitted in ascending order, one per occupied block |
| Minutes.DiscussionLog | core/minutes_builder.py:112-120 | one log block per occupied block |
| Minutes.BlockContents | core/minutes_builder.py:104-120 | each block holds exactly the entries of its five minutes, in arrival order, under its label |
| Minutes.DiscussionLogPartitions | core/minutes_builder.py:104-120 | blocks are ascending, and every entry lands in exactly one block |
| Minutes.NothingSelected | core/minutes_builder.py:110 | a block no entry falls in holds nothing |
| Minutes.GroupingStep | core/minutes_builder.py:106-110 | one more entry adds its block to the keys exactly when the block is new |
| Minutes.BlockStep | core/minutes_builder.py:110 | one more entry is appended to its own block's entries and to no other block |
| Minutes.GroupsGrow | core/minutes_builder.py:106-110 | filing an entry keeps the dictionary equal to the grouping of the entries seen so far, with keys in first-seen order |
| Minutes.FileEntry | core/minutes_builder.py:107-110 | one loop turn: the entry's block is opened if new and the entry appended, giving the grouping of one more entry |
| Minutes.GroupByBucket | core/minutes_builder.py:104-110 | the grouping loop yields, for each key in first-seen order, the entries of that block |
| Minutes.EmitBlocks | core/minutes_builder.py:112-118 | one log block per key, in the given order, holding that key's entries under its label |
| Minutes.IsDiscussionLog | core/minutes_builder.py:112-120 | a log that agrees block by block with the specification is the discussion log |
| Minutes.BuildDiscussionLog | core/minutes_builder.py:101-120 | the method builds exactly the specified log |
| Minutes.FirstWithId | core/minutes_builder.py:136 | the first position carrying the id, or none |
| Minutes.WindowShape | core/minutes_builder.py:140-148 | the joined window has one of four shapes, fixed by whether the entry has a previous and a next neighbour |
| Minutes.WindowBoth | core/minutes_builder.py:140-148 | with both neighbours: previous, own and next text, separated by single spaces |
| Minutes.WindowAfterLast | core/minutes_builder.py:140-148 | for the last of several entries: previous text, a space, own text |
| Minutes.WindowBeforeFirst | core/minutes_builder.py:140-148 | for the first of several entries: own text, a space, next text |
| Minutes.WindowAlone | core/minutes_builder.py:140-148 | for the only entry: its own text |
| Minutes.ContextFor | core/minutes_builder.py:128-148 | `_get_context_for_entry` as written: the first entry carrying the decision's id, and the texts of it and its neighbours joined by spaces. ContextWindow and the Window lemmas state its properties. |
| Minutes.ContextWindow | core/minutes_builder.py:128-148 | "" without an id or when no entry carries it. Otherwise the window around the first entry with that id: the previous text and a space when there is a previous entry, the entry's own text, then a space and the next text when there is a next entry. |
| Minutes.JoinTwo | core/minutes_builder.py:148 | joining two texts puts one space between them |
| Minutes.JoinThree | core/minutes_builder.py:148 | joining three texts puts one space between each |
| Minutes.ProcessPair | core/minutes_builder.py:70-89 | answers are kept in number, and the question type is one of the seven labels |
| Minutes.LivePairRestated | core/minutes_builder.py:70-89 | a live pair keeps its question, its answers (number, order, text, speaker) and its resolution |
| Minutes.EmptyPairDefaults | core/minutes_builder.py:71-88 | missing keys give an open pair with an empty question by "Unknown", typed " general", with no answers |
| Minutes.ProcessQAPairs | core/minutes_builder.py:66-93 | one processed pair per input, in order |
| Minutes.TruthyTimestamps | core/minutes_builder.py:159 | only non-zero timestamps are kept |
| Minutes.TruthyTimestampsAreTheNonZeroOnes | core/minutes_builder.py:159 | a time is counted exactly when some entry carries it and it is not 0 |
| Minutes.MaxOf | core/minutes_builder.py:160 | `max` is a member bounding all others from above |
| Minutes.MinOf | core/minutes_builder.py:160 | `min` is a member bounding all others from below |
| Minutes.Duration | core/minutes_builder.py:159-160 | the duration is non-negative and spans every pair of counted timestamps |
| Minutes.Bump | core/minutes_builder.py:165 | a count increment adds at most one speaker |
| Minutes.BumpAddsOne | core/minutes_builder.py:165 | the total grows by one, and only the speaker's own count grows |
| Minutes.BumpRegisters | core/minutes_builder.py:165 | the counted speakers gain exactly the speaker |
| Minutes.BumpKeepsSpeakersOnce | core/minutes_builder.py:163-165 | no speaker is ever counted under two keys |
| Minutes.Participation | core/minutes_builder.py:162-165 | the speaker counts, one `+= 1` per entry in transcript order, a missing speaker counted as "Unknown". ParticipationCounts states its properties. |
| Minutes.ParticipationCounts | core/minutes_builder.py:162-165 | the counts add up to the number of entries. Each speaker's count is the number of its entries. The counted speakers are exactly the transcript's speakers, each once. |
| Minutes.GenerateSummary | core/minutes_builder.py:150-172 | nothing for an empty transcript. Otherwise the entry and question counts, the whole minutes of duration, the participant number, and the participation computed by the counting loop. |
| Minutes.SummaryCounts | core/minutes_builder.py:155-172 | questions never outnumber entries, the duration is non-negative, and the participation sums to the entries |
| Minutes.MinutesItemAsWritten | core/minutes_builder.py:53-60 | the item rule as written: task from `text` or `""`, assignee or "Unassigned", the timestamp, status "Open". StoredTaskIsLost and BuildMinutes state its properties. |
| Minutes.StoredTaskIsLost | core/minutes_builder.py:53-60 | as written, an item keyed by `task` gets the task `""`, while the same item keyed by `text` keeps it |
| Minutes.MinutesItemFor | core/minutes_builder.py:53-60 | the corrected item rule of the finding below (task from `text`, else from `task`): every item is "Open", and a missing assignee becomes "Unassigned" |
| Minutes.ChooseDecisions | core/minutes_builder.py:24-28 | the supplied decisions, or those extracted from the transcript when none are supplied |
| Minutes.ChooseItems | core/minutes_builder.py:30-34 | the supplied action items, or those extracted from the transcript when none are supplied |
| Minutes.StoredItemRebuilds | core/minutes_builder.py:53-60 | with the corrected rule, rebuilding a stored item gives it back unchanged, and a `text`-keyed item is treated as written |
| Minutes.ExtractedItemsRestated | core/minutes_builder.py:30-60 | with no items supplied, item k of the minutes is action entry k of the transcript restated: its text as task, the assignee rule's result, its timestamp, "Open" |
| Minutes.BuildMinutes | core/minutes_builder.py:16-64 | participants are the set of speakers. The log is the specified discussion log, and the Q&A section restates each pair in order. Decisions and items come from the transcript only when none are supplied. Every item follows line 55 as written: its task is read from `text` only, and its status is "Open". The summary is absent exactly for an empty transcript and counts the participants. |
| PdfFormat.ModSixty | core/pdf_generator.py:261 | Python's float `% 60` lies in [0, 60) |
| PdfFormat.FormatTimestamp | core/pdf_generator.py:254-265 | `_format_timestamp` as written for numeric times: `--:--` for a missing or zero time, else `int(ts / 60)` and `int(ts % 60)`, each padded to two digits. PlaceholderOnlyWithoutTime and FormatTimestampReadsBack state its properties. |
| PdfFormat.FormatTimestampReadsBack | core/pdf_generator.py:259-262 | for a positive time, seconds are below 60 and `MM:SS` reads back as its whole seconds |
| PdfFormat.WholeSeconds | core/pdf_generator.py:260-261 | minutes and seconds recombine to the whole seconds |
| PdfFormat.PlaceholderOnlyWithoutTime | core/pdf_generator.py:254-265 | `--:--` is shown exactly for a missing or zero timestamp |
| PdfFormat.MinutesCaption | core/pdf_generator.py:277-283 | the duration caption for a whole number of minutes: `{h}h {m}m` from an hour on, `{m}m` below. ShortCaptionFits and LongCaptionFits state its properties. |
| PdfFormat.ShortCaptionFits | core/pdf_generator.py:283 | under an hour the caption is `{m}m` and reads back |
| PdfFormat.LongCaptionFits | core/pdf_generator.py:281-282 | from an hour on the caption is `{h}h {m}m` and reads back |
| PdfFormat.CalculateDuration | core/pdf_generator.py:267-283 | `_calculate_duration` as written: "Unknown" for an empty transcript or one without a non-zero timestamp, else the caption of the whole minutes between the earliest and latest. DurationLabelReadsBack states its properties. |
| PdfFormat.DurationLabelReadsBack | core/pdf_generator.py:267-283 | "Unknown" exactly when no timestamp counts. Otherwise the caption reads back as the whole minutes between the first and last counted timestamps, with an hour part exactly from 60 minutes on. |
| PdfFormat.TruncateTask | core/pdf_generator.py:202 | a task of at most 50 characters is unchanged; a longer one becomes its first 50 characters plus "..." |
| PdfFormat.ParticipantsLine | core/pdf_generator.py:127 | the participants cell: the first five names joined by ", ", then "..." when there are more than five. ParticipantsLineShowsFirstFive states its properties. |
| PdfFormat.ParticipantsLineShowsFirstFive | core/pdf_generator.py:127 | each of the first five names appears. The line ends with "..." when there are more than five, and is the plain join otherwise. |
| PdfFormat.ShownNameOccurs | core/pdf_generator.py:127 | each shown name occurs in the line |
| PdfFormat.JoinShows | core/pdf_generator.py:127 | each joined name occurs in the joined text |

## Left out

- Flask routes, SQLite, server-sent events and the WSGI adapter are not modelled. The meeting record is an in-memory object instead of JSON columns, and the speakers table is a sequence of rows.
- The transcriber (Vosk), feature extraction beyond its length guard, speaker clustering, `convert_to_wav` and `normalize_audio` are foreign calls and are not modelled. Features arrive as a vector of fixed length.
- The md5 id hash and the Euclidean norm are function parameters, `mint` and `norm`. Ids are not claimed unique: a colliding id overwrites the stored profile, as the dict assignment does.
- Floating point is modelled as exact `real` arithmetic, and nothing is stated about rounding. NumPy `float32` buffers are sequences of reals.
- Character handling is ASCII only: `lower()`, `title()` and the regex word class `\w`. Whitespace is the set `str.split()` and `strip()` use.
- Regular expressions are hand-written predicates for the fixed patterns; no regex engine is modelled.
- uuid and datetime values are parameters: the entry id and the timestamp.
- Concurrency is not modelled. The threading and queue imports are unused.
- `list(set(...))` has an unspecified order, so participants are a set. The PDF participants line is modelled over any sequence of names.
- Exceptions are not modelled. This covers a `None` timestamp in the bucket arithmetic and a non-dict decision (the `str(d)` branch).
- `_format_timestamp` on a string timestamp (the `str(ts)` branch) is not modelled; timestamps are numbers.
- The PDF rendering (reportlab styles, story and tables) is not modelled, apart from the two text rules of `generate`.
- Diarization.SpeakerDiarizer.constructor: a threshold below -1 is excluded. With such a threshold and every similarity at -1, the source would look up the missing key `None` and raise.
- Diarization.RepeatedVectorIsStable: covers a vector that became a new speaker on its first submission. It assumes `norm` is the Euclidean norm, and that no stored speaker is as similar to the vector as the vector is to itself. After a match, the embedding is a blend and not the vector.
- Audio.AudioBuffer.AddAudio: requires `chunk_samples > 0`, `overlap_samples != chunk_samples` and `overlap_samples < 2·chunk_samples`. On the other sizes the source's loop never ends once a full chunk is buffered. A chunk of no samples is always full. A step of 0 keeps the whole buffer. A backward step of at least a chunk keeps a full chunk or the whole buffer.
- PdfFormat.FormatTimestampReadsBack: states the read-back for positive timestamps only. A negative time prints a minus sign that the two-digit read-back does not cover.
- Minutes.BucketBounds: holds for non-negative timestamps only.
- A decision record of built minutes has no `id`, so handing it back to `build_minutes` gives it the context `""`. The model states the context rule for any decision passed in. The one caller that would pass stored records, `get_minutes`, raises before reaching `build_minutes`: its row is a `sqlite3.Row` (app.py:34), which has no `get` method (app.py:384-385). Routes are not modelled.

## Findings

| source | as written | input that shows it | evidently intended | confidence | as-written member | corrected member |
|---|---|---|---|---|---|---|
| core/minutes_builder.py:55 | `build_minutes` reads an item's task only from `text`, while the items it produces, and those `stop_meeting` stores, key it as `task`. Handing such items back blanks every task. In the application this stays latent: `get_minutes` (app.py:384-385) calls `get` on a `sqlite3.Row` (app.py:34) and raises before calling `build_minutes`. | `build_minutes([], [], [], [{task: "send the report", assigned_to: "Alex", timestamp: 12}])` gives an action item with task `""` | an item read back keeps its task: take `text`, and else `task` | not executed | Minutes.StoredTaskIsLost | Minutes.StoredItemRebuilds |
