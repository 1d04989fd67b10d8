/** The rule-based question/answer engine (`QAProcessor`): question,
    answer and conclusiveness tests, question categories, the scored answer
    linker, and the decision and action-item scans over a transcript. Each
    regular expression of the engine is written out as a predicate on the
    lower-cased text. */
module QAEngine {
  import opened Common
  import opened Text
  import opened Records

  // ---------------------------------------------------------------------
  // Question detection

  /** The 29 first words that make an utterance a question. */
  const QuestionStarters: seq<string> := [
    "what", "why", "how", "when", "where", "who", "which",
    "whom", "whose", "is", "are", "was", "were", "do", "does",
    "did", "can", "could", "would", "should", "will", "shall",
    "have", "has", "had", "am", "may", "might", "must"]

  /** The alternatives of the start-anchored question patterns, each of
      which must be followed by whitespace. */
  const WhWords: seq<string> := ["what", "why", "how", "when", "where", "who", "which"]
  const InvertedAuxiliaries: seq<string> :=
    ["is", "are", "was", "were", "do", "does", "did", "can", "could", "would", "should"]
  const PoliteRequests: seq<string> := ["can you", "could you", "would you", "will you", "did you"]
  const ExistentialOpeners: seq<string> := ["has anyone", "have you", "is there", "are there"]

  /** Auxiliaries of the subject-inversion heuristic. */
  const AuxVerbs: seq<string> :=
    ["is", "are", "was", "were", "do", "does", "did", "have", "has", "had",
     "can", "could", "would", "should"]

  /** `re.search(r'^w\s', s)`. */
  predicate StartsWithThenSpace(s: string, w: string) {
    |w| < |s| && s[..|w|] == w && IsSpace(s[|w|])
  }

  /** `re.search(r'^(w1|w2|...)\s', s)`. */
  predicate StartsWithAnyThenSpace(s: string, ws: seq<string>) {
    exists k | 0 <= k < |ws| :: StartsWithThenSpace(s, ws[k])
  }

  /** `re.search(r'\?$', s)`: `$` also matches just before a final newline. */
  predicate EndsWithQuestionMark(s: string) {
    EndsWith(s, "?") || EndsWith(s, "?\n")
  }

  /** The five `question_patterns`, in their order. */
  predicate MatchesQuestionPattern(s: string) {
    || StartsWithAnyThenSpace(s, WhWords)
    || StartsWithAnyThenSpace(s, InvertedAuxiliaries)
    || EndsWithQuestionMark(s)
    || StartsWithAnyThenSpace(s, PoliteRequests)
    || StartsWithAnyThenSpace(s, ExistentialOpeners)
  }

  /** `QAProcessor.is_question`: the raw text ends with `?`, or the first
      word is a starter, or a question pattern matches, or the first of at
      least two words is an auxiliary. */
  predicate IsQuestion(text: string) {
    var lowered := Lower(Strip(text));
    var words := Words(lowered);
    || EndsWith(text, "?")
    || (words != [] && words[0] in QuestionStarters)
    || MatchesQuestionPattern(lowered)
    || (|words| >= 2 && words[0] in AuxVerbs)
  }

  /** When a start-anchored alternative `w` begins with the word `q`
      (followed by whitespace or nothing), `q` is the first word of any
      text the alternative matches. */
  lemma LeadingWordIsFirstWord(s: string, w: string, q: string)
    requires StartsWithThenSpace(s, w)
    requires q != [] && StartsWith(w, q) && (|q| == |w| || IsSpace(w[|q|]))
    requires forall i :: 0 <= i < |q| ==> !IsSpace(q[i])
    ensures Words(s) != [] && Words(s)[0] == q
  {
    assert s[..|w|] == w;
    assert forall i :: 0 <= i < |q| ==> s[i] == q[i];
    assert |q| < |w| ==> s[|q|] == w[|q|];
    FirstWordIs(s, |q|);
    assert s[..|q|] == q;
  }

  lemma WhPatternNeedsStarter(s: string)
    requires StartsWithAnyThenSpace(s, WhWords)
    ensures Words(s) != [] && Words(s)[0] in QuestionStarters
  {
    var k :| 0 <= k < |WhWords| && StartsWithThenSpace(s, WhWords[k]);
    StartersListThem();
    assert WhWords[k] == QuestionStarters[k];
    StarterIsFirstWord(s, k);
  }

  lemma InversionPatternNeedsStarter(s: string)
    requires StartsWithAnyThenSpace(s, InvertedAuxiliaries)
    ensures Words(s) != [] && Words(s)[0] in QuestionStarters
  {
    var k :| 0 <= k < |InvertedAuxiliaries| && StartsWithThenSpace(s, InvertedAuxiliaries[k]);
    StartersListThem();
    assert InvertedAuxiliaries[k] == QuestionStarters[9 + k];
    StarterIsFirstWord(s, 9 + k);
  }

  /** A text opening with starter `j` and whitespace has it as first word. */
  lemma StarterIsFirstWord(s: string, j: nat)
    requires j < |QuestionStarters| && StartsWithThenSpace(s, QuestionStarters[j])
    ensures Words(s) != [] && Words(s)[0] in QuestionStarters
  {
    var w := QuestionStarters[j];
    StarterIsOneWord(j);
    LeadingWordIsFirstWord(s, w, w);
  }

  /** No starter is empty or holds whitespace. */
  lemma StarterIsOneWord(j: nat)
    requires j < |QuestionStarters|
    ensures QuestionStarters[j] != []
    ensures forall i :: 0 <= i < |QuestionStarters[j]| ==> !IsSpace(QuestionStarters[j][i])
  {
  }

  /** The wh-words open the starter list and the inverted auxiliaries
      follow "whom" and "whose" in it. */
  lemma StartersListThem()
    ensures WhWords == QuestionStarters[..7]
    ensures InvertedAuxiliaries == QuestionStarters[9..20]
  {
  }

  lemma PolitePatternNeedsStarter(s: string)
    requires StartsWithAnyThenSpace(s, PoliteRequests)
    ensures Words(s) != [] && Words(s)[0] in QuestionStarters
  {
    var k :| 0 <= k < |PoliteRequests| && StartsWithThenSpace(s, PoliteRequests[k]);
    var q := ["can", "could", "would", "will", "did"][k];
    assert PoliteRequests[k] == q + " you";
    LeadingWordIsFirstWord(s, PoliteRequests[k], q);
  }

  lemma ExistentialPatternNeedsStarter(s: string)
    requires StartsWithAnyThenSpace(s, ExistentialOpeners)
    ensures Words(s) != [] && Words(s)[0] in QuestionStarters
  {
    var k :| 0 <= k < |ExistentialOpeners| && StartsWithThenSpace(s, ExistentialOpeners[k]);
    var q := ["has", "have", "is", "are"][k];
    assert ExistentialOpeners[k] == q + [' '] + ["anyone", "you", "there", "there"][k];
    LeadingWordIsFirstWord(s, ExistentialOpeners[k], q);
  }

  /** A question mark ending the raw text survives stripping and
      lower-casing. */
  lemma QuestionMarkSurvives(text: string)
    requires EndsWith(text, "?")
    ensures EndsWith(Lower(Strip(text)), "?")
  {
    var stripped := Strip(text);
    var s := Lower(stripped);
    StripKeepsLast(text);
    assert s[|s| - 1] == LowerChar(stripped[|stripped| - 1]);
    assert s[|s| - 1..] == "?";
  }

  /** A stripped text never ends with a newline, so the `$`-before-newline
      case of `\?$` never arises. */
  lemma StrippedHasNoFinalNewline(text: string)
    ensures !EndsWith(Lower(Strip(text)), "?\n")
  {
    var s := Lower(Strip(text));
    assert s == [] || s[|s| - 1] != '\n';
  }

  /** `is_question` reduces to two tests: the stripped, lower-cased text
      ends with `?`, or its first word is one of the 29 starters. The
      patterns and the inversion heuristic never add a question, because
      each of them begins with a starter word. */
  lemma IsQuestionExactly(text: string)
    ensures IsQuestion(text) <==>
      (var s := Lower(Strip(text));
       EndsWith(s, "?") || (Words(s) != [] && Words(s)[0] in QuestionStarters))
  {
    var s := Lower(Strip(text));
    if EndsWith(text, "?") {
      QuestionMarkSurvives(text);
    }
    StrippedHasNoFinalNewline(text);
    if MatchesQuestionPattern(s) && !EndsWith(s, "?") {
      PatternNeedsStarter(s);
    }
    AuxVerbsAreStarters();
  }

  /** A question pattern other than the final `?` matches only a text
      whose first word is a starter. */
  lemma PatternNeedsStarter(s: string)
    requires MatchesQuestionPattern(s) && !EndsWithQuestionMark(s)
    ensures Words(s) != [] && Words(s)[0] in QuestionStarters
  {
    if StartsWithAnyThenSpace(s, WhWords) {
      WhPatternNeedsStarter(s);
    } else if StartsWithAnyThenSpace(s, InvertedAuxiliaries) {
      InversionPatternNeedsStarter(s);
    } else if StartsWithAnyThenSpace(s, PoliteRequests) {
      PolitePatternNeedsStarter(s);
    } else {
      ExistentialPatternNeedsStarter(s);
    }
  }

  /** Every auxiliary of the inversion heuristic is also a starter. */
  lemma AuxVerbsAreStarters()
    ensures forall w :: w in AuxVerbs ==> w in QuestionStarters
  {
  }

  /** The empty utterance is not a question. */
  lemma EmptyIsNotQuestion()
    ensures !IsQuestion("")
  {
    assert Strip("") == [] && Lower("") == [];
    assert Words("") == [];
  }

  // ---------------------------------------------------------------------
  // Answer detection

  /** `answer_starters`: matched as raw prefixes, not as words. */
  const AnswerStarters: seq<string> := [
    "yes", "no", "sure", "absolutely", "definitely",
    "i think", "in my opinion", "according to",
    "the reason", "because", "since", "as", "therefore"]

  predicate StartsWithAny(s: string, prefixes: seq<string>) {
    exists k | 0 <= k < |prefixes| :: StartsWith(s, prefixes[k])
  }

  /** `QAProcessor.is_answer` (its `context` argument is unused). */
  predicate IsAnswer(text: string) {
    var lowered := Lower(Strip(text));
    StartsWithAny(lowered, AnswerStarters)
    || (|Words(lowered)| > 3 && !IsQuestion(text))
  }

  /** `is_answer` is an answer-starter prefix, or more than three words that
      neither end with `?` nor start with a question starter. */
  lemma IsAnswerExactly(text: string)
    ensures IsAnswer(text) <==>
      (var s := Lower(Strip(text));
       || StartsWithAny(s, AnswerStarters)
       || (|Words(s)| > 3 && !EndsWith(s, "?") && Words(s)[0] !in QuestionStarters))
  {
    IsQuestionExactly(text);
  }

  // ---------------------------------------------------------------------
  // Conclusive answers

  const ConclusiveOpeners: seq<string> := ["yes", "no", "sure", "absolutely", "certainly", "definitely"]
  const ConclusiveVerbs: seq<string> := ["agreed", "confirmed", "approved", "accepted", "decided"]
  const CommitmentPhrases: seq<string> := ["will do", "i'll handle", "i'll take care", "assigned to"]
  const CommitmentKeywords: seq<string> := ["will", "schedule", "set up", "follow up", "deadline"]

  /** `w\b` matches at `i`: `w` occurs there and is not followed by a word
      character. */
  predicate WordEndsAt(s: string, w: string, i: nat) {
    OccursAt(s, w, i) && (i + |w| == |s| || !IsWordChar(s[i + |w|]))
  }

  /** `re.search(r'^(w1|w2|...)\b', s)`. */
  predicate StartsWithAnyWord(s: string, ws: seq<string>) {
    exists k | 0 <= k < |ws| :: WordEndsAt(s, ws[k], 0)
  }

  /** `re.search(r'(w1|w2|...)\b', s)`. */
  predicate SearchAnyWord(s: string, ws: seq<string>) {
    exists k, i | 0 <= k < |ws| && 0 <= i <= |s| :: WordEndsAt(s, ws[k], i)
  }

  /** `QAProcessor.is_conclusive_answer`: the three conclusive patterns, then
      the commitment keywords as plain substrings, on the stripped,
      lower-cased text. */
  predicate IsConclusiveAnswer(text: string) {
    IsConclusiveText(Lower(Strip(text)))
  }

  predicate IsConclusiveText(s: string) {
    || StartsWithAnyWord(s, ConclusiveOpeners)
    || SearchAnyWord(s, ConclusiveVerbs)
    || SearchAnyWord(s, CommitmentPhrases)
    || ContainsAny(s, CommitmentKeywords)
  }

  const HandoverPhrases: seq<string> := ["i'll handle", "i'll take care", "assigned to"]

  /** A reference definition without the alternative "will do", which the
      keyword "will" already covers. */
  predicate IsConclusiveReference(s: string) {
    || StartsWithAnyWord(s, ConclusiveOpeners)
    || SearchAnyWord(s, ConclusiveVerbs)
    || SearchAnyWord(s, HandoverPhrases)
    || ContainsAny(s, CommitmentKeywords)
  }

  /** "will do" followed by a word boundary contains the keyword "will". */
  lemma WillDoContainsWill(s: string, i: nat)
    requires WordEndsAt(s, "will do", i)
    ensures ContainsAny(s, CommitmentKeywords)
  {
    assert s[i..i + 7] == "will do";
    assert s[i..i + 4] == s[i..i + 7][..4];
    assert "will do"[..4] == "will";
    assert OccursAt(s, CommitmentKeywords[0], i);
  }

  /** A "will do" or hand-over match is a hand-over match or contains a
      commitment keyword. */
  lemma CommitmentPhraseCovered(s: string)
    requires SearchAnyWord(s, CommitmentPhrases)
    ensures SearchAnyWord(s, HandoverPhrases) || ContainsAny(s, CommitmentKeywords)
  {
    var k, i :| 0 <= k < |CommitmentPhrases| && 0 <= i <= |s| && WordEndsAt(s, CommitmentPhrases[k], i);
    if k == 0 {
      WillDoContainsWill(s, i);
    } else {
      assert HandoverPhrases[k - 1] == CommitmentPhrases[k];
      assert WordEndsAt(s, HandoverPhrases[k - 1], i);
    }
  }

  /** A hand-over match is one of the conclusive phrase matches. */
  lemma HandoverPhraseCovered(s: string)
    requires SearchAnyWord(s, HandoverPhrases)
    ensures SearchAnyWord(s, CommitmentPhrases)
  {
    var k, i :| 0 <= k < |HandoverPhrases| && 0 <= i <= |s| && WordEndsAt(s, HandoverPhrases[k], i);
    assert CommitmentPhrases[k + 1] == HandoverPhrases[k];
    assert WordEndsAt(s, CommitmentPhrases[k + 1], i);
  }

  /** `is_conclusive_answer` is the reference rule on the stripped,
      lower-cased text: dropping "will do" changes nothing. */
  lemma ConclusiveMatchesReference(text: string)
    ensures IsConclusiveAnswer(text) <==> IsConclusiveReference(Lower(Strip(text)))
  {
    var s := Lower(Strip(text));
    if SearchAnyWord(s, CommitmentPhrases) {
      CommitmentPhraseCovered(s);
    }
    if SearchAnyWord(s, HandoverPhrases) {
      HandoverPhraseCovered(s);
    }
  }

  // ---------------------------------------------------------------------
  // Question categories

  /** The keyword families in priority order, each with its label. */
  const QuestionFamilies: seq<(seq<string>, string)> := [
    (["what", "which"], " clarification"),
    (["when", "time", "date"], " scheduling"),
    (["who", "whom"], " responsibility"),
    (["how"], " process"),
    (["why"], " rationale"),
    (["where"], " location")]

  const QuestionLabels: seq<string> := [
    " clarification", " scheduling", " responsibility", " process",
    " rationale", " location", " general"]

  /** `QAProcessor.extract_question_type`: substring tests on the
      lower-cased (not stripped) text. */
  function ExtractQuestionType(text: string): string {
    var s := Lower(text);
    if ContainsAny(s, ["what", "which"]) then " clarification"
    else if ContainsAny(s, ["when", "time", "date"]) then " scheduling"
    else if ContainsAny(s, ["who", "whom"]) then " responsibility"
    else if ContainsAny(s, ["how"]) then " process"
    else if ContainsAny(s, ["why"]) then " rationale"
    else if ContainsAny(s, ["where"]) then " location"
    else " general"
  }

  /** Reference definition: the label of the first family one of whose
      keywords occurs, or " general". */
  function FirstMatchingFamily(s: string, families: seq<(seq<string>, string)>): string {
    if families == [] then " general"
    else if ContainsAny(s, families[0].0) then families[0].1
    else FirstMatchingFamily(s, families[1..])
  }

  /** The category is the first matching family in the stated order, and
      always one of the seven labels, each starting with a space. */
  lemma {:induction false} QuestionTypeIsFirstMatchingFamily(text: string)
    ensures ExtractQuestionType(text) == FirstMatchingFamily(Lower(text), QuestionFamilies)
    ensures ExtractQuestionType(text) in QuestionLabels
    ensures ExtractQuestionType(text)[0] == ' '
  {
    var s := Lower(text);
    var f := QuestionFamilies;
    assert f[1..][1..][1..][1..][1..][1..] == [];
    assert FirstMatchingFamily(s, f[1..][1..][1..][1..][1..][1..]) == " general";
    assert FirstMatchingFamily(s, f[1..][1..][1..][1..][1..]) ==
      (if ContainsAny(s, ["where"]) then " location" else " general");
    assert FirstMatchingFamily(s, f[1..][1..][1..][1..]) ==
      (if ContainsAny(s, ["why"]) then " rationale"
       else FirstMatchingFamily(s, f[1..][1..][1..][1..][1..]));
    assert FirstMatchingFamily(s, f[1..][1..][1..]) ==
      (if ContainsAny(s, ["how"]) then " process"
       else FirstMatchingFamily(s, f[1..][1..][1..][1..]));
    assert FirstMatchingFamily(s, f[1..][1..]) ==
      (if ContainsAny(s, ["who", "whom"]) then " responsibility"
       else FirstMatchingFamily(s, f[1..][1..][1..]));
    assert FirstMatchingFamily(s, f[1..]) ==
      (if ContainsAny(s, ["when", "time", "date"]) then " scheduling"
       else FirstMatchingFamily(s, f[1..][1..]));
  }

  // ---------------------------------------------------------------------
  // Scored answer linking

  /** Pronouns that earn the reference bonus (matched as substrings). */
  const Pronouns: seq<string> := ["it", "that", "this", "they"]

  function WordSet(s: string): set<string> {
    set w | w in Words(s)
  }

  /** `len(answer_words & question_words)`. */
  function Overlap(answer: string, question: string): nat {
    |WordSet(answer) * WordSet(question)|
  }

  /** The score `link_answer` gives open question `i`: word overlap, a
      position weight `(n - i) * 0.5`, and 2 when the answer holds a
      pronoun. */
  function LinkScore(answer: Entry, questions: seq<Entry>, i: nat): (score: real)
    requires i < |questions|
    ensures score >= 0.5
  {
    var a := Lower(TextOf(answer));
    (Overlap(a, Lower(TextOf(questions[i]))) as real)
    + ((|questions| - i) as real) * 0.5
    + (if ContainsAny(a, Pronouns) then 2.0 else 0.0)
  }

  /** The scores of all open questions, in order. A helper: its ensures
      only expose the comprehension to ScoreQuestions and LinkAnswer,
      which carry the meaning. */
  function LinkScores(answer: Entry, questions: seq<Entry>): (scores: seq<real>)
    ensures |scores| == |questions|
    ensures forall j :: 0 <= j < |questions| ==> scores[j] == LinkScore(answer, questions, j)
  {
    seq(|questions|, j requires 0 <= j < |questions| => LinkScore(answer, questions, j))
  }

  /** `index` is where `max(range(n), key=scores.__getitem__)` lands: a
      maximal score, and the first one. */
  predicate FirstBest(scores: seq<real>, index: int) {
    && 0 <= index < |scores|
    && (forall j :: 0 <= j < |scores| ==> scores[j] <= scores[index])
    && (forall j :: 0 <= j < index ==> scores[j] < scores[index])
  }

  /** Without shared words, an earlier question scores strictly higher. */
  lemma NoOverlapScoresFall(answer: Entry, questions: seq<Entry>, j: nat)
    requires 0 < j < |questions|
    requires Overlap(Lower(TextOf(answer)), Lower(TextOf(questions[0]))) == 0
    requires Overlap(Lower(TextOf(answer)), Lower(TextOf(questions[j]))) == 0
    ensures LinkScore(answer, questions, j) < LinkScore(answer, questions, 0)
  {
  }

  /** When the answer shares no word with any open question, the position
      weight decides: the oldest open question wins. */
  lemma NoOverlapPrefersOldest(answer: Entry, questions: seq<Entry>, index: int)
    requires FirstBest(LinkScores(answer, questions), index)
    requires forall j :: 0 <= j < |questions| ==>
      Overlap(Lower(TextOf(answer)), Lower(TextOf(questions[j]))) == 0
    ensures index == 0
  {
    var scores := LinkScores(answer, questions);
    forall j | 0 < j < |questions|
      ensures scores[j] < scores[0]
    {
      NoOverlapScoresFall(answer, questions, j);
    }
    assert scores[0] <= scores[index];
  }

  /** `QAProcessor.link_answer`: -1 exactly when there is no open question;
      otherwise the first index of maximal score. Every score is at least
      0.5, so the fallback to the last index is never taken. */
  method LinkAnswer(answer: Entry, openQuestions: seq<Entry>) returns (index: int)
    ensures openQuestions == [] ==> index == -1
    ensures openQuestions != [] ==> FirstBest(LinkScores(answer, openQuestions), index)
  {
    if openQuestions == [] {
      return -1;
    }
    var scores := ScoreQuestions(answer, openQuestions);
    var best := FirstMaximum(scores);
    index := if scores[best] > 0.0 then best else |openQuestions| - 1;
  }

  /** The score list `link_answer` builds, one question at a time. */
  method ScoreQuestions(answer: Entry, questions: seq<Entry>) returns (scores: seq<real>)
    ensures scores == LinkScores(answer, questions)
  {
    scores := [];
    var i := 0;
    while i < |questions|
      invariant 0 <= i <= |questions|
      invariant scores == LinkScores(answer, questions)[..i]
    {
      var score := LinkScore(answer, questions, i);
      NextScore(answer, questions, scores, i);
      scores := scores + [score];
      i := i + 1;
    }
    assert LinkScores(answer, questions)[..i] == LinkScores(answer, questions);
  }

  /** The scores of the first `i + 1` questions extend those of the first `i`. */
  lemma NextScore(answer: Entry, questions: seq<Entry>, scores: seq<real>, i: nat)
    requires i < |questions| && scores == LinkScores(answer, questions)[..i]
    ensures scores + [LinkScore(answer, questions, i)] == LinkScores(answer, questions)[..i + 1]
  {
    var all := LinkScores(answer, questions);
    assert all[i] == LinkScore(answer, questions, i);
    PrefixGrows(all, i);
  }

  /** `max(range(n), key=scores.__getitem__)`: a left-to-right scan that
      replaces the candidate only on a strictly larger score. */
  method FirstMaximum(scores: seq<real>) returns (best: int)
    requires scores != []
    ensures FirstBest(scores, best)
  {
    best := 0;
    var k := 1;
    while k < |scores|
      invariant 1 <= k <= |scores| && 0 <= best < k
      invariant forall j :: 0 <= j < k ==> scores[j] <= scores[best]
      invariant forall j :: 0 <= j < best ==> scores[j] < scores[best]
    {
      if scores[k] > scores[best] {
        best := k;
      }
      k := k + 1;
    }
  }

  // ---------------------------------------------------------------------
  // Transcript scans

  const DecisionSubjects: seq<string> := ["we", "i", "team", "group"]
  const DecisionVerbs: seq<string> := ["decided", "agreed", "resolved", "concluded"]
  const DecisionNouns: seq<string> := ["decision", "resolution", "conclusion"]
  const Copulas: seq<string> := ["is", "was"]
  const ForwardPhrases: seq<string> := ["moving forward", "going forward", "from now on"]
  const Modals: seq<string> := ["will", "shall"]
  const AdoptionVerbs: seq<string> := ["be", "use", "implement", "adopt"]
  const Choices: seq<string> := ["go with", "use", "choose", "select"]

  /** `x\s+y` matches at `i`. Every `y` used here starts with a letter, so
      the whitespace run is the maximal one. */
  predicate SpacedPairAt(s: string, i: nat, x: string, y: string) {
    && OccursAt(s, x, i)
    && i + |x| < |s| && IsSpace(s[i + |x|])
    && OccursAt(s, y, SkipSpacesFrom(s, i + |x|))
  }

  /** `x\s+y\s+z` matches at `i`. */
  predicate SpacedTripleAt(s: string, i: nat, x: string, y: string, z: string) {
    && SpacedPairAt(s, i, x, y)
    && var j := SkipSpacesFrom(s, i + |x|) + |y|;
       j < |s| && IsSpace(s[j]) && OccursAt(s, z, SkipSpacesFrom(s, j))
  }

  /** `re.search(r'(x1|x2|...)\s+(y1|y2|...)', s)`. */
  predicate AnySpacedPair(s: string, xs: seq<string>, ys: seq<string>) {
    exists i, a, b | 0 <= i <= |s| && 0 <= a < |xs| && 0 <= b < |ys| :: SpacedPairAt(s, i, xs[a], ys[b])
  }

  /** `(we|i|team|group)\s+(have\s+)?(decided|agreed|resolved|concluded)`. */
  predicate SubjectDecided(s: string) {
    || AnySpacedPair(s, DecisionSubjects, DecisionVerbs)
    || exists i, a, b | 0 <= i <= |s| && 0 <= a < |DecisionSubjects| && 0 <= b < |DecisionVerbs| ::
         SpacedTripleAt(s, i, DecisionSubjects[a], "have", DecisionVerbs[b])
  }

  /** Some decision pattern matches the lower-cased text. */
  predicate IsDecisionText(s: string) {
    || SubjectDecided(s)
    || AnySpacedPair(s, DecisionNouns, Copulas)
    || ContainsAny(s, ForwardPhrases)
    || AnySpacedPair(s, Modals, AdoptionVerbs)
    || AnySpacedPair(s, ["let's"], Choices)
  }

  predicate IsDecision(e: Entry) {
    IsDecisionText(Lower(TextOf(e)))
  }

  /** `QAProcessor.extract_decisions`: each entry whose text matches a
      decision pattern, once, in transcript order. */
  method ExtractDecisions(transcript: seq<Entry>) returns (decisions: seq<Entry>)
    ensures decisions == Select(transcript, IsDecision)
    ensures forall e :: e in decisions <==> e in transcript && IsDecision(e)
  {
    decisions := [];
    var i := 0;
    while i < |transcript|
      invariant 0 <= i <= |transcript|
      invariant decisions == Select(transcript[..i], IsDecision)
    {
      assert transcript[..i + 1][..i] == transcript[..i];
      if IsDecision(transcript[i]) {
        decisions := decisions + [transcript[i]];
      }
      i := i + 1;
    }
    assert transcript[..i] == transcript;
    SelectIsOrderedFilter(transcript, IsDecision);
  }

  const CommitmentOpeners: seq<string> := ["i will", "i'll", "we will", "we'll"]
  const ObligationPhrases: seq<string> := ["need to", "needs to", "have to", "has to"]
  const TaskMarkers: seq<string> := ["action item", "todo", "to-do", "task"]
  const FollowUpMarkers: seq<string> := ["follow up", "followup", "check on", "review"]
  const ArrangeVerbs: seq<string> := ["schedule", "set up", "arrange", "organize"]
  const MeetingKinds: seq<string> := ["meeting", "call", "review"]
  const KnownNames: seq<string> :=
    ["john", "jane", "alex", "sarah", "mike", "emily", "chris", "lisa", "david", "anna"]

  /** `\s+(.+)` matches at `q`: whitespace, then a character other than a
      newline. */
  predicate SpaceThenRestAt(s: string, q: nat) {
    exists j | q < j < |s| :: (forall m | q <= m < j :: IsSpace(s[m])) && s[j] != '\n'
  }

  /** `re.search(r'(p1|p2|...)\s+(.+)', s)`. */
  predicate AnyPhraseThenRest(s: string, ps: seq<string>) {
    exists i, k | 0 <= i <= |s| && 0 <= k < |ps| :: OccursAt(s, ps[k], i) && SpaceThenRestAt(s, i + |ps[k]|)
  }

  /** `(meeting|call|review)` at `r`. */
  predicate MeetingKindAt(s: string, r: nat) {
    exists k | 0 <= k < |MeetingKinds| :: OccursAt(s, MeetingKinds[k], r)
  }

  /** `v\s+(a|an)?\s*(meeting|call|review)` matches at `i`. */
  predicate ArrangedAt(s: string, i: nat, v: string) {
    && OccursAt(s, v, i)
    && i + |v| < |s| && IsSpace(s[i + |v|])
    && var r := SkipSpacesFrom(s, i + |v|);
       || MeetingKindAt(s, r)
       || (OccursAt(s, "a", r) && MeetingKindAt(s, SkipSpacesFrom(s, r + 1)))
       || (OccursAt(s, "an", r) && MeetingKindAt(s, SkipSpacesFrom(s, r + 2)))
  }

  predicate ArrangesMeeting(s: string) {
    exists i, k | 0 <= i <= |s| && 0 <= k < |ArrangeVerbs| :: ArrangedAt(s, i, ArrangeVerbs[k])
  }

  /** Some action pattern matches the lower-cased text. */
  predicate IsActionText(s: string) {
    || AnyPhraseThenRest(s, CommitmentOpeners)
    || AnyPhraseThenRest(s, ObligationPhrases)
    || ContainsAny(s, TaskMarkers)
    || ContainsAny(s, FollowUpMarkers)
    || ArrangesMeeting(s)
  }

  predicate IsAction(e: Entry) {
    IsActionText(Lower(TextOf(e)))
  }

  /** An entry without text matches no action pattern: every pattern
      needs at least one character, so `entry['text']` is never read for
      such an entry. */
  lemma NoTextNoAction(e: Entry)
    requires e.text.None?
    ensures !IsAction(e)
  {
    var s := Lower(TextOf(e));
    assert s == [];
    forall sub: string, i: nat | sub != [] ensures !OccursAt(s, sub, i) {
    }
    assert forall k :: 0 <= k < |CommitmentOpeners| ==> CommitmentOpeners[k] != [];
    assert forall k :: 0 <= k < |ObligationPhrases| ==> ObligationPhrases[k] != [];
    assert forall k :: 0 <= k < |TaskMarkers| ==> TaskMarkers[k] != [];
    assert forall k :: 0 <= k < |FollowUpMarkers| ==> FollowUpMarkers[k] != [];
  }

  /** The first listed name, in list order, that occurs at `i`. */
  function NameAt(s: string, i: nat, names: seq<string>): (r: Option<string>)
    ensures r.Some? ==> r.value in names && OccursAt(s, r.value, i)
    ensures r.None? ==> forall k :: 0 <= k < |names| ==> !OccursAt(s, names[k], i)
  {
    if names == [] then None
    else if OccursAt(s, names[0], i) then Some(names[0])
    else NameAt(s, i, names[1..])
  }

  /** What `re.search` finds for the name pattern from position `i` on:
      the name at the leftmost position where any occurs. */
  function LeftmostName(s: string, i: nat): (r: Option<string>)
    requires i <= |s|
    ensures r.Some? ==> r.value in KnownNames
    ensures r.Some? ==> exists p | i <= p < |s| ::
      (OccursAt(s, r.value, p) &&
       forall q, k | i <= q < p && 0 <= k < |KnownNames| :: !OccursAt(s, KnownNames[k], q))
    ensures r.None? ==> forall q, k | i <= q < |s| && 0 <= k < |KnownNames| :: !OccursAt(s, KnownNames[k], q)
    decreases |s| - i
  {
    if i == |s| then None
    else
      match NameAt(s, i, KnownNames)
      case Some(n) => Some(n)
      case None => LeftmostName(s, i + 1)
  }

  /** Who an action item is assigned to: the leftmost listed name, title
      cased, if one occurs in the text; otherwise the speaker. (The second
      responsible pattern, `(i|we)\s+will`, also yields the speaker.) */
  function AssigneeFor(s: string, speaker: string): (r: string)
    ensures ContainsAny(s, KnownNames) ==> exists k | 0 <= k < |KnownNames| :: r == Title(KnownNames[k]) && Contains(s, KnownNames[k])
    ensures !ContainsAny(s, KnownNames) ==> r == speaker
  {
    match LeftmostName(s, 0)
    case Some(n) =>
      assert exists k | 0 <= k < |KnownNames| :: KnownNames[k] == n;
      Title(n)
    case None =>
      assert !ContainsAny(s, KnownNames) by {
        forall k, p: nat | 0 <= k < |KnownNames| && p <= |s| ensures !OccursAt(s, KnownNames[k], p) {
          if p == |s| { assert |KnownNames[k]| > 0; }
        }
      }
      speaker
  }

  /** `{text, assigned_to, timestamp, speaker}`. */
  datatype ActionItem = ActionItem(text: string, assignedTo: string, timestamp: Option<real>, speaker: string)

  function ItemFor(e: Entry): ActionItem {
    ActionItem(TextOf(e), AssigneeFor(Lower(TextOf(e)), SpeakerOf(e)), e.timestamp, SpeakerOf(e))
  }

  function ItemsFor(es: seq<Entry>): (items: seq<ActionItem>)
    ensures |items| == |es|
    ensures forall k :: 0 <= k < |es| ==> items[k] == ItemFor(es[k])
  {
    if es == [] then [] else ItemsFor(es[..|es| - 1]) + [ItemFor(es[|es| - 1])]
  }

  /** The items of one more entry extend those of the entries before it. */
  lemma NextItems(t: seq<Entry>, i: nat)
    requires i < |t|
    ensures ItemsFor(Select(t[..i + 1], IsAction))
      == ItemsFor(Select(t[..i], IsAction)) + (if IsAction(t[i]) then [ItemFor(t[i])] else [])
  {
    assert t[..i + 1][..i] == t[..i];
    var prev := Select(t[..i], IsAction);
    if IsAction(t[i]) {
      assert Select(t[..i + 1], IsAction) == prev + [t[i]];
      assert (prev + [t[i]])[..|prev|] == prev;
    } else {
      assert Select(t[..i + 1], IsAction) == prev + [];
    }
  }

  /** `QAProcessor.extract_action_items`: one item per entry that matches an
      action pattern, in transcript order. */
  method ExtractActionItems(transcript: seq<Entry>) returns (items: seq<ActionItem>)
    ensures items == ItemsFor(Select(transcript, IsAction))
    ensures |items| <= |transcript|
  {
    items := [];
    var i := 0;
    while i < |transcript|
      invariant 0 <= i <= |transcript|
      invariant items == ItemsFor(Select(transcript[..i], IsAction))
    {
      NextItems(transcript, i);
      var entry := transcript[i];
      if IsAction(entry) {
        var speaker := SpeakerOf(entry);
        var responsible := AssigneeFor(Lower(TextOf(entry)), speaker);
        items := items + [ActionItem(TextOf(entry), responsible, entry.timestamp, speaker)];
      }
      i := i + 1;
    }
    assert transcript[..i] == transcript;
  }
}
