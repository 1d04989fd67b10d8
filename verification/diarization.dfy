/** Online speaker resolution (`SpeakerDiarizer.identify_speaker`): each
    meeting keeps its speakers' voice embeddings in insertion order; a new
    feature vector is matched against them by cosine similarity, and either
    refines the best match or becomes a new speaker. The feature extractor
    and the id hash are outside the model: the features arrive as a vector,
    and `mint` stands for the hash that names a new speaker. The Euclidean
    norm is a parameter as well (`norm`), since a square root is not
    expressible here. */
module Diarization {
  import opened Common

  /** One stored speaker: `speaker_embeddings[meeting][id] = embedding`. */
  datatype Profile = Profile(id: string, embedding: seq<real>)

  /** `np.dot` of two vectors of equal length. */
  function Dot(a: seq<real>, b: seq<real>): real
    requires |a| == |b|
  {
    if a == [] then 0.0 else Dot(a[..|a| - 1], b[..|b| - 1]) + a[|a| - 1] * b[|b| - 1]
  }

  /** `SpeakerDiarizer._cosine_similarity`: 0 when either norm is not
      positive. */
  function CosineSimilarity(a: seq<real>, b: seq<real>, norm: seq<real> -> real): (sim: real)
    requires |a| == |b|
    ensures !(norm(a) > 0.0 && norm(b) > 0.0) ==> sim == 0.0
  {
    if norm(a) > 0.0 && norm(b) > 0.0 then Dot(a, b) / (norm(a) * norm(b)) else 0.0
  }

  /** A vector is perfectly similar to itself when `norm` is its Euclidean
      norm (the square of the norm is the dot product with itself). */
  lemma SelfSimilarityIsOne(v: seq<real>, norm: seq<real> -> real)
    requires norm(v) > 0.0 && norm(v) * norm(v) == Dot(v, v)
    ensures CosineSimilarity(v, v, norm) == 1.0
  {
    QuotientByProduct(Dot(v, v), norm(v), norm(v));
  }

  /** A product of two equal positive factors, divided by itself. */
  lemma QuotientByProduct(d: real, x: real, y: real)
    requires x > 0.0 && x == y && d == x * y
    ensures d / (x * y) == 1.0
  {
  }

  /** `0.8 * old + 0.2 * new`, element by element: each refined value lies
      between the stored and the incoming one. The element formula is kept
      in the ensures for the lemmas that compute with it. */
  function Blend(stored: seq<real>, incoming: seq<real>): (r: seq<real>)
    requires |stored| == |incoming|
    ensures |r| == |stored|
    ensures forall i :: 0 <= i < |r| ==> r[i] == 0.8 * stored[i] + 0.2 * incoming[i]
    ensures forall i :: 0 <= i < |r| ==>
      && (stored[i] <= incoming[i] ==> stored[i] <= r[i] <= incoming[i])
      && (incoming[i] <= stored[i] ==> incoming[i] <= r[i] <= stored[i])
  {
    seq(|stored|, i requires 0 <= i < |stored| => 0.8 * stored[i] + 0.2 * incoming[i])
  }

  /** Refining an embedding with itself leaves it as it is. */
  lemma BlendWithItself(v: seq<real>)
    ensures Blend(v, v) == v
  {
  }

  /** Every embedding has length `dim`. */
  predicate Dimensioned(profiles: seq<Profile>, dim: nat) {
    forall k :: 0 <= k < |profiles| ==> |profiles[k].embedding| == dim
  }

  /** No id is stored twice: the profiles are the entries of a dict. */
  predicate DistinctIds(profiles: seq<Profile>) {
    forall j, k :: 0 <= j < k < |profiles| ==> profiles[j].id != profiles[k].id
  }

  /** The scan over `existing_speakers.items()`: starting from score -1
      and no match, a speaker replaces the candidate only when strictly
      more similar. */
  function BestMatch(features: seq<real>, profiles: seq<Profile>, norm: seq<real> -> real): (r: (real, Option<nat>))
    requires Dimensioned(profiles, |features|)
    ensures r.1.None? ==>
      && r.0 == -1.0
      && forall j :: 0 <= j < |profiles| ==> CosineSimilarity(features, profiles[j].embedding, norm) <= -1.0
    ensures r.1.Some? ==>
      && r.1.value < |profiles|
      && r.0 == CosineSimilarity(features, profiles[r.1.value].embedding, norm)
      && r.0 > -1.0
      && (forall j :: 0 <= j < |profiles| ==> CosineSimilarity(features, profiles[j].embedding, norm) <= r.0)
      && (forall j :: 0 <= j < r.1.value ==> CosineSimilarity(features, profiles[j].embedding, norm) < r.0)
  {
    if profiles == [] then (-1.0, None)
    else
      var n := |profiles| - 1;
      var prior := BestMatch(features, profiles[..n], norm);
      var similarity := CosineSimilarity(features, profiles[n].embedding, norm);
      assert forall j :: 0 <= j < n ==> profiles[..n][j] == profiles[j];
      if similarity > prior.0 then (similarity, Some(n)) else prior
  }

  /** The position of `id` among the profiles, if stored. */
  function IndexOf(profiles: seq<Profile>, id: string): (r: Option<nat>)
    ensures r.Some? ==> r.value < |profiles| && profiles[r.value].id == id
    ensures r.None? ==> forall k :: 0 <= k < |profiles| ==> profiles[k].id != id
  {
    if profiles == [] then None
    else if profiles[0].id == id then Some(0)
    else match IndexOf(profiles[1..], id)
      case None => None
      case Some(k) => Some(k + 1)
  }

  /** `speakers[id] = embedding`: a stored id keeps its place and gets the
      new embedding; a new id is added at the end; nothing else changes. */
  function Put(profiles: seq<Profile>, id: string, embedding: seq<real>): (r: seq<Profile>)
    ensures |r| == |profiles| || |r| == |profiles| + 1
    ensures |r| == |profiles| + 1 <==> IndexOf(profiles, id).None?
    ensures |r| == |profiles| + 1 ==> r[|profiles|] == Profile(id, embedding)
    ensures DistinctIds(profiles) ==>
      && DistinctIds(r)
      && forall j :: 0 <= j < |profiles| ==>
           r[j] == (if profiles[j].id == id then Profile(id, embedding) else profiles[j])
  {
    match IndexOf(profiles, id)
    case Some(k) => profiles[k := Profile(id, embedding)]
    case None => profiles + [Profile(id, embedding)]
  }

  /** What `identify_speaker` returns and stores for one meeting's
      profiles, given features of usable length. */
  function Resolve(profiles: seq<Profile>, features: seq<real>, threshold: real,
                   norm: seq<real> -> real, mint: seq<real> -> string): (r: (string, seq<Profile>))
    requires Dimensioned(profiles, |features|)
    requires -1.0 <= threshold
  {
    if profiles == [] then (mint(features), [Profile(mint(features), features)])
    else
      var best := BestMatch(features, profiles, norm);
      if best.0 > threshold then
        var k := best.1.value;
        (profiles[k].id, profiles[k := Profile(profiles[k].id, Blend(profiles[k].embedding, features))])
      else
        (mint(features), Put(profiles, mint(features), features))
  }

  /** A match above the threshold returns the best-matching id and changes
      only that speaker's embedding, to the smoothed one; otherwise a new id
      is minted and stored with the features: in the place of a stored
      speaker with that id, or else last, and every other speaker keeps its
      place and embedding. */
  lemma ResolveOutcomes(profiles: seq<Profile>, features: seq<real>, threshold: real,
                        norm: seq<real> -> real, mint: seq<real> -> string)
    requires Dimensioned(profiles, |features|) && DistinctIds(profiles)
    requires -1.0 <= threshold
    ensures var r := Resolve(profiles, features, threshold, norm, mint);
      var best := BestMatch(features, profiles, norm);
      && Dimensioned(r.1, |features|)
      && DistinctIds(r.1)
      && (profiles != [] && best.0 > threshold ==>
            && best.1.Some?
            && r.0 == profiles[best.1.value].id
            && |r.1| == |profiles|
            && r.1[best.1.value].embedding == Blend(profiles[best.1.value].embedding, features)
            && forall j :: 0 <= j < |profiles| && j != best.1.value ==> r.1[j] == profiles[j])
      && (profiles == [] || best.0 <= threshold ==>
            && r.0 == mint(features)
            && Profile(r.0, features) in r.1
            && (forall j :: 0 <= j < |profiles| && profiles[j].id != r.0 ==> profiles[j] in r.1)
            && (|r.1| == |profiles| || |r.1| == |profiles| + 1)
            && (|r.1| == |profiles| + 1 <==> forall j :: 0 <= j < |profiles| ==> profiles[j].id != r.0)
            && (|r.1| == |profiles| + 1 ==> r.1[|profiles|] == Profile(r.0, features))
            && forall j :: 0 <= j < |profiles| ==>
                 r.1[j] == (if profiles[j].id == r.0 then Profile(r.0, features) else profiles[j]))
  {
    var r := Resolve(profiles, features, threshold, norm, mint);
    if profiles != [] {
      var best := BestMatch(features, profiles, norm);
      if best.0 <= threshold {
        var id := mint(features);
        match IndexOf(profiles, id)
        case Some(k) =>
          assert r.1[k] == Profile(id, features);
          forall j | 0 <= j < |profiles| && profiles[j].id != id
            ensures profiles[j] in r.1
          {
            assert r.1[j] == profiles[j];
          }
        case None =>
          assert r.1[|profiles|] == Profile(id, features);
          forall j | 0 <= j < |profiles|
            ensures profiles[j] in r.1
          {
            assert r.1[j] == profiles[j];
          }
      }
    }
  }

  /** Speakers are never forgotten: every stored id is still stored, so the
      count never decreases. */
  lemma ResolveKeepsIds(profiles: seq<Profile>, features: seq<real>, threshold: real,
                        norm: seq<real> -> real, mint: seq<real> -> string)
    requires Dimensioned(profiles, |features|)
    requires -1.0 <= threshold
    ensures var r := Resolve(profiles, features, threshold, norm, mint);
      |r.1| >= |profiles| &&
      forall j :: 0 <= j < |profiles| ==> exists k :: 0 <= k < |r.1| && r.1[k].id == profiles[j].id
  {
    var r := Resolve(profiles, features, threshold, norm, mint);
    forall j | 0 <= j < |profiles|
      ensures exists k :: 0 <= k < |r.1| && r.1[k].id == profiles[j].id
    {
      assert r.1[j].id == profiles[j].id;
    }
  }

  /** A vector without positive norm is similar to nothing, so with a
      non-negative threshold it always becomes a new speaker. */
  lemma ZeroVectorNeverMatches(profiles: seq<Profile>, features: seq<real>, threshold: real,
                               norm: seq<real> -> real, mint: seq<real> -> string)
    requires Dimensioned(profiles, |features|)
    requires 0.0 <= threshold && !(norm(features) > 0.0)
    ensures Resolve(profiles, features, threshold, norm, mint).0 == mint(features)
  {
    if profiles != [] {
      var best := BestMatch(features, profiles, norm);
      if best.1.Some? {
        assert best.0 == 0.0;
      }
    }
  }

  /** A speaker whose stored embedding is `v` is found again by `v` when no
      earlier speaker is as similar and none is more similar; `v` itself is
      kept. Self-similarity is 1, above any threshold below 1. */
  lemma StoredVectorIsRecognised(profiles: seq<Profile>, k: nat, v: seq<real>, threshold: real,
                                 norm: seq<real> -> real, mint: seq<real> -> string)
    requires Dimensioned(profiles, |v|)
    requires k < |profiles| && profiles[k].embedding == v
    requires -1.0 <= threshold < 1.0
    requires norm(v) > 0.0 && norm(v) * norm(v) == Dot(v, v)
    requires forall j :: 0 <= j < k ==> CosineSimilarity(v, profiles[j].embedding, norm) < 1.0
    requires forall j :: k < j < |profiles| ==> CosineSimilarity(v, profiles[j].embedding, norm) <= 1.0
    ensures Resolve(profiles, v, threshold, norm, mint) == (profiles[k].id, profiles)
  {
    SelfSimilarityIsOne(v, norm);
    var best := BestMatch(v, profiles, norm);
    assert best.0 >= 1.0 by {
      assert CosineSimilarity(v, profiles[k].embedding, norm) == 1.0;
    }
    var m := best.1.value;
    assert m == k;
    BlendWithItself(v);
    assert profiles[k := Profile(profiles[k].id, v)] == profiles;
  }

  /** Submitting the same vector twice in a row: after it became a new
      speaker, the second submission returns that speaker and changes
      nothing. */
  lemma RepeatedVectorIsStable(profiles: seq<Profile>, v: seq<real>, threshold: real,
                               norm: seq<real> -> real, mint: seq<real> -> string)
    requires Dimensioned(profiles, |v|) && DistinctIds(profiles)
    requires -1.0 <= threshold < 1.0
    requires norm(v) > 0.0 && norm(v) * norm(v) == Dot(v, v)
    requires profiles == [] || BestMatch(v, profiles, norm).0 <= threshold
    ensures var first := Resolve(profiles, v, threshold, norm, mint);
      Resolve(first.1, v, threshold, norm, mint) == first
  {
    var first := Resolve(profiles, v, threshold, norm, mint);
    var id := mint(v);
    ResolveOutcomes(profiles, v, threshold, norm, mint);
    var ps := first.1;
    var k :| 0 <= k < |ps| && ps[k] == Profile(id, v);
    forall j | 0 <= j < |ps| && j != k
      ensures CosineSimilarity(v, ps[j].embedding, norm) <= threshold
    {
      assert ps[j].id != id;
      assert ps[j] in profiles by {
        if IndexOf(profiles, id).Some? {
          assert ps[j] == profiles[j];
        } else {
          assert j < |profiles| && ps[j] == profiles[j];
        }
      }
      var i :| 0 <= i < |profiles| && profiles[i] == ps[j];
      assert CosineSimilarity(v, profiles[i].embedding, norm) <= BestMatch(v, profiles, norm).0;
    }
    StoredVectorIsRecognised(ps, k, v, threshold, norm, mint);
  }

  /** The loop of `identify_speaker` over the stored speakers, keeping the
      best score and the speaker that first reached it. */
  method ScanSpeakers(features: seq<real>, profiles: seq<Profile>, norm: seq<real> -> real)
    returns (bestScore: real, bestMatch: Option<nat>)
    requires Dimensioned(profiles, |features|)
    ensures (bestScore, bestMatch) == BestMatch(features, profiles, norm)
  {
    bestMatch := None;
    bestScore := -1.0;
    var i := 0;
    while i < |profiles|
      invariant 0 <= i <= |profiles|
      invariant (bestScore, bestMatch) == BestMatch(features, profiles[..i], norm)
    {
      assert profiles[..i + 1][..i] == profiles[..i];
      var similarity := CosineSimilarity(features, profiles[i].embedding, norm);
      if similarity > bestScore {
        bestScore := similarity;
        bestMatch := Some(i);
      }
      i := i + 1;
    }
    assert profiles[..i] == profiles;
  }

  /** `speaker_embeddings.get(meeting_id, {})`. */
  function ProfilesOf(embeddings: map<string, seq<Profile>>, meetingId: string): seq<Profile> {
    if meetingId in embeddings then embeddings[meetingId] else []
  }

  /** The length guard of `extract_features`: at least half a second of
      audio, else no features. */
  predicate LongEnough(audioLength: nat, sampleRate: int) {
    !((audioLength as real) < (sampleRate as real) * 0.5)
  }

  class SpeakerDiarizer {
    const threshold: real
    /** The length of every feature vector the extractor produces. */
    const dim: nat
    const norm: seq<real> -> real
    const mint: seq<real> -> string
    var speakerEmbeddings: map<string, seq<Profile>>

    ghost predicate Valid()
      reads this
    {
      && -1.0 <= threshold
      && forall m :: m in speakerEmbeddings ==>
           Dimensioned(speakerEmbeddings[m], dim) && DistinctIds(speakerEmbeddings[m])
    }

    /** `SpeakerDiarizer(threshold=...)` with no meeting seen yet (the
        default threshold is 0.85). */
    constructor (threshold: real, dim: nat, norm: seq<real> -> real, mint: seq<real> -> string)
      requires -1.0 <= threshold
      ensures Valid()
      ensures this.threshold == threshold && this.dim == dim && this.norm == norm && this.mint == mint
      ensures speakerEmbeddings == map[]
    {
      this.threshold := threshold;
      this.dim := dim;
      this.norm := norm;
      this.mint := mint;
      speakerEmbeddings := map[];
    }

    /** `identify_speaker`: "unknown" for audio shorter than half a second
        (nothing stored); otherwise the resolved id, with only this
        meeting's profiles replaced by the resolved ones. */
    method IdentifySpeaker(meetingId: string, audioLength: nat, sampleRate: int, features: seq<real>)
      returns (speakerId: string)
      requires Valid() && |features| == dim
      modifies this
      ensures Valid()
      ensures !LongEnough(audioLength, sampleRate) ==>
        speakerId == "unknown" && speakerEmbeddings == old(speakerEmbeddings)
      ensures LongEnough(audioLength, sampleRate) ==>
        var r := Resolve(ProfilesOf(old(speakerEmbeddings), meetingId), features, threshold, norm, mint);
        speakerId == r.0 && speakerEmbeddings == old(speakerEmbeddings)[meetingId := r.1]
    {
      if !LongEnough(audioLength, sampleRate) {
        return "unknown";
      }
      if meetingId !in speakerEmbeddings {
        speakerEmbeddings := speakerEmbeddings[meetingId := []];
      }
      var existing := speakerEmbeddings[meetingId];
      ResolveOutcomes(existing, features, threshold, norm, mint);
      if existing == [] {
        speakerId := mint(features);
        speakerEmbeddings := speakerEmbeddings[meetingId := [Profile(speakerId, features)]];
        return;
      }

      var bestScore, bestMatch := ScanSpeakers(features, existing, norm);

      if bestScore > threshold {
        var k := bestMatch.value;
        var refined := Blend(existing[k].embedding, features);
        speakerEmbeddings := speakerEmbeddings[meetingId := existing[k := Profile(existing[k].id, refined)]];
        return existing[k].id;
      }
      speakerId := mint(features);
      speakerEmbeddings := speakerEmbeddings[meetingId := Put(existing, speakerId, features)];
    }
  }
}
