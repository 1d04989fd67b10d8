/** Streaming audio buffer (`AudioBuffer`): incoming samples are appended
    to a buffer from which fixed-size chunks are cut, each next chunk
    starting `chunkSamples - overlapSamples` samples after the previous one,
    so that consecutive chunks share `overlapSamples` samples. Also the
    silence filter `remove_silence`, which keeps the long enough runs of
    loud samples. Samples are exact reals. */
module Audio {
  import opened Common

  /** The specification of chunking: cut `s` into the chunks `add_audio`
      emits and the remainder it keeps, advancing by `step` after each
      chunk of `c` samples (a slice past the end is empty). */
  function Chunking(s: seq<real>, c: nat, step: nat): (r: (seq<seq<real>>, seq<real>))
    requires 0 < c && 0 < step
    decreases |s|
  {
    if |s| < c then ([], s)
    else
      var next := if step <= |s| then s[step..] else [];
      var rest := Chunking(next, c, step);
      ([s[..c]] + rest.0, rest.1)
  }

  /** With a full chunk buffered, the first chunk is cut and chunking
      goes on from `step` samples later. */
  lemma ChunkingUnfolds(s: seq<real>, c: nat, step: nat)
    requires 0 < c && 0 < step && c <= |s|
    ensures Chunking(s, c, step).0 == [s[..c]] + Chunking(if step <= |s| then s[step..] else [], c, step).0
  {
  }

  /** `k * step` is one step past `(k - 1) * step`. */
  lemma NextStart(k: nat, step: nat)
    requires k > 0
    ensures k * step == step + (k - 1) * step
  {
  }

  /** Chunk `k` is the slice of length `c` that starts at `k * step`, so
      consecutive chunks overlap by `c - step` samples. */
  lemma {:induction false} ChunkAt(s: seq<real>, c: nat, step: nat, k: nat)
    requires 0 < c && 0 < step
    requires k < |Chunking(s, c, step).0|
    ensures k * step + c <= |s|
    ensures Chunking(s, c, step).0[k] == s[k * step..k * step + c]
    decreases k
  {
    assert c <= |s|;
    ChunkingUnfolds(s, c, step);
    if k > 0 {
      var next := if step <= |s| then s[step..] else [];
      ChunkAt(next, c, step, k - 1);
      assert step <= |s|;
      var m := (k - 1) * step;
      NextStart(k, step);
      SliceOfSuffix(s, step, m, c);
    }
  }

  /** A slice of a suffix is a slice of the whole, shifted. */
  lemma SliceOfSuffix(s: seq<real>, d: nat, m: nat, c: nat)
    requires d <= |s| && m + c <= |s| - d
    ensures s[d..][m..m + c] == s[d + m..d + m + c]
  {
  }

  /** The remainder is shorter than a chunk and is what follows the last
      step (nothing when that step went past the end). */
  lemma {:induction false} ChunkingRemainder(s: seq<real>, c: nat, step: nat)
    requires 0 < c && 0 < step
    ensures |Chunking(s, c, step).1| < c
    ensures var n := |Chunking(s, c, step).0| * step;
      Chunking(s, c, step).1 == if n <= |s| then s[n..] else []
    decreases |s|
  {
    if |s| >= c {
      var next := if step <= |s| then s[step..] else [];
      ChunkingRemainder(next, c, step);
      var later := Chunking(next, c, step).0;
      assert Chunking(s, c, step) == ([s[..c]] + later, Chunking(next, c, step).1);
      var m := |later| * step;
      NextStart(|later| + 1, step);
      if step > |s| {
        assert later == [];
      } else {
        SuffixOfSuffix(s, step, m);
      }
    }
  }

  /** A suffix of a suffix is a suffix of the whole. */
  lemma SuffixOfSuffix(s: seq<real>, d: nat, m: nat)
    requires d <= |s|
    ensures m <= |s| - d ==> s[d..][m..] == s[d + m..]
  {
  }

  /** Every chunk has exactly `c` samples. */
  lemma ChunksHaveChunkSize(s: seq<real>, c: nat, step: nat)
    requires 0 < c && 0 < step
    ensures forall k :: 0 <= k < |Chunking(s, c, step).0| ==> |Chunking(s, c, step).0[k]| == c
  {
    forall k | 0 <= k < |Chunking(s, c, step).0| {
      ChunkAt(s, c, step, k);
    }
  }

  /** What `add_audio` cuts from `s` and keeps, for the sizes on which its
      loop ends. A forward step chunks as above. A backward step shorter
      than a chunk (`c < o < 2c`) cuts at most one chunk: `s[c - o:]` then
      keeps the last `o - c` samples, fewer than a chunk. */
  function ChunksFor(s: seq<real>, c: nat, o: int): (r: (seq<seq<real>>, seq<real>))
    requires 0 < c && o != c && o < 2 * c
    ensures |r.1| < c
    ensures forall k :: 0 <= k < |r.0| ==> |r.0[k]| == c
  {
    if o < c then
      ChunkingRemainder(s, c, c - o);
      ChunksHaveChunkSize(s, c, c - o);
      Chunking(s, c, c - o)
    else if |s| < c then ([], s)
    else ([s[..c]], s[|s| - (o - c)..])
  }

  /** A backward step cuts the first chunk and keeps the tail of the
      buffer, which then holds no full chunk. */
  lemma BackwardStepCutsOnce(s: seq<real>, c: nat, o: int)
    requires 0 < c && c < o < 2 * c && c <= |s|
    ensures ChunksFor(s, c, o).0 == [s[..c]]
    ensures ChunksFor(s, c, o).1 == s[|s| - (o - c)..] && |ChunksFor(s, c, o).1| == o - c
  {
  }

  /** One turn of the chunk loop with a forward step: the cut chunk joins
      the output and chunking goes on from the suffix. */
  lemma ForwardTurn(all: seq<real>, chunks: seq<seq<real>>, buffer: seq<real>, c: nat, step: nat)
    requires 0 < c && 0 < step && c <= |buffer|
    requires Chunking(all, c, step).0 == chunks + Chunking(buffer, c, step).0
    requires Chunking(all, c, step).1 == Chunking(buffer, c, step).1
    ensures Chunking(all, c, step).0 == (chunks + [buffer[..c]]) + Chunking(Suffix(buffer, step), c, step).0
    ensures Chunking(all, c, step).1 == Chunking(Suffix(buffer, step), c, step).1
  {
    ChunkingUnfolds(buffer, c, step);
    assert chunks + ([buffer[..c]] + Chunking(Suffix(buffer, step), c, step).0)
      == (chunks + [buffer[..c]]) + Chunking(Suffix(buffer, step), c, step).0;
  }

  /** `s[k:]` on a list: a negative `k` counts from the end, and an index
      past either end is clamped. */
  function Suffix(s: seq<real>, k: int): seq<real> {
    if k >= 0 then (if k <= |s| then s[k..] else [])
    else if -k <= |s| then s[|s| + k..] else s
  }

  class AudioBuffer {
    const sampleRate: int
    const chunkSamples: int
    const overlapSamples: int
    var buffer: seq<real>

    /** The sizes on which the chunk loop ends: a chunk of at least one
        sample, and a step `chunk - overlap` that moves forward, or moves
        back by less than a chunk. */
    predicate Valid() {
      0 < chunkSamples && overlapSamples != chunkSamples && overlapSamples < 2 * chunkSamples
    }

    /** `AudioBuffer(sample_rate, chunk_duration, overlap)`: sizes in samples
        are the truncated products. */
    constructor (sampleRate: int, chunkDuration: real, overlap: real)
      ensures this.sampleRate == sampleRate
      ensures chunkSamples == Trunc(chunkDuration * sampleRate as real)
      ensures overlapSamples == Trunc(overlap * sampleRate as real)
      ensures buffer == []
    {
      this.sampleRate := sampleRate;
      chunkSamples := Trunc(chunkDuration * sampleRate as real);
      overlapSamples := Trunc(overlap * sampleRate as real);
      buffer := [];
    }

    /** `add_audio`: append `data`, then cut chunks while a full one is
        buffered, keeping the overlap for the next chunk. */
    method AddAudio(data: seq<real>) returns (chunks: seq<seq<real>>)
      requires Valid()
      modifies this
      ensures (chunks, buffer) == ChunksFor(old(buffer) + data, chunkSamples, overlapSamples)
      ensures |buffer| < chunkSamples
      ensures forall k :: 0 <= k < |chunks| ==> |chunks[k]| == chunkSamples
    {
      var step := chunkSamples - overlapSamples;
      ghost var all := old(buffer) + data;
      buffer := buffer + data;
      chunks := [];
      if step > 0 {
        assert chunks + Chunking(buffer, chunkSamples, step).0 == Chunking(buffer, chunkSamples, step).0;
      }
      while |buffer| >= chunkSamples
        invariant step > 0 ==> Chunking(all, chunkSamples, step).0 == chunks + Chunking(buffer, chunkSamples, step).0
        invariant step > 0 ==> Chunking(all, chunkSamples, step).1 == Chunking(buffer, chunkSamples, step).1
        invariant step < 0 ==>
          || (chunks == [] && buffer == all)
          || (chunkSamples <= |all| && chunks == [all[..chunkSamples]] && buffer == all[|all| + step..])
        decreases |buffer|
      {
        var chunk := buffer[..chunkSamples];
        var next := Suffix(buffer, step);
        if step > 0 {
          ForwardTurn(all, chunks, buffer, chunkSamples, step);
        }
        chunks := chunks + [chunk];
        buffer := next;
      }
      if step > 0 {
        assert Chunking(buffer, chunkSamples, step) == ([], buffer);
        assert chunks + [] == chunks;
      }
    }

    /** `flush`: hand back what is buffered when it lasts more than half a
        second, and empty the buffer either way. */
    method Flush() returns (remaining: Option<seq<real>>)
      modifies this
      ensures buffer == []
      ensures remaining.Some? <==> (|old(buffer)| as real) > (sampleRate as real) * 0.5
      ensures remaining.Some? ==> remaining.value == old(buffer)
    {
      var kept := buffer;
      buffer := [];
      remaining := if (|kept| as real) > (sampleRate as real) * 0.5 then Some(kept) else None;
    }
  }

  /** `energy > threshold` for one sample. */
  predicate Loud(x: real, threshold: real) {
    Abs(x) > threshold
  }

  /** A run of `n` samples lasts at least `minLength` seconds at the fixed
      rate of 16000 samples per second. */
  predicate LongEnough(n: int, minLength: real) {
    (n as real) / 16000.0 >= minLength
  }

  /** Where the loud run through `i` starts: every sample from there up
      to `i` is loud, and the one before it, if any, is quiet. */
  function RunStart(a: seq<real>, i: nat, threshold: real): (s: nat)
    requires i < |a|
    ensures s <= i
    ensures forall k :: s <= k < i ==> Loud(a[k], threshold)
    ensures s == 0 || !Loud(a[s - 1], threshold)
  {
    if i == 0 || !Loud(a[i - 1], threshold) then i else RunStart(a, i - 1, threshold)
  }

  /** Just past the end of the loud run through `i`: every sample after
      `i` and before it is loud, and the sample there, if any, is quiet. */
  function RunEnd(a: seq<real>, i: nat, threshold: real): (e: nat)
    requires i < |a|
    ensures i < e <= |a|
    ensures forall k :: i < k < e ==> Loud(a[k], threshold)
    ensures e == |a| || !Loud(a[e], threshold)
    decreases |a| - i
  {
    if i + 1 == |a| || !Loud(a[i + 1], threshold) then i + 1 else RunEnd(a, i + 1, threshold)
  }

  /** The reference for `remove_silence`: a sample survives when it is loud
      and its maximal loud run is long enough. */
  predicate Kept(a: seq<real>, i: nat, threshold: real, minLength: real)
    requires i < |a|
  {
    Loud(a[i], threshold) && LongEnough(RunEnd(a, i, threshold) - RunStart(a, i, threshold), minLength)
  }

  /** The surviving samples among the first `n`, in order. */
  function KeptPrefix(a: seq<real>, n: nat, threshold: real, minLength: real): (r: seq<real>)
    requires n <= |a|
  {
    if n == 0 then []
    else KeptPrefix(a, n - 1, threshold, minLength) + (if Kept(a, n - 1, threshold, minLength) then [a[n - 1]] else [])
  }

  /** `a[s..e]` is a maximal loud run. */
  predicate MaximalRun(a: seq<real>, s: nat, e: nat, threshold: real) {
    && s < e <= |a|
    && (forall k :: s <= k < e ==> Loud(a[k], threshold))
    && (s == 0 || !Loud(a[s - 1], threshold))
    && (e == |a| || !Loud(a[e], threshold))
  }

  /** A loud sample lies in the maximal run its bounds delimit. */
  lemma RunThrough(a: seq<real>, i: nat, threshold: real)
    requires i < |a| && Loud(a[i], threshold)
    ensures MaximalRun(a, RunStart(a, i, threshold), RunEnd(a, i, threshold), threshold)
  {
  }

  /** Within a maximal run, every sample's run is that run. */
  lemma {:induction false} RunBounds(a: seq<real>, s: nat, e: nat, k: nat, threshold: real)
    requires MaximalRun(a, s, e, threshold) && s <= k < e
    ensures RunStart(a, k, threshold) == s && RunEnd(a, k, threshold) == e
  {
    StartOfRun(a, s, e, k, threshold);
    EndOfRun(a, s, e, k, threshold);
  }

  lemma {:induction false} StartOfRun(a: seq<real>, s: nat, e: nat, k: nat, threshold: real)
    requires MaximalRun(a, s, e, threshold) && s <= k < e
    ensures RunStart(a, k, threshold) == s
    decreases k
  {
    if k > s {
      StartOfRun(a, s, e, k - 1, threshold);
    }
  }

  lemma {:induction false} EndOfRun(a: seq<real>, s: nat, e: nat, k: nat, threshold: real)
    requires MaximalRun(a, s, e, threshold) && s <= k < e
    ensures RunEnd(a, k, threshold) == e
    decreases e - k
  {
    if k + 1 < e {
      EndOfRun(a, s, e, k + 1, threshold);
    }
  }

  /** A maximal loud run, trailing or not, survives whole when it is long
      enough and is dropped whole otherwise. */
  lemma {:induction false} RunKeptIffLong(a: seq<real>, s: nat, e: nat, threshold: real, minLength: real)
    requires MaximalRun(a, s, e, threshold)
    ensures KeptPrefix(a, e, threshold, minLength)
      == KeptPrefix(a, s, threshold, minLength) + (if LongEnough(e - s, minLength) then a[s..e] else [])
  {
    KeptWithinRun(a, s, e, e, threshold, minLength);
  }

  /** Inside a maximal run, the output grows sample by sample exactly
      when the run is long enough. */
  lemma KeptWithinRun(a: seq<real>, s: nat, e: nat, n: nat, threshold: real, minLength: real)
    requires MaximalRun(a, s, e, threshold) && s <= n <= e
    ensures KeptPrefix(a, n, threshold, minLength)
      == KeptPrefix(a, s, threshold, minLength) + (if LongEnough(e - s, minLength) then a[s..n] else [])
  {
    if LongEnough(e - s, minLength) {
      KeptWithinLongRun(a, s, e, n, threshold, minLength);
    } else {
      KeptWithinShortRun(a, s, e, n, threshold, minLength);
      assert KeptPrefix(a, s, threshold, minLength) + [] == KeptPrefix(a, s, threshold, minLength);
    }
  }

  lemma KeptWithinLongRun(a: seq<real>, s: nat, e: nat, n: nat, threshold: real, minLength: real)
    requires MaximalRun(a, s, e, threshold) && s <= n <= e && LongEnough(e - s, minLength)
    ensures KeptPrefix(a, n, threshold, minLength) == KeptPrefix(a, s, threshold, minLength) + a[s..n]
  {
    forall k | s <= k < n
      ensures Kept(a, k, threshold, minLength)
    {
      RunBounds(a, s, e, k, threshold);
    }
    AllKept(a, s, n, threshold, minLength);
  }

  lemma KeptWithinShortRun(a: seq<real>, s: nat, e: nat, n: nat, threshold: real, minLength: real)
    requires MaximalRun(a, s, e, threshold) && s <= n <= e && !LongEnough(e - s, minLength)
    ensures KeptPrefix(a, n, threshold, minLength) == KeptPrefix(a, s, threshold, minLength)
  {
    forall k | s <= k < n
      ensures !Kept(a, k, threshold, minLength)
    {
      RunBounds(a, s, e, k, threshold);
    }
    NoneKept(a, s, n, threshold, minLength);
  }

  /** When every sample in `a[s..n]` is kept, they all follow the output
      for the first `s` samples. */
  lemma {:induction false} AllKept(a: seq<real>, s: nat, n: nat, threshold: real, minLength: real)
    requires s <= n <= |a|
    requires forall k :: s <= k < n ==> Kept(a, k, threshold, minLength)
    ensures KeptPrefix(a, n, threshold, minLength) == KeptPrefix(a, s, threshold, minLength) + a[s..n]
    decreases n
  {
    if n > s {
      AllKept(a, s, n - 1, threshold, minLength);
      KeptAppends(a, n, threshold, minLength);
      SliceGrows(a, s, n, KeptPrefix(a, s, threshold, minLength));
    } else {
      assert a[s..n] == [];
    }
  }

  /** A kept sample is appended to the output. */
  lemma KeptAppends(a: seq<real>, n: nat, threshold: real, minLength: real)
    requires 0 < n <= |a| && Kept(a, n - 1, threshold, minLength)
    ensures KeptPrefix(a, n, threshold, minLength) == KeptPrefix(a, n - 1, threshold, minLength) + [a[n - 1]]
  {
  }

  /** When no sample in `a[s..n]` is kept, the output does not grow. */
  lemma {:induction false} NoneKept(a: seq<real>, s: nat, n: nat, threshold: real, minLength: real)
    requires s <= n <= |a|
    requires forall k :: s <= k < n ==> !Kept(a, k, threshold, minLength)
    ensures KeptPrefix(a, n, threshold, minLength) == KeptPrefix(a, s, threshold, minLength)
    decreases n
  {
    if n > s {
      NoneKept(a, s, n - 1, threshold, minLength);
      assert !Kept(a, n - 1, threshold, minLength);
    }
  }

  /** What survives is loud, in its original order, and no longer than
      the input. */
  lemma {:induction false} KeptSamplesAreLoud(a: seq<real>, n: nat, threshold: real, minLength: real)
    requires n <= |a|
    ensures IsSubsequence(KeptPrefix(a, n, threshold, minLength), a[..n])
    ensures |KeptPrefix(a, n, threshold, minLength)| <= n
    ensures forall x :: x in KeptPrefix(a, n, threshold, minLength) ==> Abs(x) > threshold
  {
    if n > 0 {
      var prior := KeptPrefix(a, n - 1, threshold, minLength);
      KeptSamplesAreLoud(a, n - 1, threshold, minLength);
      KeptGrows(a, n, threshold, minLength);
      assert a[..n - 1] + [a[n - 1]] == a[..n];
      if KeptPrefix(a, n, threshold, minLength) == prior {
        SubsequenceAppend(prior, a[..n - 1], [], [a[n - 1]]);
        assert prior + [] == prior;
      } else {
        SubsequenceOfSelf([a[n - 1]]);
        SubsequenceAppend(prior, a[..n - 1], [a[n - 1]], [a[n - 1]]);
      }
    }
  }

  /** One more sample leaves the output as it was, or appends that sample,
      which is then loud. */
  lemma KeptGrows(a: seq<real>, n: nat, threshold: real, minLength: real)
    requires 0 < n <= |a|
    ensures var prior := KeptPrefix(a, n - 1, threshold, minLength);
      || KeptPrefix(a, n, threshold, minLength) == prior
      || (KeptPrefix(a, n, threshold, minLength) == prior + [a[n - 1]] && Abs(a[n - 1]) > threshold)
  {
  }

  /** Segments side by side: `np.concatenate(segments)`. */
  function Concat(segments: seq<seq<real>>): (r: seq<real>) {
    if segments == [] then [] else Concat(segments[..|segments| - 1]) + segments[|segments| - 1]
  }

  /** `remove_silence`: scan the samples, open a segment at the first loud
      sample, close it at the next quiet one and keep it when long enough;
      a segment still open at the end is judged the same way. */
  method RemoveSilence(audio: seq<real>, threshold: real, minLength: real) returns (kept: seq<real>)
    ensures kept == KeptPrefix(audio, |audio|, threshold, minLength)
  {
    var segments: seq<seq<real>> := [];
    var start: Option<nat> := None;
    var i := 0;
    while i < |audio|
      invariant i <= |audio|
      invariant start.None? ==> Concat(segments) == KeptPrefix(audio, i, threshold, minLength)
      invariant start.None? ==> i == 0 || !Loud(audio[i - 1], threshold)
      invariant start.Some? ==>
        && start.value < i
        && (forall k :: start.value <= k < i ==> Loud(audio[k], threshold))
        && (start.value == 0 || !Loud(audio[start.value - 1], threshold))
        && Concat(segments) == KeptPrefix(audio, start.value, threshold, minLength)
    {
      var active := Abs(audio[i]) > threshold;
      if active && start.None? {
        start := Some(i);
      } else if !active && start.Some? {
        var s := start.value;
        RunKeptIffLong(audio, s, i, threshold, minLength);
        if LongEnough(i - s, minLength) {
          segments := segments + [audio[s..i]];
        }
        start := None;
        assert !Kept(audio, i, threshold, minLength);
      } else if !active {
        assert !Kept(audio, i, threshold, minLength);
      }
      i := i + 1;
    }
    if start.Some? {
      var s := start.value;
      RunKeptIffLong(audio, s, |audio|, threshold, minLength);
      if LongEnough(|audio| - s, minLength) {
        segments := segments + [audio[s..]];
      }
    }
    kept := Concat(segments);
  }
}
