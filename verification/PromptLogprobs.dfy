/** Prompt logprobs of a chunked prefill (the chunk arithmetic of _get_prompt_logprobs_dict in gpu_model_runner.py). */
module PromptLogprobs {
  import opened Wrappers
  import opened BatchRuns

  // ---- One chunk ----

  /** Prompt positions whose logprobs are still to come after position start. */
  function Remaining(promptLen: nat, start: nat): int {
    promptLen - (start + 1)
  }

  /** The chunk reaches the end of the prompt, so the request is reported. */
  predicate Completes(promptLen: nat, start: nat, tokens: nat) {
    tokens > Remaining(promptLen, start)
  }

  function NumLogits(promptLen: nat, start: nat, tokens: nat): int {
    if Completes(promptLen, start, tokens) then Remaining(promptLen, start) else tokens
  }

  /** The slice of the result that a chunk writes. */
  function Slice(promptLen: nat, start: nat, tokens: nat): seq<int> {
    if NumLogits(promptLen, start, tokens) <= 0 then [] else Range(start, NumLogits(promptLen, start, tokens))
  }

  // ---- Whole prompts ----

  /** The request is still tracked before chunk n: no earlier chunk completed it. */
  predicate Tracked(promptLen: nat, chunks: seq<nat>, n: nat)
    requires n <= |chunks|
  {
    n == 0 || (Tracked(promptLen, chunks, n - 1) && !Completes(promptLen, Sum(chunks, n - 1), chunks[n - 1]))
  }

  /** Everything written by the first n chunks; an untracked request writes nothing. */
  function Written(promptLen: nat, chunks: seq<nat>, n: nat): seq<int>
    requires n <= |chunks|
  {
    if n == 0 then []
    else
      Written(promptLen, chunks, n - 1)
      + if Tracked(promptLen, chunks, n - 1) then Slice(promptLen, Sum(chunks, n - 1), chunks[n - 1]) else []
  }

  predicate NonEmpty(chunks: seq<nat>) {
    forall k :: 0 <= k < |chunks| ==> chunks[k] > 0
  }

  /** A prompt stays tracked exactly until its last token has been processed. */
  lemma {:induction false} TrackedUntilDone(promptLen: nat, chunks: seq<nat>, n: nat)
    requires promptLen >= 1 && NonEmpty(chunks) && n <= |chunks|
    ensures Tracked(promptLen, chunks, n) <==> Sum(chunks, n) < promptLen
  {
    if n > 0 {
      TrackedUntilDone(promptLen, chunks, n - 1);
    }
  }

  /**
    The slices tile: after any chunks the written positions are 0, 1, ... in order, each once, up to the last
    but one prompt token.
   */
  lemma {:induction false} SlicesTile(promptLen: nat, chunks: seq<nat>, n: nat)
    requires promptLen >= 1 && NonEmpty(chunks) && n <= |chunks|
    ensures Written(promptLen, chunks, n)
            == Range(0, if Sum(chunks, n) < promptLen then Sum(chunks, n) else promptLen - 1)
  {
    hide Tracked;
    if n > 0 {
      SlicesTile(promptLen, chunks, n - 1);
      TrackedUntilDone(promptLen, chunks, n - 1);
      if Sum(chunks, n - 1) < promptLen {
        SliceExtends(promptLen, Sum(chunks, n - 1), chunks[n - 1]);
      }
    }
  }

  lemma SliceExtends(promptLen: nat, start: nat, tokens: nat)
    requires start < promptLen && tokens > 0
    ensures Range(0, start) + Slice(promptLen, start, tokens)
            == Range(0, if start + tokens < promptLen then start + tokens else promptLen - 1)
  {
    var logits := NumLogits(promptLen, start, tokens);
    if logits > 0 {
      RangeSplits(0, start, logits);
    }
  }

  /** A fully processed prompt is reported by exactly one chunk, the one that processes its last token. */
  lemma ReportedOnce(promptLen: nat, chunks: seq<nat>, k: nat)
    requires promptLen >= 1 && NonEmpty(chunks) && k < |chunks|
    ensures Tracked(promptLen, chunks, k) && Completes(promptLen, Sum(chunks, k), chunks[k])
            <==> Sum(chunks, k) < promptLen <= Sum(chunks, k + 1)
  {
    TrackedUntilDone(promptLen, chunks, k);
  }

  /**
    A chunk that ends one token before the end of the prompt leaves the report to the next chunk, which writes
    nothing.
   */
  lemma DeferredReport(promptLen: nat, start: nat, tokens: nat, next: nat)
    requires start + tokens + 1 == promptLen && tokens > 0 && next > 0
    ensures !Completes(promptLen, start, tokens) && |Slice(promptLen, start, tokens)| == tokens
    ensures Completes(promptLen, start + tokens, next) && Slice(promptLen, start + tokens, next) == []
  {
  }

  // ---- The request's in-progress tensors ----

  class Request<V(0)> {
    const prompt: seq<int>
    const entries: array<Option<(int, V)>>
    var tracked: bool
    var numComputed: nat
    ghost var chunks: seq<nat>

    /** Entry p holds the target token prompt[p + 1] and the logprob computed for position p. */
    ghost predicate Valid()
      reads this, entries
    {
      && |prompt| >= 1 && entries.Length == |prompt| - 1 && NonEmpty(chunks)
      && numComputed == Sum(chunks, |chunks|)
      && (tracked <==> Tracked(|prompt|, chunks, |chunks|))
      && forall p :: 0 <= p < entries.Length ==> (entries[p].Some? <==> p in Written(|prompt|, chunks, |chunks|))
    }

    constructor (prompt: seq<int>)
      requires |prompt| >= 1
      ensures Valid() && fresh(entries) && this.prompt == prompt && chunks == [] && tracked
    {
      this.prompt := prompt;
      entries := new Option<(int, V)>[|prompt| - 1](_ => None);
      tracked := true;
      numComputed := 0;
      chunks := [];
    }

    /** One step of this request: rows holds a logprob value for each of its scheduled tokens. */
    method Step(tokens: nat, rows: seq<V>) returns (reported: bool)
      requires Valid() && tokens > 0 && |rows| == tokens
      modifies this, entries
      ensures Valid() && chunks == old(chunks) + [tokens] && numComputed == old(numComputed) + tokens
      ensures reported <==> old(numComputed) < |prompt| <= numComputed
      ensures forall p :: 0 <= p < entries.Length ==>
                entries[p] == if old(numComputed) <= p < numComputed
                              then Some((prompt[p + 1], rows[p - old(numComputed)]))
                              else old(entries[p])
    {
      hide Sum, Written, Tracked, NumLogits, Range, Slice;
      ghost var before, n := chunks, |chunks|;
      var start := numComputed;
      TrackedUntilDone(|prompt|, chunks, n);
      reported := false;
      if tracked {
        var remaining := |prompt| - (start + 1);
        var numLogits := tokens;
        if tokens > remaining {
          numLogits := remaining;
          reported := true;
          tracked := false;
        }
        for k := 0 to numLogits
          modifies entries
          invariant forall p :: 0 <= p < entries.Length ==>
                      entries[p] == if start <= p < start + k then Some((prompt[p + 1], rows[p - start]))
                          else old(entries[p])
        {
          entries[start + k] := Some((prompt[start + k + 1], rows[k]));
        }
      }
      numComputed := numComputed + tokens;
      chunks := chunks + [tokens];
      ChunksExtend(before, tokens, n);
      TrackedExtends(|prompt|, before, tokens, n);
      SlicesTile(|prompt|, chunks, n + 1);
      SlicesTile(|prompt|, before, n);
      TrackedUntilDone(|prompt|, chunks, n + 1);
      RangeMembers(if numComputed < |prompt| then numComputed else |prompt| - 1);
      RangeMembers(if start < |prompt| then start else |prompt| - 1);
    }
  }

  lemma {:induction false} TrackedExtends(promptLen: nat, chunks: seq<nat>, tokens: nat, n: nat)
    requires n <= |chunks|
    ensures Tracked(promptLen, chunks + [tokens], n) == Tracked(promptLen, chunks, n)
  {
    if n > 0 {
      TrackedExtends(promptLen, chunks, tokens, n - 1);
      ChunksExtend(chunks, tokens, n - 1);
    }
  }

  lemma RangeMembers(n: nat)
    ensures forall p :: p in Range(0, n) <==> 0 <= p < n
  {
    forall p | 0 <= p < n
      ensures p in Range(0, n)
    {
      assert Range(0, n)[p] == p;
    }
  }

  lemma {:induction false} ChunksExtend(chunks: seq<nat>, tokens: nat, n: nat)
    requires n <= |chunks|
    ensures Sum(chunks + [tokens], n) == Sum(chunks, n)
    ensures Sum(chunks + [tokens], |chunks| + 1) == Sum(chunks + [tokens], |chunks|) + tokens
  {
    if n > 0 {
      ChunksExtend(chunks, tokens, n - 1);
    }
  }
}
