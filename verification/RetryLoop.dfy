/** The retry loop around a model call: when it calls again, how long it waits, when it gives up. */
module RetryLoop {
  import opened Prelude

  // ------------------------------------------------------------- image content

  datatype Block = Image(path: string) | Placeholder(path: string) | Other(text: string)

  /** Content is a list of blocks or anything else. */
  datatype Message = Blocks(role: string, blocks: seq<Block>) | Plain(role: string, text: string)

  predicate HasImage(m: Message) {
    m.Blocks? && exists i :: 0 <= i < |m.blocks| && m.blocks[i].Image?
  }

  predicate AnyImage(messages: seq<Message>) {
    exists i :: 0 <= i < |messages| && HasImage(messages[i])
  }

  function WithoutImage(b: Block): Block {
    if b.Image? then Placeholder(b.path) else b
  }

  /** t is m with each image block, and nothing else, turned into its placeholder. */
  predicate IsStripped(m: Message, t: Message) {
    && t.role == m.role && t.Blocks? == m.Blocks?
    && (m.Plain? ==> t == m)
    && (m.Blocks? ==> |t.blocks| == |m.blocks| && forall i :: 0 <= i < |m.blocks| ==> t.blocks[i] == WithoutImage(m.blocks[i]))
  }

  method StripImageContent(messages: seq<Message>) returns (r: Option<seq<Message>>)
    ensures r.Some? <==> AnyImage(messages)
    ensures r.Some? <==> exists m, b :: m in messages && m.Blocks? && b in m.blocks && b.Image?
    ensures r.Some? ==> |r.value| == |messages| && r.value != messages && !AnyImage(r.value)
    ensures r.Some? ==> forall i :: 0 <= i < |messages| ==> IsStripped(messages[i], r.value[i])
  {
    var found, result := false, [];
    ghost var where := 0;
    for i := 0 to |messages|
      invariant |result| == i && (found <==> exists k :: 0 <= k < i && HasImage(messages[k]))
      invariant forall k :: 0 <= k < i ==> IsStripped(messages[k], result[k])
      invariant found ==> where < i && HasImage(messages[where])
    {
      var m := messages[i];
      if m.Blocks? {
        var newContent := [];
        for j := 0 to |m.blocks|
          invariant |newContent| == j && forall k :: 0 <= k < j ==> newContent[k] == WithoutImage(m.blocks[k])
          invariant found <==> (exists k :: 0 <= k < i && HasImage(messages[k])) || exists k :: 0 <= k < j && m.blocks[k].Image?
          invariant found ==> where <= i && (where < i ==> HasImage(messages[where]))
          invariant found && where == i ==> exists k :: 0 <= k < j && m.blocks[k].Image?
        {
          if m.blocks[j].Image? {
            where := if found then where else i;
            found := true;
          }
          newContent := newContent + [WithoutImage(m.blocks[j])];
        }
        result := result + [Blocks(m.role, newContent)];
      } else {
        result := result + [m];
      }
    }
    if found {
      assert !HasImage(result[where]) by {
        assert IsStripped(messages[where], result[where]);
      }
      return Some(result);
    }
    return None;
  }

  // ------------------------------------------------------------------- waiting

  const RETRY_DELAYS := [1.0, 2.0, 4.0, 8.0, 16.0, 32.0]
  const MAX_DELAY := 60.0
  const IDENTICAL_LIMIT := 10
  const HEARTBEAT_CHUNK := 30.0

  /** The wait is cut into chunks that add up to it; all but the last are full, so each beats in time. */
  method SleepWithHeartbeat(delay: real) returns (chunks: seq<real>)
    ensures Sum(chunks) == if delay > 0.0 then delay else 0.0
    ensures forall i :: 0 <= i < |chunks| ==> 0.0 < chunks[i] <= 30.0
    ensures forall i :: 0 <= i < |chunks| - 1 ==> chunks[i] == 30.0
  {
    var remaining := if delay > 0.0 then delay else 0.0;
    ghost var total := remaining;
    chunks := [];
    while remaining > 0.0
      invariant 0.0 <= remaining && Sum(chunks) + remaining == total
      invariant forall i :: 0 <= i < |chunks| ==> 0.0 < chunks[i] <= HEARTBEAT_CHUNK
      invariant forall i :: 0 <= i < |chunks| - 1 ==> chunks[i] == HEARTBEAT_CHUNK
      invariant remaining > 0.0 && chunks != [] ==> chunks[|chunks| - 1] == HEARTBEAT_CHUNK
      decreases (if remaining > 0.0 then 1 else 0) + remaining.Floor
    {
      var chunk := if remaining <= HEARTBEAT_CHUNK then remaining else HEARTBEAT_CHUNK;
      assert (chunks + [chunk])[..|chunks|] == chunks;
      chunks := chunks + [chunk];
      remaining := remaining - chunk;
    }
  }

  // ------------------------------------------------------------------ the loop

  /** key is the stripped lower-case content if there is any; retryAfter what the content asks for. */
  datatype Response =
    | Success(content: string)
    | Failure(key: Option<string>, transient: bool, retryAfter: Option<real>)

  datatype Verdict = Return | CallStripped | RetryAfter(delay: real)

  /** How many of the last errors share one non-empty key. */
  function Identical(history: seq<Response>): nat {
    if history == [] || !history[|history| - 1].Failure? || history[|history| - 1].key.None? then 0
    else
      var rest := history[..|history| - 1];
      1 + (if rest != [] && rest[|rest| - 1].Failure? && rest[|rest| - 1].key == history[|history| - 1].key
           then Identical(rest) else 0)
  }

  /** The last n responses are errors with one and the same non-empty key. */
  predicate SameKey(history: seq<Response>, n: nat)
    requires n <= |history|
  {
    forall i :: |history| - n <= i < |history| ==>
      history[i].Failure? && history[i].key.Some? &&
      history[|history| - 1].Failure? && history[i].key == history[|history| - 1].key
  }

  function Delay(persistent: bool, attempt: nat, r: Response): real
    requires attempt > 0 && r.Failure?
  {
    var wanted :=
      if r.retryAfter.Some? && r.retryAfter.value != 0.0 then r.retryAfter.value
      else RETRY_DELAYS[if attempt <= 6 then attempt - 1 else 5];
    if persistent && wanted > MAX_DELAY then MAX_DELAY else wanted
  }

  /** What follows the last of a history of responses. */
  function Judge(persistent: bool, images: bool, history: seq<Response>): Verdict
    requires history != []
  {
    var r := history[|history| - 1];
    if r.Success? then Return
    else if !r.transient then if images then CallStripped else Return
    else if persistent && Identical(history) >= IDENTICAL_LIMIT then Return
    else if !persistent && |history| > 6 then Return
    else RetryAfter(Delay(persistent, |history|, r))
  }

  /** Pending: the run still waits for the next of the given responses. */
  datatype Outcome = Pending | Answer(at: nat, stripped: bool)

  /** Every response before the last led to a wait and another call; the last one settles the run. */
  ghost predicate IsRun(persistent: bool, images: bool, responses: seq<Response>, waits: seq<real>, out: Outcome) {
    && |waits| <= |responses|
    && (forall k :: 0 <= k < |waits| ==> Judge(persistent, images, responses[..k + 1]) == RetryAfter(waits[k]))
    && (if |waits| == |responses| then out == Pending
        else
          match Judge(persistent, images, responses[..|waits| + 1])
          case Return => out == Answer(|waits|, false)
          case CallStripped => out == if |waits| + 1 < |responses| then Answer(|waits| + 1, true) else Pending
          case RetryAfter(_) => false)
  }

  lemma IdenticalNext(responses: seq<Response>, n: nat)
    requires n < |responses|
    ensures Identical(responses[..n + 1]) ==
      if responses[n].Success? || responses[n].key.None? then 0
      else if n > 0 && responses[n - 1].Failure? && responses[n - 1].key == responses[n].key then Identical(responses[..n]) + 1
      else 1
  {
    assert responses[..n + 1][..n] == responses[..n];
  }

  /** Runs against the responses that successive calls would get. */
  method RunWithRetry(persistent: bool, messages: seq<Message>, responses: seq<Response>)
    returns (waits: seq<real>, out: Outcome)
    ensures IsRun(persistent, AnyImage(messages), responses, waits, out)
  {
    var attempt, identical := 0, 0;
    var lastKey: Option<string> := None;
    waits := [];
    while attempt < |responses|
      invariant attempt == |waits| <= |responses|
      invariant forall k :: 0 <= k < attempt ==>
        Judge(persistent, AnyImage(messages), responses[..k + 1]) == RetryAfter(waits[k])
      invariant identical == Identical(responses[..attempt])
      invariant attempt > 0 ==> responses[attempt - 1].Failure? && lastKey == responses[attempt - 1].key
      invariant attempt == 0 ==> lastKey == None
    {
      IdenticalNext(responses, attempt);
      var response := responses[attempt];
      attempt := attempt + 1;
      if response.Success? {
        return waits, Answer(attempt - 1, false);
      }
      if response.key.Some? && response.key == lastKey {
        identical := identical + 1;
      } else {
        lastKey := response.key;
        identical := if response.key.Some? then 1 else 0;
      }
      assert identical == Identical(responses[..attempt]);
      if !response.transient {
        var stripped := StripImageContent(messages);
        if stripped.Some? && stripped.value != messages {
          return waits, if attempt < |responses| then Answer(attempt, true) else Pending;
        }
        return waits, Answer(attempt - 1, false);
      }
      if persistent && identical >= IDENTICAL_LIMIT {
        return waits, Answer(attempt - 1, false);
      }
      if !persistent && attempt > |RETRY_DELAYS| {
        return waits, Answer(attempt - 1, false);
      }
      var delay := Delay(persistent, attempt, response);
      waits := waits + [delay];
    }
    out := Pending;
  }

  // ------------------------------------------------------------------ the laws

  /** The counter is the length of the longest suffix of errors that share a non-empty key. */
  lemma {:induction false} IdenticalIsLongest(history: seq<Response>, n: nat)
    requires n <= |history|
    ensures Identical(history) <= |history|
    ensures SameKey(history, n) <==> n <= Identical(history)
    decreases |history|
  {
    if history != [] && n > 0 {
      var last := |history| - 1;
      var rest := history[..last];
      IdenticalIsLongest(rest, n - 1);
      assert SameKey(history, n) ==> history[last].Failure? && history[last].key.Some?;
      if n > 1 {
        assert forall i :: 0 <= i < last ==> rest[i] == history[i];
        if SameKey(history, n) {
          assert history[last - 1].key == history[last].key;
        }
      }
    } else if history != [] {
      IdenticalIsLongest(history[..|history| - 1], 0);
    }
  }

  lemma EachWaitIsARetry(persistent: bool, images: bool, responses: seq<Response>, waits: seq<real>, out: Outcome, k: nat)
    requires IsRun(persistent, images, responses, waits, out) && k < |responses|
    ensures k < |waits| ==> Judge(persistent, images, responses[..k + 1]) == RetryAfter(waits[k])
  {
  }

  /** The k-th response is an error to try again after: transient, and not yet the last one allowed. */
  ghost predicate TriesAgain(persistent: bool, responses: seq<Response>, k: nat)
    requires k < |responses|
  {
    && responses[k].Failure? && responses[k].transient
    && if persistent then k < 9 || !SameKey(responses[..k + 1], 10) else k < 6
  }

  /** The wait after the k-th response: what it asks for, or 1, 2, 4, 8, 16 and then 32 seconds; a minute at most if persistent. */
  predicate IsWait(persistent: bool, r: Response, k: nat, wait: real)
    requires r.Failure?
  {
    var table := [1.0, 2.0, 4.0, 8.0, 16.0, 32.0];
    var wanted := if r.retryAfter.Some? && r.retryAfter.value != 0.0 then r.retryAfter.value else table[if k < 5 then k else 5];
    wait == if persistent && wanted > 60.0 then 60.0 else wanted
  }

  lemma JudgeMeans(persistent: bool, images: bool, responses: seq<Response>, k: nat)
    requires k < |responses|
    ensures var verdict := Judge(persistent, images, responses[..k + 1]);
      && (verdict.RetryAfter? <==> TriesAgain(persistent, responses, k))
      && (verdict.RetryAfter? ==> IsWait(persistent, responses[k], k, verdict.delay))
      && (verdict.CallStripped? <==> responses[k].Failure? && !responses[k].transient && images)
  {
    var history := responses[..k + 1];
    assert history[|history| - 1] == responses[k];
    IdenticalIsLongest(history, 0);
    if k >= 9 {
      IdenticalIsLongest(history, 10);
    }
  }

  /**
   * A run waits and calls again after exactly the errors to try again after. It ends with the first other
   * response: with one more call, without images, after an error that is not transient on messages with
   * images, and with that response otherwise.
   */
  lemma RunIsExact(persistent: bool, images: bool, responses: seq<Response>, waits: seq<real>, out: Outcome)
    requires IsRun(persistent, images, responses, waits, out)
    ensures forall k :: 0 <= k < |waits| ==>
      TriesAgain(persistent, responses, k) && IsWait(persistent, responses[k], k, waits[k])
    ensures |waits| < |responses| ==>
      var last := responses[|waits|];
      && !TriesAgain(persistent, responses, |waits|)
      && out == if last.Success? || last.transient || !images then Answer(|waits|, false)
                else if |waits| + 1 < |responses| then Answer(|waits| + 1, true) else Pending
    ensures |waits| == |responses| ==> out == Pending
  {
    forall k | 0 <= k < |waits|
      ensures TriesAgain(persistent, responses, k) && IsWait(persistent, responses[k], k, waits[k])
    {
      EachWaitIsARetry(persistent, images, responses, waits, out, k);
      JudgeMeans(persistent, images, responses, k);
    }
    if |waits| < |responses| {
      JudgeMeans(persistent, images, responses, |waits|);
    }
  }

  /** Standard mode waits at most six times, so it makes at most eight calls, one of them without images. */
  lemma StandardMakesAtMostEightCalls(images: bool, responses: seq<Response>, waits: seq<real>, out: Outcome)
    requires IsRun(false, images, responses, waits, out)
    ensures |waits| <= 6
    ensures out.Answer? ==> out.at + 1 <= (if out.stripped then 8 else 7)
    ensures |responses| >= 8 ==> out.Answer?
  {
    if |responses| > 6 {
      EachWaitIsARetry(false, images, responses, waits, out, 6);
    }
  }

  /** Persistent mode never waits more than a minute, whatever the server asks for. */
  lemma PersistentWaitsAreShort(images: bool, responses: seq<Response>, waits: seq<real>, out: Outcome, k: nat)
    requires IsRun(true, images, responses, waits, out) && k < |waits|
    ensures waits[k] <= MAX_DELAY
  {
    EachWaitIsARetry(true, images, responses, waits, out, k);
  }

  /** No error asks for a delay of its own. */
  ghost predicate NoRetryAfter(responses: seq<Response>) {
    forall i :: 0 <= i < |responses| && responses[i].Failure? ==> responses[i].retryAfter.None?
  }

  /** Unless the server asks otherwise the waits double from one second and then stay at the last one. */
  lemma WaitsDouble(persistent: bool, images: bool, responses: seq<Response>, waits: seq<real>, out: Outcome, k: nat)
    requires IsRun(persistent, images, responses, waits, out) && NoRetryAfter(responses) && k < |waits|
    ensures k == 0 ==> waits[k] == 1.0
    ensures 0 < k < 6 ==> waits[k] == 2.0 * waits[k - 1]
    ensures k >= 6 ==> waits[k] == waits[k - 1]
  {
    EachWaitIsARetry(persistent, images, responses, waits, out, k);
    assert responses[..k + 1][k] == responses[k];
    if k > 0 {
      EachWaitIsARetry(persistent, images, responses, waits, out, k - 1);
      assert responses[..k][k - 1] == responses[k - 1];
    }
  }

  lemma {:induction false} WaitsAddUp(persistent: bool, images: bool, responses: seq<Response>, waits: seq<real>,
                                        out: Outcome, n: nat)
    requires IsRun(persistent, images, responses, waits, out) && NoRetryAfter(responses) && n <= |waits| && n <= 6
    ensures n > 0 ==> Sum(waits[..n]) == 2.0 * waits[n - 1] - 1.0
    ensures n > 0 ==> waits[n - 1] <= 32.0
  {
    if n == 0 {
    } else {
      WaitsAddUp(persistent, images, responses, waits, out, n - 1);
      WaitsDouble(persistent, images, responses, waits, out, n - 1);
      assert waits[..n][..n - 1] == waits[..n - 1];
    }
  }

  /** A standard run that the server does not slow down waits 63 seconds at most in all. */
  lemma StandardWaitsAMinute(images: bool, responses: seq<Response>, waits: seq<real>, out: Outcome)
    requires IsRun(false, images, responses, waits, out) && NoRetryAfter(responses)
    ensures Sum(waits) <= 63.0
  {
    StandardMakesAtMostEightCalls(images, responses, waits, out);
    WaitsAddUp(false, images, responses, waits, out, |waits|);
    assert waits[..|waits|] == waits;
  }

  /** Ten transient errors in a row with one key end a persistent run: it never waits after them. */
  lemma PersistentStopsAtTenIdentical(images: bool, responses: seq<Response>, waits: seq<real>, out: Outcome, n: nat)
    requires IsRun(true, images, responses, waits, out) && IDENTICAL_LIMIT <= n <= |responses|
    requires SameKey(responses[..n], IDENTICAL_LIMIT) && responses[n - 1].Failure?
    ensures |waits| < n
    ensures responses[n - 1].transient ==> out.Answer?
  {
    IdenticalIsLongest(responses[..n], IDENTICAL_LIMIT);
    EachWaitIsARetry(true, images, responses, waits, out, n - 1);
  }

  /** While errors are transient and no ten in a row share a key, a persistent run goes on. */
  lemma PersistentStopsOnlyForAReason(images: bool, responses: seq<Response>, waits: seq<real>, out: Outcome)
    requires IsRun(true, images, responses, waits, out) && out.Answer? && !out.stripped
    ensures responses[out.at].Success? || !responses[out.at].transient ||
            (|responses[..out.at + 1]| >= IDENTICAL_LIMIT && SameKey(responses[..out.at + 1], IDENTICAL_LIMIT))
  {
    var history := responses[..out.at + 1];
    if Identical(history) >= IDENTICAL_LIMIT {
      IdenticalIsLongest(history, 0);
      IdenticalIsLongest(history, IDENTICAL_LIMIT);
    }
  }

  /** Only an error that is not transient, on messages with images, leads to a call without them. */
  lemma StrippedCallIsLast(persistent: bool, images: bool, responses: seq<Response>, waits: seq<real>, out: Outcome)
    requires IsRun(persistent, images, responses, waits, out) && out.Answer? && out.stripped
    ensures images && out.at == |waits| + 1 && responses[out.at - 1].Failure? && !responses[out.at - 1].transient
  {
  }
}
