/** Summary generation: the token estimate, greedy batching of a year's diaries,
    the retrying model call, and the three summary generators. The language model
    is an oracle that answers the n-th request of a run; every request and every
    pause is recorded as an event, in order. */
module Summarizer {
  import opened Seqs
  import opened Text
  import opened Records

  // ---------------------------------------------------------------- token estimate

  /** `[一-鿿]`: a CJK unified ideograph. */
  predicate IsCjk(c: char) { '\U{4E00}' <= c <= '\U{9FFF}' }

  /** `[a-zA-Z]`. */
  predicate IsAsciiLetter(c: char) { 'a' <= c <= 'z' || 'A' <= c <= 'Z' }

  /** `len(re.findall(r'[一-鿿]', s))`. */
  function CjkCount(s: string): nat
  {
    if s == [] then 0 else CjkCount(s[..|s| - 1]) + (if IsCjk(s[|s| - 1]) then 1 else 0)
  }

  /** A run of ASCII letters begins at `i`. */
  predicate StartsWord(s: string, i: nat)
    requires i < |s|
  {
    IsAsciiLetter(s[i]) && (i == 0 || !IsAsciiLetter(s[i - 1]))
  }

  /** `len(re.findall(r'[a-zA-Z]+', s))`: the number of maximal runs of ASCII letters. */
  function WordCount(s: string): nat
  {
    if s == [] then 0 else WordCount(s[..|s| - 1]) + (if StartsWord(s, |s| - 1) then 1 else 0)
  }

  /** `estimate_tokens`: one token per ideograph, 1.3 per English word, truncated.
      `int(words * 1.3)` is written as `13 * words / 10`. */
  function Estimate(s: string): nat
  {
    CjkCount(s) + 13 * WordCount(s) / 10
  }

  lemma {:induction false} CjkCountAppend(a: string, b: string)
    ensures CjkCount(a + b) == CjkCount(a) + CjkCount(b)
    decreases |b|
  {
    if b == [] {
      assert a + b == a;
    } else {
      assert (a + b)[..|a + b| - 1] == a + b[..|b| - 1];
      CjkCountAppend(a, b[..|b| - 1]);
    }
  }

  /** Words do not merge across a boundary with a non-letter on one side. */
  lemma {:induction false} WordCountAppend(a: string, b: string)
    requires a == [] || b == [] || !IsAsciiLetter(a[|a| - 1]) || !IsAsciiLetter(b[0])
    ensures WordCount(a + b) == WordCount(a) + WordCount(b)
    decreases |b|
  {
    var ab := a + b;
    if b == [] {
      assert ab == a;
    } else {
      var b' := b[..|b| - 1];
      assert ab[..|ab| - 1] == a + b';
      assert b' != [] ==> b'[0] == b[0];
      if b' == [] {
        assert a + b' == a;
      }
      WordCountAppend(a, b');
      assert StartsWord(ab, |ab| - 1) == StartsWord(b, |b| - 1);
    }
  }

  /** The estimate of two texts joined by a separator without letters or ideographs. */
  lemma EstimateJoin(a: string, sep: string, b: string)
    requires sep != [] && CjkCount(sep) == 0 && WordCount(sep) == 0
    requires !IsAsciiLetter(sep[0]) && !IsAsciiLetter(sep[|sep| - 1])
    ensures CjkCount(a + sep + b) == CjkCount(a) + CjkCount(b)
    ensures WordCount(a + sep + b) == WordCount(a) + WordCount(b)
  {
    CjkCountAppend(a, sep);
    CjkCountAppend(a + sep, b);
    WordCountAppend(a, sep);
    assert (a + sep)[|a + sep| - 1] == sep[|sep| - 1];
    WordCountAppend(a + sep, b);
  }

  // ---------------------------------------------------------------- batching

  /** The text a diary contributes to a prompt: `=== <path> ===\n<content>`. */
  function EntryText(d: DiaryEntry): string
  {
    "=== " + d.path + " ===\n" + d.content
  }

  function EntryCost(d: DiaryEntry): nat { Estimate(EntryText(d)) }

  /** The diaries' texts, separated by blank lines. */
  function JoinEntries(ds: seq<DiaryEntry>): string
  {
    Join(seq(|ds|, i requires 0 <= i < |ds| => EntryText(ds[i])), "\n\n")
  }

  function SumCost<T>(xs: seq<T>, cost: T -> nat): nat
  {
    if xs == [] then 0 else SumCost(xs[..|xs| - 1], cost) + cost(xs[|xs| - 1])
  }

  /** Estimating the joined text of a list is never below the sum of the entries'
      estimates, and exceeds it by less than one token per entry (the truncation of
      1.3 per word happens once instead of once per entry). */
  lemma {:induction false} JoinEntriesEstimate(ds: seq<DiaryEntry>)
    ensures SumCost(ds, EntryCost) <= Estimate(JoinEntries(ds)) <= SumCost(ds, EntryCost) + |ds|
    ensures CjkCount(JoinEntries(ds)) == SumCjk(ds) && WordCount(JoinEntries(ds)) == SumWords(ds)
    decreases |ds|
  {
    if |ds| > 1 {
      var init := ds[..|ds| - 1];
      JoinEntriesEstimate(init);
      JoinEntriesSnoc(ds);
      var sep := "\n\n";
      assert CjkCount(sep) == 0 && WordCount(sep) == 0 by {
        assert sep[..1] == "\n";
        assert sep[..1][..0] == [];
      }
      EstimateJoin(JoinEntries(init), sep, EntryText(ds[|ds| - 1]));
    } else if |ds| == 1 {
      assert JoinEntries(ds) == EntryText(ds[0]);
      assert ds[..0] == [];
    }
  }

  function SumCjk(ds: seq<DiaryEntry>): nat
  {
    if ds == [] then 0 else SumCjk(ds[..|ds| - 1]) + CjkCount(EntryText(ds[|ds| - 1]))
  }

  function SumWords(ds: seq<DiaryEntry>): nat
  {
    if ds == [] then 0 else SumWords(ds[..|ds| - 1]) + WordCount(EntryText(ds[|ds| - 1]))
  }

  lemma JoinEntriesSnoc(ds: seq<DiaryEntry>)
    requires |ds| > 1
    ensures JoinEntries(ds) == JoinEntries(ds[..|ds| - 1]) + "\n\n" + EntryText(ds[|ds| - 1])
  {
    var texts := seq(|ds|, i requires 0 <= i < |ds| => EntryText(ds[i]));
    var init := ds[..|ds| - 1];
    assert seq(|init|, i requires 0 <= i < |init| => EntryText(init[i])) == texts[..|texts| - 1];
    JoinSnoc(texts, "\n\n");
  }

  /** The state of the batching loop: finished batches, the open batch and its estimate. */
  datatype Packing<T> = Packing(closed: seq<seq<T>>, current: seq<T>, tokens: int)

  /** One iteration: start a new batch when the item would overflow a non-empty batch. */
  function PackStep<T>(p: Packing<T>, x: T, cost: T -> nat, maxTokens: int): Packing<T>
  {
    if p.tokens + cost(x) > maxTokens && p.current != [] then Packing(p.closed + [p.current], [x], cost(x))
    else Packing(p.closed, p.current + [x], p.tokens + cost(x))
  }

  function PackAll<T>(items: seq<T>, cost: T -> nat, maxTokens: int): Packing<T>
  {
    if items == [] then Packing([], [], 0)
    else PackStep(PackAll(items[..|items| - 1], cost, maxTokens), items[|items| - 1], cost, maxTokens)
  }

  /** The batches, the open one included when it is non-empty. */
  function Pack<T>(items: seq<T>, cost: T -> nat, maxTokens: int): seq<seq<T>>
  {
    var p := PackAll(items, cost, maxTokens);
    p.closed + (if p.current != [] then [p.current] else [])
  }

  /** A batch fits when its estimate is within the limit; a lone diary may be over it. */
  predicate Fits<T>(b: seq<T>, cost: T -> nat, maxTokens: int)
  {
    |b| == 1 || SumCost(b, cost) <= maxTokens
  }

  /** What greedy batching promises: the batches are the items in order, none is empty,
      each fits, and each batch after the first opens with an item that did not fit
      into the batch before it. */
  ghost predicate GreedyBatches<T>(items: seq<T>, batches: seq<seq<T>>, cost: T -> nat, maxTokens: int)
  {
    Flatten(batches) == items &&
    (forall i :: 0 <= i < |batches| ==> batches[i] != [] && Fits(batches[i], cost, maxTokens)) &&
    (forall i :: 0 < i < |batches| ==> SumCost(batches[i - 1], cost) + cost(batches[i][0]) > maxTokens)
  }

  /** The loop state keeps: closed batches and the open one are the items so far, the
      open batch's estimate is tracked, and the greedy conditions hold between batches. */
  ghost predicate PackingInv<T>(items: seq<T>, p: Packing<T>, cost: T -> nat, maxTokens: int)
  {
    Flatten(p.closed) + p.current == items &&
    p.tokens == SumCost(p.current, cost) &&
    (items != [] ==> p.current != []) &&
    (p.current != [] ==> Fits(p.current, cost, maxTokens)) &&
    (forall i :: 0 <= i < |p.closed| ==> p.closed[i] != [] && Fits(p.closed[i], cost, maxTokens)) &&
    (forall i :: 0 < i < |p.closed| ==> SumCost(p.closed[i - 1], cost) + cost(p.closed[i][0]) > maxTokens) &&
    (p.closed != [] ==> SumCost(p.closed[|p.closed| - 1], cost) + cost(p.current[0]) > maxTokens)
  }

  lemma SumCostSingle<T>(x: T, cost: T -> nat)
    ensures SumCost([x], cost) == cost(x)
  {
    assert [x][..0] == [];
  }

  lemma {:induction false} PackAllInv<T>(items: seq<T>, cost: T -> nat, maxTokens: int)
    ensures PackingInv(items, PackAll(items, cost, maxTokens), cost, maxTokens)
    decreases |items|
  {
    if items != [] {
      var init := items[..|items| - 1];
      PackAllInv(init, cost, maxTokens);
      assert items == init + [items[|items| - 1]];
      PackStepInv(init, PackAll(init, cost, maxTokens), items[|items| - 1], cost, maxTokens);
    }
  }

  lemma PackStepInv<T>(items: seq<T>, p: Packing<T>, x: T, cost: T -> nat, maxTokens: int)
    requires PackingInv(items, p, cost, maxTokens)
    ensures PackingInv(items + [x], PackStep(p, x, cost, maxTokens), cost, maxTokens)
  {
    SumCostSingle(x, cost);
    if p.tokens + cost(x) > maxTokens && p.current != [] {
      CloseBatchInv(items, p, x, cost, maxTokens);
    } else {
      var cur := p.current + [x];
      assert cur[..|cur| - 1] == p.current;
      if p.current != [] {
        assert cur[0] == p.current[0];
      } else {
        assert items == Flatten(p.closed);
      }
      assert Flatten(p.closed) + cur == items + [x];
    }
  }

  lemma CloseBatchInv<T>(items: seq<T>, p: Packing<T>, x: T, cost: T -> nat, maxTokens: int)
    requires PackingInv(items, p, cost, maxTokens)
    requires p.tokens + cost(x) > maxTokens && p.current != []
    ensures PackingInv(items + [x], Packing(p.closed + [p.current], [x], cost(x)), cost, maxTokens)
  {
    SumCostSingle(x, cost);
    FlattenAppend(p.closed, p.current);
    var q := Packing(p.closed + [p.current], [x], cost(x));
    assert q.closed[|q.closed| - 1] == p.current;
    forall i | 0 <= i < |q.closed| ensures q.closed[i] != [] && Fits(q.closed[i], cost, maxTokens) {
      if i < |p.closed| {
        assert q.closed[i] == p.closed[i];
      }
    }
    forall i | 0 < i < |q.closed| ensures SumCost(q.closed[i - 1], cost) + cost(q.closed[i][0]) > maxTokens {
      if i == |q.closed| - 1 {
        assert q.closed[i] == p.current;
      } else {
        assert q.closed[i - 1] == p.closed[i - 1] && q.closed[i] == p.closed[i];
      }
    }
  }

  /** The batches `split_diaries_into_batches` returns are greedy batches of the input. */
  lemma PackIsGreedy<T>(items: seq<T>, cost: T -> nat, maxTokens: int)
    ensures GreedyBatches(items, Pack(items, cost, maxTokens), cost, maxTokens)
  {
    var p := PackAll(items, cost, maxTokens);
    PackAllInv(items, cost, maxTokens);
    var b := Pack(items, cost, maxTokens);
    if p.current != [] {
      FlattenAppend(p.closed, p.current);
      forall i | 0 < i < |b| ensures SumCost(b[i - 1], cost) + cost(b[i][0]) > maxTokens {
        if i == |b| - 1 {
          assert b[i] == p.current && b[i - 1] == p.closed[|p.closed| - 1];
        } else {
          assert b[i - 1] == p.closed[i - 1] && b[i] == p.closed[i];
        }
      }
    } else {
      assert b == p.closed;
      assert Flatten(p.closed) + [] == Flatten(p.closed);
    }
  }

  /** `split_diaries_into_batches(diaries, max_tokens)`. */
  method SplitIntoBatches(diaries: seq<DiaryEntry>, maxTokens: int) returns (batches: seq<seq<DiaryEntry>>)
    ensures batches == Pack(diaries, EntryCost, maxTokens)
  {
    batches := [];
    var current: seq<DiaryEntry> := [];
    var currentTokens := 0;
    for i := 0 to |diaries|
      invariant Packing(batches, current, currentTokens) == PackAll(diaries[..i], EntryCost, maxTokens)
    {
      var diary := diaries[i];
      var diaryTokens := Estimate(EntryText(diary));
      assert diaries[..i + 1][..i] == diaries[..i];
      if currentTokens + diaryTokens > maxTokens && current != [] {
        batches := batches + [current];
        current := [diary];
        currentTokens := diaryTokens;
      } else {
        current := current + [diary];
        currentTokens := currentTokens + diaryTokens;
      }
    }
    assert diaries[..|diaries|] == diaries;
    if current != [] {
      batches := batches + [current];
    }
  }

  // ---------------------------------------------------------------- the model and its calls

  /** What a request asks for. The wording of the prompt templates is left out: a
      prompt records the kind of request, the year (and month) and the text it carries. */
  datatype Prompt =
    | MonthPrompt(year: nat, month: nat, diaries: string)
    | YearPrompt(year: nat, diaries: string)
    | PartPrompt(year: nat, diaries: string)
    | MergePrompt(year: nat, parts: string)
    | FromMonthlyPrompt(year: nat, months: string)

  /** The answer to one request: the reply's text, or the text of the error raised. */
  datatype Outcome = Reply(text: string) | Failure(message: string)

  /** The model: its answer to the n-th request of a run, given that request's prompt. */
  type Oracle = (nat, Prompt) -> Outcome

  /** What a run does outside the program, in order: a request to the model or a pause. */
  datatype Event = Request(prompt: Prompt) | Sleep(seconds: nat)

  /** The prompts sent, in order. */
  function Prompts(events: seq<Event>): seq<Prompt>
  {
    if events == [] then []
    else Prompts(events[..|events| - 1]) + (if events[|events| - 1].Request? then [events[|events| - 1].prompt] else [])
  }

  /** The pauses taken, in seconds, in order. */
  function Waits(events: seq<Event>): seq<nat>
  {
    if events == [] then []
    else Waits(events[..|events| - 1]) + (if events[|events| - 1].Sleep? then [events[|events| - 1].seconds] else [])
  }

  lemma {:induction false} EventsAppend(a: seq<Event>, b: seq<Event>)
    ensures Prompts(a + b) == Prompts(a) + Prompts(b)
    ensures Waits(a + b) == Waits(a) + Waits(b)
    decreases |b|
  {
    if b == [] {
      assert a + b == a;
    } else {
      assert (a + b)[..|a + b| - 1] == a + b[..|b| - 1];
      EventsAppend(a, b[..|b| - 1]);
    }
  }

  /** The predicate under which the model never fails. */
  ghost predicate AlwaysReplies(llm: Oracle)
  {
    forall i, p :: llm(i, p).Reply?
  }

  // ---------------------------------------------------------------- retrying

  const MaxRetries := 3

  /** An error is a rate limit when its text mentions `rate_limit_error` or `429`. */
  predicate IsRateLimit(message: string)
  {
    Contains(message, "rate_limit_error") || Contains(message, "429")
  }

  predicate RateLimited(o: Outcome)
  {
    o.Failure? && IsRateLimit(o.message)
  }

  /** How `call_claude_with_retry` ends: it returns a reply, raises, or (when the
      attempt loop runs zero times) falls off its end and returns nothing. */
  datatype CallResult = Returned(text: string) | Raised(message: string) | NoResult

  /** A finished call: its result, what it did, and how many requests it made. */
  datatype Call = Call(result: CallResult, events: seq<Event>, requests: nat)

  /** The attempt loop from attempt `attempt` on, the next request being the run's n-th. */
  function Retry(llm: Oracle, n: nat, prompt: Prompt, attempt: nat, maxRetries: int): (c: Call)
    ensures c.result.NoResult? <==> attempt >= maxRetries
    decreases maxRetries - attempt
  {
    if attempt >= maxRetries then Call(NoResult, [], 0)
    else
      match llm(n, prompt)
      case Reply(t) => Call(Returned(t), [Request(prompt)], 1)
      case Failure(m) =>
        if !IsRateLimit(m) then Call(Raised(m), [Request(prompt)], 1)
        else if attempt < maxRetries - 1 then
          var rest := Retry(llm, n + 1, prompt, attempt + 1, maxRetries);
          Call(rest.result, [Request(prompt), Sleep((attempt + 1) * 30)] + rest.events, rest.requests + 1)
        else Call(Raised("Exceeded maximum retries: " + m), [Request(prompt)], 1)
  }

  /** `k` requests from attempt `a` on, with the linear backoff `(attempt + 1) * 30` between them. */
  function Attempts(prompt: Prompt, a: nat, k: nat): seq<Event>
    requires k >= 1
    decreases k
  {
    if k == 1 then [Request(prompt)]
    else [Request(prompt), Sleep((a + 1) * 30)] + Attempts(prompt, a + 1, k - 1)
  }

  /** The pauses of the linear backoff for `k` retries after attempt `a`: `(a + 1) * 30`, `(a + 2) * 30`, ... */
  function Backoff(a: nat, k: nat): seq<nat>
    decreases k
  {
    if k == 0 then [] else [(a + 1) * 30] + Backoff(a + 1, k - 1)
  }

  lemma EventsSingle(e: Event)
    ensures Prompts([e]) == (if e.Request? then [e.prompt] else [])
    ensures Waits([e]) == (if e.Sleep? then [e.seconds] else [])
  {
    assert [e][..0] == [];
  }

  lemma {:induction false} AttemptsShape(prompt: Prompt, a: nat, k: nat)
    requires k >= 1
    ensures Prompts(Attempts(prompt, a, k)) == Repeat(prompt, k)
    ensures Waits(Attempts(prompt, a, k)) == Backoff(a, k - 1)
    decreases k
  {
    EventsSingle(Request(prompt));
    if k > 1 {
      var head := [Request(prompt), Sleep((a + 1) * 30)];
      AttemptsShape(prompt, a + 1, k - 1);
      EventsAppend(head, Attempts(prompt, a + 1, k - 1));
      assert head == [Request(prompt)] + [Sleep((a + 1) * 30)];
      EventsAppend([Request(prompt)], [Sleep((a + 1) * 30)]);
      EventsSingle(Sleep((a + 1) * 30));
    }
  }

  /** How the last answer of a call decides its result; `onLast` says whether it was
      the answer to the last allowed attempt. */
  function Verdict(o: Outcome, onLast: bool): CallResult
  {
    match o
    case Reply(t) => Returned(t)
    case Failure(m) =>
      if !IsRateLimit(m) then Raised(m)
      else if onLast then Raised("Exceeded maximum retries: " + m)
      else NoResult
  }

  /** The number of requests a call from attempt `a` makes. */
  function Tries(llm: Oracle, n: nat, prompt: Prompt, a: nat, maxRetries: int): nat
  {
    Retry(llm, n, prompt, a, maxRetries).requests
  }

  /** The requests a call from attempt `a` makes: `k` of them, at most `maxRetries - a`,
      with the backoff pauses between them. */
  lemma {:induction false} RetryTrace(llm: Oracle, n: nat, prompt: Prompt, a: nat, maxRetries: int)
    requires a < maxRetries
    ensures 1 <= Tries(llm, n, prompt, a, maxRetries) <= maxRetries - a
    ensures Retry(llm, n, prompt, a, maxRetries).events == Attempts(prompt, a, Tries(llm, n, prompt, a, maxRetries))
    decreases maxRetries - a
  {
    if RateLimited(llm(n, prompt)) && a < maxRetries - 1 {
      RetryUnfold(llm, n, prompt, a, maxRetries);
      RetryTrace(llm, n + 1, prompt, a + 1, maxRetries);
    } else {
      RetryFirst(llm, n, prompt, a, maxRetries);
    }
  }

  /** A call only retries after a rate limit: every answer but the last was one. */
  lemma {:induction false} RetryOnlyAfterRateLimits(llm: Oracle, n: nat, prompt: Prompt, a: nat, maxRetries: int)
    requires a < maxRetries
    ensures forall i :: n <= i < n + Tries(llm, n, prompt, a, maxRetries) - 1 ==> RateLimited(llm(i, prompt))
    decreases maxRetries - a
  {
    if RateLimited(llm(n, prompt)) && a < maxRetries - 1 {
      TriesStep(llm, n, prompt, a, maxRetries);
      RetryOnlyAfterRateLimits(llm, n + 1, prompt, a + 1, maxRetries);
      var k' := Tries(llm, n + 1, prompt, a + 1, maxRetries);
      forall i | n <= i < n + k' ensures RateLimited(llm(i, prompt)) {
        if i > n {
          assert n + 1 <= i < (n + 1) + k' - 1;
        }
      }
    } else {
      TriesFirst(llm, n, prompt, a, maxRetries);
    }
  }

  /** The last answer of a call decides its result: its reply, its error re-raised, or,
      for a rate limit, which can only be the answer to the last allowed attempt,
      `Exceeded maximum retries`. */
  lemma {:induction false} RetryOutcome(llm: Oracle, n: nat, prompt: Prompt, a: nat, maxRetries: int)
    requires a < maxRetries
    ensures 1 <= Tries(llm, n, prompt, a, maxRetries)
    ensures RateLimited(llm(n + Tries(llm, n, prompt, a, maxRetries) - 1, prompt)) ==>
            a + Tries(llm, n, prompt, a, maxRetries) == maxRetries
    ensures Retry(llm, n, prompt, a, maxRetries).result ==
            Verdict(llm(n + Tries(llm, n, prompt, a, maxRetries) - 1, prompt), a + Tries(llm, n, prompt, a, maxRetries) == maxRetries)
    decreases maxRetries - a
  {
    if RateLimited(llm(n, prompt)) && a < maxRetries - 1 {
      RetryOutcome(llm, n + 1, prompt, a + 1, maxRetries);
      TriesStep(llm, n, prompt, a, maxRetries);
      var k' := Tries(llm, n + 1, prompt, a + 1, maxRetries);
      assert n + (k' + 1) - 1 == (n + 1) + k' - 1;
    } else {
      TriesFirst(llm, n, prompt, a, maxRetries);
    }
  }

  lemma TriesStep(llm: Oracle, n: nat, prompt: Prompt, a: nat, maxRetries: int)
    requires a < maxRetries - 1 && RateLimited(llm(n, prompt))
    ensures Tries(llm, n, prompt, a, maxRetries) == Tries(llm, n + 1, prompt, a + 1, maxRetries) + 1
    ensures Retry(llm, n, prompt, a, maxRetries).result == Retry(llm, n + 1, prompt, a + 1, maxRetries).result
  {
    RetryUnfold(llm, n, prompt, a, maxRetries);
  }

  /** An attempt that ends the call: one request, and the answer decides. */
  lemma RetryFirst(llm: Oracle, n: nat, prompt: Prompt, a: nat, maxRetries: int)
    requires a < maxRetries && !(RateLimited(llm(n, prompt)) && a < maxRetries - 1)
    ensures Retry(llm, n, prompt, a, maxRetries) == Call(Verdict(llm(n, prompt), a + 1 == maxRetries), [Request(prompt)], 1)
  {
  }

  lemma TriesFirst(llm: Oracle, n: nat, prompt: Prompt, a: nat, maxRetries: int)
    requires a < maxRetries && !(RateLimited(llm(n, prompt)) && a < maxRetries - 1)
    ensures Tries(llm, n, prompt, a, maxRetries) == 1
    ensures Retry(llm, n, prompt, a, maxRetries).result == Verdict(llm(n, prompt), a + 1 == maxRetries)
  {
    AttemptsShape(prompt, a, 1);
    assert Retry(llm, n, prompt, a, maxRetries).events == Attempts(prompt, a, 1);
  }

  /** A call with `k` earlier requests, whose events are `pre`, in front of it. */
  function Prefixed(pre: seq<Event>, k: nat, c: Call): Call
  {
    Call(c.result, pre + c.events, k + c.requests)
  }

  /** One rate-limited attempt that is not the last: a request, a pause, and the rest. */
  lemma RetryUnfold(llm: Oracle, n: nat, prompt: Prompt, a: nat, maxRetries: int)
    requires a < maxRetries - 1 && RateLimited(llm(n, prompt))
    ensures Retry(llm, n, prompt, a, maxRetries) ==
            Prefixed([Request(prompt), Sleep((a + 1) * 30)], 1, Retry(llm, n + 1, prompt, a + 1, maxRetries))
  {
  }

  /** With the default three attempts the pauses are 30 and then 60 seconds: never 90. */
  lemma DefaultBackoff(llm: Oracle, n: nat, prompt: Prompt)
    ensures var c := Retry(llm, n, prompt, 0, MaxRetries);
            |Prompts(c.events)| <= 3 &&
            (Waits(c.events) == [] || Waits(c.events) == [30] || Waits(c.events) == [30, 60])
  {
    var c := Retry(llm, n, prompt, 0, MaxRetries);
    RetryTrace(llm, n, prompt, 0, MaxRetries);
    var k := Tries(llm, n, prompt, 0, MaxRetries);
    AttemptsShape(prompt, 0, k);
    assert Backoff(2, 0) == [];
    assert Backoff(1, 1) == [60];
  }

  /** Two rate limits and then a reply: three requests, 90 seconds of pauses, the third reply. */
  lemma RateLimitedTwiceThenReply(llm: Oracle, n: nat, prompt: Prompt)
    requires RateLimited(llm(n, prompt)) && RateLimited(llm(n + 1, prompt)) && llm(n + 2, prompt).Reply?
    ensures Retry(llm, n, prompt, 0, MaxRetries) ==
            Call(Returned(llm(n + 2, prompt).text), [Request(prompt), Sleep(30), Request(prompt), Sleep(60), Request(prompt)], 3)
  {
    var c := Retry(llm, n, prompt, 0, MaxRetries);
    RetryTrace(llm, n, prompt, 0, MaxRetries);
    assert Attempts(prompt, 0, 3) == [Request(prompt), Sleep(30), Request(prompt), Sleep(60), Request(prompt)];
  }

  /** The attempt loop's invariant: the call so far, `events`, followed by what the
      remaining attempts do, is the whole call. */
  ghost predicate Resumes(llm: Oracle, n: nat, prompt: Prompt, maxRetries: int, events: seq<Event>, attempt: nat)
  {
    Retry(llm, n, prompt, 0, maxRetries) == Prefixed(events, attempt, Retry(llm, n + attempt, prompt, attempt, maxRetries))
  }

  lemma ResumesStart(llm: Oracle, n: nat, prompt: Prompt, maxRetries: int)
    ensures Resumes(llm, n, prompt, maxRetries, [], 0)
  {
    assert [] + Retry(llm, n, prompt, 0, maxRetries).events == Retry(llm, n, prompt, 0, maxRetries).events;
  }

  lemma ResumesRetry(llm: Oracle, n: nat, prompt: Prompt, maxRetries: int, events: seq<Event>, attempt: nat)
    requires Resumes(llm, n, prompt, maxRetries, events, attempt)
    requires attempt < maxRetries - 1 && RateLimited(llm(n + attempt, prompt))
    ensures Resumes(llm, n, prompt, maxRetries, events + [Request(prompt), Sleep((attempt + 1) * 30)], attempt + 1)
  {
    RetryUnfold(llm, n + attempt, prompt, attempt, maxRetries);
    var rest := Retry(llm, n + attempt + 1, prompt, attempt + 1, maxRetries);
    assert events + ([Request(prompt), Sleep((attempt + 1) * 30)] + rest.events) ==
           (events + [Request(prompt), Sleep((attempt + 1) * 30)]) + rest.events;
  }

  lemma ResumesEnd(llm: Oracle, n: nat, prompt: Prompt, maxRetries: int, events: seq<Event>, attempt: nat)
    requires Resumes(llm, n, prompt, maxRetries, events, attempt)
    requires attempt < maxRetries && !(RateLimited(llm(n + attempt, prompt)) && attempt < maxRetries - 1)
    ensures Retry(llm, n, prompt, 0, maxRetries) ==
            Call(Verdict(llm(n + attempt, prompt), attempt + 1 == maxRetries), events + [Request(prompt)], attempt + 1)
  {
    RetryFirst(llm, n + attempt, prompt, attempt, maxRetries);
  }

  lemma ResumesNone(llm: Oracle, n: nat, prompt: Prompt, maxRetries: int, events: seq<Event>, attempt: nat)
    requires Resumes(llm, n, prompt, maxRetries, events, attempt)
    requires attempt >= maxRetries
    ensures Retry(llm, n, prompt, 0, maxRetries) == Call(NoResult, events, attempt)
  {
    assert events + [] == events;
  }

  /** `call_claude_with_retry(client, prompt, max_retries)`, its first request being the run's n-th. */
  method CallWithRetry(llm: Oracle, n: nat, prompt: Prompt, maxRetries: int) returns (c: Call)
    ensures c == Retry(llm, n, prompt, 0, maxRetries)
  {
    var events: seq<Event> := [];
    var attempt: nat := 0;
    ResumesStart(llm, n, prompt, maxRetries);
    while attempt < maxRetries
      invariant Resumes(llm, n, prompt, maxRetries, events, attempt)
      decreases maxRetries - attempt
    {
      var outcome := llm(n + attempt, prompt);
      if outcome.Reply? {
        ResumesEnd(llm, n, prompt, maxRetries, events, attempt);
        return Call(Returned(outcome.text), events + [Request(prompt)], attempt + 1);
      }
      var error := outcome.message;
      if !IsRateLimit(error) {
        ResumesEnd(llm, n, prompt, maxRetries, events, attempt);
        return Call(Raised(error), events + [Request(prompt)], attempt + 1);
      }
      if attempt >= maxRetries - 1 {
        ResumesEnd(llm, n, prompt, maxRetries, events, attempt);
        return Call(Raised("Exceeded maximum retries: " + error), events + [Request(prompt)], attempt + 1);
      }
      ResumesRetry(llm, n, prompt, maxRetries, events, attempt);
      events := events + [Request(prompt), Sleep((attempt + 1) * 30)];
      attempt := attempt + 1;
    }
    ResumesNone(llm, n, prompt, maxRetries, events, attempt);
    c := Call(NoResult, events, attempt);
  }

  // ---------------------------------------------------------------- generators

  /** A generator's outcome: the summary, or the placeholder text that replaces an
      error (the generators never raise), and what the run did. */
  datatype Run = Run(text: string, events: seq<Event>, requests: nat)

  const SummaryFailed := "Failed to generate summary: "
  const YearlySummaryFailed := "Failed to generate yearly summary: "

  /** The token estimate below which a year is summarised in one request. */
  const BatchLimit := 25000

  /** The tail of every generator: on a reply, pause two seconds and return it; on an
      error, return `failure` followed by the error's text, without the pause. */
  function Settle(c: Call, failure: string): Run
    requires !c.result.NoResult?
  {
    if c.result.Returned? then Run(c.result.text, c.events + [Sleep(2)], c.requests)
    else Run(failure + c.result.message, c.events, c.requests)
  }

  /** A whole model call: one to `maxRetries` requests with the same prompt and the
      backoff pauses between them. */
  lemma CallShape(llm: Oracle, n: nat, prompt: Prompt, maxRetries: int)
    requires 0 < maxRetries
    ensures 1 <= Tries(llm, n, prompt, 0, maxRetries) <= maxRetries
    ensures Prompts(Retry(llm, n, prompt, 0, maxRetries).events) == Repeat(prompt, Tries(llm, n, prompt, 0, maxRetries))
    ensures Waits(Retry(llm, n, prompt, 0, maxRetries).events) == Backoff(0, Tries(llm, n, prompt, 0, maxRetries) - 1)
  {
    RetryTrace(llm, n, prompt, 0, maxRetries);
    AttemptsShape(prompt, 0, Tries(llm, n, prompt, 0, maxRetries));
  }

  /** A call whose last answer is a reply: the requests of the call, then the reply
      and a two-second pause. */
  lemma SettleOnReply(llm: Oracle, n: nat, prompt: Prompt, failure: string)
    requires llm(n + Tries(llm, n, prompt, 0, MaxRetries) - 1, prompt).Reply?
    ensures var r := Settle(Retry(llm, n, prompt, 0, MaxRetries), failure);
            var k := Tries(llm, n, prompt, 0, MaxRetries);
            1 <= k <= MaxRetries &&
            r.text == llm(n + k - 1, prompt).text &&
            Prompts(r.events) == Repeat(prompt, k) &&
            Waits(r.events) == Backoff(0, k - 1) + [2]
  {
    var c := Retry(llm, n, prompt, 0, MaxRetries);
    CallShape(llm, n, prompt, MaxRetries);
    ReplyVerdict(llm, n, prompt);
    EventsAppend(c.events, [Sleep(2)]);
    EventsSingle(Sleep(2));
    assert Settle(c, failure).events == c.events + [Sleep(2)];
  }

  /** A call whose last answer is a reply returns that reply's text. */
  lemma ReplyVerdict(llm: Oracle, n: nat, prompt: Prompt)
    requires llm(n + Tries(llm, n, prompt, 0, MaxRetries) - 1, prompt).Reply?
    ensures Retry(llm, n, prompt, 0, MaxRetries).result == Returned(llm(n + Tries(llm, n, prompt, 0, MaxRetries) - 1, prompt).text)
  {
    RetryOutcome(llm, n, prompt, 0, MaxRetries);
  }

  /** Whatever the last answer, a settled call made one to `MaxRetries` requests, all
      with its prompt, and its request count is the number of prompts it sent. */
  lemma SettlePrompts(llm: Oracle, n: nat, prompt: Prompt, failure: string)
    ensures var r := Settle(Retry(llm, n, prompt, 0, MaxRetries), failure);
            1 <= r.requests <= MaxRetries && Prompts(r.events) == Repeat(prompt, r.requests)
  {
    var c := Retry(llm, n, prompt, 0, MaxRetries);
    CallShape(llm, n, prompt, MaxRetries);
    if c.result.Returned? {
      EventsAppend(c.events, [Sleep(2)]);
      EventsSingle(Sleep(2));
    }
  }

  /** A call whose last answer is an error: the generator does not raise; it returns
      the placeholder followed by the error's text, with no final pause. */
  lemma SettleOnError(llm: Oracle, n: nat, prompt: Prompt, failure: string)
    requires llm(n + Tries(llm, n, prompt, 0, MaxRetries) - 1, prompt).Failure?
    ensures var r := Settle(Retry(llm, n, prompt, 0, MaxRetries), failure);
            var k := Tries(llm, n, prompt, 0, MaxRetries);
            var m := llm(n + k - 1, prompt).message;
            1 <= k <= MaxRetries &&
            r.text == failure + (if IsRateLimit(m) then "Exceeded maximum retries: " else "") + m &&
            Prompts(r.events) == Repeat(prompt, k) &&
            Waits(r.events) == Backoff(0, k - 1)
  {
    var c := Retry(llm, n, prompt, 0, MaxRetries);
    CallShape(llm, n, prompt, MaxRetries);
    ErrorVerdict(llm, n, prompt);
    assert Settle(c, failure).events == c.events;
  }

  /** A call whose last answer is an error raises that error's text, marked when it
      was a rate limit (which only the last attempt can end on). */
  lemma ErrorVerdict(llm: Oracle, n: nat, prompt: Prompt)
    requires llm(n + Tries(llm, n, prompt, 0, MaxRetries) - 1, prompt).Failure?
    ensures var m := llm(n + Tries(llm, n, prompt, 0, MaxRetries) - 1, prompt).message;
            Retry(llm, n, prompt, 0, MaxRetries).result == Raised((if IsRateLimit(m) then "Exceeded maximum retries: " else "") + m)
  {
    var k := Tries(llm, n, prompt, 0, MaxRetries);
    RetryOutcome(llm, n, prompt, 0, MaxRetries);
    var o := llm(n + k - 1, prompt);
    assert IsRateLimit(o.message) ==> k == MaxRetries;
    FailureVerdict(o, k == MaxRetries);
  }

  /** The verdict on an error that is final: its text, marked when it was a rate limit. */
  lemma FailureVerdict(o: Outcome, onLast: bool)
    requires o.Failure? && (IsRateLimit(o.message) ==> onLast)
    ensures Verdict(o, onLast) == Raised((if IsRateLimit(o.message) then "Exceeded maximum retries: " else "") + o.message)
  {
  }

  /** `generate_monthly_summary(year, month, diaries, client)`, first request the run's n-th. */
  function MonthlySummary(llm: Oracle, n: nat, year: nat, month: nat, diaries: seq<DiaryEntry>): Run
  {
    Settle(Retry(llm, n, MonthPrompt(year, month, JoinEntries(diaries)), 0, MaxRetries), SummaryFailed)
  }

  method GenerateMonthlySummary(llm: Oracle, n: nat, year: nat, month: nat, diaries: seq<DiaryEntry>) returns (r: Run)
    ensures r == MonthlySummary(llm, n, year, month, diaries)
  {
    var totalContent := JoinEntries(diaries);
    var c := CallWithRetry(llm, n, MonthPrompt(year, month, totalContent), MaxRetries);
    r := Settle(c, SummaryFailed);
  }

  /** `【Part i Summary】` and a line break, heading the i-th batch summary (counted from 1). */
  function PartLabel(i: nat): string
  {
    "【Part " + NatToString(i) + " Summary】\n"
  }

  /** The batch summaries, each under its label, separated by blank lines. */
  function MergeText(summaries: seq<string>): string
  {
    Join(seq(|summaries|, i requires 0 <= i < |summaries| => PartLabel(i + 1) + summaries[i]), "\n\n")
  }

  /** The parts appear in batch order: one more summary appends its labelled section. */
  lemma MergeTextSnoc(summaries: seq<string>, s: string)
    requires summaries != []
    ensures MergeText(summaries + [s]) == MergeText(summaries) + "\n\n" + PartLabel(|summaries| + 1) + s
  {
    var all := summaries + [s];
    var labelled := seq(|all|, i requires 0 <= i < |all| => PartLabel(i + 1) + all[i]);
    assert labelled[..|labelled| - 1] == seq(|summaries|, i requires 0 <= i < |summaries| => PartLabel(i + 1) + summaries[i]);
    JoinSnoc(labelled, "\n\n");
  }

  /** The state of the batch loop: the summaries so far, what the run did, and the
      error that ended the loop, if one did. */
  datatype Parts = Parts(summaries: seq<string>, events: seq<Event>, requests: nat, failure: Option<string>)

  /** The batch loop after its first `i` batches: one call per batch and a 65-second
      pause after every batch but the last; an error stops the loop. */
  function PartsUpTo(llm: Oracle, n: nat, year: nat, batches: seq<seq<DiaryEntry>>, i: nat): Parts
    requires i <= |batches|
  {
    if i == 0 then Parts([], [], 0, None)
    else
      var p := PartsUpTo(llm, n, year, batches, i - 1);
      if p.failure.Some? then p
      else
        var c := Retry(llm, n + p.requests, PartPrompt(year, JoinEntries(batches[i - 1])), 0, MaxRetries);
        if c.result.Raised? then Parts(p.summaries, p.events + c.events, p.requests + c.requests, Some(c.result.message))
        else Parts(p.summaries + [c.result.text], p.events + c.events + (if i < |batches| then [Sleep(65)] else []),
                   p.requests + c.requests, None)
  }

  /** The final merge request of the batched path, after a batch loop without errors. */
  function MergeRun(llm: Oracle, n: nat, year: nat, parts: Parts): Run
  {
    var s := Settle(Retry(llm, n + parts.requests, MergePrompt(year, MergeText(parts.summaries)), 0, MaxRetries), SummaryFailed);
    Run(s.text, parts.events + s.events, parts.requests + s.requests)
  }

  /** The batched path: a batch loop, then the merge unless a batch failed. */
  function BatchedSummary(llm: Oracle, n: nat, year: nat, diaries: seq<DiaryEntry>): Run
  {
    var batches := Pack(diaries, EntryCost, BatchLimit);
    var parts := PartsUpTo(llm, n, year, batches, |batches|);
    if parts.failure.Some? then Run(SummaryFailed + parts.failure.value, parts.events, parts.requests)
    else MergeRun(llm, n, year, parts)
  }

  /** `generate_yearly_summary(year, diaries, client)`, first request the run's n-th: one
      request for a year estimated below 25000 tokens, otherwise one per batch and a
      final merge of the labelled batch summaries. */
  function YearlySummary(llm: Oracle, n: nat, year: nat, diaries: seq<DiaryEntry>): Run
  {
    var total := JoinEntries(diaries);
    if Estimate(total) < BatchLimit then Settle(Retry(llm, n, YearPrompt(year, total), 0, MaxRetries), SummaryFailed)
    else BatchedSummary(llm, n, year, diaries)
  }

  /** Once a batch has failed, later iterations change nothing. */
  lemma {:induction false} PartsFailureSticks(llm: Oracle, n: nat, year: nat, batches: seq<seq<DiaryEntry>>, i: nat, j: nat)
    requires i <= j <= |batches|
    requires PartsUpTo(llm, n, year, batches, i).failure.Some?
    ensures PartsUpTo(llm, n, year, batches, j) == PartsUpTo(llm, n, year, batches, i)
    decreases j
  {
    if j > i {
      PartsFailureSticks(llm, n, year, batches, i, j - 1);
    }
  }

  /** One iteration of the batch loop, given the state before it and the call it makes
      for batch `i`. */
  lemma PartsStep(llm: Oracle, n: nat, year: nat, batches: seq<seq<DiaryEntry>>, i: nat, parts: Parts, c: Call)
    requires i < |batches| && PartsUpTo(llm, n, year, batches, i) == parts && parts.failure.None?
    requires c == Retry(llm, n + parts.requests, PartPrompt(year, JoinEntries(batches[i])), 0, MaxRetries)
    ensures PartsUpTo(llm, n, year, batches, i + 1) == PartsNext(parts, c, i + 1 < |batches|)
  {
  }

  /** The loop state after one more batch whose call ended with `c`. */
  function PartsNext(parts: Parts, c: Call, more: bool): Parts
    requires !c.result.NoResult?
  {
    if c.result.Raised? then Parts(parts.summaries, parts.events + c.events, parts.requests + c.requests, Some(c.result.message))
    else Parts(parts.summaries + [c.result.text], parts.events + c.events + (if more then [Sleep(65)] else []),
               parts.requests + c.requests, None)
  }

  /** The batch loop of `generate_yearly_summary`: stops at the first batch whose call raises. */
  method SummarizeBatches(llm: Oracle, n: nat, year: nat, batches: seq<seq<DiaryEntry>>) returns (parts: Parts)
    ensures parts == PartsUpTo(llm, n, year, batches, |batches|)
  {
    parts := Parts([], [], 0, None);
    for i := 0 to |batches|
      invariant parts == PartsUpTo(llm, n, year, batches, i) && parts.failure.None?
    {
      var c := CallWithRetry(llm, n + parts.requests, PartPrompt(year, JoinEntries(batches[i])), MaxRetries);
      PartsStep(llm, n, year, batches, i, parts, c);
      parts := PartsNext(parts, c, i + 1 < |batches|);
      if parts.failure.Some? {
        PartsFailureSticks(llm, n, year, batches, i + 1, |batches|);
        return;
      }
    }
  }

  /** `BatchedSummary` given the outcome of its batch loop. */
  lemma BatchedSummaryIs(llm: Oracle, n: nat, year: nat, diaries: seq<DiaryEntry>, parts: Parts)
    requires parts == PartsUpTo(llm, n, year, Pack(diaries, EntryCost, BatchLimit), |Pack(diaries, EntryCost, BatchLimit)|)
    ensures BatchedSummary(llm, n, year, diaries) ==
            if parts.failure.Some? then Run(SummaryFailed + parts.failure.value, parts.events, parts.requests)
            else MergeRun(llm, n, year, parts)
  {
  }

  /** The batched path of `generate_yearly_summary`. */
  method GenerateBatchedSummary(llm: Oracle, n: nat, year: nat, diaries: seq<DiaryEntry>) returns (r: Run)
    ensures r == BatchedSummary(llm, n, year, diaries)
  {
    var batches := SplitIntoBatches(diaries, BatchLimit);
    var parts := SummarizeBatches(llm, n, year, batches);
    BatchedSummaryIs(llm, n, year, diaries, parts);
    if parts.failure.Some? {
      return Run(SummaryFailed + parts.failure.value, parts.events, parts.requests);
    }
    r := MergeSummaries(llm, n, year, parts);
  }

  /** The merge step: one call over the labelled batch summaries. */
  method MergeSummaries(llm: Oracle, n: nat, year: nat, parts: Parts) returns (r: Run)
    ensures r == MergeRun(llm, n, year, parts)
  {
    var c := CallWithRetry(llm, n + parts.requests, MergePrompt(year, MergeText(parts.summaries)), MaxRetries);
    var s := Settle(c, SummaryFailed);
    r := Run(s.text, parts.events + s.events, parts.requests + s.requests);
  }

  method GenerateYearlySummary(llm: Oracle, n: nat, year: nat, diaries: seq<DiaryEntry>) returns (r: Run)
    ensures r == YearlySummary(llm, n, year, diaries)
  {
    var totalContent := JoinEntries(diaries);
    if Estimate(totalContent) < BatchLimit {
      var c := CallWithRetry(llm, n, YearPrompt(year, totalContent), MaxRetries);
      r := Settle(c, SummaryFailed);
    } else {
      r := GenerateBatchedSummary(llm, n, year, diaries);
    }
  }

  /** The prompts of the batch loop, one per batch in batch order. */
  function PartPrompts(year: nat, batches: seq<seq<DiaryEntry>>): (prompts: seq<Prompt>)
    ensures |prompts| == |batches|
  {
    if batches == [] then []
    else PartPrompts(year, batches[..|batches| - 1]) + [PartPrompt(year, JoinEntries(batches[|batches| - 1]))]
  }

  /** The texts a model that always answers gives to `prompts` sent as the n-th, (n+1)-th, ...
      requests. */
  function Replies(llm: Oracle, n: nat, prompts: seq<Prompt>): seq<string>
    requires AlwaysReplies(llm)
  {
    if prompts == [] then []
    else Replies(llm, n, prompts[..|prompts| - 1]) + [llm(n + |prompts| - 1, prompts[|prompts| - 1]).text]
  }

  /** A first answer that is a reply ends the call after one request. */
  lemma RetryOnReply(llm: Oracle, n: nat, prompt: Prompt)
    requires llm(n, prompt).Reply?
    ensures Retry(llm, n, prompt, 0, MaxRetries) == Call(Returned(llm(n, prompt).text), [Request(prompt)], 1)
  {
  }

  lemma RequestThenSleep(prompt: Prompt, seconds: nat)
    ensures Prompts([Request(prompt), Sleep(seconds)]) == [prompt]
    ensures Waits([Request(prompt), Sleep(seconds)]) == [seconds]
  {
    assert [Request(prompt), Sleep(seconds)][..1] == [Request(prompt)];
    EventsSingle(Request(prompt));
  }

  /** `prompts` sent one after another as the first of `total` batch requests: a
      65-second pause follows every request but the last of the `total`. */
  function Paced(prompts: seq<Prompt>, total: nat): seq<Event>
    requires |prompts| <= total
  {
    if prompts == [] then []
    else Paced(prompts[..|prompts| - 1], total) + PacedStep(prompts[|prompts| - 1], |prompts| < total)
  }

  /** What one paced request adds to the trace: its request and, unless it is the
      last batch, the 65-second pause. */
  function PacedStep(prompt: Prompt, more: bool): seq<Event>
  {
    [Request(prompt)] + (if more then [Sleep(65)] else [])
  }

  lemma PacedTail(prompt: Prompt, more: bool)
    ensures Prompts(PacedStep(prompt, more)) == [prompt]
    ensures Waits(PacedStep(prompt, more)) == (if more then [65] else [])
  {
    if more {
      RequestThenSleep(prompt, 65);
    } else {
      assert [Request(prompt)] + [] == [Request(prompt)];
      EventsSingle(Request(prompt));
    }
  }

  /** The requests of a paced run are the given prompts, in order. */
  lemma {:induction false} PacedPrompts(prompts: seq<Prompt>, total: nat)
    requires |prompts| <= total
    ensures Prompts(Paced(prompts, total)) == prompts
    decreases |prompts|
  {
    if prompts != [] {
      var init := prompts[..|prompts| - 1];
      var last := prompts[|prompts| - 1];
      var tail := PacedStep(last, |prompts| < total);
      PacedPrompts(init, total);
      EventsAppend(Paced(init, total), tail);
      PacedTail(last, |prompts| < total);
      assert prompts == init + [last];
    }
  }

  /** The pauses of a paced run: 65 seconds after each request but the last of the `total`. */
  lemma {:induction false} PacedWaits(prompts: seq<Prompt>, total: nat)
    requires |prompts| <= total
    ensures Waits(Paced(prompts, total)) == Repeat(65, if 0 < |prompts| == total then |prompts| - 1 else |prompts|)
    decreases |prompts|
  {
    if prompts != [] {
      var init := prompts[..|prompts| - 1];
      var last := prompts[|prompts| - 1];
      var tail := PacedStep(last, |prompts| < total);
      PacedWaits(init, total);
      EventsAppend(Paced(init, total), tail);
      PacedTail(last, |prompts| < total);
      assert |init| < total;
      if |prompts| < total {
        RepeatSnoc(65, |init|);
        assert Waits(tail) == [65];
      } else {
        assert Waits(tail) == [];
      }
    }
  }

  /** The batch loop after `i` batches when every call is answered at once: batch `j`
      is the run's (n + j)-th request and its answer is the batch summary. */
  function Answered(llm: Oracle, n: nat, year: nat, batches: seq<seq<DiaryEntry>>, i: nat): Parts
    requires AlwaysReplies(llm) && i <= |batches|
  {
    var prompts := PartPrompts(year, batches[..i]);
    Parts(Replies(llm, n, prompts), Paced(prompts, |batches|), i, None)
  }

  /** The batch prompts of the first `i + 1` batches extend those of the first `i`. */
  lemma PartPromptsSnoc(year: nat, batches: seq<seq<DiaryEntry>>, i: nat)
    requires i < |batches|
    ensures PartPrompts(year, batches[..i + 1]) == PartPrompts(year, batches[..i]) + [PartPrompt(year, JoinEntries(batches[i]))]
  {
    assert batches[..i + 1][..i] == batches[..i];
  }

  /** One iteration of the batch loop when the model answers at once. */
  lemma AnsweredStep(llm: Oracle, n: nat, year: nat, batches: seq<seq<DiaryEntry>>, i: nat)
    requires AlwaysReplies(llm) && i < |batches|
    requires PartsUpTo(llm, n, year, batches, i) == Answered(llm, n, year, batches, i)
    ensures PartsUpTo(llm, n, year, batches, i + 1) == Answered(llm, n, year, batches, i + 1)
  {
    var prompt := PartPrompt(year, JoinEntries(batches[i]));
    var before := PartPrompts(year, batches[..i]);
    var after := PartPrompts(year, batches[..i + 1]);
    PartPromptsSnoc(year, batches, i);
    assert after[..i] == before;
    assert after[i] == prompt;
    RetryOnReply(llm, n + i, prompt);
  }

  /** With a model that always answers, no batch fails and the loop is `Answered`. */
  lemma {:induction false} PartsAllReply(llm: Oracle, n: nat, year: nat, batches: seq<seq<DiaryEntry>>, i: nat)
    requires AlwaysReplies(llm) && i <= |batches|
    ensures PartsUpTo(llm, n, year, batches, i) == Answered(llm, n, year, batches, i)
    decreases i
  {
    if i > 0 {
      PartsAllReply(llm, n, year, batches, i - 1);
      AnsweredStep(llm, n, year, batches, i - 1);
    }
  }

  /** The batched path with a model that always answers: the paced batch requests, then
      the merge request over the batch summaries and the two-second pause. */
  lemma BatchedReplies(llm: Oracle, n: nat, year: nat, diaries: seq<DiaryEntry>)
    requires AlwaysReplies(llm)
    ensures var batches := Pack(diaries, EntryCost, BatchLimit);
            var prompts := PartPrompts(year, batches);
            var merge := MergePrompt(year, MergeText(Replies(llm, n, prompts)));
            BatchedSummary(llm, n, year, diaries) ==
              Run(llm(n + |batches|, merge).text, Paced(prompts, |batches|) + [Request(merge), Sleep(2)], |batches| + 1)
  {
    var batches := Pack(diaries, EntryCost, BatchLimit);
    PartsAllReply(llm, n, year, batches, |batches|);
    assert batches[..|batches|] == batches;
    var prompts := PartPrompts(year, batches);
    var merge := MergePrompt(year, MergeText(Replies(llm, n, prompts)));
    RetryOnReply(llm, n + |batches|, merge);
  }

  /** A year over the batching threshold, with a model that always answers: one request
      per batch, 65-second pauses between them, then one merge request over the batch
      summaries in batch order, whose answer is the yearly summary. */
  lemma YearlyBatchedReplies(llm: Oracle, n: nat, year: nat, diaries: seq<DiaryEntry>)
    requires AlwaysReplies(llm) && Estimate(JoinEntries(diaries)) >= BatchLimit
    ensures var batches := Pack(diaries, EntryCost, BatchLimit);
            var prompts := PartPrompts(year, batches);
            var merge := MergePrompt(year, MergeText(Replies(llm, n, prompts)));
            var r := YearlySummary(llm, n, year, diaries);
            |batches| >= 1 && Flatten(batches) == diaries && r.requests == |batches| + 1 &&
            Prompts(r.events) == prompts + [merge] &&
            Waits(r.events) == Repeat(65, |batches| - 1) + [2] &&
            r.text == llm(n + |batches|, merge).text
  {
    var batches := Pack(diaries, EntryCost, BatchLimit);
    PackIsGreedy(diaries, EntryCost, BatchLimit);
    assert Estimate(JoinEntries([])) == 0;
    assert batches != [];
    var prompts := PartPrompts(year, batches);
    var merge := MergePrompt(year, MergeText(Replies(llm, n, prompts)));
    BatchedReplies(llm, n, year, diaries);
    PacedPrompts(prompts, |batches|);
    PacedWaits(prompts, |batches|);
    RequestThenSleep(merge, 2);
    EventsAppend(Paced(prompts, |batches|), [Request(merge), Sleep(2)]);
  }

  /** A year under the batching threshold, with a model that always answers: a single
      request carrying every diary of the year, then the two-second pause. */
  lemma YearlyDirectReplies(llm: Oracle, n: nat, year: nat, diaries: seq<DiaryEntry>)
    requires AlwaysReplies(llm) && Estimate(JoinEntries(diaries)) < BatchLimit
    ensures var prompt := YearPrompt(year, JoinEntries(diaries));
            YearlySummary(llm, n, year, diaries) == Run(llm(n, prompt).text, [Request(prompt), Sleep(2)], 1)
  {
    RetryOnReply(llm, n, YearPrompt(year, JoinEntries(diaries)));
  }

  /** Every request in `events` carries a batch prompt. */
  ghost predicate OnlyPartPrompts(events: seq<Event>)
  {
    forall p :: p in Prompts(events) ==> p.PartPrompt?
  }

  /** Appending the requests of one batch call, and possibly the pause after it, keeps
      every request a batch prompt. */
  lemma AppendPartCall(events: seq<Event>, call: seq<Event>, prompt: Prompt, k: nat, tail: seq<Event>)
    requires OnlyPartPrompts(events) && prompt.PartPrompt?
    requires Prompts(call) == Repeat(prompt, k)
    requires tail == [] || tail == [Sleep(65)]
    ensures OnlyPartPrompts(events + call + tail)
  {
    EventsAppend(events, call);
    EventsAppend(events + call, tail);
    if tail != [] {
      EventsSingle(Sleep(65));
    }
  }

  /** One iteration of the batch loop sends only the batch prompt. */
  lemma PartPromptsStep(llm: Oracle, n: nat, year: nat, batches: seq<seq<DiaryEntry>>, i: nat)
    requires i < |batches| && OnlyPartPrompts(PartsUpTo(llm, n, year, batches, i).events)
    ensures OnlyPartPrompts(PartsUpTo(llm, n, year, batches, i + 1).events)
  {
    var p := PartsUpTo(llm, n, year, batches, i);
    if p.failure.None? {
      var prompt := PartPrompt(year, JoinEntries(batches[i]));
      var c := Retry(llm, n + p.requests, prompt, 0, MaxRetries);
      CallShape(llm, n + p.requests, prompt, MaxRetries);
      var tail: seq<Event> := if !c.result.Raised? && i + 1 < |batches| then [Sleep(65)] else [];
      AppendPartCall(p.events, c.events, prompt, Tries(llm, n + p.requests, prompt, 0, MaxRetries), tail);
      assert PartsUpTo(llm, n, year, batches, i + 1).events == p.events + c.events + tail;
    }
  }

  /** Every request of the batch loop is a batch prompt. */
  lemma {:induction false} PartsOnlyPartPrompts(llm: Oracle, n: nat, year: nat, batches: seq<seq<DiaryEntry>>, i: nat)
    requires i <= |batches|
    ensures OnlyPartPrompts(PartsUpTo(llm, n, year, batches, i).events)
    decreases i
  {
    if i == 0 {
      assert Prompts([]) == [];
    } else {
      PartsOnlyPartPrompts(llm, n, year, batches, i - 1);
      PartPromptsStep(llm, n, year, batches, i - 1);
    }
  }

  /** When a batch fails, the yearly summary is the placeholder with that batch's error,
      and no merge request is sent. */
  lemma YearlyBatchFailure(llm: Oracle, n: nat, year: nat, diaries: seq<DiaryEntry>)
    requires Estimate(JoinEntries(diaries)) >= BatchLimit
    requires var batches := Pack(diaries, EntryCost, BatchLimit);
             PartsUpTo(llm, n, year, batches, |batches|).failure.Some?
    ensures var batches := Pack(diaries, EntryCost, BatchLimit);
            var r := YearlySummary(llm, n, year, diaries);
            r.text == SummaryFailed + PartsUpTo(llm, n, year, batches, |batches|).failure.value &&
            forall p :: p in Prompts(r.events) ==> p.PartPrompt?
  {
    var batches := Pack(diaries, EntryCost, BatchLimit);
    PartsOnlyPartPrompts(llm, n, year, batches, |batches|);
  }

  /** The heading of a month's section: a blank line, then `【<year> Year <month> Month】`. */
  function MonthHeader(year: nat, month: nat): string
  {
    "\n\n【" + NatToString(year) + " Year " + NatToString(month) + " Month】\n"
  }

  /** The sections of the listed months, in list order. */
  function Digest(year: nat, months: seq<nat>, summaries: map<nat, string>): string
    requires forall m :: m in months ==> m in summaries
  {
    if months == [] then ""
    else Digest(year, months[..|months| - 1], summaries) + MonthHeader(year, months[|months| - 1]) + summaries[months[|months| - 1]]
  }

  /** The text the yearly-from-monthly prompt carries: every month's section, in month order. */
  function MonthlyDigest(year: nat, summaries: map<nat, string>): string
  {
    Digest(year, SortedKeys(summaries.Keys), summaries)
  }

  lemma {:induction false} DigestFrame(year: nat, months: seq<nat>, s1: map<nat, string>, s2: map<nat, string>)
    requires forall m :: m in months ==> m in s1 && m in s2 && s1[m] == s2[m]
    ensures Digest(year, months, s1) == Digest(year, months, s2)
    decreases |months|
  {
    if months != [] {
      DigestFrame(year, months[..|months| - 1], s1, s2);
    }
  }

  /** Months are concatenated in ascending order: a month later than all others adds
      its section at the end. */
  lemma MonthlyDigestLaterMonth(year: nat, summaries: map<nat, string>, month: nat, text: string)
    requires forall m :: m in summaries ==> m < month
    ensures MonthlyDigest(year, summaries[month := text]) == MonthlyDigest(year, summaries) + MonthHeader(year, month) + text
  {
    var s' := summaries[month := text];
    assert s'.Keys == summaries.Keys + {month};
    SortedKeysAddMax(summaries.Keys, month);
    var ks := SortedKeys(summaries.Keys);
    var ks' := SortedKeys(s'.Keys);
    assert ks'[..|ks'| - 1] == ks;
    DigestFrame(year, ks, summaries, s');
  }

  /** `generate_yearly_summary_from_monthly(year, monthly_summaries, client)`. */
  function YearlyFromMonthly(llm: Oracle, n: nat, year: nat, summaries: map<nat, string>): Run
  {
    Settle(Retry(llm, n, FromMonthlyPrompt(year, MonthlyDigest(year, summaries)), 0, MaxRetries), YearlySummaryFailed)
  }

  /** The loop of `generate_yearly_summary_from_monthly` that concatenates the sections. */
  method CombineMonthly(year: nat, summaries: map<nat, string>) returns (combined: string)
    ensures combined == MonthlyDigest(year, summaries)
  {
    combined := "";
    var months := SortedKeys(summaries.Keys);
    for i := 0 to |months|
      invariant forall m :: m in months[..i] ==> m in summaries
      invariant combined == Digest(year, months[..i], summaries)
    {
      DigestSnoc(year, months, i, summaries);
      combined := combined + MonthHeader(year, months[i]) + summaries[months[i]];
    }
    assert months[..|months|] == months;
  }

  /** The digest of one more listed month adds that month's section. */
  lemma DigestSnoc(year: nat, months: seq<nat>, i: nat, summaries: map<nat, string>)
    requires i < |months| && forall m :: m in months ==> m in summaries
    ensures forall m :: m in months[..i + 1] ==> m in summaries
    ensures Digest(year, months[..i + 1], summaries) == Digest(year, months[..i], summaries) + MonthHeader(year, months[i]) + summaries[months[i]]
  {
    assert months[..i + 1][..i] == months[..i];
  }

  method GenerateYearlyFromMonthly(llm: Oracle, n: nat, year: nat, summaries: map<nat, string>) returns (r: Run)
    ensures r == YearlyFromMonthly(llm, n, year, summaries)
  {
    var combined := CombineMonthly(year, summaries);
    var c := CallWithRetry(llm, n, FromMonthlyPrompt(year, combined), MaxRetries);
    r := Settle(c, YearlySummaryFailed);
  }
}
