/**
 The prompt generator of src/gemini_handler.py: a persisted FIFO of example
 ids over a fixed example pool (refilled with a shuffled copy of the pool's
 keys when it runs dry), and a bounded retry loop around the text-generation
 API. The API, the shuffle and `time.sleep` are replaced by oracles and an
 event trace.
 */
module Gemini {
  import opened Wrappers

  // ---------------------------------------------------------------------
  // Text helpers
  // ---------------------------------------------------------------------

  /** The characters that Python's `str.isspace` accepts, which `str.strip()` removes. */
  predicate IsSpace(c: char)
  {
    || ('\t' <= c <= '\r')
    || ('\U{1c}' <= c <= '\U{1f}')
    || c == ' ' || c == '\U{85}' || c == '\U{a0}' || c == '\U{1680}'
    || ('\U{2000}' <= c <= '\U{200a}')
    || c == '\U{2028}' || c == '\U{2029}' || c == '\U{202f}' || c == '\U{205f}' || c == '\U{3000}'
  }

  /** `str.lstrip()`. */
  function TrimStart(s: string): string
  {
    if s != [] && IsSpace(s[0]) then TrimStart(s[1..]) else s
  }

  /** `str.rstrip()`. */
  function TrimEnd(s: string): string
  {
    if s != [] && IsSpace(s[|s| - 1]) then TrimEnd(s[..|s| - 1]) else s
  }

  /** `lstrip` removes a whitespace prefix and leaves a suffix that does not start with whitespace. */
  lemma {:induction false} TrimStartSpec(s: string)
    ensures var r := TrimStart(s);
      && |r| <= |s| && r == s[|s| - |r|..]
      && (forall i :: 0 <= i < |s| - |r| ==> IsSpace(s[i]))
      && (r != [] ==> !IsSpace(r[0]))
  {
    if s != [] && IsSpace(s[0]) {
      TrimStartSpec(s[1..]);
      var r := TrimStart(s[1..]);
      forall i | 0 <= i < |s| - |r|
        ensures IsSpace(s[i])
      {
        if i > 0 { assert s[i] == s[1..][i - 1]; }
      }
    }
  }

  /** `rstrip` removes a whitespace suffix and leaves a prefix that does not end with whitespace. */
  lemma {:induction false} TrimEndSpec(s: string)
    ensures var r := TrimEnd(s);
      && |r| <= |s| && r == s[..|r|]
      && (forall i :: |r| <= i < |s| ==> IsSpace(s[i]))
      && (r != [] ==> !IsSpace(r[|r| - 1]))
  {
    if s != [] && IsSpace(s[|s| - 1]) {
      TrimEndSpec(s[..|s| - 1]);
      var r := TrimEnd(s[..|s| - 1]);
      forall i | |r| <= i < |s|
        ensures IsSpace(s[i])
      {
        if i < |s| - 1 { assert s[i] == s[..|s| - 1][i]; }
      }
    }
  }

  /** `str.strip()`: whitespace removed from both ends. */
  function Strip(s: string): string
  {
    TrimEnd(TrimStart(s))
  }

  /**
   What `str.strip()` gives: a contiguous part of `s` that neither starts nor
   ends with whitespace, everything cut off being whitespace. It is empty
   exactly when `s` is all whitespace.
   */
  lemma StripSpec(s: string)
    ensures var r := Strip(s); var k := |s| - |TrimStart(s)|;
      && 0 <= k && k + |r| <= |s| && r == s[k..k + |r|]
      && (forall i :: 0 <= i < k ==> IsSpace(s[i]))
      && (forall i :: k + |r| <= i < |s| ==> IsSpace(s[i]))
      && (r != [] ==> !IsSpace(r[0]) && !IsSpace(r[|r| - 1]))
      && (r == [] <==> forall i :: 0 <= i < |s| ==> IsSpace(s[i]))
  {
    var t := TrimStart(s);
    var r := TrimEnd(t);
    TrimStartSpec(s);
    TrimEndSpec(t);
    assert r == s[|s| - |t|..|s| - |t| + |r|];
    forall i | |s| - |t| + |r| <= i < |s|
      ensures IsSpace(s[i])
    {
      assert s[i] == t[i - (|s| - |t|)];
    }
  }

  // ---------------------------------------------------------------------
  // The example pool and the cycle queue
  // ---------------------------------------------------------------------

  /** The text used when a drawn id is not (or no longer) in the pool. */
  const DefaultExample: string := "um belo dia"

  /** One entry `{"id": ..., "prompt": ...}` of the example file. */
  datatype Example = Example(id: int, prompt: string)

  /** The dict comprehension of `load_example_prompts`, one item at a time. */
  function BuildPool(items: seq<Example>): map<int, string>
  {
    if items == [] then map[]
    else
      var init := BuildPool(items[..|items| - 1]);
      var last := items[|items| - 1];
      init[last.id := last.prompt]
  }

  /** Every id of the file is a key, and a repeated id keeps the prompt of its last occurrence. */
  lemma {:induction false} BuildPoolSpec(items: seq<Example>)
    ensures var m := BuildPool(items);
      && (forall i :: 0 <= i < |items| ==> items[i].id in m)
      && (forall id :: id in m ==>
            exists i :: 0 <= i < |items| && items[i].id == id && m[id] == items[i].prompt &&
                        forall j :: i < j < |items| ==> items[j].id != id)
  {
    if items != [] {
      var init := items[..|items| - 1];
      var last := items[|items| - 1];
      var m := BuildPool(items);
      BuildPoolSpec(init);
      forall i | 0 <= i < |items|
        ensures items[i].id in m
      {
        if i < |init| {
          assert items[i] == init[i];
        }
      }
      forall id | id in m
        ensures exists i :: 0 <= i < |items| && items[i].id == id && m[id] == items[i].prompt &&
                            forall j :: i < j < |items| ==> items[j].id != id
      {
        if id == last.id {
          assert items[|items| - 1].id == id;
        } else {
          var i :| 0 <= i < |init| && init[i].id == id && BuildPool(init)[id] == init[i].prompt &&
                   forall j :: i < j < |init| ==> init[j].id != id;
          assert items[i] == init[i];
          forall j | i < j < |items|
            ensures items[j].id != id
          {
            if j < |init| {
              assert items[j] == init[j];
            }
          }
        }
      }
    }
  }

  /** `EXAMPLE_PROMPTS.get(id, "um belo dia")`. */
  function ExampleText(pool: map<int, string>, id: int): string
  {
    if id in pool then pool[id] else DefaultExample
  }

  /** The outcome of one draw: the id taken, the queue saved afterwards, and whether it refilled. */
  datatype Draw = Draw(id: int, rest: seq<int>, refilled: bool)

  /**
   One draw from the stored queue: an empty queue is first replaced by the
   shuffled pool keys; then the head is popped and the tail is what is saved.
   */
  function DrawFrom(queue: seq<int>, shuffled: seq<int>): (d: Draw)
    requires queue != [] || shuffled != []
    ensures d.refilled <==> queue == []
    ensures [d.id] + d.rest == if queue == [] then shuffled else queue
  {
    var q := if queue == [] then shuffled else queue;
    Draw(q[0], q[1..], queue == [])
  }

  /** A draw keeps the queue inside the pool: every id it yields or saves is a pool key. */
  lemma DrawStaysInPool(queue: seq<int>, shuffled: seq<int>, keys: set<int>)
    requires queue != [] || shuffled != []
    requires forall i :: 0 <= i < |queue| ==> queue[i] in keys
    requires multiset(shuffled) == multiset(keys)
    ensures DrawFrom(queue, shuffled).id in keys
    ensures forall i :: 0 <= i < |DrawFrom(queue, shuffled).rest| ==> DrawFrom(queue, shuffled).rest[i] in keys
  {
    var d := DrawFrom(queue, shuffled);
    var q := if queue == [] then shuffled else queue;
    assert [d.id] + d.rest == q;
    forall i | 0 <= i < |q|
      ensures q[i] in keys
    {
      if queue == [] {
        assert q[i] in multiset(shuffled);
      }
    }
    assert d.id == q[0];
    forall i | 0 <= i < |d.rest|
      ensures d.rest[i] in keys
    {
      assert d.rest[i] == q[i + 1];
    }
  }

  /** The ids drawn by several consecutive draws, and the queue and refill count after them. */
  datatype Draws = Draws(ids: seq<int>, queue: seq<int>, refills: nat)

  /** `k` consecutive draws, the n-th refill using the order `shuffle(n)`. */
  function DrawMany(queue: seq<int>, shuffle: nat -> seq<int>, refills: nat, k: nat): (r: Draws)
    requires forall j :: shuffle(j) != []
    ensures |r.ids| == k
    ensures r.refills >= refills
  {
    if k == 0 then Draws([], queue, refills)
    else
      var a := DrawMany(queue, shuffle, refills, k - 1);
      var d := DrawFrom(a.queue, shuffle(a.refills));
      Draws(a.ids + [d.id], d.rest, a.refills + (if d.refilled then 1 else 0))
  }

  /** While the queue still has `k` ids, `k` draws take exactly its first `k` in order, with no refill. */
  lemma {:induction false} DrawsWithoutRefill(queue: seq<int>, shuffle: nat -> seq<int>, refills: nat, k: nat)
    requires forall j :: shuffle(j) != []
    requires k <= |queue|
    ensures DrawMany(queue, shuffle, refills, k) == Draws(queue[..k], queue[k..], refills)
  {
    if k > 0 {
      DrawsWithoutRefill(queue, shuffle, refills, k - 1);
      assert queue[..k - 1] + [queue[k - 1]] == queue[..k];
      assert queue[k - 1..][1..] == queue[k..];
    }
  }

  /** From an empty queue, the first `k` draws (k at most the pool size) refill once and take the shuffle's first `k`. */
  lemma {:induction false} DrawsAfterRefill(shuffle: nat -> seq<int>, refills: nat, k: nat)
    requires forall j :: shuffle(j) != []
    requires 1 <= k <= |shuffle(refills)|
    ensures DrawMany([], shuffle, refills, k) == Draws(shuffle(refills)[..k], shuffle(refills)[k..], refills + 1)
  {
    var s := shuffle(refills);
    if k == 1 {
      assert DrawMany([], shuffle, refills, 0) == Draws([], [], refills);
      assert [] + [s[0]] == s[..1];
    } else {
      DrawsAfterRefill(shuffle, refills, k - 1);
      assert s[..k - 1] + [s[k - 1]] == s[..k];
      assert s[k - 1..][1..] == s[k..];
    }
  }

  /** A permutation of a key set has one entry per key. */
  lemma PermutationSize(s: seq<int>, keys: set<int>)
    requires multiset(s) == multiset(keys)
    ensures |s| == |keys|
  {
    assert |multiset(s)| == |s|;
    assert |multiset(keys)| == |keys|;
  }

  /**
   Cycle coverage: from an empty queue over a pool of K ids, K consecutive
   draws yield the whole shuffled pool, each id exactly once, and leave the
   queue empty; draw K+1 refills with a fresh shuffle and yields its head.
   */
  lemma {:induction false} CycleCoverage(shuffle: nat -> seq<int>, refills: nat, keys: set<int>)
    requires |keys| > 0
    requires forall j :: multiset(shuffle(j)) == multiset(keys)
    requires forall j :: shuffle(j) != []
    ensures var r := DrawMany([], shuffle, refills, |keys|);
            r.ids == shuffle(refills) && r.queue == [] && r.refills == refills + 1
    ensures forall x :: multiset(DrawMany([], shuffle, refills, |keys|).ids)[x] == if x in keys then 1 else 0
    ensures var r := DrawMany([], shuffle, refills, |keys| + 1);
            r.ids == shuffle(refills) + [shuffle(refills + 1)[0]] && r.refills == refills + 2
  {
    var s := shuffle(refills);
    PermutationSize(s, keys);
    DrawsAfterRefill(shuffle, refills, |keys|);
    assert s[..|s|] == s;
  }

  // ---------------------------------------------------------------------
  // The retry loop
  // ---------------------------------------------------------------------

  /** The default arguments of `generate_creative_prompt`. */
  const DefaultRetries: int := 3
  const DefaultDelay: nat := 5

  /**
   What one `model.generate_content` call gives: a response with a `text`
   (possibly empty), a response without usable text, a transient error
   (`ResourceExhausted`, `ServiceUnavailable`) or any other exception.
   */
  datatype Outcome = Reply(text: string) | NoText | Transient | Fatal

  /** Observable effects, in order: the queue file written, an API call, a sleep. */
  datatype Event = Saved(queue: seq<int>) | Called(input: string) | Slept(seconds: nat)

  /** The user part of the request, built from the example text. */
  function InputPrompt(example: string): string
  {
    "Create a new prompt inspired by this example: \n\n\"" + example + "\""
  }

  /** The outcomes the oracle gives to `retries` calls numbered from `start`. */
  function Window(api: nat -> Outcome, start: nat, retries: int): (outs: seq<Outcome>)
    ensures |outs| == if retries > 0 then retries else 0
    ensures forall j :: 0 <= j < |outs| ==> outs[j] == api(start + j)
  {
    seq(if retries > 0 then retries else 0, j requires 0 <= j => api(start + j))
  }

  /** The result of the loop and how many API calls it made. */
  datatype Attempts = Attempts(result: Option<string>, calls: nat)

  /**
   The `for attempt in range(retries)` loop over the outcomes it would see:
   a transient error moves on to the next attempt; the first other outcome
   ends the loop, with the stripped text for a non-empty reply and None
   otherwise; running out of attempts gives None.
   */
  function RunAttempts(outs: seq<Outcome>): (r: Attempts)
    ensures r.calls <= |outs|
    ensures outs != [] ==> r.calls >= 1
    ensures forall j :: 0 <= j < r.calls - 1 ==> outs[j] == Transient
    ensures r.result.Some? ==> r.calls >= 1 && outs[r.calls - 1].Reply? && outs[r.calls - 1].text != ""
    ensures r.result.Some? ==> r.result == Some(Strip(outs[r.calls - 1].text))
  {
    if outs == [] then Attempts(None, 0)
    else match outs[0]
      case Transient =>
        var rest := RunAttempts(outs[1..]);
        assert forall j :: 1 <= j <= rest.calls ==> outs[j] == outs[1..][j - 1];
        Attempts(rest.result, rest.calls + 1)
      case Reply(s) => Attempts(if s != "" then Some(Strip(s)) else None, 1)
      case _ => Attempts(None, 1)
  }

  /**
   The loop stops at the first outcome that is not transient: after the
   transient attempts before it, a non-empty reply gives its stripped text,
   anything else gives None, and no further call is made.
   */
  lemma {:induction false} FirstDecisiveOutcome(outs: seq<Outcome>, k: nat)
    requires k < |outs|
    requires forall j :: 0 <= j < k ==> outs[j] == Transient
    requires outs[k] != Transient
    ensures RunAttempts(outs).calls == k + 1
    ensures RunAttempts(outs).result ==
      if outs[k].Reply? && outs[k].text != "" then Some(Strip(outs[k].text)) else None
  {
    if k > 0 {
      FirstDecisiveOutcome(outs[1..], k - 1);
    }
  }

  /** When every attempt is transient the loop uses all of them and gives None. */
  lemma {:induction false} AllTransient(outs: seq<Outcome>)
    requires forall j :: 0 <= j < |outs| ==> outs[j] == Transient
    ensures RunAttempts(outs) == Attempts(None, |outs|)
  {
    if outs != [] {
      AllTransient(outs[1..]);
    }
  }

  /** `k` full rounds of a transient attempt followed by its sleep. */
  function Rounds(k: nat, input: string, delay: nat): (ev: seq<Event>)
    ensures |ev| == 2 * k
  {
    if k == 0 then [] else Rounds(k - 1, input, delay) + [Called(input), Slept(delay)]
  }

  /** The events of a retry loop that made `calls` API calls. */
  function Attempted(calls: nat, input: string, delay: nat): (ev: seq<Event>)
    ensures |ev| == if calls == 0 then 0 else 2 * calls - 1
  {
    if calls == 0 then [] else Rounds(calls - 1, input, delay) + [Called(input)]
  }

  lemma {:induction false} RoundsAlternate(k: nat, input: string, delay: nat)
    ensures forall i :: 0 <= i < 2 * k ==>
      Rounds(k, input, delay)[i] == if i % 2 == 0 then Called(input) else Slept(delay)
  {
    if k > 0 {
      RoundsAlternate(k - 1, input, delay);
    }
  }

  /**
   Calls and sleeps alternate, starting and ending with a call: one sleep of
   `delay` between each two attempts and none after the last.
   */
  lemma AttemptedAlternates(calls: nat, input: string, delay: nat)
    requires calls > 0
    ensures var ev := Attempted(calls, input, delay);
      && |ev| == 2 * calls - 1
      && ev[|ev| - 1] == Called(input)
      && forall i :: 0 <= i < |ev| ==> ev[i] == if i % 2 == 0 then Called(input) else Slept(delay)
  {
    RoundsAlternate(calls - 1, input, delay);
  }

  // ---------------------------------------------------------------------
  // The generator's module state
  // ---------------------------------------------------------------------

  /**
   The state of gemini_handler.py: whether the model client was created,
   the example pool (None when the file could not be loaded), the queue
   stored in the state file, and the oracles standing for the outside
   world: `shuffle(k)` is the order `random.shuffle` gives at the k-th
   refill, `api(k)` the outcome of the k-th API call. The counters index
   the oracles; `trace` records what the handler did, in order.
   */
  class PromptGenerator {
    const modelReady: bool
    const pool: Option<map<int, string>>
    const shuffle: nat -> seq<int>
    const api: nat -> Outcome
    var queue: seq<int>
    var refills: nat
    var apiCalls: nat
    var invocations: nat
    var trace: seq<Event>

    /** Every shuffle is a permutation of the pool's keys. */
    ghost predicate Valid()
    {
      pool.Some? ==> forall k :: multiset(shuffle(k)) == multiset(pool.value.Keys)
    }

    /** `model` and `EXAMPLE_PROMPTS` are both truthy (an empty dict is not). */
    predicate Available()
    {
      modelReady && pool.Some? && |pool.value| > 0
    }

    /** With examples available, every refill has at least one id to pop. */
    lemma ShufflesNonEmpty()
      requires Valid() && Available()
      ensures forall k :: shuffle(k) != []
    {
      forall k
        ensures shuffle(k) != []
      {
        PermutationSize(shuffle(k), pool.value.Keys);
      }
    }

    constructor (modelReady: bool, pool: Option<map<int, string>>, shuffle: nat -> seq<int>,
                 api: nat -> Outcome, storedQueue: seq<int>)
      requires pool.Some? ==> forall k :: multiset(shuffle(k)) == multiset(pool.value.Keys)
      ensures Valid()
      ensures this.modelReady == modelReady && this.pool == pool
      ensures this.shuffle == shuffle && this.api == api
      ensures queue == storedQueue && refills == 0 && apiCalls == 0 && invocations == 0 && trace == []
    {
      this.modelReady := modelReady;
      this.pool := pool;
      this.shuffle := shuffle;
      this.api := api;
      queue := storedQueue;
      refills := 0;
      apiCalls := 0;
      invocations := 0;
      trace := [];
    }

    /**
     `generate_creative_prompt(retries, delay)`. Without a model or examples
     it returns None and touches nothing else. Otherwise it draws one id,
     saves the remaining queue before any attempt, and then runs the retry
     loop on the example's text (the fallback text for an unknown id).
     */
    method Generate(retries: int, delay: nat) returns (text: Option<string>)
      requires Valid()
      modifies this
      ensures Valid()
      ensures invocations == old(invocations) + 1
      ensures !Available() ==> && text == None && queue == old(queue) && refills == old(refills)
                               && apiCalls == old(apiCalls) && trace == old(trace)
      ensures Available() ==> shuffle(old(refills)) != []
      ensures Available() ==>
        var d := DrawFrom(old(queue), shuffle(old(refills)));
        var a := RunAttempts(Window(api, old(apiCalls), retries));
        && queue == d.rest
        && refills == old(refills) + (if d.refilled then 1 else 0)
        && text == a.result
        && apiCalls == old(apiCalls) + a.calls
        && trace == old(trace) + [Saved(d.rest)] +
                    Attempted(a.calls, InputPrompt(ExampleText(pool.value, d.id)), delay)
    {
      invocations := invocations + 1;
      if !Available() {
        return None;
      }
      var example := DrawExample();
      text := RetryLoop(InputPrompt(example), retries, delay);
    }

    /**
     Lines 79-89 of `generate_creative_prompt`: refill an empty queue with
     the next shuffle of the pool keys, pop its head, look up its text, and
     write the remaining queue back.
     */
    method DrawExample() returns (example: string)
      requires Valid() && Available()
      modifies this`queue, this`refills, this`trace
      ensures shuffle(old(refills)) != []
      ensures var d := DrawFrom(old(queue), shuffle(old(refills)));
        && queue == d.rest
        && refills == old(refills) + (if d.refilled then 1 else 0)
        && example == ExampleText(pool.value, d.id)
        && trace == old(trace) + [Saved(d.rest)]
    {
      ShufflesNonEmpty();
      var q := queue;
      if q == [] {
        q := shuffle(refills);
        refills := refills + 1;
      }
      var id := q[0];
      q := q[1..];
      example := ExampleText(pool.value, id);
      queue := q;
      trace := trace + [Saved(q)];
    }

    /**
     The `for attempt in range(retries)` loop of `generate_creative_prompt`:
     each call consumes the next oracle outcome; a transient error sleeps
     `delay` unless it was the last attempt, and every other outcome ends
     the loop.
     */
    method RetryLoop(input: string, retries: int, delay: nat) returns (text: Option<string>)
      modifies this`apiCalls, this`trace
      ensures var a := RunAttempts(Window(api, old(apiCalls), retries));
        && text == a.result
        && apiCalls == old(apiCalls) + a.calls
        && trace == old(trace) + Attempted(a.calls, input, delay)
    {
      text := None;
      var n := if retries > 0 then retries else 0;
      ghost var outs := Window(api, apiCalls, retries);
      ghost var start := apiCalls;
      ghost var base := trace;
      var attempt := 0;
      while attempt < n
        invariant 0 <= attempt <= n
        invariant apiCalls == start + attempt && text == None
        invariant forall j :: 0 <= j < attempt ==> outs[j] == Transient
        invariant trace == base + (if attempt == n && n > 0 then Attempted(n, input, delay)
                                   else Rounds(attempt, input, delay))
      {
        var outcome := api(apiCalls);
        assert outcome == outs[attempt];
        apiCalls := apiCalls + 1;
        trace := trace + [Called(input)];
        if outcome != Transient {
          FirstDecisiveOutcome(outs, attempt);
          if outcome.Reply? && outcome.text != "" {
            text := Some(Strip(outcome.text));
          }
          return;
        }
        if attempt < n - 1 {
          trace := trace + [Slept(delay)];
        }
        attempt := attempt + 1;
      }
      AllTransient(outs);
    }
  }
}
