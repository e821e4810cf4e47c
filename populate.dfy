/**
 Phase 1 of the driver in src/main.py: call the prompt generator a fixed
 number of times and store every truthy result as a pending record.
 */
module Populate {
  import opened Wrappers
  import opened Database
  import opened Gemini

  /**
   `NUM_PROMPTS_TO_GENERATE`, the `n` the driver passes to `PopulatePrompts`.
   The method takes the count as a parameter, so its contract holds for every count.
   */
  const NumPromptsToGenerate: nat := 5

  /** A generator result that `if prompt_text:` lets through. */
  predicate Truthy(result: Option<string>)
  {
    result.Some? && result.value != ""
  }

  /** The texts of the truthy results, in the order they were generated. */
  function Accepted(results: seq<Option<string>>): seq<string>
  {
    if results == [] then []
    else
      var init := Accepted(results[..|results| - 1]);
      var last := results[|results| - 1];
      if Truthy(last) then init + [last.value] else init
  }

  /** The results of several generator calls and the API calls they made together. */
  datatype Run = Run(results: seq<Option<string>>, calls: nat)

  /**
   `n` calls of `generate_creative_prompt()` with its default arguments, with
   examples available: each runs the retry loop on the API outcomes that
   follow the calls the previous ones made, starting at call `start`.
   */
  function Generations(api: nat -> Outcome, start: nat, n: nat): (r: Run)
    ensures |r.results| == n
  {
    if n == 0 then Run([], 0)
    else
      var prev := Generations(api, start, n - 1);
      var a := RunAttempts(Window(api, start + prev.calls, DefaultRetries));
      Run(prev.results + [a.result], prev.calls + a.calls)
  }

  /** Each generator call makes between one and `DefaultRetries` API calls. */
  lemma {:induction false} GenerationsCalls(api: nat -> Outcome, start: nat, n: nat)
    ensures n <= Generations(api, start, n).calls <= DefaultRetries * n
  {
    if n > 0 {
      GenerationsCalls(api, start, n - 1);
    }
  }

  /** A result of the run is the stripped text of a non-empty reply among the API calls it made. */
  predicate FromReplies(api: nat -> Outcome, start: nat, r: Run)
  {
    forall j :: 0 <= j < |r.results| && r.results[j].Some? ==>
      exists k :: start <= k < start + r.calls && api(k).Reply? && api(k).text != "" &&
                  r.results[j].value == Strip(api(k).text)
  }

  /** A result of one generator call's retry loop is the stripped text of the reply to its last API call. */
  lemma ResultFromReply(api: nat -> Outcome, c: nat)
    ensures var a := RunAttempts(Window(api, c, DefaultRetries));
      a.result.Some? ==> a.calls >= 1 && api(c + a.calls - 1).Reply? && api(c + a.calls - 1).text != "" &&
                         a.result.value == Strip(api(c + a.calls - 1).text)
  {
    var outs := Window(api, c, DefaultRetries);
    var a := RunAttempts(outs);
    if a.result.Some? {
      assert outs[a.calls - 1] == api(c + a.calls - 1);
    }
  }

  /** One iteration of the induction behind `GenerationsFromReplies`. */
  lemma FromRepliesStep(api: nat -> Outcome, start: nat, n: nat)
    requires n > 0 && FromReplies(api, start, Generations(api, start, n - 1))
    ensures FromReplies(api, start, Generations(api, start, n))
  {
    var prev := Generations(api, start, n - 1);
    var outs := Window(api, start + prev.calls, DefaultRetries);
    var a := RunAttempts(outs);
    var r := Generations(api, start, n);
    assert r.results == prev.results + [a.result] && r.calls == prev.calls + a.calls;
    forall j | 0 <= j < |r.results| && r.results[j].Some?
      ensures exists k :: start <= k < start + r.calls && api(k).Reply? && api(k).text != "" &&
                          r.results[j].value == Strip(api(k).text)
    {
      if j < n - 1 {
        assert r.results[j] == prev.results[j];
        var k :| start <= k < start + prev.calls && api(k).Reply? && api(k).text != "" &&
                 prev.results[j].value == Strip(api(k).text);
        assert start <= k < start + r.calls;
      } else {
        assert r.results[j] == a.result;
        ResultFromReply(api, start + prev.calls);
        var k := start + prev.calls + a.calls - 1;
        assert start <= k < start + r.calls;
      }
    }
  }

  /** Every result the generator gives is the stripped text of a non-empty reply it received. */
  lemma {:induction false} GenerationsFromReplies(api: nat -> Outcome, start: nat, n: nat)
    ensures FromReplies(api, start, Generations(api, start, n))
  {
    if n > 0 {
      GenerationsFromReplies(api, start, n - 1);
      FromRepliesStep(api, start, n);
    }
  }

  /** When every API call meets a transient error, no generator call gives a result, and each uses all its attempts. */
  lemma {:induction false} GenerationsAllTransient(api: nat -> Outcome, start: nat, n: nat)
    requires forall k :: api(k) == Transient
    ensures Generations(api, start, n).calls == DefaultRetries * n
    ensures forall j :: 0 <= j < n ==> Generations(api, start, n).results[j] == None
  {
    if n > 0 {
      GenerationsAllTransient(api, start, n - 1);
      var prev := Generations(api, start, n - 1);
      AllTransient(Window(api, start + prev.calls, DefaultRetries));
      var r := Generations(api, start, n);
      forall j | 0 <= j < n
        ensures r.results[j] == None
      {
        if j < n - 1 {
          assert r.results[j] == prev.results[j];
        }
      }
    }
  }

  /**
   No accepted text is empty, there are at most as many texts as results,
   as many exactly when every result is truthy, and none when no result is.
   */
  lemma {:induction false} AcceptedSpec(results: seq<Option<string>>)
    ensures var texts := Accepted(results);
      && |texts| <= |results|
      && (forall j :: 0 <= j < |texts| ==> texts[j] != "")
      && (|texts| == |results| <==> forall j :: 0 <= j < |results| ==> Truthy(results[j]))
      && ((forall j :: 0 <= j < |results| ==> !Truthy(results[j])) ==> texts == [])
  {
    if results != [] {
      var init := results[..|results| - 1];
      AcceptedSpec(init);
      assert forall j :: 0 <= j < |init| ==> init[j] == results[j];
    }
  }

  /** Appending one result extends the accepted texts by that result's text exactly when it is truthy. */
  lemma AcceptedSnoc(results: seq<Option<string>>, result: Option<string>)
    ensures Accepted(results + [result]) == Accepted(results) + (if Truthy(result) then [result.value] else [])
  {
    assert (results + [result])[..|results|] == results;
  }

  /**
   The table `rs` is `rs0` followed by one pending record per text of
   `texts`, in order, each created at `now` with the prompt id that
   `get_next_id` gave on the table before it.
   */
  predicate Stored(rs0: seq<Record>, rs: seq<Record>, texts: seq<string>, now: Timestamp)
  {
    && |rs| == |rs0| + |texts|
    && rs[..|rs0|] == rs0
    && forall j :: 0 <= j < |texts| ==>
      var rec := rs[|rs0| + j];
      && rec.text == texts[j] && rec.status == Pending && rec.completedAt == None && rec.createdAt == now
      && rec.promptId == NextId(rs[..|rs0| + j])
  }

  /** Appending nothing stores nothing. */
  lemma StoredNothing(rs: seq<Record>, now: Timestamp)
    ensures Stored(rs, rs, [], now)
  {
    assert rs[..|rs|] == rs;
  }

  /** Appending one pending record stores its text. */
  lemma StoredOne(rs: seq<Record>, rec: Record, now: Timestamp)
    requires rec.status == Pending && rec.completedAt == None && rec.createdAt == now
    requires rec.promptId == NextId(rs)
    ensures Stored(rs, rs + [rec], [rec.text], now)
  {
    assert (rs + [rec])[..|rs|] == rs;
    assert (rs + [rec])[..|rs| + 0] == rs;
    assert (rs + [rec])[|rs| + 0] == rec;
  }

  /** Two stretches of stored records in a row store the two lists of texts in a row. */
  lemma StoredTrans(rs0: seq<Record>, rs1: seq<Record>, rs2: seq<Record>, t1: seq<string>, t2: seq<string>,
                    now: Timestamp)
    requires Stored(rs0, rs1, t1, now) && Stored(rs1, rs2, t2, now)
    ensures Stored(rs0, rs2, t1 + t2, now)
  {
    assert rs2[..|rs0|] == rs1[..|rs0|];
    forall j | 0 <= j < |t1 + t2|
      ensures var r := rs2[|rs0| + j];
        && r.text == (t1 + t2)[j] && r.status == Pending && r.completedAt == None && r.createdAt == now
        && r.promptId == NextId(rs2[..|rs0| + j])
    {
      if j < |t1| {
        assert rs2[|rs0| + j] == rs1[|rs0| + j];
        assert rs2[..|rs0| + j] == rs1[..|rs0| + j];
      } else {
        assert rs2[|rs0| + j] == rs2[|rs1| + (j - |t1|)];
        assert rs2[..|rs0| + j] == rs2[..|rs1| + (j - |t1|)];
      }
    }
  }

  /** A record stored with the next id moves the next id on by exactly one. */
  lemma NextIdAfterNext(rs: seq<Record>, rec: Record)
    requires rec.promptId == NextId(rs)
    ensures NextId(rs + [rec]) == NextId(rs) + 1
  {
    var t := rs + [rec];
    var i :| 0 <= i < |t| && t[i].promptId == NextId(t) - 1;
    if i < |rs| {
      assert t[i] == rs[i];
    }
    assert t[|rs|] == rec;
  }

  /** The record at `i`, stored with the next id of the records before it, moves the next id on by one. */
  lemma NextIdStep(rs: seq<Record>, i: nat)
    requires i < |rs| && rs[i].promptId == NextId(rs[..i])
    ensures NextId(rs[..i + 1]) == NextId(rs[..i]) + 1
  {
    assert rs[..i + 1] == rs[..i] + [rs[i]];
    NextIdAfterNext(rs[..i], rs[i]);
  }

  /** The stored record at position `j` got the next id of the table before it. */
  lemma StoredAt(rs0: seq<Record>, rs: seq<Record>, texts: seq<string>, now: Timestamp, j: nat)
    requires Stored(rs0, rs, texts, now)
    requires |rs0| <= j < |rs|
    ensures rs[j].promptId == NextId(rs[..j])
  {
    var k := j - |rs0|;
    assert rs[|rs0| + k].text == texts[k];
  }

  /** The records stored before position `j` moved the next id on by exactly their number. */
  lemma {:induction false} StoredNextId(rs0: seq<Record>, rs: seq<Record>, texts: seq<string>, now: Timestamp, j: nat)
    requires Stored(rs0, rs, texts, now)
    requires |rs0| <= j <= |rs|
    ensures NextId(rs[..j]) == NextId(rs0) + (j - |rs0|)
    decreases j
  {
    if j == |rs0| {
      assert rs[..j] == rs0;
    } else {
      StoredNextId(rs0, rs, texts, now, j - 1);
      StoredAt(rs0, rs, texts, now, j - 1);
      NextIdStep(rs, j - 1);
    }
  }

  /**
   The stored records get consecutive prompt ids, starting at the next id
   of the table before them; from an empty table they are 1, 2, 3, ...
   */
  lemma StoredIdsConsecutive(rs0: seq<Record>, rs: seq<Record>, texts: seq<string>, now: Timestamp)
    requires Stored(rs0, rs, texts, now)
    ensures forall j :: |rs0| <= j < |rs| ==> rs[j].promptId == NextId(rs0) + (j - |rs0|)
    ensures rs0 == [] ==> forall j :: 0 <= j < |rs| ==> rs[j].promptId == j + 1
  {
    forall j | |rs0| <= j < |rs|
      ensures rs[j].promptId == NextId(rs0) + (j - |rs0|)
    {
      StoredNextId(rs0, rs, texts, now, j);
      StoredAt(rs0, rs, texts, now, j);
    }
  }

  /** Drawing once more from where `k` draws left the queue is where `k + 1` draws leave it. */
  lemma DrawAdvance(queue: seq<int>, shuffle: nat -> seq<int>, refills: nat, k: nat,
                    q: seq<int>, f: nat, q': seq<int>, f': nat)
    requires forall j :: shuffle(j) != []
    requires q == DrawMany(queue, shuffle, refills, k).queue && f == DrawMany(queue, shuffle, refills, k).refills
    requires var d := DrawFrom(q, shuffle(f)); q' == d.rest && f' == f + (if d.refilled then 1 else 0)
    ensures q' == DrawMany(queue, shuffle, refills, k + 1).queue && f' == DrawMany(queue, shuffle, refills, k + 1).refills
  {
  }

  /** One more generator call, made where `k` calls left the API counter, is call `k + 1` of the run. */
  lemma GenerationsAdvance(api: nat -> Outcome, start: nat, k: nat, results: seq<Option<string>>, calls: nat,
                           text: Option<string>, calls': nat)
    requires results == Generations(api, start, k).results && calls == start + Generations(api, start, k).calls
    requires var a := RunAttempts(Window(api, calls, DefaultRetries)); text == a.result && calls' == calls + a.calls
    ensures results + [text] == Generations(api, start, k + 1).results
    ensures calls' == start + Generations(api, start, k + 1).calls
  {
  }

  /** The last of `n` draws is one draw from where the first `n - 1` left the queue. */
  lemma DrawManyLast(queue: seq<int>, shuffle: nat -> seq<int>, refills: nat, n: nat)
    requires forall k :: shuffle(k) != []
    requires n > 0
    ensures var prev := DrawMany(queue, shuffle, refills, n - 1);
      var d := DrawFrom(prev.queue, shuffle(prev.refills));
      var r := DrawMany(queue, shuffle, refills, n);
      r.ids[..n - 1] == prev.ids && r.ids[n - 1] == d.id && r.queue == d.rest
  {
    var prev := DrawMany(queue, shuffle, refills, n - 1);
    var d := DrawFrom(prev.queue, shuffle(prev.refills));
    assert DrawMany(queue, shuffle, refills, n).ids == prev.ids + [d.id];
  }

  /** Taking `j` elements of the first `m` is taking the first `j`. */
  lemma TakeOfTake<T>(s: seq<T>, j: nat, m: nat)
    requires j <= m <= |s|
    ensures s[..m][..j] == s[..j]
  {
  }

  /** Later draws do not change the ids drawn earlier. */
  lemma {:induction false} DrawManyPrefix(queue: seq<int>, shuffle: nat -> seq<int>, refills: nat, j: nat, n: nat)
    requires forall k :: shuffle(k) != []
    requires j <= n
    ensures DrawMany(queue, shuffle, refills, j).ids == DrawMany(queue, shuffle, refills, n).ids[..j]
    decreases n - j
  {
    var ids := DrawMany(queue, shuffle, refills, n).ids;
    if j < n {
      var prev := DrawMany(queue, shuffle, refills, n - 1).ids;
      DrawManyPrefix(queue, shuffle, refills, j, n - 1);
      assert DrawMany(queue, shuffle, refills, j).ids == prev[..j];
      DrawManyLast(queue, shuffle, refills, n);
      assert prev == ids[..n - 1];
      TakeOfTake(ids, j, n - 1);
    } else {
      assert |ids| == n;
      assert ids[..n] == ids;
    }
  }

  /**
   The trace `t` followed by what one generator call with examples available
   records when it starts from queue `q`, refill count `f` and API counter
   `c`: the save of the queue its draw leaves, then the API calls and sleeps
   of its retry loop on the input built from the drawn example.
   */
  function AfterCall(t: seq<Event>, pool: map<int, string>, shuffle: nat -> seq<int>, api: nat -> Outcome,
                     q: seq<int>, f: nat, c: nat): seq<Event>
    requires shuffle(f) != []
  {
    var d := DrawFrom(q, shuffle(f));
    var a := RunAttempts(Window(api, c, DefaultRetries));
    t + [Saved(d.rest)] + Attempted(a.calls, InputPrompt(ExampleText(pool, d.id)), DefaultDelay)
  }

  /**
   The trace after `n` generator calls with examples available, starting
   from the trace `before`: each call records `AfterCall` from where the
   calls before it left the queue, the refill count and the API counter.
   */
  function Traced(before: seq<Event>, pool: map<int, string>, shuffle: nat -> seq<int>, api: nat -> Outcome,
                  queue: seq<int>, refills: nat, start: nat, n: nat): seq<Event>
    requires forall j :: shuffle(j) != []
  {
    if n == 0 then before
    else
      var p := DrawMany(queue, shuffle, refills, n - 1);
      AfterCall(Traced(before, pool, shuffle, api, queue, refills, start, n - 1), pool, shuffle, api,
                p.queue, p.refills, start + Generations(api, start, n - 1).calls)
  }

  /** Every API call in `ev` was made on the example text of one of the drawn ids `ids`. */
  predicate UsesDrawn(pool: map<int, string>, ids: seq<int>, ev: seq<Event>)
  {
    forall i :: 0 <= i < |ev| && ev[i].Called? ==>
      exists j :: 0 <= j < |ids| && ev[i].input == InputPrompt(ExampleText(pool, ids[j]))
  }

  /** The retry loop's calls all carry the one input it was given. */
  lemma AttemptedInput(calls: nat, input: string, delay: nat)
    ensures var ev := Attempted(calls, input, delay);
      forall i :: 0 <= i < |ev| && ev[i].Called? ==> ev[i].input == input
  {
    if calls > 0 {
      AttemptedAlternates(calls, input, delay);
    }
  }

  /** One iteration of the induction behind `EventsUseDrawnExamples`. */
  lemma UsesDrawnStep(pool: map<int, string>, ids: seq<int>, ev: seq<Event>, saved: seq<int>, calls: nat)
    requires ids != [] && UsesDrawn(pool, ids[..|ids| - 1], ev)
    ensures UsesDrawn(pool, ids, ev + [Saved(saved)] +
                      Attempted(calls, InputPrompt(ExampleText(pool, ids[|ids| - 1])), DefaultDelay))
  {
    var input := InputPrompt(ExampleText(pool, ids[|ids| - 1]));
    var block := Attempted(calls, input, DefaultDelay);
    var all := ev + [Saved(saved)] + block;
    AttemptedInput(calls, input, DefaultDelay);
    forall i | 0 <= i < |all| && all[i].Called?
      ensures exists j :: 0 <= j < |ids| && all[i].input == InputPrompt(ExampleText(pool, ids[j]))
    {
      if i < |ev| {
        assert all[i] == ev[i];
        var j :| 0 <= j < |ids| - 1 && ev[i].input == InputPrompt(ExampleText(pool, ids[..|ids| - 1][j]));
        assert ids[..|ids| - 1][j] == ids[j];
      } else if i > |ev| {
        assert all[i] == block[i - |ev| - 1];
      }
    }
  }

  /**
   Each of the `n` generator calls builds its input from the example text of
   an id drawn by the `n` draws (the fallback text for an id missing from the
   pool), so the examples used are those `DrawMany` yields.
   */
  lemma {:induction false} TracedUsesDrawnExamples(pool: map<int, string>, shuffle: nat -> seq<int>, api: nat -> Outcome,
                                                  queue: seq<int>, refills: nat, start: nat, n: nat)
    requires forall k :: shuffle(k) != []
    ensures UsesDrawn(pool, DrawMany(queue, shuffle, refills, n).ids, Traced([], pool, shuffle, api, queue, refills, start, n))
  {
    if n > 0 {
      TracedUsesDrawnExamples(pool, shuffle, api, queue, refills, start, n - 1);
      DrawManyPrefix(queue, shuffle, refills, n - 1, n);
      DrawManyLast(queue, shuffle, refills, n);
      var draws := DrawMany(queue, shuffle, refills, n);
      var a := RunAttempts(Window(api, start + Generations(api, start, n - 1).calls, DefaultRetries));
      UsesDrawnStep(pool, draws.ids, Traced([], pool, shuffle, api, queue, refills, start, n - 1), draws.queue, a.calls);
    }
  }

  /** One more generator call, made where `k` calls left the queue and the API counter, extends the trace by call `k`'s events. */
  lemma TracedAdvance(before: seq<Event>, pool: map<int, string>, shuffle: nat -> seq<int>, api: nat -> Outcome,
                      queue: seq<int>, refills: nat, start: nat, k: nat,
                      q: seq<int>, f: nat, c: nat, t: seq<Event>, t': seq<Event>)
    requires forall j :: shuffle(j) != []
    requires q == DrawMany(queue, shuffle, refills, k).queue && f == DrawMany(queue, shuffle, refills, k).refills
    requires c == start + Generations(api, start, k).calls
    requires t == Traced(before, pool, shuffle, api, queue, refills, start, k)
    requires t' == AfterCall(t, pool, shuffle, api, q, f, c)
    ensures t' == Traced(before, pool, shuffle, api, queue, refills, start, k + 1)
  {
    TracedLast(before, pool, shuffle, api, queue, refills, start, k + 1);
  }

  /** The last of `n` calls records `AfterCall` from where the first `n - 1` calls left everything. */
  lemma TracedLast(before: seq<Event>, pool: map<int, string>, shuffle: nat -> seq<int>, api: nat -> Outcome,
                   queue: seq<int>, refills: nat, start: nat, n: nat)
    requires forall j :: shuffle(j) != []
    requires n > 0
    ensures var p := DrawMany(queue, shuffle, refills, n - 1);
      Traced(before, pool, shuffle, api, queue, refills, start, n) ==
      AfterCall(Traced(before, pool, shuffle, api, queue, refills, start, n - 1), pool, shuffle, api,
                p.queue, p.refills, start + Generations(api, start, n - 1).calls)
  {
  }

  /**
   After `i` generator calls with examples available, started from queue
   `q0`, refill count `f0`, API counter `c0` and trace `t0`: the queue and
   refill count are those of `i` draws, the results and API counter those of
   `i` retry loops, and the trace is `Traced`.
   */
  ghost predicate OnTrack(pool: map<int, string>, shuffle: nat -> seq<int>, api: nat -> Outcome,
                          q0: seq<int>, f0: nat, c0: nat, t0: seq<Event>, i: nat,
                          results: seq<Option<string>>, q: seq<int>, f: nat, c: nat, t: seq<Event>)
    requires forall j :: shuffle(j) != []
  {
    var draws := DrawMany(q0, shuffle, f0, i);
    var run := Generations(api, c0, i);
    && q == draws.queue && f == draws.refills
    && results == run.results && c == c0 + run.calls
    && t == Traced(t0, pool, shuffle, api, q0, f0, c0, i)
  }

  /** One generator call with examples available, from where `i` calls left everything, is call `i + 1`. */
  lemma OnTrackStep(pool: map<int, string>, shuffle: nat -> seq<int>, api: nat -> Outcome,
                    q0: seq<int>, f0: nat, c0: nat, t0: seq<Event>, i: nat,
                    results: seq<Option<string>>, q: seq<int>, f: nat, c: nat, t: seq<Event>,
                    text: Option<string>, q': seq<int>, f': nat, c': nat, t': seq<Event>)
    requires forall j :: shuffle(j) != []
    requires OnTrack(pool, shuffle, api, q0, f0, c0, t0, i, results, q, f, c, t)
    requires var d := DrawFrom(q, shuffle(f)); q' == d.rest && f' == f + (if d.refilled then 1 else 0)
    requires var a := RunAttempts(Window(api, c, DefaultRetries)); text == a.result && c' == c + a.calls
    requires t' == AfterCall(t, pool, shuffle, api, q, f, c)
    ensures OnTrack(pool, shuffle, api, q0, f0, c0, t0, i + 1, results + [text], q', f', c', t')
  {
    DrawAdvance(q0, shuffle, f0, i, q, f, q', f');
    GenerationsAdvance(api, c0, i, results, c, text, c');
    TracedAdvance(t0, pool, shuffle, api, q0, f0, c0, i, q, f, c, t, t');
  }

  /**
   One iteration of the loop of `populate_prompts`: call the generator
   once with its defaults and store the result when it is truthy.
   */
  method PopulateOnce(gen: PromptGenerator, store: Table, now: Timestamp) returns (text: Option<string>)
    requires gen.Valid() && store.Valid()
    modifies gen, store
    ensures gen.Valid() && store.Valid()
    ensures gen.invocations == old(gen.invocations) + 1
    ensures Stored(old(store.records), store.records, if Truthy(text) then [text.value] else [], now)
    ensures Truthy(text) ==> store.records[|old(store.records)|].promptId == NextId(old(store.records))
    ensures !gen.Available() ==>
      && text == None
      && gen.queue == old(gen.queue) && gen.refills == old(gen.refills)
      && gen.apiCalls == old(gen.apiCalls) && gen.trace == old(gen.trace)
    ensures gen.Available() ==> gen.shuffle(old(gen.refills)) != []
    ensures gen.Available() ==>
      var d := DrawFrom(old(gen.queue), gen.shuffle(old(gen.refills)));
      gen.queue == d.rest && gen.refills == old(gen.refills) + (if d.refilled then 1 else 0)
    ensures gen.Available() ==>
      var a := RunAttempts(Window(gen.api, old(gen.apiCalls), DefaultRetries));
      text == a.result && gen.apiCalls == old(gen.apiCalls) + a.calls
    ensures gen.Available() ==>
      gen.trace == AfterCall(old(gen.trace), gen.pool.value, gen.shuffle, gen.api, old(gen.queue), old(gen.refills), old(gen.apiCalls))
  {
    text := gen.Generate(DefaultRetries, DefaultDelay);
    ghost var rs := store.records;
    if text.Some? && text.value != "" {
      var _ := store.AddPrompt(text.value, now);
      StoredOne(rs, store.records[|rs|], now);
    } else {
      StoredNothing(rs, now);
    }
  }

  /**
   `populate_prompts`: the generator runs exactly `n` times; every truthy
   result, and only those, is appended to the store as a pending record,
   in order; `generatedCount` is their number. The example queue advances
   by exactly `n` draws when examples are available, and nothing at all
   happens to the generator's queue or to the store when they are not.
   */
  method PopulatePrompts(gen: PromptGenerator, store: Table, n: nat, now: Timestamp)
    returns (generatedCount: nat, ghost results: seq<Option<string>>)
    requires gen.Valid() && store.Valid()
    modifies gen, store
    ensures gen.Valid() && store.Valid()
    ensures gen.invocations == old(gen.invocations) + n
    ensures |results| == n
    ensures generatedCount == |Accepted(results)|
    ensures Stored(old(store.records), store.records, Accepted(results), now)
    ensures !gen.Available() ==>
      && (forall j :: 0 <= j < n ==> results[j] == None)
      && generatedCount == 0 && store.records == old(store.records)
      && gen.queue == old(gen.queue) && gen.apiCalls == old(gen.apiCalls) && gen.trace == old(gen.trace)
    ensures gen.Available() ==> forall j :: gen.shuffle(j) != []
    ensures gen.Available() ==>
      var draws := DrawMany(old(gen.queue), gen.shuffle, old(gen.refills), n);
      gen.queue == draws.queue && gen.refills == draws.refills
    ensures gen.Available() ==>
      var run := Generations(gen.api, old(gen.apiCalls), n);
      results == run.results && gen.apiCalls == old(gen.apiCalls) + run.calls
    ensures gen.Available() ==>
      gen.trace == Traced(old(gen.trace), gen.pool.value, gen.shuffle, gen.api,
                          old(gen.queue), old(gen.refills), old(gen.apiCalls), n)
  {
    generatedCount := 0;
    results := [];
    ghost var rs0 := store.records;
    ghost var q0, f0, c0, t0 := gen.queue, gen.refills, gen.apiCalls, gen.trace;
    if gen.Available() {
      gen.ShufflesNonEmpty();
    }
    for i := 0 to n
      invariant gen.Valid() && store.Valid()
      invariant gen.invocations == old(gen.invocations) + i
      invariant |results| == i
      invariant generatedCount == |Accepted(results)|
      invariant Stored(rs0, store.records, Accepted(results), now)
      invariant !gen.Available() ==>
        && (forall j :: 0 <= j < i ==> results[j] == None)
        && gen.queue == q0 && gen.apiCalls == old(gen.apiCalls) && gen.trace == old(gen.trace)
      invariant gen.Available() ==> forall j :: gen.shuffle(j) != []
      invariant gen.Available() ==>
        OnTrack(gen.pool.value, gen.shuffle, gen.api, q0, f0, c0, t0, i, results, gen.queue, gen.refills, gen.apiCalls, gen.trace)
    {
      ghost var before := store.records;
      ghost var q, f, c, t := gen.queue, gen.refills, gen.apiCalls, gen.trace;
      var text := PopulateOnce(gen, store, now);
      if gen.Available() {
        OnTrackStep(gen.pool.value, gen.shuffle, gen.api, q0, f0, c0, t0, i, results, q, f, c, t,
                    text, gen.queue, gen.refills, gen.apiCalls, gen.trace);
      }
      AcceptedSnoc(results, text);
      StoredTrans(rs0, before, store.records, Accepted(results), if Truthy(text) then [text.value] else [], now);
      results := results + [text];
      if text.Some? && text.value != "" {
        generatedCount := generatedCount + 1;
      }
    }
    if !gen.Available() {
      AcceptedSpec(results);
      assert store.records == store.records[..|rs0|];
    }
  }
}
