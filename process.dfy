/**
 Phase 2 of the driver in src/main.py: repeatedly take the first pending
 record, dispatch its text to the image tool (an oracle here) and mark it
 completed only when the tool reports at least one new file.
 */
module Process {
  import opened Wrappers
  import opened Database

  /**
   `NUM_IMAGES_TO_CREATE`, the iteration bound `m` the driver passes to `ProcessPendingPrompts`.
   The method takes the bound as a parameter, so its contract holds for every bound.
   */
  const NumImagesToCreate: nat := 5


  /** `GOOGLE_LABS_COOKIE` is set and not empty. */
  predicate HasCookie(cookie: Option<string>)
  {
    cookie.Some? && cookie.value != ""
  }

  /** The document ids of the pending records at or after position `from`, in table order. */
  function PendingDocsFrom(rs: seq<Record>, from: nat): seq<nat>
    decreases |rs| - from
  {
    if from >= |rs| then []
    else (if rs[from].status == Pending then [rs[from].docId] else []) + PendingDocsFrom(rs, from + 1)
  }

  /** The document ids of the pending records, in table order. */
  function PendingDocs(rs: seq<Record>): seq<nat>
  {
    PendingDocsFrom(rs, 0)
  }

  /** The pending list is empty exactly when the lookup finds nothing, and otherwise starts with what it finds. */
  lemma {:induction false} PendingDocsFromLookup(rs: seq<Record>, from: nat)
    ensures PendingDocsFrom(rs, from) == [] <==> FirstPendingFrom(rs, from) == None
    ensures FirstPendingFrom(rs, from).Some? ==>
      PendingDocsFrom(rs, from)[0] == rs[FirstPendingFrom(rs, from).value].docId
    decreases |rs| - from
  {
    if from < |rs| && rs[from].status != Pending {
      PendingDocsFromLookup(rs, from + 1);
    }
  }

  /** The pending list from `from` on depends only on the records from `from` on. */
  lemma {:induction false} PendingDocsFromAgree(a: seq<Record>, b: seq<Record>, from: nat)
    requires |a| == |b|
    requires forall j :: from <= j < |a| ==> a[j] == b[j]
    ensures PendingDocsFrom(a, from) == PendingDocsFrom(b, from)
    decreases |a| - from
  {
    if from < |a| {
      PendingDocsFromAgree(a, b, from + 1);
      var head := if a[from].status == Pending then [a[from].docId] else [];
      assert a[from] == b[from];
      assert PendingDocsFrom(a, from) == head + PendingDocsFrom(a, from + 1);
      assert PendingDocsFrom(b, from) == head + PendingDocsFrom(b, from + 1);
    }
  }

  /** Completion never goes back: what was completed in `a` is completed in `b`. */
  predicate Monotone(a: seq<Record>, b: seq<Record>)
  {
    |a| == |b| && forall j :: 0 <= j < |a| && a[j].status == Completed ==> b[j].status == Completed
  }

  /** The number of records that are pending in `a` and completed in `b`. */
  function Newly(a: seq<Record>, b: seq<Record>): nat
    requires |a| == |b|
  {
    if a == [] then 0
    else (if a[0].status == Pending && b[0].status == Completed then 1 else 0) + Newly(a[1..], b[1..])
  }

  /** What the remaining iterations of phase 2 leave behind. */
  datatype Drain = Drain(records: seq<Record>, processed: nat, dispatched: seq<nat>, succeeded: seq<bool>)

  /**
   Iterations `i` up to `m` of the `for` loop of `process_pending_prompts`:
   stop when no record is pending; otherwise dispatch the first pending
   record's text and mark that document completed only when the tool gave
   a non-empty list of paths. `dispatch(i, text)` is what the image tool
   returns in iteration `i`.
   */
  function DrainFrom(rs: seq<Record>, i: nat, m: nat, dispatch: (nat, string) -> seq<string>, now: Timestamp): (r: Drain)
    ensures |r.records| == |rs|
    ensures |r.succeeded| == |r.dispatched| && r.processed <= |r.dispatched|
    ensures |r.dispatched| <= if i <= m then m - i else 0
    decreases if i <= m then m - i else 0
  {
    if i >= m then Drain(rs, 0, [], [])
    else match FirstPending(rs)
      case None => Drain(rs, 0, [], [])
      case Some(k) =>
        var p := rs[k];
        var ok := dispatch(i, p.text) != [];
        var rs' := if ok then Complete(rs, p.docId, now) else rs;
        var next := DrainFrom(rs', i + 1, m, dispatch, now);
        Drain(next.records, next.processed + (if ok then 1 else 0), [p.docId] + next.dispatched, [ok] + next.succeeded)
  }

  /** One iteration of phase 2 that finds a pending record. */
  lemma DrainStep(rs: seq<Record>, i: nat, m: nat, dispatch: (nat, string) -> seq<string>, now: Timestamp)
    requires i < m && FirstPending(rs).Some?
    ensures var p := rs[FirstPending(rs).value];
      var ok := dispatch(i, p.text) != [];
      var next := DrainFrom(if ok then Complete(rs, p.docId, now) else rs, i + 1, m, dispatch, now);
      DrainFrom(rs, i, m, dispatch, now) ==
        Drain(next.records, next.processed + (if ok then 1 else 0), [p.docId] + next.dispatched, [ok] + next.succeeded)
  {
  }

  /** Phase 2 makes no change once its iterations are used up or nothing is pending. */
  lemma DrainDone(rs: seq<Record>, i: nat, m: nat, dispatch: (nat, string) -> seq<string>, now: Timestamp)
    requires i >= m || FirstPending(rs).None?
    ensures DrainFrom(rs, i, m, dispatch, now) == Drain(rs, 0, [], [])
  {
  }

  /** No record of the table is pending. */
  predicate NothingPending(rs: seq<Record>)
  {
    forall j :: 0 <= j < |rs| ==> rs[j].status != Pending
  }

  /** One iteration of the induction behind `StopsOnlyWhenNothingPending`. */
  lemma StopsStep(rs: seq<Record>, i: nat, m: nat, dispatch: (nat, string) -> seq<string>, now: Timestamp)
    requires i < m && FirstPending(rs).Some?
    requires var p := rs[FirstPending(rs).value];
      var rs' := if dispatch(i, p.text) != [] then Complete(rs, p.docId, now) else rs;
      var next := DrainFrom(rs', i + 1, m, dispatch, now);
      |next.dispatched| < m - (i + 1) ==> NothingPending(next.records)
    ensures var r := DrainFrom(rs, i, m, dispatch, now);
      |r.dispatched| < m - i ==> NothingPending(r.records)
  {
    DrainStep(rs, i, m, dispatch, now);
  }

  /** Phase 2 ends before using all its iterations only when no record is left pending. */
  lemma {:induction false} StopsOnlyWhenNothingPending(rs: seq<Record>, i: nat, m: nat,
                                                      dispatch: (nat, string) -> seq<string>, now: Timestamp)
    requires i <= m
    ensures var r := DrainFrom(rs, i, m, dispatch, now);
      |r.dispatched| < m - i ==> NothingPending(r.records)
    decreases m - i
  {
    if i < m && FirstPending(rs).Some? {
      var p := rs[FirstPending(rs).value];
      var rs' := if dispatch(i, p.text) != [] then Complete(rs, p.docId, now) else rs;
      StopsOnlyWhenNothingPending(rs', i + 1, m, dispatch, now);
      StopsStep(rs, i, m, dispatch, now);
    } else {
      DrainDone(rs, i, m, dispatch, now);
      FirstPendingFromSpec(rs, 0);
    }
  }

  /** Phase 2 only ever turns pending records into completed ones. */
  lemma {:induction false} DrainIsMonotone(rs: seq<Record>, i: nat, m: nat,
                                          dispatch: (nat, string) -> seq<string>, now: Timestamp)
    ensures Monotone(rs, DrainFrom(rs, i, m, dispatch, now).records)
    decreases if i <= m then m - i else 0
  {
    if i < m && FirstPending(rs).Some? {
      var p := rs[FirstPending(rs).value];
      var ok := dispatch(i, p.text) != [];
      var rs' := if ok then Complete(rs, p.docId, now) else rs;
      DrainStep(rs, i, m, dispatch, now);
      DrainIsMonotone(rs', i + 1, m, dispatch, now);
      assert Monotone(rs, rs');
    } else {
      DrainDone(rs, i, m, dispatch, now);
    }
  }

  /**
   Along a run whose iterations are numbered from `i` and stop before `m`,
   every failed dispatch that is not in the last iteration is followed by
   a dispatch of the same document.
   */
  predicate RetriedAfterFailure(dispatched: seq<nat>, succeeded: seq<bool>, i: nat, m: nat)
    requires |dispatched| == |succeeded|
  {
    forall j :: 0 <= j < |dispatched| && !succeeded[j] && i + j + 1 < m ==>
      j + 1 < |dispatched| && dispatched[j + 1] == dispatched[j]
  }

  /** Prepending one iteration keeps the property when a failure there is followed by the same document. */
  lemma RetriedCons(doc: nat, ok: bool, dispatched: seq<nat>, succeeded: seq<bool>, i: nat, m: nat)
    requires |dispatched| == |succeeded|
    requires RetriedAfterFailure(dispatched, succeeded, i + 1, m)
    requires !ok && i + 1 < m ==> dispatched != [] && dispatched[0] == doc
    ensures RetriedAfterFailure([doc] + dispatched, [ok] + succeeded, i, m)
  {
    var d := [doc] + dispatched;
    var s := [ok] + succeeded;
    forall j | 0 <= j < |d| && !s[j] && i + j + 1 < m
      ensures j + 1 < |d| && d[j + 1] == d[j]
    {
      if j > 0 {
        assert s[j] == succeeded[j - 1] && d[j] == dispatched[j - 1];
      }
    }
  }

  /**
   A failed dispatch leaves the table unchanged, so when another iteration
   follows it dispatches the same document again.
   */
  lemma FailureRepeats(rs: seq<Record>, i: nat, m: nat, dispatch: (nat, string) -> seq<string>, now: Timestamp)
    requires i + 1 < m && FirstPending(rs).Some?
    requires dispatch(i, rs[FirstPending(rs).value].text) == []
    ensures var r := DrainFrom(rs, i, m, dispatch, now);
      |r.dispatched| >= 2 && !r.succeeded[0] && r.dispatched[1] == r.dispatched[0]
  {
    DrainStep(rs, i, m, dispatch, now);
    DrainStep(rs, i + 1, m, dispatch, now);
  }

  /** One iteration of the induction behind `FailedDispatchIsRetried`. */
  lemma RetriedStep(rs: seq<Record>, i: nat, m: nat, dispatch: (nat, string) -> seq<string>, now: Timestamp)
    requires i < m && FirstPending(rs).Some?
    requires var p := rs[FirstPending(rs).value];
      var rs' := if dispatch(i, p.text) != [] then Complete(rs, p.docId, now) else rs;
      var next := DrainFrom(rs', i + 1, m, dispatch, now);
      RetriedAfterFailure(next.dispatched, next.succeeded, i + 1, m)
    ensures var r := DrainFrom(rs, i, m, dispatch, now);
      RetriedAfterFailure(r.dispatched, r.succeeded, i, m)
  {
    var p := rs[FirstPending(rs).value];
    var ok := dispatch(i, p.text) != [];
    var rs' := if ok then Complete(rs, p.docId, now) else rs;
    var next := DrainFrom(rs', i + 1, m, dispatch, now);
    DrainStep(rs, i, m, dispatch, now);
    if !ok && i + 1 < m {
      FailureRepeats(rs, i, m, dispatch, now);
      assert next.dispatched[0] == DrainFrom(rs, i, m, dispatch, now).dispatched[1];
    }
    RetriedCons(p.docId, ok, next.dispatched, next.succeeded, i, m);
  }

  /**
   A failed dispatch leaves the record pending, and since the lookup takes
   the first pending record, the next iteration (if there is one) dispatches
   that same document again.
   */
  lemma {:induction false} FailedDispatchIsRetried(rs: seq<Record>, i: nat, m: nat,
                                                   dispatch: (nat, string) -> seq<string>, now: Timestamp)
    ensures var r := DrainFrom(rs, i, m, dispatch, now);
      RetriedAfterFailure(r.dispatched, r.succeeded, i, m)
    decreases if i <= m then m - i else 0
  {
    if i < m && FirstPending(rs).Some? {
      var p := rs[FirstPending(rs).value];
      var rs' := if dispatch(i, p.text) != [] then Complete(rs, p.docId, now) else rs;
      FailedDispatchIsRetried(rs', i + 1, m, dispatch, now);
      RetriedStep(rs, i, m, dispatch, now);
    } else {
      DrainDone(rs, i, m, dispatch, now);
    }
  }

  /** Completing a document that is unique and pending turns exactly one record from pending to completed. */
  lemma {:induction false} CompleteOne(rs: seq<Record>, k: nat, now: Timestamp)
    requires UniqueDocIds(rs)
    requires k < |rs| && rs[k].status == Pending
    ensures Newly(rs, Complete(rs, rs[k].docId, now)) == 1
  {
    var c := Complete(rs, rs[k].docId, now);
    if k == 0 {
      NewlyNone(rs[1..], c[1..]);
    } else {
      var tail := rs[1..];
      assert UniqueDocIds(tail) by {
        forall a, b | 0 <= a < |tail| && 0 <= b < |tail| && a != b
          ensures tail[a].docId != tail[b].docId
        {
          assert tail[a] == rs[a + 1] && tail[b] == rs[b + 1];
        }
      }
      assert tail[k - 1] == rs[k];
      assert c[1..] == Complete(tail, rs[k].docId, now);
      assert rs[0].docId != rs[k].docId;
      CompleteOne(tail, k - 1, now);
    }
  }

  /** Two tables that agree on every status have no newly completed record between them. */
  lemma {:induction false} NewlyNone(a: seq<Record>, b: seq<Record>)
    requires |a| == |b|
    requires forall j :: 0 <= j < |a| ==> a[j].status == b[j].status
    ensures Newly(a, b) == 0
  {
    if a != [] {
      NewlyNone(a[1..], b[1..]);
    }
  }

  /** Newly completed records add up along two monotone steps. */
  lemma {:induction false} NewlyAdds(a: seq<Record>, b: seq<Record>, c: seq<Record>)
    requires Monotone(a, b) && Monotone(b, c)
    ensures Newly(a, c) == Newly(a, b) + Newly(b, c)
  {
    if a != [] {
      NewlyAdds(a[1..], b[1..], c[1..]);
    }
  }

  /** One iteration of the induction behind `ProcessedCountsCompletions`. */
  lemma ProcessedStep(rs: seq<Record>, i: nat, m: nat, dispatch: (nat, string) -> seq<string>, now: Timestamp)
    requires UniqueDocIds(rs)
    requires i < m && FirstPending(rs).Some?
    requires var p := rs[FirstPending(rs).value];
      var rs' := if dispatch(i, p.text) != [] then Complete(rs, p.docId, now) else rs;
      var next := DrainFrom(rs', i + 1, m, dispatch, now);
      next.processed == Newly(rs', next.records)
    ensures var r := DrainFrom(rs, i, m, dispatch, now);
      r.processed == Newly(rs, r.records)
  {
    var k := FirstPending(rs).value;
    var p := rs[k];
    var ok := dispatch(i, p.text) != [];
    var rs' := if ok then Complete(rs, p.docId, now) else rs;
    var next := DrainFrom(rs', i + 1, m, dispatch, now);
    DrainStep(rs, i, m, dispatch, now);
    DrainIsMonotone(rs', i + 1, m, dispatch, now);
    CompleteSpec(rs, p.docId, now);
    assert Monotone(rs, rs');
    NewlyAdds(rs, rs', next.records);
    if ok {
      CompleteOne(rs, k, now);
    } else {
      NewlyNone(rs, rs);
    }
  }

  /** `processed_count` is exactly the number of records that phase 2 turned from pending to completed. */
  lemma {:induction false} ProcessedCountsCompletions(rs: seq<Record>, i: nat, m: nat,
                                                     dispatch: (nat, string) -> seq<string>, now: Timestamp)
    requires UniqueDocIds(rs)
    ensures var r := DrainFrom(rs, i, m, dispatch, now); r.processed == Newly(rs, r.records)
    decreases if i <= m then m - i else 0
  {
    if i < m && FirstPending(rs).Some? {
      var p := rs[FirstPending(rs).value];
      var rs' := if dispatch(i, p.text) != [] then Complete(rs, p.docId, now) else rs;
      CompleteKeepsInvariants(rs, p.docId, now);
      ProcessedCountsCompletions(rs', i + 1, m, dispatch, now);
      ProcessedStep(rs, i, m, dispatch, now);
    } else {
      DrainDone(rs, i, m, dispatch, now);
      NewlyNone(rs, rs);
    }
  }

  /** Completing the pending record at `from` drops its id from the head of the pending list. */
  lemma CompleteAtHead(rs: seq<Record>, from: nat, now: Timestamp)
    requires UniqueDocIds(rs)
    requires from < |rs| && rs[from].status == Pending
    ensures var ps := PendingDocsFrom(rs, from);
      && ps != [] && ps[0] == rs[from].docId
      && PendingDocsFrom(Complete(rs, rs[from].docId, now), from) == ps[1..]
  {
    var c := Complete(rs, rs[from].docId, now);
    CompleteSpec(rs, rs[from].docId, now);
    forall j | from + 1 <= j < |rs|
      ensures c[j] == rs[j]
    {
      assert rs[j].docId != rs[from].docId;
    }
    PendingDocsFromAgree(c, rs, from + 1);
    assert c[from].status == Completed;
  }

  /** A record that is not pending contributes nothing to the pending list. */
  lemma SkipNotPending(rs: seq<Record>, from: nat)
    requires from < |rs| && rs[from].status != Pending
    ensures PendingDocsFrom(rs, from) == PendingDocsFrom(rs, from + 1)
    ensures FirstPendingFrom(rs, from) == FirstPendingFrom(rs, from + 1)
  {
  }

  /** Completing the first pending record at or after `from` removes exactly the head of the pending list from `from`. */
  lemma {:induction false} CompleteFirstPendingFrom(rs: seq<Record>, from: nat, now: Timestamp)
    requires UniqueDocIds(rs)
    requires FirstPendingFrom(rs, from).Some?
    ensures var k := FirstPendingFrom(rs, from).value;
      var ps := PendingDocsFrom(rs, from);
      ps != [] && PendingDocsFrom(Complete(rs, rs[k].docId, now), from) == ps[1..]
    decreases |rs| - from
  {
    if rs[from].status == Pending {
      CompleteAtHead(rs, from, now);
    } else {
      SkipNotPending(rs, from);
      CompleteFirstPendingFrom(rs, from + 1, now);
      CompleteSkipsHead(rs, from, now);
    }
  }

  /** One iteration of the induction behind `CompleteFirstPendingFrom`, past a record that is not pending. */
  lemma CompleteSkipsHead(rs: seq<Record>, from: nat, now: Timestamp)
    requires UniqueDocIds(rs)
    requires from < |rs| && rs[from].status != Pending
    requires FirstPendingFrom(rs, from + 1).Some?
    requires var k := FirstPendingFrom(rs, from + 1).value;
      var ps := PendingDocsFrom(rs, from + 1);
      ps != [] && PendingDocsFrom(Complete(rs, rs[k].docId, now), from + 1) == ps[1..]
    ensures var k := FirstPendingFrom(rs, from).value;
      var ps := PendingDocsFrom(rs, from);
      ps != [] && PendingDocsFrom(Complete(rs, rs[k].docId, now), from) == ps[1..]
  {
    SkipNotPending(rs, from);
    var k := FirstPendingFrom(rs, from).value;
    var c := Complete(rs, rs[k].docId, now);
    assert rs[from].docId != rs[k].docId;
    assert c[from] == rs[from];
    SkipNotPending(c, from);
  }

  /** Completing the first pending record removes exactly the head of the pending list. */
  lemma CompleteFirstPending(rs: seq<Record>, now: Timestamp)
    requires UniqueDocIds(rs)
    requires FirstPending(rs).Some?
    ensures var k := FirstPending(rs).value;
      && PendingDocs(rs) != [] && PendingDocs(rs)[0] == rs[k].docId
      && PendingDocs(Complete(rs, rs[k].docId, now)) == PendingDocs(rs)[1..]
  {
    PendingDocsFromLookup(rs, 0);
    CompleteFirstPendingFrom(rs, 0, now);
  }

  /** The first `c` pending documents dispatched, the rest still pending, `c` processed. */
  predicate DrainedPrefix(ps: seq<nat>, r: Drain, c: nat)
  {
    c <= |ps| && r.dispatched == ps[..c] && PendingDocs(r.records) == ps[c..] && r.processed == c
  }

  /** A successful dispatch of the head of the pending list extends the drained prefix by one. */
  lemma PrefixCons(ps: seq<nat>, rest: Drain, r: Drain, c: nat)
    requires ps != [] && DrainedPrefix(ps[1..], rest, c)
    requires r.records == rest.records && r.processed == rest.processed + 1
    requires r.dispatched == [ps[0]] + rest.dispatched
    ensures DrainedPrefix(ps, r, c + 1)
  {
    assert [ps[0]] + ps[1..][..c] == ps[..c + 1];
    assert ps[1..][c..] == ps[c + 1..];
  }

  /** One iteration of the induction behind `AllDispatchesSucceed`. */
  lemma AllSucceedStep(rs: seq<Record>, i: nat, m: nat, dispatch: (nat, string) -> seq<string>, now: Timestamp)
    requires UniqueDocIds(rs)
    requires i < m && FirstPending(rs).Some?
    requires dispatch(i, rs[FirstPending(rs).value].text) != []
    requires var rs' := Complete(rs, rs[FirstPending(rs).value].docId, now);
      var n := |PendingDocs(rs')|;
      DrainedPrefix(PendingDocs(rs'), DrainFrom(rs', i + 1, m, dispatch, now), if n < m - i - 1 then n else m - i - 1)
    ensures var n := |PendingDocs(rs)|;
      DrainedPrefix(PendingDocs(rs), DrainFrom(rs, i, m, dispatch, now), if n < m - i then n else m - i)
  {
    var k := FirstPending(rs).value;
    var rs' := Complete(rs, rs[k].docId, now);
    var next := DrainFrom(rs', i + 1, m, dispatch, now);
    DrainStep(rs, i, m, dispatch, now);
    CompleteFirstPending(rs, now);
    var ps := PendingDocs(rs);
    var n' := |PendingDocs(rs')|;
    PrefixCons(ps, next, DrainFrom(rs, i, m, dispatch, now), if n' < m - i - 1 then n' else m - i - 1);
  }

  /**
   With every dispatch succeeding, phase 2 completes the first min(P, M)
   pending records in table order, where P is the number pending: it
   dispatches exactly those documents, and the ones still pending afterwards
   are the rest, in the same order.
   */
  lemma {:induction false} AllDispatchesSucceed(rs: seq<Record>, i: nat, m: nat,
                                               dispatch: (nat, string) -> seq<string>, now: Timestamp)
    requires UniqueDocIds(rs)
    requires i <= m
    requires forall j, t :: dispatch(j, t) != []
    ensures var n := |PendingDocs(rs)|;
      DrainedPrefix(PendingDocs(rs), DrainFrom(rs, i, m, dispatch, now), if n < m - i then n else m - i)
    decreases m - i
  {
    if i < m && FirstPending(rs).Some? {
      var p := rs[FirstPending(rs).value];
      var rs' := Complete(rs, p.docId, now);
      CompleteKeepsInvariants(rs, p.docId, now);
      AllDispatchesSucceed(rs', i + 1, m, dispatch, now);
      AllSucceedStep(rs, i, m, dispatch, now);
    } else {
      DrainDone(rs, i, m, dispatch, now);
      PendingDocsFromLookup(rs, 0);
    }
  }

  /**
   The loop of `process_pending_prompts` after `i` iterations, with table
   `rs`, is on course for what `DrainFrom` predicts from the table `rs0`
   it started with: the same final table, and the counts and dispatches so
   far followed by those of the remaining iterations.
   */
  ghost predicate OnCourse(rs0: seq<Record>, rs: seq<Record>, i: nat, m: nat, processed: nat, dispatched: seq<nat>,
                           dispatch: (nat, string) -> seq<string>, now: Timestamp)
  {
    var r0 := DrainFrom(rs0, 0, m, dispatch, now);
    var r := DrainFrom(rs, i, m, dispatch, now);
    r0.records == r.records && r0.processed == processed + r.processed && r0.dispatched == dispatched + r.dispatched
  }

  /** One iteration that finds a pending record stays on course. */
  lemma OnCourseStep(rs0: seq<Record>, rs: seq<Record>, i: nat, m: nat, processed: nat, dispatched: seq<nat>,
                     dispatch: (nat, string) -> seq<string>, now: Timestamp)
    requires i < m && FirstPending(rs).Some?
    requires OnCourse(rs0, rs, i, m, processed, dispatched, dispatch, now)
    ensures var p := rs[FirstPending(rs).value];
      var ok := dispatch(i, p.text) != [];
      OnCourse(rs0, if ok then Complete(rs, p.docId, now) else rs, i + 1, m,
               processed + (if ok then 1 else 0), dispatched + [p.docId], dispatch, now)
  {
    var p := rs[FirstPending(rs).value];
    var ok := dispatch(i, p.text) != [];
    var next := DrainFrom(if ok then Complete(rs, p.docId, now) else rs, i + 1, m, dispatch, now);
    DrainStep(rs, i, m, dispatch, now);
    assert dispatched + ([p.docId] + next.dispatched) == (dispatched + [p.docId]) + next.dispatched;
  }

  /** Once the iterations are used up or nothing is pending, the loop has arrived. */
  lemma OnCourseDone(rs0: seq<Record>, rs: seq<Record>, i: nat, m: nat, processed: nat, dispatched: seq<nat>,
                     dispatch: (nat, string) -> seq<string>, now: Timestamp)
    requires i >= m || FirstPending(rs).None?
    requires OnCourse(rs0, rs, i, m, processed, dispatched, dispatch, now)
    ensures var r0 := DrainFrom(rs0, 0, m, dispatch, now);
      r0.records == rs && r0.processed == processed && r0.dispatched == dispatched
  {
    DrainDone(rs, i, m, dispatch, now);
  }

  /**
   `process_pending_prompts`: without a cookie it returns at once, with no
   dispatch and no change to the store; otherwise it runs the `NUM_IMAGES`
   iterations described by `DrainFrom`, and `processedCount` is the number
   of records it marked completed. The loop's `break` becomes a `return`
   of the same count.
   */
  method ProcessPendingPrompts(store: Table, cookie: Option<string>, m: nat,
                               dispatch: (nat, string) -> seq<string>, now: Timestamp)
    returns (processedCount: nat, ghost dispatched: seq<nat>)
    requires store.Valid()
    modifies store
    ensures store.Valid() && store.lastDocId == old(store.lastDocId)
    ensures !HasCookie(cookie) ==> processedCount == 0 && dispatched == [] && store.records == old(store.records)
    ensures HasCookie(cookie) ==>
      var r := DrainFrom(old(store.records), 0, m, dispatch, now);
      store.records == r.records && processedCount == r.processed && dispatched == r.dispatched
  {
    if !HasCookie(cookie) {
      return 0, [];
    }
    processedCount := 0;
    dispatched := [];
    ghost var rs0 := store.records;
    for i := 0 to m
      invariant store.Valid() && store.lastDocId == old(store.lastDocId)
      invariant OnCourse(rs0, store.records, i, m, processedCount, dispatched, dispatch, now)
    {
      var pending := GetPendingPrompt(store.records);
      if pending.None? {
        OnCourseDone(rs0, store.records, i, m, processedCount, dispatched, dispatch, now);
        return;
      }
      ghost var k := FirstPending(store.records).value;
      assert pending.value == store.records[k];
      OnCourseStep(rs0, store.records, i, m, processedCount, dispatched, dispatch, now);
      var paths := dispatch(i, pending.value.text);
      if paths != [] {
        store.MarkPromptCompleted(pending.value.docId, now);
        processedCount := processedCount + 1;
      }
      dispatched := dispatched + [pending.value.docId];
    }
    OnCourseDone(rs0, store.records, m, m, processedCount, dispatched, dispatch, now);
  }
}
