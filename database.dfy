/**
 The prompt record store of src/database_handler.py: a TinyDB table of
 prompt documents, each with an application-level `prompt_id`, a text, a
 lifecycle status and an optional completion timestamp. TinyDB's own
 document id (`doc_id`) is kept apart from `prompt_id`: it is what
 `add_prompt` returns and what `mark_prompt_completed` receives.
 */
module Database {
  import opened Wrappers

  /** An ISO-8601 timestamp from `datetime.now(...)`; only its presence matters. */
  type Timestamp = string

  datatype Status = Pending | Completed

  /** One document of the table; `docId` is TinyDB's key, the rest its fields. */
  datatype Record = Record(
    docId: nat,
    promptId: int,
    text: string,
    status: Status,
    createdAt: Timestamp,
    completedAt: Option<Timestamp>)

  /** `completed_at` is absent exactly for the pending records. */
  predicate Lifecycle(rs: seq<Record>)
  {
    forall i :: 0 <= i < |rs| ==> (rs[i].completedAt.None? <==> rs[i].status == Pending)
  }

  /** Prompt ids grow strictly along the table order (so they are unique). */
  predicate IdsIncreasing(rs: seq<Record>)
  {
    forall i, j :: 0 <= i < j < |rs| ==> rs[i].promptId < rs[j].promptId
  }

  /** No two documents share a TinyDB document id. */
  predicate UniqueDocIds(rs: seq<Record>)
  {
    forall i, j :: 0 <= i < |rs| && 0 <= j < |rs| && i != j ==> rs[i].docId != rs[j].docId
  }

  /** `get_next_id`: 1 for an empty table, otherwise one more than the largest prompt id. */
  function NextId(rs: seq<Record>): (r: int)
    ensures rs == [] ==> r == 1
    ensures forall i :: 0 <= i < |rs| ==> rs[i].promptId < r
    ensures rs != [] ==> exists i :: 0 <= i < |rs| && rs[i].promptId == r - 1
  {
    if rs == [] then 1
    else if |rs| == 1 then rs[0].promptId + 1
    else
      var rest := NextId(rs[1..]);
      assert exists i :: 0 <= i < |rs[1..]| && rs[1..][i].promptId == rest - 1;
      if rs[0].promptId + 1 > rest then rs[0].promptId + 1 else rest
  }

  /** The position of the first pending record at or after `from`, if there is one. */
  function FirstPendingFrom(rs: seq<Record>, from: nat): (r: Option<nat>)
    ensures r.Some? ==> from <= r.value < |rs| && rs[r.value].status == Pending
    decreases |rs| - from
  {
    if from >= |rs| then None
    else if rs[from].status == Pending then Some(from)
    else FirstPendingFrom(rs, from + 1)
  }

  /** The lookup finds nothing exactly when nothing is pending from `from` on, and otherwise nothing pending precedes what it finds. */
  lemma {:induction false} FirstPendingFromSpec(rs: seq<Record>, from: nat)
    ensures var r := FirstPendingFrom(rs, from);
      && (r.None? <==> forall i :: from <= i < |rs| ==> rs[i].status != Pending)
      && (r.Some? ==> forall i :: from <= i < r.value ==> rs[i].status != Pending)
    decreases |rs| - from
  {
    if from < |rs| && rs[from].status != Pending {
      FirstPendingFromSpec(rs, from + 1);
    }
  }

  /** The position of the first pending record in table order, if there is one. */
  function FirstPending(rs: seq<Record>): (r: Option<nat>)
    ensures r.Some? ==> r.value < |rs| && rs[r.value].status == Pending
  {
    FirstPendingFrom(rs, 0)
  }

  /**
   `get_pending_prompt`: the first document whose status is pending, or
   None when no document is pending. It is a query: the table is a
   parameter and nothing is returned but the document.
   */
  function GetPendingPrompt(rs: seq<Record>): (r: Option<Record>)
  {
    match FirstPending(rs)
    case None => None
    case Some(k) => Some(rs[k])
  }

  /** The query finds nothing exactly when nothing is pending, and otherwise the first pending document. */
  lemma GetPendingPromptSpec(rs: seq<Record>)
    ensures var r := GetPendingPrompt(rs);
      && (r.None? <==> forall i :: 0 <= i < |rs| ==> rs[i].status != Pending)
      && (r.Some? ==> exists k :: 0 <= k < |rs| && rs[k] == r.value && r.value.status == Pending &&
                                  forall i :: 0 <= i < k ==> rs[i].status != Pending)
  {
    FirstPendingFromSpec(rs, 0);
  }

  /**
   The table after `db.update({'status': 'completed', 'completed_at': now}, doc_ids=[docId])`,
   one document at a time.
   */
  function Complete(rs: seq<Record>, docId: nat, now: Timestamp): (rs': seq<Record>)
    ensures |rs'| == |rs|
  {
    seq(|rs|, i requires 0 <= i < |rs| =>
      if rs[i].docId == docId then rs[i].(status := Completed, completedAt := Some(now)) else rs[i])
  }

  /**
   The documents with that id get both fields; every other field and every
   other document stays as it was.
   */
  lemma CompleteSpec(rs: seq<Record>, docId: nat, now: Timestamp)
    ensures var rs' := Complete(rs, docId, now);
      && |rs'| == |rs|
      && (forall i :: 0 <= i < |rs| ==>
        && rs'[i].docId == rs[i].docId && rs'[i].promptId == rs[i].promptId
        && rs'[i].text == rs[i].text && rs'[i].createdAt == rs[i].createdAt)
      && (forall i :: 0 <= i < |rs| && rs[i].docId == docId ==>
        rs'[i].status == Completed && rs'[i].completedAt == Some(now))
      && (forall i :: 0 <= i < |rs| && rs[i].docId != docId ==> rs'[i] == rs[i])
  {
  }

  /**
   Marking a document completed keeps the store's invariants: the lifecycle
   rule (it sets the status and the timestamp together), increasing prompt
   ids and unique document ids (it changes neither).
   */
  lemma CompleteKeepsInvariants(rs: seq<Record>, docId: nat, now: Timestamp)
    ensures Lifecycle(rs) ==> Lifecycle(Complete(rs, docId, now))
    ensures IdsIncreasing(rs) ==> IdsIncreasing(Complete(rs, docId, now))
    ensures UniqueDocIds(rs) ==> UniqueDocIds(Complete(rs, docId, now))
  {
  }

  /** The module-level `db` table, with TinyDB's last assigned document id. */
  class Table {
    var records: seq<Record>
    var lastDocId: nat

    ghost predicate Valid()
      reads this
    {
      && Lifecycle(records)
      && IdsIncreasing(records)
      && UniqueDocIds(records)
      && forall i :: 0 <= i < |records| ==> records[i].docId <= lastDocId
    }

    /** A fresh, empty table. */
    constructor ()
      ensures Valid() && records == [] && lastDocId == 0
    {
      records := [];
      lastDocId := 0;
    }

    /**
     `add_prompt`: an empty text is refused and nothing changes; otherwise
     exactly one pending document is appended with the prompt id computed
     beforehand by `get_next_id`, and its fresh document id is returned.
     */
    method AddPrompt(text: string, now: Timestamp) returns (docId: Option<nat>)
      requires Valid()
      modifies this
      ensures Valid()
      ensures text == "" ==> docId == None && records == old(records) && lastDocId == old(lastDocId)
      ensures text != "" ==> docId.Some?
      ensures text != "" ==> forall i :: 0 <= i < |old(records)| ==> old(records)[i].docId != docId.value
      ensures text != "" ==>
        records == old(records) + [Record(docId.value, NextId(old(records)), text, Pending, now, None)]
    {
      if text == "" {
        return None;
      }
      var promptId := NextId(records);
      lastDocId := lastDocId + 1;
      records := records + [Record(lastDocId, promptId, text, Pending, now, None)];
      docId := Some(lastDocId);
    }

    /**
     `mark_prompt_completed`: the document with the given id becomes
     completed with a completion time; TinyDB raises for an unknown id,
     so the id must be present.
     */
    method MarkPromptCompleted(docId: nat, now: Timestamp)
      requires Valid()
      requires exists i :: 0 <= i < |records| && records[i].docId == docId
      modifies this
      ensures Valid()
      ensures lastDocId == old(lastDocId)
      ensures records == Complete(old(records), docId, now)
    {
      CompleteKeepsInvariants(records, docId, now);
      records := Complete(records, docId, now);
    }
  }
}
