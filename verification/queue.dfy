// The delivery_queue table (internal/queue/queue.go): rows keyed by dlv_id,
// changed only by atomic single-statement inserts and updates.
module DeliveryQueue {
  import opened Common

  datatype DeliveryState = Queued | Delivering | Delivered | TempFail | PermFail

  // A column that SQL leaves NULL is read back by the program as "" or 0, and is modelled so.
  datatype Row = Row(
    msgID: string,
    recipient: string,
    mxHostname: string,
    mxIP: string,
    state: DeliveryState,
    attempts: nat,
    maxAttempts: int,
    nextAttempt: int,
    lastError: string,
    smtpCode: int,
    smtpMessage: string,
    createdAt: int,
    updatedAt: int,
    deliveredAt: Option<int>)

  // What a worker holds: the row as it was when it was selected.
  datatype QueueItem = QueueItem(dlvID: string, row: Row)

  // The values one UPDATE statement writes.
  datatype Update = Update(
    state: DeliveryState,
    mxHostname: string,
    mxIP: string,
    errorMsg: string,
    smtpCode: int,
    smtpMessage: string,
    nextAttempt: int)

  type Rows = map<string, Row>

  // `time.Time{}.Unix()`: what is stored as next_attempt when there is no next attempt.
  const ZERO_TIME_UNIX: int := -62135596800

  predicate Pending(r: Row) {
    r.state == Queued || r.state == TempFail
  }

  predicate Due(r: Row, sec: int) {
    Pending(r) && r.nextAttempt <= sec
  }

  function NewRow(msgID: string, recipient: string, maxAttempts: int, now: int): Row {
    Row(msgID, recipient, "", "", Queued, 0, maxAttempts, Unix(now), "", 0, "", Unix(now), Unix(now), None)
  }

  function Updated(r: Row, u: Update, now: int): Row {
    r.(state := u.state, mxHostname := u.mxHostname, mxIP := u.mxIP, lastError := u.errorMsg,
       smtpCode := u.smtpCode, smtpMessage := u.smtpMessage, nextAttempt := u.nextAttempt,
       updatedAt := Unix(now), deliveredAt := if u.state == Delivered then Some(Unix(now)) else None,
       attempts := r.attempts + 1)
  }

  function WithUpdate(rows: Rows, id: string, u: Update, now: int): Rows {
    if id in rows then rows[id := Updated(rows[id], u, now)] else rows
  }

  function Ids(items: seq<QueueItem>): set<string> {
    set i | 0 <= i < |items| :: items[i].dlvID
  }

  ghost predicate DistinctIds(items: seq<QueueItem>) {
    forall i, j | 0 <= i < j < |items| :: items[i].dlvID != items[j].dlvID
  }

  ghost predicate SelectedFrom(rows: Rows, sec: int, items: seq<QueueItem>) {
    forall i | 0 <= i < |items| ::
      items[i].dlvID in rows && items[i].row == rows[items[i].dlvID] && Due(items[i].row, sec)
  }

  // Every item is scheduled no later than `next`.
  ghost predicate NoneAfter(items: seq<QueueItem>, next: int) {
    forall i | 0 <= i < |items| :: items[i].row.nextAttempt <= next
  }

  ghost predicate InOrder(items: seq<QueueItem>) {
    forall i, j | 0 <= i < j < |items| :: items[i].row.nextAttempt <= items[j].row.nextAttempt
  }

  // What SELECT .. WHERE due ORDER BY next_attempt LIMIT limit may return;
  // rows with equal next_attempt come in no particular order.
  ghost predicate IsPendingBatch(rows: Rows, sec: int, limit: nat, items: seq<QueueItem>) {
    && |items| <= limit
    && DistinctIds(items)
    && SelectedFrom(rows, sec, items)
    && InOrder(items)
    && (forall id | id in rows && Due(rows[id], sec) && id !in Ids(items) ::
          |items| == limit && NoneAfter(items, rows[id].nextAttempt))
  }

  // Up to `limit` rows that are queued or have failed temporarily and are scheduled no later than
  // the present second, each as it is in the table, earliest first; and of such rows one is left
  // out only if there are `limit` others scheduled no later.
  lemma PendingBatchMeans(rows: Rows, sec: int, limit: nat, items: seq<QueueItem>)
    ensures IsPendingBatch(rows, sec, limit, items) <==>
              && |items| <= limit
              && (forall i | 0 <= i < |items| ::
                    && items[i].dlvID in rows && items[i].row == rows[items[i].dlvID]
                    && items[i].row.state in {Queued, TempFail} && items[i].row.nextAttempt <= sec)
              && (forall i, j | 0 <= i < j < |items| ::
                    items[i].dlvID != items[j].dlvID && items[i].row.nextAttempt <= items[j].row.nextAttempt)
              && (forall id | id in rows && rows[id].state in {Queued, TempFail} && rows[id].nextAttempt <= sec ::
                    || (exists i :: 0 <= i < |items| && items[i].dlvID == id)
                    || (|items| == limit
                        && forall i | 0 <= i < |items| :: items[i].row.nextAttempt <= rows[id].nextAttempt))
  {
  }

  // One of `ids` that no other is scheduled before.
  predicate Earliest(rows: Rows, ids: set<string>, id: string)
    requires ids <= rows.Keys
  {
    id in ids && forall other | other in ids :: rows[id].nextAttempt <= rows[other].nextAttempt
  }

  lemma {:induction false} EarliestExists(rows: Rows, ids: set<string>) returns (id: string)
    requires ids != {} && ids <= rows.Keys
    ensures Earliest(rows, ids, id)
    decreases ids
  {
    var one :| one in ids;
    var rest := ids - {one};
    assert forall other | other in ids :: other == one || other in rest;
    id := one;
    if rest != {} {
      var first := EarliestExists(rows, rest);
      if rows[first].nextAttempt < rows[one].nextAttempt {
        id := first;
      }
    }
  }

  lemma IdsGrow(items: seq<QueueItem>, item: QueueItem)
    ensures Ids(items + [item]) == Ids(items) + {item.dlvID}
  {
    var more := items + [item];
    forall k | k in Ids(items) + {item.dlvID} ensures k in Ids(more) {
      if k in Ids(items) {
        var i :| 0 <= i < |items| && items[i].dlvID == k;
        assert more[i].dlvID == k;
      } else {
        assert more[|items|].dlvID == k;
      }
    }
  }

  // `items` are the earliest due rows, and `left` the other due rows.
  ghost predicate Selecting(rows: Rows, sec: int, items: seq<QueueItem>, left: set<string>) {
    && left <= rows.Keys && left !! Ids(items)
    && DistinctIds(items) && SelectedFrom(rows, sec, items) && InOrder(items)
    && (forall id | id in left :: Due(rows[id], sec) && NoneAfter(items, rows[id].nextAttempt))
    && (forall id | id in rows && Due(rows[id], sec) :: id in left || id in Ids(items))
  }

  lemma SelectNext(rows: Rows, sec: int, items: seq<QueueItem>, left: set<string>, id: string)
    requires Selecting(rows, sec, items, left) && Earliest(rows, left, id)
    ensures Selecting(rows, sec, items + [QueueItem(id, rows[id])], left - {id})
  {
    IdsGrow(items, QueueItem(id, rows[id]));
    forall i | 0 <= i < |items| ensures items[i].dlvID != id {
      assert items[i].dlvID in Ids(items);
    }
    assert NoneAfter(items, rows[id].nextAttempt);
  }

  class Queue {
    var rows: Rows

    constructor ()
      ensures rows == map[]
    {
      rows := map[];
    }

    // `dlvID` is the identifier the program draws at random; the primary key refuses one in
    // use, and the database may refuse the insert for reasons of its own.
    method EnqueueDelivery(dlvID: string, msgID: string, recipient: string, maxAttempts: int, now: int, inserted: bool)
      returns (ok: bool)
      modifies this
      ensures ok == (inserted && dlvID !in old(rows))
      ensures rows == if ok then old(rows)[dlvID := NewRow(msgID, recipient, maxAttempts, now)] else old(rows)
      ensures ok ==>
                var r := rows[dlvID];
                && r.msgID == msgID && r.recipient == recipient && r.state == Queued
                && r.attempts == 0 && r.maxAttempts == maxAttempts
                && r.nextAttempt == r.createdAt == r.updatedAt == Unix(now)
                && r.mxHostname == r.mxIP == r.lastError == r.smtpMessage == "" && r.smtpCode == 0
                && r.deliveredAt == None
    {
      if dlvID in rows || !inserted {
        return false;
      }
      rows := rows[dlvID := NewRow(msgID, recipient, maxAttempts, now)];
      return true;
    }

    method GetPendingDeliveries(limit: nat, now: int) returns (items: seq<QueueItem>)
      ensures IsPendingBatch(rows, Unix(now), limit, items)
    {
      var sec := Unix(now);
      items := [];
      var left := set id | id in rows && Due(rows[id], sec);
      while |items| < limit && left != {}
        invariant |items| <= limit && Selecting(rows, sec, items, left)
        decreases left
      {
        ghost var first := EarliestExists(rows, left);
        var id :| id in left && Earliest(rows, left, id);
        SelectNext(rows, sec, items, left, id);
        items := items + [QueueItem(id, rows[id])];
        left := left - {id};
      }
    }

    method UpdateDeliveryState(dlvID: string, u: Update, now: int)
      modifies this
      ensures rows == WithUpdate(old(rows), dlvID, u, now)
      ensures dlvID !in old(rows) ==> rows == old(rows)
      ensures dlvID in old(rows) ==>
                var before, r := old(rows)[dlvID], rows[dlvID];
                && rows == old(rows)[dlvID := r]
                && r.state == u.state && r.mxHostname == u.mxHostname && r.mxIP == u.mxIP
                && r.lastError == u.errorMsg && r.smtpCode == u.smtpCode && r.smtpMessage == u.smtpMessage
                && r.nextAttempt == u.nextAttempt && r.updatedAt == Unix(now)
                && r.deliveredAt == (if u.state == Delivered then Some(Unix(now)) else None)
                && r.attempts == before.attempts + 1 && r.maxAttempts == before.maxAttempts
                && r.msgID == before.msgID && r.recipient == before.recipient && r.createdAt == before.createdAt
    {
      if dlvID in rows {
        rows := rows[dlvID := Updated(rows[dlvID], u, now)];
      }
    }
  }
}
