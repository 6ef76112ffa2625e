// One delivery worker (internal/delivery/worker.go): how a snapshot of a row
// and what happened on the network become one UPDATE of that row.
module Delivery {
  import opened Common
  import opened DeliveryQueue

  // The number of rows a worker asks for at a time.
  const BATCH: nat := 10

  type Schedule = s: seq<int> | |s| > 0 witness [0]

  datatype MxResult = MxFound(host: string, ip: string) | MxFailed(host: string, ip: string, error: string)

  // What the worker sees: `error` is None for an accepted message, and the code comes with
  // either result. `unheard` is the receiving server's side: it took the message, and the
  // answer that says so did not reach the worker, which sees an error instead.
  datatype SmtpReply = SmtpReply(code: int, message: string, error: Option<string>, unheard: bool)

  // Everything outside the program that one delivery attempt meets: the spool's
  // answer in the three stages tried, the MX lookup, and the SMTP dialogue.
  datatype Conditions = Conditions(
    signed: Option<Bytes>,
    modified: Option<Bytes>,
    parsed: Option<Bytes>,
    readError: string,
    mx: MxResult,
    reply: SmtpReply)

  // One attempt: what it met, the clock when the retry was computed, the clock
  // when the row was written, and whether the database accepted the write.
  datatype Visit = Visit(conditions: Conditions, decided: int, written: int, saved: bool)

  // What the worker hands to the receiving server.
  datatype Dialogue = Dialogue(host: string, recipient: string, data: Bytes)

  predicate SpoolHit(c: Conditions) {
    c.signed.Some? || c.modified.Some? || c.parsed.Some?
  }

  predicate IsPermanentCode(code: int) {
    500 <= code < 600
  }

  predicate HasDialogue(c: Conditions) {
    SpoolHit(c) && c.mx.MxFound?
  }

  // The receiving server took the message, and the worker saw an error.
  predicate Unheard(c: Conditions) {
    HasDialogue(c) && c.reply.error.Some? && c.reply.unheard
  }

  // The receiving server took the message.
  predicate Taken(c: Conditions) {
    HasDialogue(c) && (c.reply.error == None || c.reply.unheard)
  }

  function RetryDelay(schedule: Schedule, attempts: nat): int {
    if attempts < |schedule| then schedule[attempts] else schedule[|schedule| - 1]
  }

  function SuccessUpdate(host: string, ip: string, code: int, message: string): Update {
    Update(Delivered, host, ip, "", code, message, ZERO_TIME_UNIX)
  }

  function FailedUpdate(host: string, ip: string, error: string, code: int, message: string): Update {
    Update(PermFail, host, ip, error, code, message, ZERO_TIME_UNIX)
  }

  // The last attempt allowed is judged on the snapshot, not on the row.
  predicate IsLow(item: QueueItem) {
    item.row.attempts + 1 < item.row.maxAttempts
  }

  function TempFailUpdate(schedule: Schedule, item: QueueItem, decided: int,
                          host: string, ip: string, error: string, code: int, message: string): Update
  {
    if IsLow(item) then
      Update(TempFail, host, ip, error, code, message, Unix(decided + RetryDelay(schedule, item.row.attempts)))
    else
      FailedUpdate(host, ip, error, code, message)
  }

  function Decide(schedule: Schedule, item: QueueItem, c: Conditions, decided: int): Update {
    if !SpoolHit(c) then
      FailedUpdate("", "", c.readError, 0, "")
    else match c.mx
      case MxFailed(host, ip, error) => TempFailUpdate(schedule, item, decided, host, ip, error, 0, "")
      case MxFound(host, ip) =>
        match c.reply.error
        case None => SuccessUpdate(host, ip, c.reply.code, c.reply.message)
        case Some(error) =>
          if IsPermanentCode(c.reply.code) then
            FailedUpdate(host, ip, error, c.reply.code, c.reply.message)
          else
            TempFailUpdate(schedule, item, decided, host, ip, error, c.reply.code, c.reply.message)
  }

  function Visited(schedule: Schedule, rows: Rows, item: QueueItem, v: Visit): Rows {
    if v.saved then WithUpdate(rows, item.dlvID, Decide(schedule, item, v.conditions, v.decided), v.written) else rows
  }

  function AllVisited(schedule: Schedule, rows: Rows, items: seq<QueueItem>, visits: string -> Visit): Rows
    decreases |items|
  {
    if items == [] then rows
    else AllVisited(schedule, Visited(schedule, rows, items[0], visits(items[0].dlvID)), items[1..], visits)
  }

  // What one attempt writes. It is delivered exactly when some stage had the message, an MX was
  // found and the dialogue had no error; it is tried again exactly when some stage had it, the
  // snapshot had an attempt to spare, and the failure was of the MX lookup or of a dialogue that
  // did not end in a 5yz answer (section 4.2.1 of RFC 5321). The retry is due when the schedule's
  // entry for the attempts already made, or its last one, has passed, in whole seconds.
  lemma AttemptOutcome(schedule: Schedule, item: QueueItem, c: Conditions, decided: int)
    ensures var u := Decide(schedule, item, c, decided);
            var hit := c.signed != None || c.modified != None || c.parsed != None;
            var again := item.row.attempts + 1 < item.row.maxAttempts;
            && (u.state == Delivered <==> hit && c.mx.MxFound? && c.reply.error == None)
            && (u.state == TempFail <==>
                  hit && again && (c.mx.MxFailed? || (c.reply.error != None && !(500 <= c.reply.code < 600))))
            && (u.state != Delivered && u.state != TempFail ==> u.state == PermFail)
            && (if hit then u.mxHostname == c.mx.host && u.mxIP == c.mx.ip else u.mxHostname == u.mxIP == "")
            && u.errorMsg == (if !hit then c.readError else if c.mx.MxFailed? then c.mx.error
                              else if c.reply.error == None then "" else c.reply.error.value)
            && (if hit && c.mx.MxFound? then u.smtpCode == c.reply.code && u.smtpMessage == c.reply.message
                else u.smtpCode == 0 && u.smtpMessage == "")
            && (u.state == TempFail ==>
                  var due := decided + schedule[Min(item.row.attempts, |schedule| - 1)];
                  u.nextAttempt * SECOND <= due < (u.nextAttempt + 1) * SECOND)
            && (u.state != TempFail ==> u.nextAttempt == -62135596800)
  {
  }

  class Worker {
    const queue: Queue
    const retrySchedule: Schedule

    constructor (queue: Queue, retrySchedule: Schedule)
      ensures this.queue == queue && this.retrySchedule == retrySchedule
    {
      this.queue, this.retrySchedule := queue, retrySchedule;
    }

    method CalculateNextRetry(attempts: nat, now: int) returns (next: int)
      ensures next == now + retrySchedule[Min(attempts, |retrySchedule| - 1)]
    {
      if attempts < |retrySchedule| {
        return now + retrySchedule[attempts];
      }
      return now + retrySchedule[|retrySchedule| - 1];
    }

    method Save(item: QueueItem, u: Update, v: Visit)
      modifies queue
      ensures queue.rows == if v.saved then WithUpdate(old(queue.rows), item.dlvID, u, v.written) else old(queue.rows)
    {
      if v.saved {
        queue.UpdateDeliveryState(item.dlvID, u, v.written);
      }
    }

    method UpdateDeliveryTempFail(item: QueueItem, host: string, ip: string, error: string,
                                  code: int, message: string, v: Visit)
      modifies queue
      ensures queue.rows ==
              if v.saved
              then WithUpdate(old(queue.rows), item.dlvID,
                              TempFailUpdate(retrySchedule, item, v.decided, host, ip, error, code, message), v.written)
              else old(queue.rows)
    {
      var nextAttempt := CalculateNextRetry(item.row.attempts, v.decided);
      if item.row.attempts + 1 >= item.row.maxAttempts {
        Save(item, FailedUpdate(host, ip, error, code, message), v);
        return;
      }
      Save(item, Update(TempFail, host, ip, error, code, message, Unix(nextAttempt)), v);
    }

    // Reads the message from the first of the three stages that has it.
    method ReadMessage(c: Conditions) returns (data: Option<Bytes>)
      ensures data.Some? <==> SpoolHit(c)
      ensures data.Some? ==>
                || data == c.signed
                || (c.signed.None? && (data == c.modified || (c.modified.None? && data == c.parsed)))
    {
      data := c.signed;
      if data.None? {
        data := c.modified;
        if data.None? {
          data := c.parsed;
        }
      }
    }

    // The signed message goes out if there is one, else the modified, else the parsed one.
    method ProcessDelivery(item: QueueItem, v: Visit) returns (sent: Option<Dialogue>)
      modifies queue
      ensures queue.rows == Visited(retrySchedule, old(queue.rows), item, v)
      ensures var c := v.conditions;
              var data := if c.signed.Some? then c.signed else if c.modified.Some? then c.modified else c.parsed;
              sent == if data.Some? && c.mx.MxFound? then Some(Dialogue(c.mx.host, item.row.recipient, data.value))
                      else None
    {
      sent := None;
      var c := v.conditions;
      var data := ReadMessage(c);
      if data.None? {
        Save(item, FailedUpdate("", "", c.readError, 0, ""), v);
        return;
      }
      if c.mx.MxFailed? {
        UpdateDeliveryTempFail(item, c.mx.host, c.mx.ip, c.mx.error, 0, "", v);
        return;
      }
      sent := Some(Dialogue(c.mx.host, item.row.recipient, data.value));
      match c.reply.error {
        case Some(error) =>
          if c.reply.code >= 500 && c.reply.code < 600 {
            Save(item, FailedUpdate(c.mx.host, c.mx.ip, error, c.reply.code, c.reply.message), v);
          } else {
            UpdateDeliveryTempFail(item, c.mx.host, c.mx.ip, error, c.reply.code, c.reply.message, v);
          }
        case None =>
          Save(item, SuccessUpdate(c.mx.host, c.mx.ip, c.reply.code, c.reply.message), v);
      }
    }

    // `selected` is false when the query itself fails; the batch is then empty.
    method ProcessBatch(now: int, selected: bool, visits: string -> Visit) returns (items: seq<QueueItem>)
      modifies queue
      ensures if selected then IsPendingBatch(old(queue.rows), Unix(now), 10, items) else items == []
      ensures queue.rows == AllVisited(retrySchedule, old(queue.rows), items, visits)
    {
      items := [];
      if !selected {
        return;
      }
      items := queue.GetPendingDeliveries(BATCH, now);
      for i := 0 to |items|
        invariant AllVisited(retrySchedule, queue.rows, items[i..], visits)
               == AllVisited(retrySchedule, old(queue.rows), items, visits)
      {
        assert items[i..][1..] == items[i + 1..];
        var _ := ProcessDelivery(items[i], visits(items[i].dlvID));
      }
    }
  }
}
