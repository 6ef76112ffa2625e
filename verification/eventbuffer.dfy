// The event buffer (internal/clickhouse/client.go): a slice whose backing array
// is reused after every flush, while the flushed copies are still being sent.
module EventBuffer {
  import opened Common

  // ---- What the buffer does, in the order the mutex was taken ----

  datatype Op<T> = Log(event: T) | TimerFlush | SpawnedFlush

  // `outstanding` counts the flush goroutines that were started and have not yet run.
  datatype Abstract<T> = Abstract(batches: seq<seq<T>>, buffer: seq<T>, outstanding: nat)

  function Flushed<T>(a: Abstract<T>): Abstract<T> {
    if a.buffer == [] then a else a.(batches := a.batches + [a.buffer], buffer := [])
  }

  function Step<T>(bufferSize: nat, a: Abstract<T>, op: Op<T>): Abstract<T> {
    match op
    case Log(e) =>
      var b := a.buffer + [e];
      Abstract(a.batches, b, if |b| >= bufferSize then a.outstanding + 1 else a.outstanding)
    case TimerFlush => Flushed(a)
    case SpawnedFlush => if a.outstanding > 0 then Flushed(a.(outstanding := a.outstanding - 1)) else a
  }

  function Run<T>(bufferSize: nat, ops: seq<Op<T>>): Abstract<T> {
    if ops == [] then Abstract([], [], 0) else Step(bufferSize, Run(bufferSize, ops[..|ops| - 1]), ops[|ops| - 1])
  }

  function Flatten<T>(batches: seq<seq<T>>): seq<T> {
    if batches == [] then [] else Flatten(batches[..|batches| - 1]) + batches[|batches| - 1]
  }

  function Logged<T>(ops: seq<Op<T>>): seq<T> {
    if ops == [] then []
    else Logged(ops[..|ops| - 1]) + (if ops[|ops| - 1].Log? then [ops[|ops| - 1].event] else [])
  }

  lemma FlattenFlushed<T>(a: Abstract<T>)
    ensures Flatten(Flushed(a).batches) + Flushed(a).buffer == Flatten(a.batches) + a.buffer
  {
    var b := a.batches + [a.buffer];
    assert b[..|b| - 1] == a.batches;
  }

  ghost predicate Complete<T>(bufferSize: nat, a: Abstract<T>, logged: seq<T>) {
    && Flatten(a.batches) + a.buffer == logged
    && (forall i | 0 <= i < |a.batches| :: a.batches[i] != [])
    && |a.buffer| <= Max(bufferSize - 1, 0) + a.outstanding
  }

  lemma CompleteStep<T>(bufferSize: nat, a: Abstract<T>, logged: seq<T>, op: Op<T>)
    requires Complete(bufferSize, a, logged)
    ensures Complete(bufferSize, Step(bufferSize, a, op), logged + (if op.Log? then [op.event] else []))
  {
    match op {
      case Log(e) =>
        assert Flatten(a.batches) + (a.buffer + [e]) == (Flatten(a.batches) + a.buffer) + [e];
      case TimerFlush =>
        FlattenFlushed(a);
      case SpawnedFlush =>
        if a.outstanding > 0 {
          FlattenFlushed(a.(outstanding := a.outstanding - 1));
        }
    }
  }

  // Every event logged is in exactly one batch or in the buffer, in the order of logging;
  // the batches are never empty, and the buffer stays below its size but for flushes
  // that were started and have not run.
  lemma {:induction false} ExactlyOnce<T>(bufferSize: nat, ops: seq<Op<T>>)
    ensures Complete(bufferSize, Run(bufferSize, ops), Logged(ops))
  {
    if ops != [] {
      ExactlyOnce(bufferSize, ops[..|ops| - 1]);
      CompleteStep(bufferSize, Run(bufferSize, ops[..|ops| - 1]), Logged(ops[..|ops| - 1]), ops[|ops| - 1]);
    }
  }

  // ---- When a flush is started ----

  // The events logged into a buffer that they filled.
  function Fillings<T>(bufferSize: nat, ops: seq<Op<T>>): nat {
    if ops == [] then 0
    else
      var prefix, op := ops[..|ops| - 1], ops[|ops| - 1];
      Fillings(bufferSize, prefix)
      + (if op.Log? && |Run(bufferSize, prefix).buffer| + 1 >= bufferSize then 1 else 0)
  }

  // The flush goroutines that have run.
  function Flushes<T>(bufferSize: nat, ops: seq<Op<T>>): nat {
    if ops == [] then 0
    else
      var prefix, op := ops[..|ops| - 1], ops[|ops| - 1];
      Flushes(bufferSize, prefix) + (if op.SpawnedFlush? && Run(bufferSize, prefix).outstanding > 0 then 1 else 0)
  }

  // A flush is started by each event that fills the buffer and by no other, each runs at most
  // once, and a full buffer always has one to come.
  lemma {:induction false} FlushPerFilling<T>(bufferSize: nat, ops: seq<Op<T>>)
    ensures var a := Run(bufferSize, ops);
            && a.outstanding + Flushes(bufferSize, ops) == Fillings(bufferSize, ops)
            && (a.buffer != [] && |a.buffer| >= bufferSize ==> a.outstanding > 0)
  {
    if ops != [] {
      FlushPerFilling(bufferSize, ops[..|ops| - 1]);
    }
  }

  // A flush takes everything that is in the buffer as one batch; an empty buffer makes none.
  lemma {:induction false} FlushTakesAll<T>(bufferSize: nat, a: Abstract<T>)
    ensures var b := Step(bufferSize, a, TimerFlush);
            && b.buffer == [] && b.outstanding == a.outstanding
            && b.batches == if |a.buffer| > 0 then a.batches + [a.buffer] else a.batches
  {
  }

  // The flush made when the client closes leaves nothing behind.
  lemma ClosingFlushDrains<T>(bufferSize: nat, ops: seq<Op<T>>)
    ensures var a := Run(bufferSize, ops + [TimerFlush]);
            a.buffer == [] && Flatten(a.batches) == Logged(ops)
  {
    var all := ops + [TimerFlush];
    assert all[..|all| - 1] == ops;
    ExactlyOnce(bufferSize, all);
    assert Logged(all) == Logged(ops);
  }

  // ---- How it does it ----

  class Client<T(0)> {
    const bufferSize: nat
    var buffer: array<T>
    var length: nat

    // The flush goroutines started and still to run, which the Go runtime keeps.
    var outstanding: nat

    // The copies handed to flush goroutines, and what each held when it was handed out.
    ghost var copies: seq<array<T>>
    ghost var batches: seq<seq<T>>

    ghost predicate Valid()
      reads this, buffer, copies
    {
      && length <= buffer.Length
      && |copies| == |batches|
      && forall i | 0 <= i < |copies| :: copies[i] != buffer && copies[i][..] == batches[i]
    }

    ghost function State(): Abstract<T>
      reads this, buffer
      requires length <= buffer.Length
    {
      Abstract(batches, buffer[..length], outstanding)
    }

    constructor (bufferSize: nat)
      ensures Valid() && fresh(buffer) && copies == []
      ensures this.bufferSize == bufferSize && State() == Run(bufferSize, [])
    {
      this.bufferSize := bufferSize;
      buffer := new T[bufferSize];
      length := 0;
      copies, batches, outstanding := [], [], 0;
    }

    // `append`: in place while there is room, else into a larger array.
    method Append(event: T)
      requires Valid()
      modifies this`buffer, this`length, buffer
      ensures Valid() && (buffer == old(buffer) || fresh(buffer))
      ensures buffer[..length] == old(buffer[..length]) + [event]
    {
      if length == buffer.Length {
        var capacity: nat :| capacity > length;
        var larger := new T[capacity];
        for i := 0 to length
          modifies larger
          invariant forall j | 0 <= j < i :: larger[j] == buffer[j]
        {
          larger[i] := buffer[i];
        }
        buffer := larger;
      }
      buffer[length] := event;
      length := length + 1;
    }

    method LogEvent(event: T) returns (spawned: bool)
      requires Valid()
      modifies this`buffer, this`length, this`outstanding, buffer
      ensures Valid() && (buffer == old(buffer) || fresh(buffer))
      ensures State() == Step(bufferSize, old(State()), Log(event))
      ensures spawned <==> old(length) + 1 >= bufferSize
      ensures outstanding == old(outstanding) + (if spawned then 1 else 0)
    {
      Append(event);
      spawned := length >= bufferSize;
      if spawned {
        outstanding := outstanding + 1;
      }
    }

    // The part of a flush that runs under the mutex. `events` is what the goroutine goes on
    // to send: a copy of its own, which later appends into the reused array do not reach.
    method TakeBatch() returns (events: array?<T>)
      requires Valid()
      modifies this`length, this`copies, this`batches
      ensures Valid() && buffer == old(buffer) && fresh(Elements(copies) - Elements(old(copies)))
      ensures State() == Flushed(old(State()))
      ensures old(copies) <= copies && old(batches) <= batches
      ensures if old(length) == 0 then events == null && copies == old(copies)
              else events != null && copies == old(copies) + [events] && events[..] == old(buffer[..length])
    {
      if length == 0 {
        return null;
      }
      var taken := new T[length];
      for i := 0 to length
        modifies taken
        invariant forall j | 0 <= j < i :: taken[j] == buffer[j]
      {
        taken[i] := buffer[i];
      }
      assert taken[..] == buffer[..length];
      copies := copies + [taken];
      batches := batches + [taken[..]];
      length := 0;
      events := taken;
    }

    static ghost function Elements(copies: seq<array<T>>): set<object> {
      set i | 0 <= i < |copies| :: copies[i]
    }

    method SpawnedTake() returns (events: array?<T>)
      requires Valid() && outstanding > 0
      modifies this`length, this`copies, this`batches, this`outstanding
      ensures Valid() && buffer == old(buffer) && fresh(Elements(copies) - Elements(old(copies)))
      ensures State() == Step(bufferSize, old(State()), SpawnedFlush)
    {
      outstanding := outstanding - 1;
      events := TakeBatch();
    }
  }

  // Any interleaving of log calls, timer flushes and spawned flushes on a new client: at the
  // end every copy handed out still holds the batch it was handed out with, and the batches
  // followed by the buffer are the events logged.
  method Drive<T(0)>(bufferSize: nat, ops: seq<Op<T>>) returns (c: Client<T>)
    ensures c.Valid() && c.State() == Run(bufferSize, ops)
    ensures Complete(bufferSize, c.State(), Logged(ops))
  {
    c := new Client(bufferSize);
    for n := 0 to |ops|
      invariant fresh(c) && fresh(c.buffer) && c.bufferSize == bufferSize
      invariant c.Valid() && c.State() == Run(bufferSize, ops[..n])
    {
      assert ops[..n + 1][..n] == ops[..n];
      match ops[n] {
        case Log(e) =>
          var _ := c.LogEvent(e);
        case TimerFlush =>
          var _ := c.TakeBatch();
        case SpawnedFlush =>
          if c.outstanding > 0 {
            var _ := c.SpawnedTake();
          }
      }
    }
    assert ops[..|ops|] == ops;
    ExactlyOnce(bufferSize, ops);
  }
}
