/** The durable queue of the daemon (outbox.py) and the server's side of one batch. */
module Outbox {
  import opened Events

  const MAX_BATCH_EVENTS := 2_000

  datatype Machine = Machine(hostname: string, os: string)

  datatype Batch = Batch(batchSeq: nat, events: seq<Event>, machine: Option<Machine>)

  /** The content of the outbox file, and of the object between two calls. */
  datatype Saved = Saved(nextSeq: nat, pending: seq<Event>, machine: Option<Machine>)

  function BatchSize(s: Saved): nat {
    if |s.pending| < MAX_BATCH_EVENTS then |s.pending| else MAX_BATCH_EVENTS
  }

  function NextBatch(s: Saved): Option<Batch> {
    if s.pending == [] then None else Some(Batch(s.nextSeq, s.pending[..BatchSize(s)], s.machine))
  }

  function Acked(s: Saved): Saved {
    Saved(s.nextSeq + 1, s.pending[BatchSize(s)..], None)
  }

  /** The file on disk; replacing it is atomic. */
  class File {
    var content: Option<Saved>

    constructor ()
      ensures content == None
    {
      content := None;
    }
  }

  class Queue {
    const file: File
    var nextSeq: nat
    var pending: seq<Event>
    var machine: Option<Machine>

    function Snapshot(): Saved
      reads this
    {
      Saved(nextSeq, pending, machine)
    }

    /** What a reader of the file would resume from is what the object holds. */
    ghost predicate Durable()
      reads this, file
    {
      file.content == Some(Snapshot()) || (file.content == None && Snapshot() == Saved(0, [], None))
    }

    /** Opening resumes exactly where the file says, or empty when there is none. */
    constructor Open(f: File)
      ensures file == f && Durable()
      ensures Snapshot() == (if f.content.Some? then f.content.value else Saved(0, [], None))
    {
      file := f;
      nextSeq := if f.content.Some? then f.content.value.nextSeq else 0;
      pending := if f.content.Some? then f.content.value.pending else [];
      machine := if f.content.Some? then f.content.value.machine else None;
    }

    method Persist()
      modifies file
      ensures file.content == Some(Snapshot())
    {
      file.content := Some(Snapshot());
    }

    method SetMachine(m: Machine)
      requires Durable()
      modifies this, file
      ensures Durable() && Snapshot() == old(Snapshot()).(machine := Some(m))
    {
      machine := Some(m);
      Persist();
    }

    method Append(events: seq<Event>)
      requires Durable()
      modifies this, file
      ensures Durable() && Snapshot() == old(Snapshot()).(pending := old(pending) + events)
    {
      if events == [] { return; }
      pending := pending + events;
      Persist();
    }

    method Next() returns (b: Option<Batch>)
      ensures b == NextBatch(Snapshot())
    {
      if pending == [] { return None; }
      var n := if |pending| < MAX_BATCH_EVENTS then |pending| else MAX_BATCH_EVENTS;
      b := Some(Batch(nextSeq, pending[..n], machine));
    }

    method Ack()
      requires Durable()
      modifies this, file
      ensures Durable() && Snapshot() == Acked(old(Snapshot()))
    {
      var n := if |pending| < MAX_BATCH_EVENTS then |pending| else MAX_BATCH_EVENTS;
      pending := pending[n..];
      nextSeq := nextSeq + 1;
      machine := None;
      Persist();
    }
  }

  // ---- the receiving end ---------------------------------------------------

  /** What the backend holds of one machine: the sequence numbers seen and its log. */
  datatype Server = Server(seen: set<nat>, log: seq<Event>)

  /** Accept a batch once; a number already seen is acknowledged and dropped. */
  function Accept(s: Server, b: Batch): Server {
    if b.batchSeq in s.seen then s else Server(s.seen + {b.batchSeq}, s.log + b.events)
  }
}
