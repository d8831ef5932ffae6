/**
 * Outbox and backend over a network that loses requests and acknowledgements,
 * delays them and repeats them.
 */
module Delivery {
  import opened Events
  import opened Outbox

  /**
   * `sent` holds every request ever put on the wire: each may still arrive, any
   * number of times. The last four fields are history: everything appended, how
   * many of those events acknowledgements have dropped from the queue, where in
   * `appended` each stored event came from, and how many events the current
   * sequence number stored, if any.
   */
  datatype World = World(
    box: Saved,
    sent: seq<Batch>,
    server: Server,
    appended: seq<Event>,
    acked: nat,
    origin: seq<nat>,
    stored: Option<nat>)

  datatype Act =
    | AppendEvents(events: seq<Event>)
    | Send
    | Arrive(i: nat)
    | AckArrives
    | Reopen(machine: Machine)

  function Count(from: nat, n: nat): seq<nat> { seq(n, i requires 0 <= i < n => from + i) }

  /** A step that is not possible changes nothing. */
  function Perform(w: World, a: Act): World {
    match a
    case AppendEvents(events) =>
      w.(box := w.box.(pending := w.box.pending + events), appended := w.appended + events)
    case Send =>
      var b := NextBatch(w.box);
      if b.None? then w else w.(sent := w.sent + [b.value])
    case Arrive(i) =>
      if i >= |w.sent| then w
      else
        var b := w.sent[i];
        if b.batchSeq in w.server.seen then w.(server := Accept(w.server, b))
        else
          w.(server := Accept(w.server, b), origin := w.origin + Count(w.acked, |b.events|),
             stored := Some(|b.events|))
    case AckArrives =>
      if w.box.pending == [] || w.box.nextSeq !in w.server.seen then w
      else w.(box := Acked(w.box), acked := w.acked + BatchSize(w.box), stored := None)
    case Reopen(m) => w.(box := w.box.(machine := Some(m)))
  }

  function RunActs(w: World, acts: seq<Act>): World {
    if acts == [] then w else Perform(RunActs(w, acts[..|acts| - 1]), acts[|acts| - 1])
  }

  /**
   * Start from a well-formed outbox file: the server has seen no number from the
   * file's next one on. What it holds counts as appended before.
   */
  function Start(box: Saved, server: Server): World
    requires forall k :: k in server.seen ==> k < box.nextSeq
  {
    World(box, [], server, server.log + box.pending, |server.log|, Count(0, |server.log|), None)
  }

  // ---- the invariant -------------------------------------------------------

  ghost predicate FromPending(b: Batch, box: Saved) {
    && b.batchSeq == box.nextSeq && 0 < |b.events| <= BatchSize(box)
    && b.events == box.pending[..|b.events|]
  }

  ghost predicate RequestOk(b: Batch, w: World) {
    FromPending(b, w.box) || (b.batchSeq < w.box.nextSeq && b.batchSeq in w.server.seen)
  }

  /** Where delivery has got to in `appended`. */
  function Delivered(w: World): nat { w.acked + if w.stored.Some? then w.stored.value else 0 }

  /** `origin` picks the log out of `appended`, in order and without repetition, before `bound`. */
  ghost predicate Picks(log: seq<Event>, origin: seq<nat>, appended: seq<Event>, bound: nat) {
    && |origin| == |log|
    && (forall i :: 0 <= i < |origin| ==> origin[i] < bound <= |appended| && log[i] == appended[origin[i]])
    && (forall i, j :: 0 <= i < j < |origin| ==> origin[i] < origin[j])
  }

  ghost predicate Sound(w: World) {
    && w.acked <= |w.appended| && w.box.pending == w.appended[w.acked..]
    && (forall b :: b in w.sent ==> RequestOk(b, w))
    && (forall k :: k in w.server.seen ==> k <= w.box.nextSeq)
    && (w.stored.Some? <==> w.box.nextSeq in w.server.seen)
    && (w.stored.Some? ==> w.stored.value <= BatchSize(w.box))
    && Picks(w.server.log, w.origin, w.appended, Delivered(w))
  }

  lemma StartIsSound(box: Saved, server: Server)
    requires forall k :: k in server.seen ==> k < box.nextSeq
    ensures Sound(Start(box, server))
  {
  }

  lemma PicksMore(log: seq<Event>, origin: seq<nat>, appended: seq<Event>, bound: nat, more: seq<Event>)
    requires Picks(log, origin, appended, bound)
    ensures Picks(log, origin, appended + more, bound)
  {
    forall i | 0 <= i < |origin| ensures (appended + more)[origin[i]] == appended[origin[i]] {
      assert origin[i] < bound <= |appended|;
    }
  }

  lemma AppendIsSound(w: World, events: seq<Event>)
    requires Sound(w)
    ensures Sound(Perform(w, AppendEvents(events)))
  {
    var v := Perform(w, AppendEvents(events));
    assert v.appended[v.acked..] == w.appended[w.acked..] + events;
    PicksMore(w.server.log, w.origin, w.appended, Delivered(w), events);
    hide Picks;
    forall b | b in v.sent ensures RequestOk(b, v) {
      if FromPending(b, w.box) { assert v.box.pending[..|b.events|] == w.box.pending[..|b.events|]; }
    }
  }

  lemma ArriveIsSound(w: World, i: nat)
    requires Sound(w)
    ensures Sound(Perform(w, Arrive(i)))
  {
    if i < |w.sent| && w.sent[i].batchSeq !in w.server.seen {
      var b := w.sent[i];
      assert b in w.sent && RequestOk(b, w);
      var v := Perform(w, Arrive(i));
      assert w.box.pending[..|b.events|] == w.appended[w.acked..w.acked + |b.events|];
      assert Picks(v.server.log, v.origin, v.appended, Delivered(v));
    }
  }

  lemma AckIsSound(w: World)
    requires Sound(w)
    ensures Sound(Perform(w, AckArrives))
  {
    if w.box.pending != [] && w.box.nextSeq in w.server.seen {
      var v := Perform(w, AckArrives);
      assert v.box.pending == v.appended[v.acked..];
      forall b | b in v.sent ensures RequestOk(b, v) { assert RequestOk(b, w); }
    }
  }

  lemma StepIsSound(w: World, a: Act)
    requires Sound(w)
    ensures Sound(Perform(w, a))
  {
    match a
    case AppendEvents(events) => AppendIsSound(w, events);
    case Arrive(i) => ArriveIsSound(w, i);
    case AckArrives => AckIsSound(w);
    case Send =>
      var v := Perform(w, Send);
      hide Picks;
      forall b | b in v.sent ensures RequestOk(b, v) { assert b in w.sent ==> RequestOk(b, w); }
    case Reopen(m) =>
      var v := Perform(w, a);
      hide Picks;
      forall b | b in v.sent ensures RequestOk(b, v) { assert RequestOk(b, w); }
  }

  lemma {:induction false} RunIsSound(w: World, acts: seq<Act>)
    requires Sound(w)
    ensures Sound(RunActs(w, acts))
  {
    if acts != [] {
      RunIsSound(w, acts[..|acts| - 1]);
      StepIsSound(RunActs(w, acts[..|acts| - 1]), acts[|acts| - 1]);
    }
  }

  /** In order, each element of `appended` taken at most once. */
  ghost predicate Subsequence(log: seq<Event>, appended: seq<Event>) {
    exists origin: seq<nat> :: Picks(log, origin, appended, |appended|)
  }

  lemma SoundIsSubsequence(w: World)
    requires Sound(w)
    ensures Subsequence(w.server.log, w.appended)
  {
    assert Delivered(w) <= |w.appended|;
    assert Picks(w.server.log, w.origin, w.appended, |w.appended|);
  }

  /**
   * Delivery: over any interleaving of append, send, arrival, repeated or late
   * arrival, acknowledgement and reopening, the server log is an in-order
   * subsequence of the appended events, each taken at most once.
   */
  lemma LogIsSubsequence(box: Saved, server: Server, acts: seq<Act>)
    requires forall k :: k in server.seen ==> k < box.nextSeq
    ensures var w := RunActs(Start(box, server), acts);
            Subsequence(w.server.log, w.appended)
  {
    StartIsSound(box, server);
    RunIsSound(Start(box, server), acts);
    SoundIsSubsequence(RunActs(Start(box, server), acts));
  }

  // ---- exactly when nothing is lost ----------------------------------------

  /** An acknowledgement that drops no more than the server stored under its number. */
  predicate FaithfulAck(w: World, a: Act) {
    a.AckArrives? && w.box.pending != [] && w.box.nextSeq in w.server.seen ==> w.stored == Some(BatchSize(w.box))
  }

  /** Every acknowledged number was stored with the very events it dropped. */
  predicate Faithful(w: World, acts: seq<Act>) {
    acts == [] ||
    (Faithful(w, acts[..|acts| - 1]) && FaithfulAck(RunActs(w, acts[..|acts| - 1]), acts[|acts| - 1]))
  }

  /** The queued events the server does not have. */
  function Undelivered(w: World): seq<Event> {
    if w.stored.Some? && w.stored.value <= |w.box.pending| then w.box.pending[w.stored.value..] else w.box.pending
  }

  lemma StepCounts(w: World, a: Act)
    requires Sound(w)
    ensures var v := Perform(w, a);
            && |v.server.log| - Delivered(v) <= |w.server.log| - Delivered(w)
            && (FaithfulAck(w, a) <==> |v.server.log| - Delivered(v) == |w.server.log| - Delivered(w))
  {
    if a.Arrive? && a.i < |w.sent| {
      assert w.sent[a.i] in w.sent && RequestOk(w.sent[a.i], w);
    }
  }

  lemma {:induction false} RunCounts(w: World, acts: seq<Act>)
    requires Sound(w) && |w.server.log| == Delivered(w)
    ensures var v := RunActs(w, acts);
            && |v.server.log| <= Delivered(v)
            && (Faithful(w, acts) <==> |v.server.log| == Delivered(v))
  {
    if acts != [] {
      var front := acts[..|acts| - 1];
      RunCounts(w, front);
      RunIsSound(w, front);
      StepCounts(RunActs(w, front), acts[|acts| - 1]);
      hide Perform; hide Sound;
    }
  }

  lemma {:induction false} FullPicksAreAll(origin: seq<nat>, i: nat)
    requires forall i, j :: 0 <= i < j < |origin| ==> origin[i] < origin[j]
    requires i < |origin|
    ensures i <= origin[i]
  {
    if i > 0 { FullPicksAreAll(origin, i - 1); }
  }

  lemma {:induction false} FullPicksFromTop(origin: seq<nat>, i: nat)
    requires forall i, j :: 0 <= i < j < |origin| ==> origin[i] < origin[j]
    requires i < |origin| && origin[|origin| - 1] < |origin|
    ensures origin[i] <= i
    decreases |origin| - i
  {
    if i < |origin| - 1 { FullPicksFromTop(origin, i + 1); }
  }

  /** A selection as long as what it selects from is everything. */
  lemma PickedAll(log: seq<Event>, origin: seq<nat>, appended: seq<Event>, bound: nat)
    requires Picks(log, origin, appended, bound) && |log| == bound <= |appended|
    ensures log == appended[..bound]
  {
    forall i | 0 <= i < |log| ensures log[i] == appended[i] {
      FullPicksAreAll(origin, i);
      FullPicksFromTop(origin, i);
    }
  }

  /**
   * Nothing is lost, exactly: what the server stored followed by what it does not
   * have yet is everything appended if and only if every acknowledged number had
   * been stored with the events the acknowledgement dropped. A retry of a number
   * that did arrive, grown by events appended in between, breaks it.
   */
  lemma NothingLost(box: Saved, server: Server, acts: seq<Act>)
    requires forall k :: k in server.seen ==> k < box.nextSeq
    ensures var w := RunActs(Start(box, server), acts);
            w.server.log + Undelivered(w) == w.appended <==> Faithful(Start(box, server), acts)
  {
    var w0 := Start(box, server);
    StartIsSound(box, server);
    RunIsSound(w0, acts);
    RunCounts(w0, acts);
    CompleteExact(RunActs(w0, acts));
  }

  lemma CompleteExact(w: World)
    requires Sound(w) && |w.server.log| <= Delivered(w)
    ensures w.server.log + Undelivered(w) == w.appended <==> |w.server.log| == Delivered(w)
  {
    hide RequestOk;
    var n := Delivered(w);
    assert n <= |w.appended| && Undelivered(w) == w.appended[n..];
    if |w.server.log| == n {
      PickedAll(w.server.log, w.origin, w.appended, n);
      assert w.appended == w.appended[..n] + w.appended[n..];
    }
  }

  /** The failing run: the acknowledgement is lost, an event is appended, the retry is a duplicate. */
  lemma GrownRetryLosesEvents(a: Event, b: Event)
    ensures var w := RunActs(Start(Saved(0, [], None), Server({}, [])),
                             [AppendEvents([a]), Send, Arrive(0), AppendEvents([b]), Send, Arrive(1), AckArrives]);
            w.appended == [a, b] && w.server.log == [a] && w.box.pending == []
  {
    var w0 := Start(Saved(0, [], None), Server({}, []));
    var acts := [AppendEvents([a]), Send, Arrive(0), AppendEvents([b]), Send, Arrive(1), AckArrives];
    var w1 := Perform(w0, acts[0]);
    var w2 := Perform(w1, acts[1]);
    var w3 := Perform(w2, acts[2]);
    var w4 := Perform(w3, acts[3]);
    var w5 := Perform(w4, acts[4]);
    var w6 := Perform(w5, acts[5]);
    assert w4.box.pending == [a, b];
    RunPrefix(w0, acts, 7);
    RunPrefix(w0, acts, 6);
    RunPrefix(w0, acts, 5);
    RunPrefix(w0, acts, 4);
    RunPrefix(w0, acts, 3);
    RunPrefix(w0, acts, 2);
    RunPrefix(w0, acts, 1);
    assert acts[..7] == acts && acts[..0] == [];
  }

  lemma RunPrefix(w: World, acts: seq<Act>, n: nat)
    requires 0 < n <= |acts|
    ensures RunActs(w, acts[..n]) == Perform(RunActs(w, acts[..n - 1]), acts[n - 1])
  {
    assert acts[..n][..|acts[..n]| - 1] == acts[..n - 1];
  }

  // ---- progress ------------------------------------------------------------

  /** One undisturbed flush: send, arrive, acknowledge. */
  function Flush(w: World): World {
    Perform(Perform(Perform(w, Send), Arrive(|w.sent|)), AckArrives)
  }

  /** Undisturbed flushes drain the queue in order, at most a batch at a time, and store all of it. */
  lemma {:induction false} FlushDrains(w: World)
    requires Sound(w) && w.stored.None?
    ensures var v := Flush(w);
            && Sound(v) && v.stored.None? && v.appended == w.appended
            && v.box.pending == w.box.pending[BatchSize(w.box)..]
            && v.server.log == w.server.log + w.box.pending[..BatchSize(w.box)]
  {
    StepIsSound(w, Send);
    var x := Perform(w, Send);
    StepIsSound(x, Arrive(|w.sent|));
    StepIsSound(Perform(x, Arrive(|w.sent|)), AckArrives);
    hide Sound;
    if w.box.pending == [] {
      assert w.box.pending[..0] == [];
    }
  }

  function Flushes(w: World, k: nat): World {
    if k == 0 then w else Flush(Flushes(w, k - 1))
  }

  /** One flush puts at most one request on the wire, of at most 2000 events, the machine block on the first. */
  lemma FlushSends(w: World)
    requires Sound(w) && w.stored.None?
    ensures var v := Flush(w);
            if w.box.pending == [] then v == w
            else
              var front := w.box.pending[..Least(2_000, |w.box.pending|)];
              && v.box.nextSeq == w.box.nextSeq + 1 && v.box.machine == None
              && v.sent == w.sent + [Batch(w.box.nextSeq, front, w.box.machine)]
  {
    StepIsSound(w, Send);
    StepIsSound(Perform(w, Send), Arrive(|w.sent|));
    hide Sound;
  }

  function Least(a: nat, b: nat): nat { if a < b then a else b }

  /**
   * Draining, over any number of undisturbed flushes: 2000 events a time in order, each
   * stored once, the number counting the batches; the queue is empty exactly when
   * the flushes made were enough for its length.
   */
  lemma {:induction false} DrainedAfter(w: World, k: nat)
    requires Sound(w) && w.stored.None?
    ensures var v, n := Flushes(w, k), |w.box.pending|;
            var moved := Least(2_000 * k, n);
            && Sound(v) && v.stored.None? && v.appended == w.appended
            && v.box.pending == w.box.pending[moved..]
            && v.server.log == w.server.log + w.box.pending[..moved]
            && v.box.nextSeq == w.box.nextSeq + Least(k, (n + 1_999) / 2_000)
            && (v.box.pending == [] <==> n <= 2_000 * k)
  {
    if k > 0 {
      DrainedAfter(w, k - 1);
      var u := Flushes(w, k - 1);
      FlushDrains(u);
      FlushSends(u);
      hide *;
      DrainedOnce(w, u, Flush(u), k);
    } else {
      assert w.box.pending[..0] == [];
    }
    hide Sound; hide Flush;
  }

  lemma DrainedOnce(w: World, u: World, v: World, k: nat)
    requires k > 0
    requires var n := |w.box.pending|;
             var moved := Least(2_000 * (k - 1), n);
             && u.box.pending == w.box.pending[moved..]
             && u.server.log == w.server.log + w.box.pending[..moved]
             && u.box.nextSeq == w.box.nextSeq + Least(k - 1, (n + 1_999) / 2_000)
    requires v.box.pending == u.box.pending[BatchSize(u.box)..]
    requires v.server.log == u.server.log + u.box.pending[..BatchSize(u.box)]
    requires v.box.nextSeq == u.box.nextSeq + if u.box.pending == [] then 0 else 1
    ensures var n := |w.box.pending|;
            var moved := Least(2_000 * k, n);
            && v.box.pending == w.box.pending[moved..]
            && v.server.log == w.server.log + w.box.pending[..moved]
            && v.box.nextSeq == w.box.nextSeq + Least(k, (n + 1_999) / 2_000)
            && (v.box.pending == [] <==> n <= 2_000 * k)
  {
    var n := |w.box.pending|;
    var m := Least(2_000 * (k - 1), n);
    var size := BatchSize(u.box);
    DrainedSize(n, k, m, size);
    hide Least; hide BatchSize;
    SplitTwice(w.box.pending, m, size);
  }

  lemma DrainedSize(n: nat, k: nat, m: nat, size: nat)
    requires k > 0 && m == Least(2_000 * (k - 1), n) && size == Least(2_000, n - m)
    ensures m + size == Least(2_000 * k, n)
    ensures m + size == n <==> n <= 2_000 * k
    ensures Least(k, (n + 1_999) / 2_000) == Least(k - 1, (n + 1_999) / 2_000) + if m == n then 0 else 1
  {
  }

  lemma SplitTwice(s: seq<Event>, m: nat, size: nat)
    requires m + size <= |s|
    ensures s[..m] + s[m..][..size] == s[..m + size]
    ensures s[m..][size..] == s[m + size..]
  {
  }
}
