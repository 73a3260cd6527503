// The coalescing upload queue: senders, a channel, and workers that rerun what arrived meanwhile.

module UploadQueue {
  datatype Command = Upload(id: string) | Delete(id: string)

  function Key(c: Command): string {
    match c
    case Upload(id) => "upload:" + id
    case Delete(id) => "delete:" + id
  }

  lemma KeysAreDistinct(c: Command, d: Command)
    requires Key(c) == Key(d)
    ensures c == d
  {
    assert Key(c)[0] == if c.Upload? then 'u' else 'd';
    assert Key(d)[0] == if d.Upload? then 'u' else 'd';
    assert Key(c)[7..] == c.id && Key(d)[7..] == d.id;
  }

  // ---- the queue object ----

  /** The sender side shared by everyone: the pending keys with their rerun bits, and the channel. */
  class Queue {
    var pending: map<string, bool>
    var channel: seq<Command>
    var open: bool

    constructor ()
      ensures pending == map[] && channel == [] && open
    {
      pending, channel, open := map[], [], true;
    }

    /** `UploadQueue::send`, atomic under the lock on `pending`. */
    method Send(c: Command) returns (ok: bool)
      modifies this
      ensures open == old(open) && ok == (open || Key(c) in old(pending))
      ensures ok ==>
                pending == Sent(old(pending), old(channel), c).0 && channel == Sent(old(pending), old(channel), c).1
      ensures ok ==> if Key(c) in old(pending)
        then pending == old(pending)[Key(c) := true] && channel == old(channel)
        else pending == old(pending)[Key(c) := false] && channel == old(channel) + [c]
      ensures !ok ==> pending == old(pending) && channel == old(channel)
    {
      var key := Key(c);
      if key in pending {
        pending := pending[key := true];
        return true;
      }
      pending := pending[key := false];
      if !open {
        pending := pending - {key};
        assert pending == old(pending);
        return false;
      }
      channel := channel + [c];
      return true;
    }

    /** `UploadRun::start`. */
    method Start(c: Command)
      modifies this`pending
      ensures pending == old(pending)[Key(c) := false]
    {
      pending := pending[Key(c) := false];
    }

    /** The first half of dropping an `UploadRun`: the key is removed, its rerun bit taken. */
    method Finish(c: Command) returns (rerun: bool)
      modifies this`pending
      ensures rerun == (Key(c) in old(pending) && old(pending)[Key(c)])
      ensures pending == old(pending) - {Key(c)}
    {
      rerun := if Key(c) in pending then pending[Key(c)] else false;
      pending := pending - {Key(c)};
    }
  }

  /** What a send makes of the pending keys and the channel. */
  function Sent(pending: map<string, bool>, channel: seq<Command>, c: Command): (map<string, bool>, seq<Command>) {
    if Key(c) in pending then (pending[Key(c) := true], channel)
    else (pending[Key(c) := false], channel + [c])
  }

  // ---- the protocol of many senders and workers ----

  /** Received: taken from the channel. Running: the run has started. Resending: the run is over, its
      key removed with the rerun bit set, and the command not sent again yet. */
  datatype Worker = Idle | Received(c: Command) | Running(c: Command) | Resending(c: Command)

  datatype Event = SendReturned(c: Command) | RunStarted(c: Command)

  datatype State = State(pending: map<string, bool>, channel: seq<Command>, workers: seq<Worker>, log: seq<Event>)

  datatype Step =
    | Send(c: Command)
    | Receive(w: nat)
    | Start(w: nat)
    | Finish(w: nat)
    | Resend(w: nat)

  predicate Can(s: State, step: Step) {
    match step
    case Send(_) => true
    case Receive(w) => w < |s.workers| && s.workers[w].Idle? && s.channel != []
    case Start(w) => w < |s.workers| && s.workers[w].Received?
    case Finish(w) => w < |s.workers| && s.workers[w].Running?
    case Resend(w) => w < |s.workers| && s.workers[w].Resending?
  }

  function Next(s: State, step: Step): State
    requires Can(s, step)
  {
    match step
    case Send(c) =>
      var (pending, channel) := Sent(s.pending, s.channel, c);
      s.(pending := pending, channel := channel, log := s.log + [SendReturned(c)])
    case Receive(w) => s.(channel := s.channel[1..], workers := s.workers[w := Received(s.channel[0])])
    case Start(w) =>
      var c := s.workers[w].c;
      s.(pending := s.pending[Key(c) := false], workers := s.workers[w := Running(c)], log := s.log + [RunStarted(c)])
    case Finish(w) =>
      var c := s.workers[w].c;
      var rerun := Key(c) in s.pending && s.pending[Key(c)];
      s.(pending := s.pending - {Key(c)}, workers := s.workers[w := if rerun then Resending(c) else Idle])
    case Resend(w) =>
      var c := s.workers[w].c;
      var (pending, channel) := Sent(s.pending, s.channel, c);
      s.(pending := pending, channel := channel, workers := s.workers[w := Idle])
  }

  // ---- single flight ----

  predicate Holds(w: Worker, c: Command) {
    (w.Received? || w.Running?) && w.c == c
  }

  function Queued(channel: seq<Command>, c: Command): nat {
    if channel == [] then 0
    else Queued(channel[..|channel| - 1], c) + if channel[|channel| - 1] == c then 1 else 0
  }

  function Held(workers: seq<Worker>, c: Command): nat {
    if workers == [] then 0
    else Held(workers[..|workers| - 1], c) + if Holds(workers[|workers| - 1], c) then 1 else 0
  }

  /** A key that is pending has exactly one command, in the channel or with a worker; no other has any. */
  ghost predicate SingleFlight(s: State) {
    forall c :: Queued(s.channel, c) + Held(s.workers, c) == if Key(c) in s.pending then 1 else 0
  }

  lemma {:induction false} QueuedHead(channel: seq<Command>, c: Command)
    requires channel != []
    ensures Queued(channel, c) == Queued(channel[1..], c) + if channel[0] == c then 1 else 0
  {
    var n := |channel| - 1;
    if n > 0 {
      QueuedHead(channel[..n], c);
      assert channel[1..][..n - 1] == channel[..n][1..];
    }
  }

  lemma {:induction false} HeldUpdate(workers: seq<Worker>, w: nat, worker: Worker, c: Command)
    requires w < |workers|
    ensures Held(workers[w := worker], c) ==
            Held(workers, c) - (if Holds(workers[w], c) then 1 else 0) + (if Holds(worker, c) then 1 else 0)
  {
    var n := |workers| - 1;
    if w == n {
      assert workers[w := worker][..n] == workers[..n];
    } else {
      assert workers[w := worker][..n] == workers[..n][w := worker];
      HeldUpdate(workers[..n], w, worker, c);
    }
  }

  lemma {:induction false} HeldBy(workers: seq<Worker>, w: nat, c: Command)
    requires w < |workers| && Holds(workers[w], c)
    ensures Held(workers, c) >= 1
  {
    if w < |workers| - 1 {
      HeldBy(workers[..|workers| - 1], w, c);
    }
  }

  lemma {:induction false} QueuedAt(channel: seq<Command>, i: nat)
    requires i < |channel|
    ensures Queued(channel, channel[i]) >= 1
  {
    if i < |channel| - 1 {
      QueuedAt(channel[..|channel| - 1], i);
    }
  }

  lemma SentKeepsFlight(s: State, c: Command, d: Command)
    requires SingleFlight(s)
    ensures var (pending, channel) := Sent(s.pending, s.channel, c);
            Queued(channel, d) + Held(s.workers, d) == if Key(d) in pending then 1 else 0
  {
    if Key(c) !in s.pending {
      assert (s.channel + [c])[..|s.channel|] == s.channel;
      if Key(c) == Key(d) {
        KeysAreDistinct(c, d);
      }
    }
  }

  lemma StepKeepsFlight(s: State, step: Step)
    requires SingleFlight(s) && Can(s, step)
    ensures SingleFlight(Next(s, step))
  {
    var t := Next(s, step);
    forall d ensures Queued(t.channel, d) + Held(t.workers, d) == if Key(d) in t.pending then 1 else 0 {
      match step
      case Send(c) => SentKeepsFlight(s, c, d);
      case Receive(w) =>
        QueuedHead(s.channel, d);
        HeldUpdate(s.workers, w, t.workers[w], d);
      case Start(w) =>
        HeldUpdate(s.workers, w, t.workers[w], d);
        HeldBy(s.workers, w, s.workers[w].c);
        StartedWasPending(s, w);
      case Finish(w) =>
        HeldUpdate(s.workers, w, t.workers[w], d);
        HeldBy(s.workers, w, s.workers[w].c);
        if Key(d) == Key(s.workers[w].c) { KeysAreDistinct(d, s.workers[w].c); }
      case Resend(w) =>
        HeldUpdate(s.workers, w, t.workers[w], d);
        SentKeepsFlight(s, s.workers[w].c, d);
    }
  }

  lemma StartedWasPending(s: State, w: nat)
    requires SingleFlight(s) && w < |s.workers| && (s.workers[w].Received? || s.workers[w].Running?)
    ensures Key(s.workers[w].c) in s.pending
  {
    HeldBy(s.workers, w, s.workers[w].c);
  }

  // ---- no lost wakeup ----

  /** A run of `c` that has not started yet is certain to start. */
  ghost predicate Owing(s: State, c: Command) {
    || c in s.channel
    || (exists w :: 0 <= w < |s.workers| && (s.workers[w] == Received(c) || s.workers[w] == Resending(c)))
    || (Key(c) in s.pending && s.pending[Key(c)] && exists w :: 0 <= w < |s.workers| && s.workers[w] == Running(c))
  }

  /** Every send that returned is followed by a run that started after it, or one is still owed. */
  ghost predicate NoLostWakeup(s: State) {
    forall i :: 0 <= i < |s.log| && s.log[i].SendReturned? ==>
      Owing(s, s.log[i].c) || exists j :: i < j < |s.log| && s.log[j] == RunStarted(s.log[i].c)
  }

  /** A step keeps what is owed, or starts it. */
  lemma StepKeepsOwing(s: State, step: Step, c: Command)
    requires SingleFlight(s) && Can(s, step) && Owing(s, c)
    ensures Owing(Next(s, step), c) || Next(s, step).log == s.log + [RunStarted(c)]
  {
    var t := Next(s, step);
    if c in s.channel {
      if step.Receive? && s.channel[0] == c {
        assert t.workers[step.w] == Received(c);
      } else {
        var i :| 0 <= i < |s.channel| && s.channel[i] == c;
        if step.Receive? {
          assert t.channel[i - 1] == c;
        } else {
          assert t.channel[i] == c;
        }
      }
    } else if w :| 0 <= w < |s.workers| && (s.workers[w] == Received(c) || s.workers[w] == Resending(c)) {
      if step == Resend(w) {
        SentOwes(s, c, w);
      } else if step != Start(w) {
        assert t.workers[w] == s.workers[w];
      }
    } else {
      var w :| 0 <= w < |s.workers| && s.workers[w] == Running(c);
      if step == Finish(w) {
        assert t.workers[w] == Resending(c);
      } else {
        assert t.workers[w] == Running(c);
        RerunBitStays(s, step, c, w);
      }
    }
  }

  lemma SentOwes(s: State, c: Command, w: nat)
    requires SingleFlight(s) && Can(s, Resend(w)) && s.workers[w] == Resending(c)
    ensures Owing(Next(s, Resend(w)), c)
  {
    var t := Next(s, Resend(w));
    if Key(c) in s.pending {
      PendingIsHeld(s, c);
      if !(c in s.channel) {
        var v :| 0 <= v < |s.workers| && Holds(s.workers[v], c);
        assert t.workers[v] == s.workers[v];
      }
    } else {
      assert t.channel[|s.channel|] == c;
    }
  }

  /** A pending key's command is in the channel or with a worker. */
  lemma PendingIsHeld(s: State, c: Command)
    requires SingleFlight(s) && Key(c) in s.pending
    ensures c in s.channel || exists w :: 0 <= w < |s.workers| && Holds(s.workers[w], c)
  {
    if Queued(s.channel, c) >= 1 {
      QueuedMember(s.channel, c);
    } else {
      HeldMember(s.workers, c);
    }
  }

  lemma {:induction false} QueuedMember(channel: seq<Command>, c: Command)
    requires Queued(channel, c) >= 1
    ensures c in channel
  {
    if channel[|channel| - 1] != c {
      QueuedMember(channel[..|channel| - 1], c);
    }
  }

  lemma {:induction false} HeldMember(workers: seq<Worker>, c: Command)
    requires Held(workers, c) >= 1
    ensures exists w :: 0 <= w < |workers| && Holds(workers[w], c)
  {
    if !Holds(workers[|workers| - 1], c) {
      HeldMember(workers[..|workers| - 1], c);
      var w :| 0 <= w < |workers| - 1 && Holds(workers[..|workers| - 1][w], c);
      assert Holds(workers[w], c);
    }
  }

  /** Only the end of the run itself takes its rerun bit away. */
  lemma RerunBitStays(s: State, step: Step, c: Command, w: nat)
    requires SingleFlight(s) && Can(s, step) && step != Finish(w)
    requires w < |s.workers| && s.workers[w] == Running(c) && Key(c) in s.pending && s.pending[Key(c)]
    ensures var t := Next(s, step); Key(c) in t.pending && t.pending[Key(c)]
  {
    match step
    case Start(v) => OneHolder(s, w, v, c);
    case Finish(v) => OneHolder(s, w, v, c);
    case _ =>
  }

  lemma OneHolder(s: State, w: nat, v: nat, c: Command)
    requires SingleFlight(s) && w < |s.workers| && v < |s.workers| && w != v
    requires Holds(s.workers[w], c) && (s.workers[v].Received? || s.workers[v].Running?)
    ensures Key(s.workers[v].c) != Key(c)
  {
    if Key(s.workers[v].c) == Key(c) {
      KeysAreDistinct(s.workers[v].c, c);
      HeldUpdate(s.workers, v, Idle, c);
      HeldBy(s.workers[v := Idle], w, c);
    }
  }

  lemma SendOwes(s: State, c: Command)
    requires SingleFlight(s)
    ensures Owing(Next(s, Send(c)), c)
  {
    var t := Next(s, Send(c));
    if Key(c) in s.pending {
      PendingIsHeld(s, c);
      if c !in s.channel {
        var w :| 0 <= w < |s.workers| && Holds(s.workers[w], c);
        assert t.workers[w] == s.workers[w];
      }
    } else {
      assert t.channel[|s.channel|] == c;
    }
  }

  lemma StepLosesNoWakeup(s: State, step: Step)
    requires SingleFlight(s) && NoLostWakeup(s) && Can(s, step)
    ensures NoLostWakeup(Next(s, step))
  {
    var t := Next(s, step);
    forall i | 0 <= i < |t.log| && t.log[i].SendReturned?
      ensures Owing(t, t.log[i].c) || exists j :: i < j < |t.log| && t.log[j] == RunStarted(t.log[i].c)
    {
      if i == |s.log| {
        SendOwes(s, t.log[i].c);
      } else {
        assert t.log[i] == s.log[i];
        if Owing(s, s.log[i].c) {
          StepKeepsOwing(s, step, s.log[i].c);
          if t.log == s.log + [RunStarted(s.log[i].c)] {
            assert t.log[|s.log|] == RunStarted(s.log[i].c);
          }
        } else {
          var j :| i < j < |s.log| && s.log[j] == RunStarted(s.log[i].c);
          assert t.log[j] == s.log[j];
        }
      }
    }
  }

  // ---- runs ----

  predicate Initial(s: State) {
    s.pending == map[] && s.channel == [] && s.log == [] && forall w :: 0 <= w < |s.workers| ==> s.workers[w] == Idle
  }

  ghost predicate IsRun(run: seq<State>, steps: seq<Step>) {
    && |run| == |steps| + 1 && Initial(run[0])
    && forall k :: 0 <= k < |steps| ==> Can(run[k], steps[k]) && run[k + 1] == Next(run[k], steps[k])
  }

  lemma {:induction false} IdleHoldsNothing(workers: seq<Worker>, c: Command)
    requires forall w :: 0 <= w < |workers| ==> workers[w] == Idle
    ensures Held(workers, c) == 0
  {
    if workers != [] {
      IdleHoldsNothing(workers[..|workers| - 1], c);
    }
  }

  /** For any number of workers and any interleaving: single flight, and no wakeup is lost. */
  lemma {:induction false} EveryRunIsSafe(run: seq<State>, steps: seq<Step>, k: nat)
    requires IsRun(run, steps) && k < |run|
    ensures SingleFlight(run[k]) && NoLostWakeup(run[k])
  {
    if k == 0 {
      forall c ensures Held(run[0].workers, c) == 0 { IdleHoldsNothing(run[0].workers, c); }
    } else {
      EveryRunIsSafe(run, steps, k - 1);
      StepKeepsFlight(run[k - 1], steps[k - 1]);
      StepLosesNoWakeup(run[k - 1], steps[k - 1]);
    }
  }

  predicate Quiescent(s: State) {
    s.channel == [] && forall w :: 0 <= w < |s.workers| ==> s.workers[w].Idle?
  }

  /** When nothing is queued and every worker is idle, no key is pending and every send got its run. */
  lemma QuiescenceOwesNothing(run: seq<State>, steps: seq<Step>, k: nat)
    requires IsRun(run, steps) && k < |run| && Quiescent(run[k])
    ensures forall c :: Key(c) !in run[k].pending
    ensures forall i :: 0 <= i < |run[k].log| && run[k].log[i].SendReturned? ==>
              exists j :: i < j < |run[k].log| && run[k].log[j] == RunStarted(run[k].log[i].c)
  {
    EveryRunIsSafe(run, steps, k);
    forall c ensures Key(c) !in run[k].pending {
      IdleHoldsNothing(run[k].workers, c);
    }
  }
}
