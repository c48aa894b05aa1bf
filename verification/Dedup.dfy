/** In-flight request deduplication (crates/forge-index-rpc/src/dedup.rs) as a protocol of any number
    of tasks over a shared map of channels. Each action is one atomic piece of a task's loop. No
    entry is older than the eviction timeout and no call is dropped halfway. */
module Dedup {
  import opened Tables

  type Answer = int

  datatype Phase =
    | Idle                                       // not called yet
    | Looping                                    // about to look the key up
    | Waiting(channel: nat)                      // subscribed to a channel
    | Running(channel: nat)                      // leader, closure running
    | Sending(channel: nat, result: Answer)      // leader, closure done
    | Removing(channel: nat, result: Answer)     // leader, result broadcast
    | Returned(channel: nat, result: Answer)

  /** `taken` says whether the call's closure has been consumed. */
  datatype Task = Task(key: string, phase: Phase, taken: bool, started: nat, ended: nat)

  /** A broadcast channel: who opened it and when, what was sent and when, and which receivers were
      subscribed at that moment. */
  datatype Channel = Channel(key: string, leader: nat, openedAt: nat, sent: Option<Answer>, sentAt: nat,
                             receivers: set<nat>)

  datatype State = State(tasks: seq<Task>, channels: seq<Channel>, inFlight: map<string, nat>, clock: nat)

  datatype Action =
    | Call(task: nat) | Lookup(task: nat) | Finish(task: nat, answer: Answer) | Send(task: nat)
    | Remove(task: nat) | Receive(task: nat) | Retry(task: nat)

  /** All senders of a channel are gone: its leader has returned and the map does not hold it. */
  predicate Closed(s: State, c: nat) {
    && c < |s.channels| && s.channels[c].leader < |s.tasks|
    && s.tasks[s.channels[c].leader].phase.Returned?
    && (forall k :: k in s.inFlight ==> s.inFlight[k] != c)
  }

  /** A receiver gets the message if it was subscribed when the message was sent. */
  predicate HasMessage(s: State, i: nat, c: nat) {
    c < |s.channels| && s.channels[c].sent.Some? && i in s.channels[c].receivers
  }

  predicate Enabled(s: State, a: Action) {
    && a.task < |s.tasks|
    && var p := s.tasks[a.task].phase;
       match a
       case Call(_) => p.Idle?
       case Lookup(_) => p.Looping?
       case Finish(_, _) => p.Running?
       case Send(_) => p.Sending? && p.channel < |s.channels|
       case Remove(_) => p.Removing?
       case Receive(i) => p.Waiting? && HasMessage(s, i, p.channel)
       case Retry(i) => p.Waiting? && !HasMessage(s, i, p.channel) && Closed(s, p.channel)
  }

  function Put(s: State, i: nat, t: Task): State
    requires i < |s.tasks|
  {
    s.(tasks := s.tasks[i := t], clock := s.clock + 1)
  }

  function Do(s: State, a: Action): State
    requires Enabled(s, a)
  {
    var i := a.task;
    var t := s.tasks[i];
    match a
    case Call(_) => Put(s, i, t.(phase := Looping, started := s.clock))
    case Lookup(_) =>
      if t.key in s.inFlight then
        var c := s.inFlight[t.key];
        var s' := Put(s, i, t.(phase := Waiting(c)));
        if c < |s.channels| && s.channels[c].sent.None? then
          s'.(channels := s.channels[c := s.channels[c].(receivers := s.channels[c].receivers + {i})])
        else s'
      else
        var c := |s.channels|;
        Put(s, i, t.(phase := Running(c), taken := true))
          .(channels := s.channels + [Channel(t.key, i, s.clock, None, 0, {})], inFlight := s.inFlight[t.key := c])
    case Finish(_, r) => Put(s, i, t.(phase := Sending(t.phase.channel, r)))
    case Send(_) =>
      var c := t.phase.channel;
      Put(s, i, t.(phase := Removing(c, t.phase.result)))
        .(channels := s.channels[c := s.channels[c].(sent := Some(t.phase.result), sentAt := s.clock)])
    case Remove(_) =>
      Put(s, i, t.(phase := Returned(t.phase.channel, t.phase.result), ended := s.clock))
        .(inFlight := s.inFlight - {t.key})
    case Receive(_) =>
      var c := t.phase.channel;
      Put(s, i, t.(phase := Returned(c, s.channels[c].sent.value), ended := s.clock))
    case Retry(_) => Put(s, i, t.(phase := Looping))
  }

  predicate Initial(s: State) {
    && s.channels == [] && s.inFlight == map[]
    && forall i :: 0 <= i < |s.tasks| ==> s.tasks[i].phase == Idle && !s.tasks[i].taken
  }

  predicate Runs(s: State, actions: seq<Action>)
    decreases |actions|
  {
    actions == [] || (Enabled(s, actions[0]) && Runs(Do(s, actions[0]), actions[1..]))
  }

  function After(s: State, actions: seq<Action>): State
    requires Runs(s, actions)
    decreases |actions|
  {
    if actions == [] then s else After(Do(s, actions[0]), actions[1..])
  }

  // The invariant

  predicate Leads(p: Phase, c: nat) {
    (p.Running? || p.Sending? || p.Removing?) && p.channel == c
  }

  /** A task that has consumed its closure leads, or led, a channel of its own key; one that has not
      is before, or between, waits on channels of its own key. */
  predicate TaskOk(s: State, i: nat)
    requires i < |s.tasks|
  {
    var t := s.tasks[i];
    match t.phase
    case Idle => !t.taken
    case Looping => !t.taken && t.started < s.clock
    case Waiting(c) =>
      && !t.taken && t.started < s.clock
      && c < |s.channels| && s.channels[c].key == t.key && s.channels[c].leader != i
    case Returned(c, r) =>
      && c < |s.channels| && s.channels[c].key == t.key && s.channels[c].sent == Some(r)
      && t.started <= s.channels[c].sentAt && s.channels[c].openedAt <= t.ended
    case _ =>
      && t.taken && t.started < s.clock
      && t.phase.channel < |s.channels| && s.channels[t.phase.channel].leader == i
      && s.channels[t.phase.channel].key == t.key
      && t.key in s.inFlight && s.inFlight[t.key] == t.phase.channel
      && (t.phase.Removing? ==> s.channels[t.phase.channel].sent == Some(t.phase.result))
  }

  /** A channel's leader is still at work on it, or has returned what it sent. */
  predicate ChannelOk(s: State, c: nat)
    requires c < |s.channels|
  {
    var ch := s.channels[c];
    && ch.leader < |s.tasks|
    && ch.openedAt < s.clock
    && s.tasks[ch.leader].started <= ch.openedAt
    && var p := s.tasks[ch.leader].phase;
       && (Leads(p, c) || (p.Returned? && p.channel == c))
       && (ch.sent.Some? <==> p.Removing? || p.Returned?)
       && (ch.sent.Some? ==> p.result == ch.sent.value && ch.openedAt <= ch.sentAt < s.clock)
  }

  /** Receivers had started their call when they subscribed, which was before the send. */
  predicate ReceiversOk(s: State, c: nat)
    requires c < |s.channels|
  {
    var ch := s.channels[c];
    forall i <- ch.receivers ::
      && i < |s.tasks| && !s.tasks[i].phase.Idle? && s.tasks[i].started < s.clock
      && (ch.sent.Some? ==> s.tasks[i].started <= ch.sentAt)
  }

  /** The map points to the channel whose leader is at work under that key. */
  predicate EntryOk(s: State, k: string)
    requires k in s.inFlight
  {
    var c := s.inFlight[k];
    && c < |s.channels| && s.channels[c].key == k && s.channels[c].leader < |s.tasks|
    && Leads(s.tasks[s.channels[c].leader].phase, c)
  }

  predicate Invariant(s: State) {
    && (forall i :: 0 <= i < |s.tasks| ==> TaskOk(s, i))
    && (forall c :: 0 <= c < |s.channels| ==> ChannelOk(s, c))
    && (forall c :: 0 <= c < |s.channels| ==> ReceiversOk(s, c))
    && (forall k :: k in s.inFlight ==> EntryOk(s, k))
  }

  /** What a task knows of the state around it when it acts. */
  lemma Around(s: State, a: Action)
    requires Invariant(s) && Enabled(s, a)
    ensures var t := s.tasks[a.task];
      && TaskOk(s, a.task)
      && (t.key in s.inFlight ==> EntryOk(s, t.key))
      && (!t.phase.Idle? && !t.phase.Looping? ==>
            t.phase.channel < |s.channels| && ChannelOk(s, t.phase.channel) && ReceiversOk(s, t.phase.channel))
  {
    assert TaskOk(s, a.task);
  }

  lemma ActorKept(s: State, a: Action)
    requires Invariant(s) && Enabled(s, a)
    ensures TaskOk(Do(s, a), a.task)
  {
    Around(s, a);
  }

  /** A step changes neither the opening of a channel nor what was sent on it. */
  lemma ChannelStays(s: State, a: Action, c: nat)
    requires Invariant(s) && Enabled(s, a) && c < |s.channels|
    ensures c < |Do(s, a).channels|
    ensures var before, after := s.channels[c], Do(s, a).channels[c];
      && after.key == before.key && after.leader == before.leader && after.openedAt == before.openedAt
      && (before.sent.Some? ==> after.sent == before.sent && after.sentAt == before.sentAt)
  {
    Around(s, a);
    assert ChannelOk(s, c);
  }

  lemma OtherKept(s: State, a: Action, i: nat)
    requires Invariant(s) && Enabled(s, a) && i < |s.tasks| && i != a.task
    ensures TaskOk(Do(s, a), i)
  {
    var p := s.tasks[i].phase;
    assert TaskOk(s, i) && Do(s, a).tasks[i] == s.tasks[i];
    if !p.Idle? && !p.Looping? {
      ChannelStays(s, a, p.channel);
    }
    if p.Running? || p.Sending? || p.Removing? {
      LeaderKeepsEntry(s, a, i);
    }
  }

  /** Only its leader removes a channel from the map. */
  lemma LeaderKeepsEntry(s: State, a: Action, i: nat)
    requires Invariant(s) && Enabled(s, a) && i < |s.tasks| && i != a.task
    requires var p := s.tasks[i].phase; p.Running? || p.Sending? || p.Removing?
    ensures var key := s.tasks[i].key;
      key in Do(s, a).inFlight && Do(s, a).inFlight[key] == s.tasks[i].phase.channel
  {
    Around(s, a);
    assert TaskOk(s, i);
  }

  lemma ChannelKept(s: State, a: Action, c: nat)
    requires Invariant(s) && Enabled(s, a) && c < |Do(s, a).channels|
    ensures ChannelOk(Do(s, a), c)
  {
    Around(s, a);
    if c < |s.channels| {
      assert ChannelOk(s, c);
    }
  }

  lemma ReceiversKept(s: State, a: Action, c: nat)
    requires Invariant(s) && Enabled(s, a) && c < |Do(s, a).channels|
    ensures ReceiversOk(Do(s, a), c)
  {
    Around(s, a);
    if c < |s.channels| {
      assert ReceiversOk(s, c);
    }
  }

  lemma EntryKept(s: State, a: Action, k: string)
    requires Invariant(s) && Enabled(s, a) && k in Do(s, a).inFlight
    ensures EntryOk(Do(s, a), k)
  {
    Around(s, a);
    if k in s.inFlight {
      assert EntryOk(s, k);
    }
  }

  lemma StepKeepsInvariant(s: State, a: Action)
    requires Invariant(s) && Enabled(s, a)
    ensures Invariant(Do(s, a))
  {
    forall i | 0 <= i < |s.tasks|
      ensures TaskOk(Do(s, a), i)
    {
      if i == a.task {
        ActorKept(s, a);
      } else {
        OtherKept(s, a, i);
      }
    }
    forall c | 0 <= c < |Do(s, a).channels|
      ensures ChannelOk(Do(s, a), c) && ReceiversOk(Do(s, a), c)
    {
      ChannelKept(s, a, c);
      ReceiversKept(s, a, c);
    }
    forall k | k in Do(s, a).inFlight
      ensures EntryOk(Do(s, a), k)
    {
      EntryKept(s, a, k);
    }
  }

  /** The invariant holds in every reachable state. */
  lemma {:induction false} RunKeepsInvariant(s: State, actions: seq<Action>)
    requires Invariant(s) && Runs(s, actions)
    ensures Invariant(After(s, actions))
    ensures |After(s, actions).tasks| == |s.tasks|
    decreases |actions|
  {
    if actions != [] {
      StepKeepsInvariant(s, actions[0]);
      RunKeepsInvariant(Do(s, actions[0]), actions[1..]);
    }
  }

  /** Safety. In every reachable state: at most one task per key is running its closure or handing
      out its result; a closure about to run has not been consumed; and a task that has returned
      returned what the leader of a channel of its own key sent, at a moment when that leader's run
      overlapped the call. */
  lemma ReachableIsSafe(s0: State, actions: seq<Action>)
    requires Initial(s0) && Runs(s0, actions)
    ensures var s := After(s0, actions);
      && (forall i, j :: 0 <= i < j < |s.tasks| && Busy(s.tasks[i]) && Busy(s.tasks[j]) ==>
            s.tasks[i].key != s.tasks[j].key)
      && (forall i :: 0 <= i < |s.tasks| && s.tasks[i].phase.Looping? ==> !s.tasks[i].taken)
      && (forall i :: 0 <= i < |s.tasks| && s.tasks[i].phase.Returned? ==> ReturnedRight(s, i))
  {
    var s := After(s0, actions);
    RunKeepsInvariant(s0, actions);
    forall i, j | 0 <= i < j < |s.tasks| && Busy(s.tasks[i]) && Busy(s.tasks[j])
      ensures s.tasks[i].key != s.tasks[j].key
    {
      assert TaskOk(s, i) && TaskOk(s, j);
    }
    forall i | 0 <= i < |s.tasks|
      ensures s.tasks[i].phase.Looping? ==> !s.tasks[i].taken
      ensures s.tasks[i].phase.Returned? ==> ReturnedRight(s, i)
    {
      assert TaskOk(s, i);
      if s.tasks[i].phase.Returned? {
        assert ChannelOk(s, s.tasks[i].phase.channel);
      }
    }
  }

  predicate Busy(t: Task) {
    t.phase.Running? || t.phase.Sending? || t.phase.Removing?
  }

  predicate ReturnedRight(s: State, i: nat)
    requires i < |s.tasks| && s.tasks[i].phase.Returned?
  {
    var t := s.tasks[i];
    && t.phase.channel < |s.channels|
    && var ch := s.channels[t.phase.channel];
       && ch.key == t.key && ch.leader < |s.tasks|
       && ch.sent == Some(t.phase.result)
       && (s.tasks[ch.leader].phase.Removing? || s.tasks[ch.leader].phase.Returned?)
       && s.tasks[ch.leader].phase.result == t.phase.result
       && t.started <= ch.sentAt && ch.openedAt <= t.ended
  }

  // Progress

  /** Nobody waits forever: a waiter whose leader has returned can go on, and as long as some called
      task has not returned some task can act. */
  lemma NoDeadlock(s: State) returns (a: Action)
    requires Invariant(s)
    requires exists i :: 0 <= i < |s.tasks| && !s.tasks[i].phase.Returned?
    ensures Enabled(s, a)
  {
    var i :| 0 <= i < |s.tasks| && !s.tasks[i].phase.Returned?;
    assert TaskOk(s, i);
    a := NextOf(s, i);
    if s.tasks[i].phase.Waiting? {
      var c := s.tasks[i].phase.channel;
      assert ChannelOk(s, c);
      var l := s.channels[c].leader;
      assert TaskOk(s, l);
      if s.tasks[l].phase.Returned? {
        WaiterUnblocks(s, i);
      } else {
        a := NextOf(s, l);
      }
    }
  }

  /** The action a task takes next. */
  function NextOf(s: State, i: nat): Action
    requires i < |s.tasks|
  {
    match s.tasks[i].phase
    case Idle => Call(i)
    case Looping => Lookup(i)
    case Waiting(c) => if HasMessage(s, i, c) then Receive(i) else Retry(i)
    case Running(_) => Finish(i, 0)
    case Sending(_, _) => Send(i)
    case Removing(_, _) => Remove(i)
    case Returned(_, _) => Call(i)
  }

  /** A waiter is never stuck on the channel of a leader that has returned. */
  lemma WaiterUnblocks(s: State, i: nat)
    requires Invariant(s) && i < |s.tasks| && s.tasks[i].phase.Waiting?
    requires LeaderReturned(s, s.tasks[i].phase.channel)
    ensures Enabled(s, NextOf(s, i))
  {
    var c := s.tasks[i].phase.channel;
    assert ChannelOk(s, c);
    forall k | k in s.inFlight
      ensures s.inFlight[k] != c
    {
      assert EntryOk(s, k);
    }
  }

  predicate LeaderReturned(s: State, c: nat) {
    c < |s.channels| && s.channels[c].leader < |s.tasks| && s.tasks[s.channels[c].leader].phase.Returned?
  }

  /** How far a task still is from returning; a waiter falls back when its leader returns. */
  function Weight(s: State, i: nat): nat
    requires i < |s.tasks|
  {
    match s.tasks[i].phase
    case Idle => 7
    case Looping => 5
    case Waiting(c) => if LeaderReturned(s, c) then 6 else 4
    case Running(_) => 3
    case Sending(_, _) => 2
    case Removing(_, _) => 1
    case Returned(_, _) => 0
  }

  function WeightTo(s: State, n: nat): nat
    requires n <= |s.tasks|
  {
    if n == 0 then 0 else WeightTo(s, n - 1) + Weight(s, n - 1)
  }

  function OpenTo(s: State, n: nat): nat
    requires n <= |s.tasks|
  {
    if n == 0 then 0 else OpenTo(s, n - 1) + if s.tasks[n - 1].phase.Returned? then 0 else 1
  }

  /** Tasks still open, then their weights. */
  function Measure(s: State): nat {
    OpenTo(s, |s.tasks|) * (7 * |s.tasks| + 1) + WeightTo(s, |s.tasks|)
  }

  lemma {:induction false} WeightBound(s: State, n: nat)
    requires n <= |s.tasks|
    ensures WeightTo(s, n) <= 7 * n
    ensures OpenTo(s, n) <= n
  {
    if n > 0 {
      WeightBound(s, n - 1);
    }
  }

  /** Only task i moved, and it stays open: the sum of weights drops. */
  lemma {:induction false} WeightDrops(s: State, s': State, i: nat, n: nat)
    requires |s.tasks| == |s'.tasks| && i < n <= |s.tasks|
    requires forall j :: 0 <= j < n && j != i ==>
      Weight(s', j) == Weight(s, j) && (s'.tasks[j].phase.Returned? <==> s.tasks[j].phase.Returned?)
    requires Weight(s', i) < Weight(s, i) && (s'.tasks[i].phase.Returned? <==> s.tasks[i].phase.Returned?)
    ensures WeightTo(s', n) < WeightTo(s, n) && OpenTo(s', n) == OpenTo(s, n)
  {
    if i < n - 1 {
      WeightDrops(s, s', i, n - 1);
    } else {
      WeightSame(s, s', n - 1);
    }
  }

  lemma {:induction false} WeightSame(s: State, s': State, n: nat)
    requires |s.tasks| == |s'.tasks| && n <= |s.tasks|
    requires forall j :: 0 <= j < n ==>
      Weight(s', j) == Weight(s, j) && (s'.tasks[j].phase.Returned? <==> s.tasks[j].phase.Returned?)
    ensures WeightTo(s', n) == WeightTo(s, n) && OpenTo(s', n) == OpenTo(s, n)
  {
    if n > 0 {
      WeightSame(s, s', n - 1);
    }
  }

  /** Task i returned and nobody else did. */
  lemma {:induction false} OpenDrops(s: State, s': State, i: nat, n: nat)
    requires |s.tasks| == |s'.tasks| && n <= |s.tasks| && i < |s.tasks|
    requires forall j :: 0 <= j < |s.tasks| && j != i ==> (s'.tasks[j].phase.Returned? <==> s.tasks[j].phase.Returned?)
    requires !s.tasks[i].phase.Returned? && s'.tasks[i].phase.Returned?
    ensures OpenTo(s', n) == OpenTo(s, n) - if i < n then 1 else 0
  {
    if n > 0 {
      OpenDrops(s, s', i, n - 1);
    }
  }

  lemma OneLess(m: int, k: int)
    ensures (m - 1) * k == m * k - k
  {
  }

  lemma Quadratic(m: nat, n: nat)
    requires m <= n
    ensures m * (7 * n + 1) <= 7 * n * n + n
  {
    assert (n - m) * (7 * n + 1) >= 0;
    assert n * (7 * n + 1) == m * (7 * n + 1) + (n - m) * (7 * n + 1);
  }

  lemma MeasureDrops(s: State, a: Action)
    requires Invariant(s) && Enabled(s, a)
    ensures Measure(Do(s, a)) < Measure(s)
  {
    var s', n, i := Do(s, a), |s.tasks|, a.task;
    assert TaskOk(s, i);
    if a.Remove? || a.Receive? {
      OpenDrops(s, s', i, n);
      WeightBound(s', n);
      OneLess(OpenTo(s, n), 7 * n + 1);
    } else {
      OthersKeepWeight(s, a);
      WeightDrops(s, s', i, n);
    }
  }

  lemma OthersKeepWeight(s: State, a: Action)
    requires Invariant(s) && Enabled(s, a) && !a.Remove? && !a.Receive?
    ensures forall j :: 0 <= j < |s.tasks| && j != a.task ==> Weight(Do(s, a), j) == Weight(s, j)
    ensures Weight(Do(s, a), a.task) < Weight(s, a.task)
  {
    var s' := Do(s, a);
    assert TaskOk(s, a.task);
    if a.Lookup? && s.tasks[a.task].key in s.inFlight {
      assert EntryOk(s, s.tasks[a.task].key);
    }
    forall j | 0 <= j < |s.tasks| && j != a.task
      ensures Weight(s', j) == Weight(s, j)
    {
      assert TaskOk(s, j);
      if s.tasks[j].phase.Waiting? {
        assert ChannelOk(s, s.tasks[j].phase.channel);
      }
    }
  }

  /** No livelock: a run of n tasks takes at most 7n^2 + 8n actions, retries included. Together with
      NoDeadlock, every run that goes on as long as it can ends with every call returned. */
  lemma {:induction false} RunsAreBounded(s: State, actions: seq<Action>)
    requires Invariant(s) && Runs(s, actions)
    ensures |actions| <= Measure(s)
    decreases |actions|
  {
    if actions != [] {
      MeasureDrops(s, actions[0]);
      StepKeepsInvariant(s, actions[0]);
      RunsAreBounded(Do(s, actions[0]), actions[1..]);
    }
  }

  lemma BoundFromStart(s: State, actions: seq<Action>)
    requires Initial(s) && Runs(s, actions)
    ensures |actions| <= 7 * |s.tasks| * |s.tasks| + 8 * |s.tasks|
  {
    RunsAreBounded(s, actions);
    WeightBound(s, |s.tasks|);
    Quadratic(OpenTo(s, |s.tasks|), |s.tasks|);
  }
}
