/** What deduplication is for (crates/forge-index-rpc/src/dedup.rs:35-76): calls that find their key in flight share
    the leader's result, over every run of the protocol. */
module DedupSharing {
  import opened Tables
  import opened Dedup

  /** Task i's lookup would find its key in flight on channel c, with nothing sent yet. */
  predicate Joins(s: State, i: nat, c: nat) {
    && i < |s.tasks| && s.tasks[i].phase.Looping?
    && s.tasks[i].key in s.inFlight && s.inFlight[s.tasks[i].key] == c
    && c < |s.channels| && s.channels[c].sent.None?
  }

  /** Task i has joined channel c: it waits for the leader's result, with its closure unused, or has returned it. */
  predicate Shares(s: State, i: nat, c: nat) {
    && i < |s.tasks| && c < |s.channels| && !s.tasks[i].taken
    && match s.tasks[i].phase
       case Waiting(d) => d == c && i in s.channels[c].receivers
       case Returned(d, r) => d == c && s.channels[c].sent == Some(r)
       case _ => false
  }

  lemma LookupShares(s: State, i: nat, c: nat)
    requires Invariant(s) && Joins(s, i, c)
    ensures Enabled(s, Lookup(i)) && Shares(Do(s, Lookup(i)), i, c)
  {
    assert TaskOk(s, i);
  }

  /** A channel keeps its receivers and what was sent on it. */
  lemma ChannelGrows(s: State, a: Action, c: nat)
    requires Invariant(s) && Enabled(s, a) && c < |s.channels|
    ensures c < |Do(s, a).channels| && s.channels[c].receivers <= Do(s, a).channels[c].receivers
    ensures Do(s, a).channels[c].key == s.channels[c].key && Do(s, a).channels[c].leader == s.channels[c].leader
    ensures s.channels[c].sent.Some? ==> Do(s, a).channels[c].sent == s.channels[c].sent
  {
    ChannelStays(s, a, c);
    Around(s, a);
  }

  /** A waiter that was subscribed before the send can only receive. */
  lemma OnlyReceives(s: State, a: Action, i: nat, c: nat)
    requires Invariant(s) && Enabled(s, a) && Shares(s, i, c) && a.task == i
    ensures a == Receive(i) && s.channels[c].sent.Some?
  {
    assert TaskOk(s, i) && ChannelOk(s, c);
  }

  lemma SharesStays(s: State, a: Action, i: nat, c: nat)
    requires Invariant(s) && Enabled(s, a) && Shares(s, i, c)
    ensures Shares(Do(s, a), i, c)
  {
    ChannelGrows(s, a, c);
    if a.task == i {
      OnlyReceives(s, a, i, c);
    }
  }

  lemma {:induction false} SharesForever(s: State, actions: seq<Action>, i: nat, c: nat)
    requires Invariant(s) && Runs(s, actions) && Shares(s, i, c)
    ensures Shares(After(s, actions), i, c) && Invariant(After(s, actions))
    decreases |actions|
  {
    if actions != [] {
      StepKeepsInvariant(s, actions[0]);
      SharesStays(s, actions[0], i, c);
      SharesForever(Do(s, actions[0]), actions[1..], i, c);
    }
  }

  /** Over every run: a call whose lookup finds its key in flight, with nothing sent yet, never uses its closure; as
      long as it has not returned it waits for that leader, and what it returns is what that leader sent and returns. */
  lemma JoinedShares(s0: State, before: seq<Action>, i: nat, c: nat, rest: seq<Action>)
    requires Initial(s0) && Runs(s0, before) && Joins(After(s0, before), i, c)
    requires Enabled(After(s0, before), Lookup(i)) && Runs(Do(After(s0, before), Lookup(i)), rest)
    ensures var t := After(Do(After(s0, before), Lookup(i)), rest);
      && i < |t.tasks| && !t.tasks[i].taken && c < |t.channels| && t.channels[c].leader < |t.tasks|
      && (t.tasks[i].phase.Returned? || t.tasks[i].phase == Waiting(c))
      && (t.tasks[i].phase.Returned? ==>
            && t.tasks[i].phase.channel == c && t.channels[c].sent == Some(t.tasks[i].phase.result)
            && var p := t.tasks[t.channels[c].leader].phase;
               (p.Removing? || p.Returned?) && p.channel == c && p.result == t.tasks[i].phase.result)
  {
    RunKeepsInvariant(s0, before);
    var s := After(s0, before);
    LookupShares(s, i, c);
    StepKeepsInvariant(s, Lookup(i));
    SharesForever(Do(s, Lookup(i)), rest, i, c);
    var t := After(Do(s, Lookup(i)), rest);
    assert ChannelOk(t, c);
  }

  // One key whose calls all look up in time

  /** Nothing has been sent under the key. */
  predicate NothingSent(s: State, k: string) {
    forall c :: 0 <= c < |s.channels| && s.channels[c].key == k ==> s.channels[c].sent.None?
  }

  /** Every lookup of the key in the run comes before anything is sent under it. */
  predicate InTime(s: State, k: string, actions: seq<Action>)
    requires Runs(s, actions)
    decreases |actions|
  {
    actions == [] ||
    (&& (actions[0].Lookup? && s.tasks[actions[0].task].key == k ==> NothingSent(s, k))
     && InTime(Do(s, actions[0]), k, actions[1..]))
  }

  predicate NotLookedUp(t: Task) {
    (t.phase.Idle? || t.phase.Looping?) && !t.taken
  }

  /** No call of the key has looked it up. */
  predicate Unasked(s: State, k: string) {
    && k !in s.inFlight
    && forall i :: 0 <= i < |s.tasks| && s.tasks[i].key == k ==> NotLookedUp(s.tasks[i])
  }

  /** Task i has looked nothing up, or leads channel c, or shares it. */
  predicate TakesPart(s: State, i: nat, c: nat)
    requires i < |s.tasks| && c < |s.channels|
  {
    NotLookedUp(s.tasks[i]) || i == s.channels[c].leader || Shares(s, i, c)
  }

  /** All calls of the key that have looked it up lead channel c or share it. */
  predicate OneChannel(s: State, k: string, c: nat) {
    && c < |s.channels| && s.channels[c].key == k
    && s.channels[c].leader < |s.tasks| && s.tasks[s.channels[c].leader].taken
    && (s.channels[c].sent.None? ==> k in s.inFlight && s.inFlight[k] == c)
    && forall i :: 0 <= i < |s.tasks| && s.tasks[i].key == k ==> TakesPart(s, i, c)
  }

  lemma UnaskedStep(s: State, k: string, a: Action)
    requires Invariant(s) && Enabled(s, a) && Unasked(s, k)
    ensures if a.Lookup? && s.tasks[a.task].key == k then OneChannel(Do(s, a), k, |s.channels|)
            else Unasked(Do(s, a), k)
  {
    assert TaskOk(s, a.task);
  }

  lemma ChannelStep(s: State, k: string, c: nat, a: Action)
    requires Invariant(s) && Enabled(s, a) && OneChannel(s, k, c)
    requires a.Lookup? && s.tasks[a.task].key == k ==> NothingSent(s, k)
    ensures OneChannel(Do(s, a), k, c)
  {
    var s' := Do(s, a);
    ChannelGrows(s, a, c);
    assert TaskOk(s, a.task) && ChannelOk(s, c);
    forall i | 0 <= i < |s'.tasks| && s'.tasks[i].key == k
      ensures TakesPart(s', i, c)
    {
      PartStep(s, k, c, a, i);
    }
    LeaderStep(s, k, c, a);
  }

  lemma PartStep(s: State, k: string, c: nat, a: Action, i: nat)
    requires Invariant(s) && Enabled(s, a) && OneChannel(s, k, c) && i < |s.tasks| && s.tasks[i].key == k
    requires a.Lookup? && s.tasks[a.task].key == k ==> NothingSent(s, k)
    ensures c < |Do(s, a).channels| && TakesPart(Do(s, a), i, c)
  {
    ChannelGrows(s, a, c);
    assert TakesPart(s, i, c);
    if Shares(s, i, c) {
      SharesStays(s, a, i, c);
    } else if a.task == i && a.Lookup? && i != s.channels[c].leader {
      LookupShares(s, i, c);
    }
  }

  lemma LeaderStep(s: State, k: string, c: nat, a: Action)
    requires Invariant(s) && Enabled(s, a) && OneChannel(s, k, c)
    ensures var s' := Do(s, a);
      && c < |s'.channels| && s'.tasks[s.channels[c].leader].taken
      && (s'.channels[c].sent.None? ==> k in s'.inFlight && s'.inFlight[k] == c)
  {
    ChannelGrows(s, a, c);
    Around(s, a);
    assert ChannelOk(s, c) && TaskOk(s, s.channels[c].leader);
  }

  /** At the end of a run in which every lookup of the key is in time. */
  lemma {:induction false} InTimeRun(s: State, k: string, actions: seq<Action>)
    requires Invariant(s) && Runs(s, actions) && InTime(s, k, actions)
    requires Unasked(s, k) || exists c :: OneChannel(s, k, c)
    ensures var t := After(s, actions);
      Invariant(t) && (Unasked(t, k) || exists c :: OneChannel(t, k, c))
    decreases |actions|
  {
    if actions != [] {
      var a := actions[0];
      StepKeepsInvariant(s, a);
      if Unasked(s, k) {
        UnaskedStep(s, k, a);
      } else {
        var c :| OneChannel(s, k, c);
        ChannelStep(s, k, c, a);
      }
      InTimeRun(Do(s, a), k, actions[1..]);
    }
  }

  /** If all calls of a key look it up before its leader sends, at most one of them uses its closure, and as soon as
      one has looked up exactly one does; and all that return have that one's result. */
  lemma OneRequest(s0: State, actions: seq<Action>, k: string)
    requires Initial(s0) && Runs(s0, actions) && InTime(s0, k, actions)
    ensures var t := After(s0, actions);
      (forall i :: 0 <= i < |t.tasks| && t.tasks[i].key == k ==> NotLookedUp(t.tasks[i])) ||
      exists l :: 0 <= l < |t.tasks| && OnlyOne(t, k, l)
  {
    InTimeRun(s0, k, actions);
    var t := After(s0, actions);
    if c: nat :| OneChannel(t, k, c) {
      var l := t.channels[c].leader;
      assert ChannelOk(t, c) && TaskOk(t, l);
      forall i | 0 <= i < |t.tasks| && t.tasks[i].key == k
        ensures t.tasks[i].taken <==> i == l
        ensures t.tasks[i].phase.Returned? ==> t.tasks[l].phase.Removing? || t.tasks[l].phase.Returned?
        ensures t.tasks[i].phase.Returned? ==> t.tasks[i].phase.result == t.tasks[l].phase.result
      {
        assert TakesPart(t, i, c);
      }
      assert OnlyOne(t, k, l);
    }
  }

  /** Task l is the only one of the key that used its closure, and all that returned have its result. */
  predicate OnlyOne(t: State, k: string, l: nat)
    requires l < |t.tasks|
  {
    && t.tasks[l].key == k
    && forall i :: 0 <= i < |t.tasks| && t.tasks[i].key == k ==>
         && (t.tasks[i].taken <==> i == l)
         && (t.tasks[i].phase.Returned? ==>
               (t.tasks[l].phase.Removing? || t.tasks[l].phase.Returned?) &&
               t.tasks[i].phase.result == t.tasks[l].phase.result)
  }

  // A leader's own answer

  predicate Answers(t: Task, r: Answer) {
    match t.phase
    case Sending(_, x) => x == r
    case Removing(_, x) => x == r
    case Returned(_, x) => x == r
    case _ => false
  }

  lemma {:induction false} AnswerStays(s: State, actions: seq<Action>, i: nat, r: Answer)
    requires Runs(s, actions) && i < |s.tasks| && Answers(s.tasks[i], r)
    ensures i < |After(s, actions).tasks| && Answers(After(s, actions).tasks[i], r)
    decreases |actions|
  {
    if actions != [] {
      AnswerStays(Do(s, actions[0]), actions[1..], i, r);
    }
  }

  /** A call whose closure ran gets what the closure answered. */
  lemma OwnAnswer(s: State, i: nat, r: Answer, rest: seq<Action>)
    requires Enabled(s, Finish(i, r)) && Runs(Do(s, Finish(i, r)), rest)
    ensures var t := After(Do(s, Finish(i, r)), rest);
      i < |t.tasks| && (t.tasks[i].phase.Returned? ==> t.tasks[i].phase.result == r)
  {
    AnswerStays(Do(s, Finish(i, r)), rest, i, r);
  }
}
