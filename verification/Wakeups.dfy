/**
 How a commit on the server reaches a sync cycle on a client: notify, the subscriber's
 channel, the handler that drains it, the event stream, the client's channel of
 revisions and the one-slot wake-up, with drops, draining and coalescing on the way.
 */
module Wakeups {
  import opened Basics

  // Both ends buffer eight events.
  const SLOTS := 8

  // Subscribed is the moment between joining the broadcaster and sending the
  // current revision.
  datatype Link = Down | Subscribed | Up

  datatype State = State(
    commits: nat,           // revisions committed so far
    started: nat,           // how many were committed when the last cycle started
    pending: set<nat>,      // committed, their notification not yet published
    link: Link,
    channel: seq<nat>,      // the subscriber's channel
    held: Option<nat>,      // what the handler took and has not written
    stream: seq<nat>,       // written and not yet read
    revs: seq<nat>,         // the client's channel
    asking: bool,           // received from revs, request() not yet called
    wake: bool,             // the one slot
    busy: bool)             // a cycle is running

  // A client starts by asking for a cycle, whatever was committed before.
  function Initial(commits: nat): State {
    State(commits, 0, {}, Down, [], None, [], [], false, true, false)
  }

  datatype Step =
    // by the world
    | Commit
    | Nudge                        // the poll timer, the folder watcher or a signal
    | Disconnect(unread: bool)     // the stream breaks, perhaps losing what was not read
    // by the program
    | Publish(rev: nat)
    | Reconnect
    | Greet
    | Take
    | Drain
    | Send
    | Receive
    | Relay
    | Ask
    | Start
    | Finish

  predicate ByWorld(step: Step) {
    step.Commit? || step.Nudge? || step.Disconnect?
  }

  predicate Enabled(s: State, step: Step) {
    match step
    case Commit => true
    case Nudge => true
    case Disconnect(_) => s.link != Down
    case Publish(rev) => rev in s.pending
    case Reconnect => s.link == Down && s.stream == []
    case Greet => s.link == Subscribed
    case Take => s.link == Up && s.held == None && s.channel != []
    case Drain => s.held != None && s.channel != []
    case Send => s.held != None && s.channel == []
    case Receive => s.stream != [] && |s.revs| < SLOTS
    case Relay => !s.asking && s.revs != []
    case Ask => s.asking
    case Start => s.wake && !s.busy
    case Finish => s.busy
  }

  function Do(s: State, step: Step): State
    requires Enabled(s, step)
  {
    match step
    case Commit => s.(commits := s.commits + 1, pending := s.pending + {s.commits + 1})
    case Nudge => s.(wake := true)
    case Disconnect(unread) => s.(link := Down, channel := [], held := None, stream := if unread then [] else s.stream)
    case Publish(rev) =>
      // A subscriber that is eight events behind does not get this one.
      s.(pending := s.pending - {rev},
         channel := if s.link != Down && |s.channel| < SLOTS then s.channel + [rev] else s.channel)
    case Reconnect => s.(link := Subscribed)
    case Greet => s.(link := Up, stream := s.stream + [s.commits])
    case Take => s.(held := Some(s.channel[0]), channel := s.channel[1..])
    case Drain => s.(held := Some(s.channel[0]), channel := s.channel[1..])
    case Send => s.(held := None, stream := s.stream + [s.held.value])
    case Receive => s.(revs := s.revs + [s.stream[0]], stream := s.stream[1..])
    case Relay => s.(asking := true, revs := s.revs[1..])
    case Ask => s.(asking := false, wake := true)
    case Start => s.(wake := false, busy := true, started := s.commits)
    case Finish => s.(busy := false)
  }

  // A run takes the enabled steps of a list and skips the others.
  function Run(s: State, steps: seq<Step>): State
    decreases |steps|
  {
    if steps == [] then s
    else Run(if Enabled(s, steps[0]) then Do(s, steps[0]) else s, steps[1..])
  }

  // ── No wake-up is lost ─────────────────────────────────────────────────────

  // Something between the commit and the cycle still carries a signal; a link that
  // is not up will carry the greeting.
  predicate InTransit(s: State) {
    || s.pending != {} || s.link != Up || s.channel != [] || s.held != None || s.stream != []
    || s.revs != [] || s.asking || s.wake
  }

  // Nothing announced is a revision that was rolled back.
  predicate Committed(s: State, revs: seq<nat>) {
    forall i :: 0 <= i < |revs| ==> revs[i] <= s.commits
  }

  predicate Sound(s: State) {
    && s.started <= s.commits
    && (s.started < s.commits ==> InTransit(s))
    && |s.channel| <= SLOTS && |s.revs| <= SLOTS
    && (s.link == Down ==> s.channel == [])
    && (s.link != Up ==> s.held == None)
    && (forall r :: r in s.pending ==> 1 <= r <= s.commits)
    && Committed(s, s.channel) && Committed(s, s.stream) && Committed(s, s.revs)
    && (s.held != None ==> s.held.value <= s.commits)
  }

  lemma CommittedGrows(s: State, s': State, revs: seq<nat>, rev: nat)
    requires Committed(s, revs) && s.commits <= s'.commits && rev <= s'.commits
    ensures Committed(s', revs) && Committed(s', revs + [rev])
    ensures revs != [] ==> Committed(s', revs[1..])
  {}

  // What the world does.
  lemma WorldIsSound(s: State, step: Step)
    requires Sound(s) && Enabled(s, step) && ByWorld(step)
    ensures Sound(Do(s, step))
  {
    var s' := Do(s, step);
    CommittedGrows(s, s', s.channel, 0);
    CommittedGrows(s, s', s.stream, 0);
    CommittedGrows(s, s', s.revs, 0);
  }

  // Up to the subscriber's channel.
  lemma PublishingIsSound(s: State, step: Step)
    requires Sound(s) && Enabled(s, step) && (step.Publish? || step.Reconnect? || step.Greet?)
    ensures Sound(Do(s, step))
  {
    CommittedGrows(s, s, s.channel, if step.Publish? then step.rev else 0);
    CommittedGrows(s, s, s.stream, s.commits);
  }

  // From the channel onto the wire.
  lemma SendingIsSound(s: State, step: Step)
    requires Sound(s) && Enabled(s, step) && (step.Take? || step.Drain? || step.Send?)
    ensures Sound(Do(s, step))
  {
    CommittedGrows(s, s, s.channel, 0);
    CommittedGrows(s, s, s.stream, if step.Send? then s.held.value else 0);
  }

  // What the client does.
  lemma ClientIsSound(s: State, step: Step)
    requires Sound(s) && Enabled(s, step)
    requires step.Receive? || step.Relay? || step.Ask? || step.Start? || step.Finish?
    ensures Sound(Do(s, step))
  {
    CommittedGrows(s, s, s.stream, 0);
    CommittedGrows(s, s, s.revs, if step.Receive? then s.stream[0] else 0);
  }

  lemma StepIsSound(s: State, step: Step)
    requires Sound(s) && Enabled(s, step)
    ensures Sound(Do(s, step))
  {
    match step
    case Commit => WorldIsSound(s, step);
    case Nudge => WorldIsSound(s, step);
    case Disconnect(_) => WorldIsSound(s, step);
    case Publish(_) => PublishingIsSound(s, step);
    case Reconnect => PublishingIsSound(s, step);
    case Greet => PublishingIsSound(s, step);
    case Take => SendingIsSound(s, step);
    case Drain => SendingIsSound(s, step);
    case Send => SendingIsSound(s, step);
    case _ => ClientIsSound(s, step);
  }

  // In every run from the start: whatever has been committed, a cycle has started
  // since, or a signal that will start one is still in transit.
  lemma {:induction false} EveryRunIsSound(s: State, steps: seq<Step>)
    requires Sound(s)
    ensures Sound(Run(s, steps))
    decreases |steps|
  {
    if steps != [] {
      if Enabled(s, steps[0]) {
        StepIsSound(s, steps[0]);
        EveryRunIsSound(Do(s, steps[0]), steps[1..]);
      } else {
        EveryRunIsSound(s, steps[1..]);
      }
    }
  }

  lemma NoWakeUpIsLost(commits: nat, steps: seq<Step>)
    ensures var s := Run(Initial(commits), steps); s.started < s.commits ==> InTransit(s)
  {
    EveryRunIsSound(Initial(commits), steps);
  }

  // ── And every one arrives ──────────────────────────────────────────────────

  function LinkRank(link: Link): nat {
    match link case Down => 7 case Subscribed => 6 case Up => 0
  }

  // How far the signals in transit are from the end of the cycles they cause.
  function Rank(s: State): nat {
    8 * |s.pending| + 7 * |s.channel| + 6 * One(s.held != None) + 5 * |s.stream| + 4 * |s.revs|
    + 3 * One(s.asking) + 2 * One(s.wake) + One(s.busy) + LinkRank(s.link)
  }

  lemma WorldAdds(s: State, step: Step)
    requires Sound(s) && Enabled(s, step) && ByWorld(step)
    ensures Rank(Do(s, step)) <= Rank(s) + 8
  {
    if step.Commit? {
      assert |s.pending + {s.commits + 1}| <= |s.pending| + 1;
    }
  }

  lemma PublishingAdvances(s: State, step: Step)
    requires Sound(s) && Enabled(s, step) && (step.Publish? || step.Reconnect? || step.Greet?)
    ensures Rank(Do(s, step)) < Rank(s)
  {
    if step.Publish? {
      assert |s.pending - {step.rev}| == |s.pending| - 1;
    }
  }

  lemma SendingAdvances(s: State, step: Step)
    requires Sound(s) && Enabled(s, step) && (step.Take? || step.Drain? || step.Send?)
    ensures Rank(Do(s, step)) < Rank(s)
  {}

  lemma ClientAdvances(s: State, step: Step)
    requires Sound(s) && Enabled(s, step)
    requires step.Receive? || step.Relay? || step.Ask? || step.Start? || step.Finish?
    ensures Rank(Do(s, step)) < Rank(s)
  {}

  lemma ProgramStepAdvances(s: State, step: Step)
    requires Sound(s) && Enabled(s, step)
    ensures !ByWorld(step) ==> Rank(Do(s, step)) < Rank(s)
    ensures ByWorld(step) ==> Rank(Do(s, step)) <= Rank(s) + 8
  {
    match step
    case Commit => WorldAdds(s, step);
    case Nudge => WorldAdds(s, step);
    case Disconnect(_) => WorldAdds(s, step);
    case Publish(_) => PublishingAdvances(s, step);
    case Reconnect => PublishingAdvances(s, step);
    case Greet => PublishingAdvances(s, step);
    case Take => SendingAdvances(s, step);
    case Drain => SendingAdvances(s, step);
    case Send => SendingAdvances(s, step);
    case _ => ClientAdvances(s, step);
  }

  // The program is never stuck with a signal in hand.
  lemma SomeStepIsEnabled(s: State) returns (step: Step)
    requires Sound(s) && (InTransit(s) || s.busy)
    ensures !ByWorld(step) && Enabled(s, step)
  {
    if s.busy { return Finish; }
    if s.wake { return Start; }
    if s.asking { return Ask; }
    if s.revs != [] { return Relay; }
    if s.stream != [] { return Receive; }
    if s.link == Down { return Reconnect; }
    if s.link == Subscribed { return Greet; }
    if s.held != None { return if s.channel == [] then Send else Drain; }
    if s.channel != [] { return Take; }
    var rev :| rev in s.pending;
    return Publish(rev);
  }

  // How many of the steps were the world's, and how many the program's.
  function Taken(s: State, steps: seq<Step>, world: bool): nat
    decreases |steps|
  {
    if steps == [] then 0
    else if !Enabled(s, steps[0]) then Taken(s, steps[1..], world)
    else One(ByWorld(steps[0]) == world) + Taken(Do(s, steps[0]), steps[1..], world)
  }

  // Whatever the order of the steps, the program can take only so many for each one
  // the world takes.
  lemma {:induction false} ProgramStepsAreBounded(s: State, steps: seq<Step>)
    requires Sound(s)
    ensures Taken(s, steps, false) + Rank(Run(s, steps)) <= Rank(s) + 8 * Taken(s, steps, true)
    decreases |steps|
  {
    if steps != [] {
      if Enabled(s, steps[0]) {
        StepIsSound(s, steps[0]);
        ProgramStepAdvances(s, steps[0]);
        ProgramStepsAreBounded(Do(s, steps[0]), steps[1..]);
      } else {
        ProgramStepsAreBounded(s, steps[1..]);
      }
    }
  }

  ghost predicate AtRest(s: State) {
    forall step :: !ByWorld(step) ==> !Enabled(s, step)
  }

  // A run that has nothing left to do ends with a cycle started after the last commit,
  // and finished; and no run puts that off by more than a fixed number of steps for
  // each thing the world did meanwhile.
  lemma EveryCommitIsSynced(commits: nat, steps: seq<Step>)
    ensures var s := Run(Initial(commits), steps);
      && (AtRest(s) ==> s.started == s.commits && !s.busy)
      && (AtRest(s) <==> Rank(s) == 0)
      && Taken(Initial(commits), steps, false) <= 9 + 8 * Taken(Initial(commits), steps, true)
  {
    var s := Run(Initial(commits), steps);
    EveryRunIsSound(Initial(commits), steps);
    ProgramStepsAreBounded(Initial(commits), steps);
    if InTransit(s) || s.busy {
      var step := SomeStepIsEnabled(s);
      ProgramStepAdvances(s, step);
      assert !AtRest(s);
    }
  }

  // ── What the steps are ─────────────────────────────────────────────────────

  // The world is not held up: anybody may commit, and ask for a cycle, at any moment, and
  // a stream may break whenever there is one. A commit is one more, and is announced.
  lemma TheWorldIsFree(s: State, unread: bool)
    ensures Enabled(s, Commit) && Enabled(s, Nudge) && (Enabled(s, Disconnect(unread)) <==> s.link != Down)
    ensures Do(s, Commit).commits == s.commits + 1 && Do(s, Commit).pending == s.pending + {s.commits + 1}
    ensures Do(s, Nudge).wake
    ensures s.link != Down ==> Do(s, Disconnect(unread)).stream == if unread then [] else s.stream
  {}

  // A cycle takes the wake-up, sees what was committed by then, and runs alone until it
  // is finished; one asked for meanwhile is not forgotten.
  lemma OneCycleAtATime(s: State, others: seq<Step>)
    requires Enabled(s, Start) && forall i :: 0 <= i < |others| ==> !others[i].Finish?
    ensures var during := Run(Do(s, Start), others);
      && during.busy && during.started == s.commits && !Enabled(during, Start) && Enabled(during, Finish)
      && !Do(during, Finish).busy && Do(during, Finish).wake == during.wake
    ensures Run(Do(s, Start), others + [Nudge]).wake
  {
    BusyUntilFinished(Do(s, Start), others);
    RunThen(Do(s, Start), others, Nudge);
  }

  lemma {:induction false} BusyUntilFinished(s: State, others: seq<Step>)
    requires s.busy && forall i :: 0 <= i < |others| ==> !others[i].Finish?
    ensures Run(s, others).busy && Run(s, others).started == s.started
    decreases |others|
  {
    if others != [] {
      assert !others[0].Finish?;
      assert forall i :: 0 <= i < |others| - 1 ==> others[1..][i] == others[i + 1];
      BusyUntilFinished(if Enabled(s, others[0]) then Do(s, others[0]) else s, others[1..]);
    }
  }

  lemma {:induction false} RunThen(s: State, steps: seq<Step>, last: Step)
    requires Enabled(Run(s, steps), last)
    ensures Run(s, steps + [last]) == Do(Run(s, steps), last)
    decreases |steps|
  {
    if steps == [] {
      assert [] + [last] == [last] && [last][1..] == [];
    } else {
      assert (steps + [last])[1..] == steps[1..] + [last];
      RunThen(if Enabled(s, steps[0]) then Do(s, steps[0]) else s, steps[1..], last);
    }
  }
}
