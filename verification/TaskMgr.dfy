/** TASKMGR (taskmgr.cxx:33-232): any number of posting threads against one thread that initialises and
    terminates, as atomic steps. The metered section is taken at its word: Partition returns only when
    everyone who was inside when it was called has left. The inner task manager takes tasks from its queue
    in order and TMTerm returns when the queue is empty and its threads have ended (os/task.cxx:138-212). */
module TaskMgr {

  /** Where a call of ErrPostTask is; each call owns one task context, named after it. */
  datatype Phase = Allocated | Entered | SawOn | Posted | Failed | LeftOk | LeftErr | Done

  /** Where the controlling thread is: ErrInit up to the exchange that turns the manager on, then ErrTerm. */
  datatype Control =
    | Down
    | Opening(wanted: nat)
    | InnerUp
    | Up
    | Off
    | Waiting(inside: set<nat>)
    | Ready
    | Terminating
    | Closing

  datatype State = State(
    fInit: bool,
    control: Control,
    posts: map<nat, Phase>,
    innerUp: bool,
    queue: seq<nat>,
    running: map<nat, nat>,
    byPoster: multiset<nat>,
    byDispatch: multiset<nat>,
    contexts: seq<nat>,
    open: set<nat>,
    closed: multiset<nat>)

  datatype Step =
    | Alloc(i: nat)
    | Enter(i: nat)
    | Check(i: nat)
    | Post(i: nat)
    | PostFails(i: nat)
    | Leave(i: nat)
    | Delete(i: nat)
    | Dispatch(session: nat)
    | TaskEnds(i: nat)
    | InitBegins(threads: nat)
    | OpenSession(session: nat)
    | OpenFails
    | InnerInit
    | InnerInitFails
    | TurnOn
    | TermBegins
    | PartitionBegins
    | PartitionReturns
    | TMTermBegins
    | TMTermReturns
    | CloseSession
    | TermReturns

  function Inside(posts: map<nat, Phase>): set<nat>
  {
    set i | i in posts && posts[i] in {Entered, SawOn, Posted, Failed}
  }

  ghost predicate At(s: State, i: nat, p: Phase) { i in s.posts && s.posts[i] == p }

  function Moved(s: State, i: nat, p: Phase): State { s.(posts := s.posts[i := p]) }

  ghost predicate Start(s: State)
  {
    s == State(false, Down, map[], false, [], map[], multiset{}, multiset{}, [], {}, multiset{})
  }

  ghost predicate NextStep(s: State, t: State, step: Step)
  {
    match step
    // ErrPostTask
    case Alloc(i) => i !in s.posts && t == Moved(s, i, Allocated)
    case Enter(i) => At(s, i, Allocated) && t == Moved(s, i, Entered)
    case Check(i) => At(s, i, Entered) && t == Moved(s, i, if s.fInit then SawOn else Failed)
    case Post(i) => At(s, i, SawOn) && t == Moved(s, i, Posted).(queue := s.queue + [i])
    case PostFails(i) => At(s, i, SawOn) && t == Moved(s, i, Failed)
    case Leave(i) =>
      (At(s, i, Posted) && t == Moved(s, i, LeftOk)) || (At(s, i, Failed) && t == Moved(s, i, LeftErr))
    case Delete(i) => At(s, i, LeftErr) && t == Moved(s, i, Done).(byPoster := s.byPoster + multiset{i})
    // a worker thread of the inner task manager in Dispatch
    case Dispatch(session) =>
      && s.innerUp && s.queue != [] && session in s.contexts
      && t == s.(queue := s.queue[1..], running := s.running[s.queue[0] := session],
                 byDispatch := s.byDispatch + multiset{s.queue[0]})
    case TaskEnds(i) => i in s.running && t == s.(running := s.running - {i})
    // ErrInit; a failure goes to ErrTerm, where fInit is not set
    case InitBegins(threads) => s.control == Down && 0 < threads <= 1000 && t == s.(control := Opening(threads))
    case OpenSession(session) =>
      && s.control.Opening? && |s.contexts| < s.control.wanted && session !in s.open && session !in s.closed
      && t == s.(contexts := s.contexts + [session], open := s.open + {session})
    case OpenFails => s.control.Opening? && |s.contexts| < s.control.wanted && t == s.(control := Ready)
    case InnerInit =>
      s.control.Opening? && |s.contexts| == s.control.wanted && t == s.(control := InnerUp, innerUp := true)
    case InnerInitFails => s.control.Opening? && |s.contexts| == s.control.wanted && t == s.(control := Ready)
    case TurnOn => s.control == InnerUp && t == s.(control := Up, fInit := true)
    // ErrTerm
    case TermBegins =>
      if s.control == Up then t == s.(control := Off, fInit := false) else s.control == Down && t == s.(control := Ready)
    case PartitionBegins => s.control == Off && t == s.(control := Waiting(Inside(s.posts)))
    case PartitionReturns =>
      s.control.Waiting? && s.control.inside !! Inside(s.posts) && t == s.(control := Ready)
    case TMTermBegins => s.control == Ready && t == s.(control := Terminating)
    case TMTermReturns =>
      s.control == Terminating && s.queue == [] && s.running == map[] && t == s.(control := Closing, innerUp := false)
    case CloseSession =>
      && s.control == Closing && s.contexts != []
      && t == s.(contexts := s.contexts[1..], open := s.open - {s.contexts[0]}, closed := s.closed + multiset{s.contexts[0]})
    case TermReturns => s.control == Closing && s.contexts == [] && t == s.(control := Down)
  }

  ghost predicate Next(s: State, t: State) { exists step :: NextStep(s, t, step) }

  // ------------------------------------------------------------------ the invariant

  /** The context of call i has one owner: the poster, the queue, or it has been freed once. */
  ghost predicate Owned(s: State, i: nat)
  {
    if i !in s.posts || s.posts[i] in {Allocated, Entered, SawOn, Failed, LeftErr} then
      multiset(s.queue)[i] == 0 && s.byPoster[i] == 0 && s.byDispatch[i] == 0
    else if s.posts[i] == Done then
      multiset(s.queue)[i] == 0 && s.byPoster[i] == 1 && s.byDispatch[i] == 0
    else
      multiset(s.queue)[i] + s.byDispatch[i] == 1 && s.byPoster[i] == 0
  }

  /** A post that has seen the manager on is waited for. */
  ghost predicate Awaited(s: State, i: nat)
  {
    At(s, i, SawOn) ==> s.control == Up || s.control == Off || (s.control.Waiting? && i in s.control.inside)
  }

  ghost predicate Sessions(s: State)
  {
    && (forall a, b :: 0 <= a < b < |s.contexts| ==> s.contexts[a] != s.contexts[b])
    && (forall x :: x in s.open <==> x in s.contexts)
    && (forall x :: s.closed[x] <= 1 && (x in s.closed ==> x !in s.open))
    && (forall i :: i in s.running ==> s.running[i] in s.open)
  }

  ghost predicate Controlled(s: State)
  {
    && (s.fInit <==> s.control == Up)
    && (s.innerUp ==> s.control in {InnerUp, Up, Off, Ready, Terminating} || s.control.Waiting?)
    && (s.queue != [] || s.running != map[] ==> s.innerUp)
    && (s.control in {InnerUp, Up, Off} || s.control.Waiting? ==> s.innerUp)
    && (s.control == Down ==> s.contexts == [])
    && (s.control.Opening? ==> 0 < s.control.wanted && |s.contexts| <= s.control.wanted)
    && (s.innerUp ==> s.contexts != [])
  }

  ghost predicate Inv(s: State)
  {
    Controlled(s) && Sessions(s) && (forall i :: Owned(s, i)) && forall i :: Awaited(s, i)
  }

  lemma StartInv(s: State)
    requires Start(s)
    ensures Inv(s)
  {
  }

  predicate Posting(step: Step)
  {
    step.Alloc? || step.Enter? || step.Check? || step.Post? || step.PostFails? || step.Leave? || step.Delete?
  }

  /** Posting changes neither the sessions nor where the controlling thread is. */
  lemma PostingFrame(s: State, t: State, step: Step)
    requires NextStep(s, t, step) && Posting(step)
    ensures t.fInit == s.fInit && t.control == s.control && t.innerUp == s.innerUp && t.running == s.running
    ensures t.contexts == s.contexts && t.open == s.open && t.closed == s.closed && t.byDispatch == s.byDispatch
    ensures t.queue == if step.Post? then s.queue + [step.i] else s.queue
    ensures step.Post? ==> At(s, step.i, SawOn)
  {
  }

  /** All other steps leave the posts alone, and all but Dispatch the contexts. */
  lemma OtherFrame(s: State, t: State, step: Step)
    requires NextStep(s, t, step) && !Posting(step)
    ensures t.posts == s.posts && t.byPoster == s.byPoster
    ensures !step.Dispatch? ==> t.queue == s.queue && t.byDispatch == s.byDispatch
    ensures !step.OpenSession? && !step.CloseSession? ==> t.contexts == s.contexts && t.open == s.open && t.closed == s.closed
    ensures !step.Dispatch? && !step.TaskEnds? ==> t.running == s.running
  {
  }

  /** Posting touches only the context of its own call. */
  lemma PostingOthers(s: State, t: State, step: Step, i: nat)
    requires NextStep(s, t, step) && Posting(step) && i != step.i
    ensures (i in t.posts <==> i in s.posts) && (i in s.posts ==> t.posts[i] == s.posts[i])
    ensures multiset(t.queue)[i] == multiset(s.queue)[i] && t.byPoster[i] == s.byPoster[i] && t.byDispatch[i] == s.byDispatch[i]
  {
    PostingFrame(s, t, step);
    assert step.Post? ==> multiset(t.queue) == multiset(s.queue) + multiset{step.i};
  }

  lemma PostingOwn(s: State, t: State, step: Step)
    requires NextStep(s, t, step) && Posting(step) && Owned(s, step.i)
    ensures Owned(t, step.i)
  {
    assert step.Post? ==> multiset(t.queue) == multiset(s.queue) + multiset{step.i};
  }

  lemma DispatchOwned(s: State, t: State, step: Step, i: nat)
    requires NextStep(s, t, step) && step.Dispatch? && Owned(s, i)
    ensures Owned(t, i)
  {
    assert s.queue == [s.queue[0]] + s.queue[1..];
    assert multiset(s.queue) == multiset{s.queue[0]} + multiset(s.queue[1..]);
  }

  lemma OwnedKept(s: State, t: State, step: Step, i: nat)
    requires Inv(s) && NextStep(s, t, step)
    ensures Owned(t, i)
  {
    hide NextStep, Inv;
    InvOwns(s, i);
    if Posting(step) {
      InvOwns(s, step.i);
      if i == step.i { PostingOwn(s, t, step); } else { PostingOthers(s, t, step, i); }
    } else if step.Dispatch? {
      DispatchOwned(s, t, step, i);
    } else {
      OtherFrame(s, t, step);
    }
  }

  lemma InvOwns(s: State, i: nat)
    requires Inv(s)
    ensures Owned(s, i)
  {
  }

  lemma AwaitedKept(s: State, t: State, step: Step, i: nat)
    requires Inv(s) && NextStep(s, t, step)
    ensures Awaited(t, i)
  {
    assert Awaited(s, i) && Controlled(s);
    hide Owned, Sessions, Inv, Controlled;
    if Posting(step) {
      PostingFrame(s, t, step);
      SeenOn(s, t, step, i);
    } else {
      OtherFrame(s, t, step);
      assert At(s, i, SawOn) ==> i in Inside(s.posts);
    }
  }

  lemma SeenOn(s: State, t: State, step: Step, i: nat)
    requires NextStep(s, t, step) && Posting(step) && Controlled(s)
    ensures At(t, i, SawOn) ==> At(s, i, SawOn) || s.control == Up
  {
  }

  lemma SawOnInnerUp(s: State, i: nat)
    requires Inv(s) && At(s, i, SawOn)
    ensures s.innerUp
  {
    assert Awaited(s, i);
  }

  lemma PostingControlled(s: State, t: State, step: Step)
    requires Inv(s) && NextStep(s, t, step) && Posting(step)
    ensures Controlled(t)
  {
    PostingFrame(s, t, step);
    if step.Post? { SawOnInnerUp(s, step.i); }
    assert Controlled(s);
    assert t.queue != [] ==> t.innerUp;
  }

  lemma OtherControlled(s: State, t: State, step: Step)
    requires Controlled(s) && NextStep(s, t, step) && !Posting(step)
    ensures Controlled(t)
  {
    hide Inside;
    if step.TaskEnds? { assert step.i in s.running; }
  }

  lemma ControlledKept(s: State, t: State, step: Step)
    requires Inv(s) && NextStep(s, t, step)
    ensures Controlled(t)
  {
    hide NextStep, Controlled, Sessions, Owned, Awaited;
    if Posting(step) { PostingControlled(s, t, step); } else { OtherControlled(s, t, step); }
  }

  lemma OpeningKept(s: State, session: nat)
    requires Sessions(s) && session !in s.open && session !in s.closed
    ensures Sessions(s.(contexts := s.contexts + [session], open := s.open + {session}))
  {
  }

  lemma ClosingKept(s: State)
    requires Sessions(s) && s.contexts != [] && s.running == map[]
    ensures Sessions(s.(contexts := s.contexts[1..], open := s.open - {s.contexts[0]}, closed := s.closed + multiset{s.contexts[0]}))
  {
    assert s.contexts[0] in s.open;
    assert forall x :: x in s.contexts <==> x == s.contexts[0] || x in s.contexts[1..];
  }

  lemma SessionStep(s: State, t: State, step: Step)
    requires NextStep(s, t, step) && Controlled(s)
    ensures step.OpenSession? ==>
              step.session !in s.open && step.session !in s.closed
              && t == s.(contexts := s.contexts + [step.session], open := s.open + {step.session})
    ensures step.CloseSession? ==>
              s.contexts != [] && s.running == map[]
              && t == s.(contexts := s.contexts[1..], open := s.open - {s.contexts[0]}, closed := s.closed + multiset{s.contexts[0]})
    ensures step.Dispatch? ==> s.queue != [] && step.session in s.contexts && t.running == s.running[s.queue[0] := step.session]
    ensures step.TaskEnds? ==> t.running == s.running - {step.i}
  {
  }

  lemma RunningKept(s: State, t: State, i: nat, session: nat)
    requires Sessions(s) && session in s.contexts
    requires t.contexts == s.contexts && t.open == s.open && t.closed == s.closed && t.running == s.running[i := session]
    ensures Sessions(t)
  {
  }

  lemma SessionsSame(s: State, t: State)
    requires Sessions(s) && t.contexts == s.contexts && t.open == s.open && t.closed == s.closed
    requires forall i :: i in t.running ==> i in s.running && t.running[i] == s.running[i]
    ensures Sessions(t)
  {
  }

  lemma SessionsKept(s: State, t: State, step: Step)
    requires Inv(s) && NextStep(s, t, step)
    ensures Sessions(t)
  {
    hide NextStep, Sessions, Controlled, Owned, Awaited;
    SessionStep(s, t, step);
    if Posting(step) { PostingFrame(s, t, step); } else { OtherFrame(s, t, step); }
    if step.OpenSession? {
      OpeningKept(s, step.session);
    } else if step.CloseSession? {
      ClosingKept(s);
    } else if step.Dispatch? {
      RunningKept(s, t, s.queue[0], step.session);
    } else {
      SessionsSame(s, t);
    }
  }

  /** Every step keeps the invariant. */
  lemma NextKeeps(s: State, t: State)
    requires Inv(s) && Next(s, t)
    ensures Inv(t)
  {
    hide NextStep, Owned, Awaited, Sessions, Controlled;
    var step :| NextStep(s, t, step);
    ControlledKept(s, t, step);
    forall i ensures Owned(t, i) { OwnedKept(s, t, step, i); }
    forall i ensures Awaited(t, i) { AwaitedKept(s, t, step, i); }
    SessionsKept(s, t, step);
  }

  // ------------------------------------------------------------------ whole runs

  ghost predicate Run(run: seq<State>)
  {
    run != [] && Start(run[0]) && forall n :: 0 <= n < |run| - 1 ==> Next(run[n], run[n + 1])
  }

  lemma {:induction false} RunKeeps(run: seq<State>, n: nat)
    requires Run(run) && n < |run|
    ensures Inv(run[n])
  {
    if n == 0 {
      StartInv(run[0]);
    } else {
      RunKeeps(run, n - 1);
      NextKeeps(run[n - 1], run[n]);
    }
  }

  /** TMTerm has begun and the manager has not been initialised again. */
  ghost predicate TermBegun(s: State) { s.control in {Terminating, Closing, Down} }

  /** In every interleaving, no task reaches the inner task manager once TMTerm has begun. */
  lemma NoLatePost(run: seq<State>, n: nat, i: nat)
    requires Run(run) && n + 1 < |run| && NextStep(run[n], run[n + 1], Post(i))
    ensures !TermBegun(run[n]) && run[n].innerUp
  {
    RunKeeps(run, n);
    assert Awaited(run[n], i);
  }

  /** No task context is ever freed twice, nor both by its poster and by Dispatch. */
  lemma FreedAtMostOnce(run: seq<State>, n: nat, i: nat)
    requires Run(run) && n < |run|
    ensures run[n].byPoster[i] + run[n].byDispatch[i] <= 1
    ensures i in run[n].queue ==> run[n].byPoster[i] + run[n].byDispatch[i] == 0
  {
    RunKeeps(run, n);
    assert Owned(run[n], i);
  }

  /** All posts have returned and the manager is down. */
  ghost predicate Quiet(s: State)
  {
    s.control == Down && forall i :: i in s.posts ==> s.posts[i] in {LeftOk, Done}
  }

  /** At rest every context has been freed exactly once: by Dispatch if the post succeeded, by the poster
      if it failed; and every session ever opened has been closed once. */
  lemma FreedExactlyOnce(run: seq<State>, n: nat, i: nat)
    requires Run(run) && n < |run| && Quiet(run[n]) && i in run[n].posts
    ensures run[n].byDispatch[i] == (if run[n].posts[i] == LeftOk then 1 else 0)
    ensures run[n].byPoster[i] == (if run[n].posts[i] == Done then 1 else 0)
    ensures run[n].open == {} && run[n].contexts == []
  {
    RunKeeps(run, n);
    assert Owned(run[n], i);
    assert run[n].queue == [];
    assert run[n].open == {};
  }

  /** A task runs only with a session that is still open. */
  lemma SessionsOutliveTasks(run: seq<State>, n: nat, i: nat)
    requires Run(run) && n < |run| && i in run[n].running
    ensures run[n].running[i] in run[n].open && run[n].closed[run[n].running[i]] == 0
  {
    RunKeeps(run, n);
  }
}
