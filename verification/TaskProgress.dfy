/** What the interleavings of TaskMgr always allow (taskmgr.cxx:33-199): posting fails only with the manager off or the
    inner task manager out of memory, and from every state of every run calls, tasks, initialisation and termination can
    come to their ends. */
module TaskProgress {
  import opened TaskMgr

  // ------------------------------------------------------------------ when a post fails

  /** Call i failed in step n: it found the manager off, or the inner task manager refused the task. */
  ghost predicate FailsAt(run: seq<State>, i: nat, n: nat)
    requires n + 1 < |run|
  {
    || (NextStep(run[n], run[n + 1], Check(i)) && run[n].control != Up)
    || NextStep(run[n], run[n + 1], PostFails(i))
  }

  ghost predicate HasFailed(s: State, i: nat) { i in s.posts && s.posts[i] in {Failed, LeftErr, Done} }

  lemma FailureStep(s: State, t: State, i: nat)
    requires Inv(s) && Next(s, t)
    ensures HasFailed(s, i) ==> HasFailed(t, i)
    ensures !HasFailed(s, i) && HasFailed(t, i) ==>
              (NextStep(s, t, Check(i)) && s.control != Up) || NextStep(s, t, PostFails(i))
    ensures (NextStep(s, t, Check(i)) && s.control != Up) || NextStep(s, t, PostFails(i)) ==> HasFailed(t, i)
  {
    hide NextStep, Inv;
    var step :| NextStep(s, t, step);
    if Posting(step) {
      if step.i != i { PostingOthers(s, t, step, i); } else { OwnFailure(s, t, step); }
    } else {
      OtherFrame(s, t, step);
    }
    FailureShows(s, t, i);
  }

  lemma OwnFailure(s: State, t: State, step: Step)
    requires Inv(s) && NextStep(s, t, step) && Posting(step)
    ensures HasFailed(s, step.i) ==> HasFailed(t, step.i)
    ensures !HasFailed(s, step.i) && HasFailed(t, step.i) ==> step.PostFails? || (step.Check? && s.control != Up)
  {
    assert Controlled(s);
    hide Inv, Controlled;
  }

  lemma FailureShows(s: State, t: State, i: nat)
    requires Inv(s)
    ensures (NextStep(s, t, Check(i)) && s.control != Up) || NextStep(s, t, PostFails(i)) ==> HasFailed(t, i)
  {
    assert Controlled(s);
    hide Inv, Controlled;
  }

  /** In every run, a call fails if and only if it checked while the manager was off or the inner post failed. */
  lemma {:induction false} FailsOnlyWhenOff(run: seq<State>, n: nat, i: nat)
    requires Run(run) && n < |run|
    ensures HasFailed(run[n], i) <==> exists m :: 0 <= m < n && FailsAt(run, i, m)
  {
    hide NextStep, Inv, HasFailed;
    if n == 0 {
      NoCalls(run[0], i);
    } else {
      FailsOnlyWhenOff(run, n - 1, i);
      RunKeeps(run, n - 1);
      assert Next(run[n - 1], run[n - 1 + 1]);
      FailureStep(run[n - 1], run[n], i);
      assert FailsAt(run, i, n - 1) ==> HasFailed(run[n], i);
      if HasFailed(run[n], i) && !HasFailed(run[n - 1], i) { assert FailsAt(run, i, n - 1); }
    }
  }

  lemma NoCalls(s: State, i: nat)
    requires Start(s)
    ensures !HasFailed(s, i)
  {
  }

  // ------------------------------------------------------------------ what can still happen

  /** t can be reached from s. */
  ghost predicate Path(path: seq<State>, s: State, t: State)
  {
    && path != [] && path[0] == s && path[|path| - 1] == t
    && forall n :: 0 <= n < |path| - 1 ==> Next(path[n], path[n + 1])
  }

  ghost predicate Reaches(s: State, t: State) { exists path :: Path(path, s, t) }

  lemma ReachesSelf(s: State)
    ensures Reaches(s, s)
  {
    assert Path([s], s, s);
  }

  lemma Then(s: State, t: State, u: State, step: Step)
    requires Reaches(s, t) && Inv(t) && NextStep(t, u, step)
    ensures Reaches(s, u) && Inv(u)
  {
    hide NextStep, Inv;
    assert Next(t, u);
    NextKeeps(t, u);
    var path :| Path(path, s, t);
    var longer := path + [u];
    forall n | 0 <= n < |longer| - 1 ensures Next(longer[n], longer[n + 1]) {
      if n < |path| - 1 { assert Next(path[n], path[n + 1]); }
    }
    assert Path(longer, s, u);
  }

  lemma ReachesAll(s: State, t: State, u: State)
    requires Reaches(s, t) && Reaches(t, u)
    ensures Reaches(s, u)
  {
    hide Next;
    var p, q :| Path(p, s, t) && Path(q, t, u);
    var path := p + q[1..];
    forall n | 0 <= n < |path| - 1 ensures Next(path[n], path[n + 1]) {
      if n < |p| - 1 {
        assert Next(p[n], p[n + 1]);
      } else {
        assert Next(q[n - (|p| - 1)], q[n - (|p| - 1) + 1]);
        assert path[n] == q[n - (|p| - 1)];
      }
    }
    assert Path(path, s, u);
  }

  /** A path continues a run. */
  lemma Continued(run: seq<State>, n: nat, t: State) returns (more: seq<State>)
    requires Run(run) && n < |run| && Reaches(run[n], t)
    ensures Run(run[..n] + more) && more != [] && more[0] == run[n] && more[|more| - 1] == t
  {
    hide Next, Start;
    more :| Path(more, run[n], t);
    var whole := run[..n] + more;
    forall m | 0 <= m < |whole| - 1 ensures Next(whole[m], whole[m + 1]) {
      if m < n {
        assert Next(run[m], run[m + 1]);
      } else {
        assert Next(more[m - n], more[m - n + 1]);
      }
    }
    assert whole[0] == run[0];
  }

  /** The first m tasks of the queue have been taken by worker threads. */
  ghost predicate Taken(s: State, t: State, m: nat)
  {
    && m <= |s.queue| && t.queue == s.queue[m..] && t.posts == s.posts && t.control == s.control && t.fInit == s.fInit
    && t.innerUp == s.innerUp && t.contexts == s.contexts
    && forall k :: 0 <= k < m ==> s.queue[k] in t.byDispatch
  }

  lemma {:induction false} QueueDrains(s: State, m: nat) returns (t: State)
    requires Inv(s) && s.innerUp && m <= |s.queue|
    ensures Reaches(s, t) && Inv(t) && Taken(s, t, m)
    decreases m
  {
    if m == 0 {
      t := s;
      ReachesSelf(s);
    } else {
      var u := QueueDrains(s, m - 1);
      assert Controlled(u);
      hide Inv, Reaches;
      var session := u.contexts[0];
      var i := u.queue[0];
      t := u.(queue := u.queue[1..], running := u.running[i := session], byDispatch := u.byDispatch + multiset{i});
      assert NextStep(u, t, Dispatch(session));
      Then(s, u, t, Dispatch(session));
      assert s.queue[m - 1..][1..] == s.queue[m..];
    }
  }

  lemma CallPosts(s: State, i: nat) returns (t: State)
    requires Inv(s) && s.control == Up && At(s, i, Entered)
    ensures Reaches(s, t) && Inv(t) && At(t, i, Posted) && t.queue == s.queue + [i] && t.innerUp
  {
    ReachesSelf(s);
    assert Controlled(s);
    hide Inv, Reaches;
    var u := Moved(s, i, SawOn);
    Then(s, s, u, Check(i));
    t := Moved(u, i, Posted).(queue := u.queue + [i]);
    Then(s, u, t, Post(i));
  }

  /** In every reachable state in which a call has entered and the manager is up, the run can go on so that the call's
      task is posted, behind those in the queue, and then dispatched. */
  lemma PostCanSucceed(run: seq<State>, n: nat, i: nat) returns (more: seq<State>, m: nat)
    requires Run(run) && n < |run| && At(run[n], i, Entered) && run[n].control == Up
    ensures Run(run[..n] + more) && more != [] && more[0] == run[n] && m < |more|
    ensures At(more[m], i, Posted) && more[m].queue == run[n].queue + [i]
    ensures i in more[|more| - 1].byDispatch && more[|more| - 1].queue == []
  {
    RunKeeps(run, n);
    var t := CallPosts(run[n], i);
    var u := QueueDrains(t, |t.queue|);
    hide Run, Inv, Reaches;
    var first := Continued(run, n, t);
    var so := run[..n] + first;
    m := |first| - 1;
    assert so[|so| - 1] == t;
    var second := Continued(so, |so| - 1, u);
    more := first[..m] + second;
    assert so[..|so| - 1] + second == run[..n] + more;
    assert t.queue[|t.queue| - 1] in u.byDispatch;
  }

  // ------------------------------------------------------------------ everything can come to an end

  /** How many steps call i still has to make. */
  function Left(p: Phase): nat
  {
    match p
    case Allocated => 5
    case Entered => 4
    case SawOn => 3
    case Failed => 2
    case LeftErr => 1
    case Posted => 1
    case LeftOk => 0
    case Done => 0
  }

  ghost predicate Returned(s: State, i: nat) { i in s.posts ==> Left(s.posts[i]) == 0 }

  /** The posting threads have gone on; the other threads stand where they stood. */
  ghost predicate SameOthers(s: State, t: State)
  {
    && t.posts.Keys == s.posts.Keys && t.fInit == s.fInit && t.control == s.control && t.innerUp == s.innerUp
    && t.running == s.running && t.contexts == s.contexts && t.open == s.open && t.closed == s.closed
  }

  /** The next step of a posting thread; the inner task manager may refuse the task. */
  lemma PosterMoves(s: State, i: nat) returns (t: State, step: Step)
    requires i in s.posts && Left(s.posts[i]) > 0
    ensures NextStep(s, t, step) && SameOthers(s, t) && i in t.posts && Left(t.posts[i]) < Left(s.posts[i])
    ensures forall j :: j in s.posts && j != i ==> j in t.posts && t.posts[j] == s.posts[j]
  {
    match s.posts[i] {
      case Allocated => step, t := Enter(i), Moved(s, i, Entered);
      case Entered => step, t := Check(i), Moved(s, i, if s.fInit then SawOn else Failed);
      case SawOn => step, t := PostFails(i), Moved(s, i, Failed);
      case Failed => step, t := Leave(i), Moved(s, i, LeftErr);
      case Posted => step, t := Leave(i), Moved(s, i, LeftOk);
      case LeftErr => step, t := Delete(i), Moved(s, i, Done).(byPoster := s.byPoster + multiset{i});
    }
  }

  lemma {:induction false} CallReturns(s: State, i: nat) returns (t: State)
    requires Inv(s) && i in s.posts
    ensures Reaches(s, t) && Inv(t) && SameOthers(s, t) && Returned(t, i)
    ensures forall j :: j in s.posts && j != i ==> j in t.posts && t.posts[j] == s.posts[j]
    decreases Left(s.posts[i])
  {
    hide NextStep, Inv, Reaches;
    if Left(s.posts[i]) == 0 {
      t := s;
      ReachesSelf(s);
    } else {
      var u, step := PosterMoves(s, i);
      ReachesSelf(s);
      Then(s, s, u, step);
      t := CallReturns(u, i);
      ReachesAll(s, u, t);
    }
  }

  lemma {:induction false} CallsReturn(s: State, calls: set<nat>) returns (t: State)
    requires Inv(s) && calls <= s.posts.Keys
    ensures Reaches(s, t) && Inv(t) && SameOthers(s, t) && forall i :: i in calls ==> Returned(t, i)
    ensures forall j :: j in s.posts && j !in calls ==> j in t.posts && t.posts[j] == s.posts[j]
    decreases calls
  {
    hide NextStep, Inv, Reaches;
    if calls == {} {
      t := s;
      ReachesSelf(s);
    } else {
      var i :| i in calls;
      var u := CallReturns(s, i);
      t := CallsReturn(u, calls - {i});
      ReachesAll(s, u, t);
      assert Returned(u, i) && i !in calls - {i};
    }
  }

  /** The tasks that run come to their ends. */
  lemma {:induction false} TasksEnd(s: State) returns (t: State)
    requires Inv(s)
    ensures Reaches(s, t) && Inv(t) && t == s.(running := map[])
    decreases s.running.Keys
  {
    hide Inv, Reaches;
    if s.running == map[] {
      t := s;
      ReachesSelf(s);
    } else {
      var i :| i in s.running;
      var u := s.(running := s.running - {i});
      ReachesSelf(s);
      Then(s, s, u, TaskEnds(i));
      t := TasksEnd(u);
      ReachesAll(s, u, t);
    }
  }

  /** The controlling thread ends the initialisation and terminates, once nobody is inside and the queue is empty. */
  lemma ControlMoves(s: State) returns (t: State)
    requires Inv(s) && Inside(s.posts) == {} && s.queue == [] && s.running == map[]
    requires s.control != Down && s.control != Closing
    ensures Reaches(s, t) && Inv(t) && Onward(t.control) < Onward(s.control)
    ensures t.posts == s.posts && t.queue == [] && t.running == map[] && t.control != Down
  {
    assert Controlled(s);
    ReachesSelf(s);
    hide Inv, Reaches, Controlled;
    match s.control {
      case Opening(wanted) =>
        t := s.(control := Ready);
        Then(s, s, t, if |s.contexts| < wanted then OpenFails else InnerInitFails);
      case InnerUp =>
        t := s.(control := Up, fInit := true);
        Then(s, s, t, TurnOn);
      case Up =>
        t := s.(control := Off, fInit := false);
        Then(s, s, t, TermBegins);
      case Off =>
        t := s.(control := Waiting(Inside(s.posts)));
        Then(s, s, t, PartitionBegins);
      case Waiting(_) =>
        t := s.(control := Ready);
        Then(s, s, t, PartitionReturns);
      case Ready =>
        t := s.(control := Terminating);
        Then(s, s, t, TMTermBegins);
      case Terminating =>
        t := s.(control := Closing, innerUp := false);
        Then(s, s, t, TMTermReturns);
    }
  }

  function Onward(c: Control): nat
  {
    match c
    case InnerUp => 7
    case Up => 6
    case Off => 5
    case Waiting(_) => 4
    case Opening(_) => 4
    case Ready => 3
    case Terminating => 2
    case Closing => 1
    case Down => 0
  }

  lemma {:induction false} ControlCloses(s: State) returns (t: State)
    requires Inv(s) && Inside(s.posts) == {} && s.queue == [] && s.running == map[] && s.control != Down
    ensures Reaches(s, t) && Inv(t) && t.posts == s.posts && t.control == Closing
    decreases Onward(s.control)
  {
    hide NextStep, Inv, Reaches;
    if s.control == Closing {
      t := s;
      ReachesSelf(s);
    } else {
      var u := ControlMoves(s);
      t := ControlCloses(u);
      ReachesAll(s, u, t);
    }
  }

  lemma {:induction false} SessionsClose(s: State) returns (t: State)
    requires Inv(s) && s.control == Closing
    ensures Reaches(s, t) && Inv(t) && t.posts == s.posts && t.control == Down
    decreases |s.contexts|
  {
    hide Inv, Reaches;
    ReachesSelf(s);
    if s.contexts == [] {
      t := s.(control := Down);
      Then(s, s, t, TermReturns);
    } else {
      var u := s.(contexts := s.contexts[1..], open := s.open - {s.contexts[0]}, closed := s.closed + multiset{s.contexts[0]});
      Then(s, s, u, CloseSession);
      t := SessionsClose(u);
      ReachesAll(s, u, t);
    }
  }

  /** No call, task or termination is ever stuck: every run can go on to rest. */
  lemma RestCanBeReached(run: seq<State>, n: nat) returns (more: seq<State>)
    requires Run(run) && n < |run|
    ensures Run(run[..n] + more) && more != [] && more[0] == run[n] && Quiet(more[|more| - 1])
    ensures more[|more| - 1].posts.Keys == run[n].posts.Keys
  {
    RunKeeps(run, n);
    var s := CallsReturn(run[n], run[n].posts.Keys);
    var t := QueueEmpties(s);
    var u := TasksEnd(t);
    var v := u;
    NobodyInside(u);
    ReachesSelf(u);
    if u.control != Down {
      var c := ControlCloses(u);
      v := SessionsClose(c);
      ReachesAll(u, c, v);
    }
    hide Inv, Reaches, NextStep;
    ReachesAll(run[n], s, t);
    ReachesAll(run[n], t, u);
    ReachesAll(run[n], u, v);
    more := Continued(run, n, v);
    assert forall i :: i in v.posts ==> Returned(s, i);
  }

  lemma QueueEmpties(s: State) returns (t: State)
    requires Inv(s)
    ensures Reaches(s, t) && Inv(t) && t.queue == [] && t.posts == s.posts && t.control == s.control
  {
    assert Controlled(s);
    t := s;
    ReachesSelf(s);
    if s.queue != [] { t := QueueDrains(s, |s.queue|); }
  }

  lemma NobodyInside(s: State)
    requires forall i :: i in s.posts ==> Returned(s, i)
    ensures Inside(s.posts) == {}
  {
    forall i | i in s.posts ensures i !in Inside(s.posts) { assert Returned(s, i); }
  }

  // ------------------------------------------------------------------ initialisation

  lemma UnusedSession(open: set<nat>, closed: multiset<nat>) returns (x: nat)
    ensures x !in open && x !in closed
  {
    var bag := multiset(open) + closed;
    x := Above(bag);
    assert bag[x] == multiset(open)[x] + closed[x];
  }

  lemma {:induction false} Above(bag: multiset<nat>) returns (x: nat)
    ensures forall y :: y in bag ==> y < x
    decreases bag
  {
    if bag == multiset{} {
      x := 0;
    } else {
      var y :| y in bag;
      var z := Above(bag - multiset{y});
      x := if z > y then z else y + 1;
      assert forall w :: w in bag ==> w == y || w in bag - multiset{y};
    }
  }

  lemma {:induction false} SessionsOpen(s: State, more: nat) returns (t: State)
    requires Inv(s) && s.control.Opening? && |s.contexts| + more == s.control.wanted
    ensures Reaches(s, t) && Inv(t) && t.control == s.control && |t.contexts| == s.control.wanted && t.innerUp == s.innerUp
    decreases more
  {
    hide Inv, Reaches;
    ReachesSelf(s);
    if more == 0 {
      t := s;
    } else {
      var x := UnusedSession(s.open, s.closed);
      var u := s.(contexts := s.contexts + [x], open := s.open + {x});
      Then(s, s, u, OpenSession(x));
      t := SessionsOpen(u, more - 1);
      ReachesAll(s, u, t);
    }
  }

  /** Whenever the manager is down, it can be initialised with any number of threads up to a thousand, and then it has a
      session for each and is up. */
  lemma InitCanSucceed(run: seq<State>, n: nat, threads: nat) returns (more: seq<State>)
    requires Run(run) && n < |run| && run[n].control == Down && 1 <= threads <= 1000
    ensures Run(run[..n] + more) && more != [] && more[0] == run[n]
    ensures more[|more| - 1].control == Up && more[|more| - 1].fInit && |more[|more| - 1].contexts| == threads
  {
    RunKeeps(run, n);
    var s := run[n];
    assert Controlled(s);
    hide Inv, Reaches, Controlled;
    var opening := s.(control := Opening(threads));
    ReachesSelf(s);
    Then(s, s, opening, InitBegins(threads));
    var full := SessionsOpen(opening, threads);
    var inner := full.(control := InnerUp, innerUp := true);
    Then(opening, full, inner, InnerInit);
    var up := inner.(control := Up, fInit := true);
    Then(opening, inner, up, TurnOn);
    ReachesAll(s, opening, up);
    more := Continued(run, n, up);
  }
}
