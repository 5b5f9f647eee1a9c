/** What every session of the stack can come to: each call that has begun can run to its end. */
module StackProgress {
  import opened Net
  import opened GuardStack
  import Throttle

  /** Session `id` is at this point of its life after the actions, each of which took effect. */
  ghost predicate Reaches(w: World, actions: seq<Action>, id: SessionId, life: Life) {
    && AllEnabled(w, actions)
    && id in Run(w, actions).sessions && Run(w, actions).sessions[id].life == life
  }

  predicate AllEnabled(w: World, actions: seq<Action>) {
    actions == [] ||
    (AllEnabled(w, actions[..|actions| - 1]) && Enabled(Run(w, actions[..|actions| - 1]), actions[|actions| - 1]))
  }

  lemma OneMore(w: World, actions: seq<Action>, a: Action)
    requires AllEnabled(w, actions) && Enabled(Run(w, actions), a)
    ensures AllEnabled(w, actions + [a]) && Run(w, actions + [a]) == Step(Run(w, actions), a)
  {
    assert (actions + [a])[..|actions|] == actions;
  }

  /** Until the throttle is asked its counts stay as they are. */
  ghost predicate Asking(w: World, actions: seq<Action>, id: SessionId, i: nat)
    requires id in w.sessions
  {
    && Reaches(w, actions, id, Reserving(i))
    && var t := Run(w, actions);
       t.size == w.size && t.at == w.at && t.cfg == w.cfg && t.sessions[id].addr == w.sessions[id].addr
       && (i <= w.at ==> t.tally == w.tally)
  }

  /** What guard `w.at` answers is not free: it is a throttle. */
  predicate ThrottleAnswers(w: World, id: SessionId, verdicts: seq<bool>)
    requires id in w.sessions && |verdicts| == w.size
  {
    w.at < w.size ==> verdicts[w.at] == Throttle.Admits(w.cfg, w.tally, w.sessions[id].addr.ip)
  }

  lemma AskOne(w: World, actions: seq<Action>, id: SessionId, verdicts: seq<bool>, i: nat) returns (more: seq<Action>)
    requires id in w.sessions && |verdicts| == w.size && ThrottleAnswers(w, id, verdicts)
    requires Asking(w, actions, id, i) && i < w.size
    ensures if verdicts[i] then Asking(w, more, id, i + 1)
            else Reaches(w, more, id, RollingBack(i, i)) && Run(w, more).size == w.size
  {
    OneMore(w, actions, AskReserve(id, verdicts[i]));
    more := actions + [AskReserve(id, verdicts[i])];
  }

  lemma {:induction false} RollBackOn(w: World, actions: seq<Action>, id: SessionId, failed: nat, left: nat)
    returns (more: seq<Action>)
    requires Reaches(w, actions, id, RollingBack(failed, left))
    ensures Reaches(w, more, id, Rejected(failed))
    decreases left
  {
    if left == 0 {
      OneMore(w, actions, FinishRollback(id));
      more := actions + [FinishRollback(id)];
    } else {
      OneMore(w, actions, RollBackOne(id));
      more := RollBackOn(w, actions + [RollBackOne(id)], id, failed, left - 1);
    }
  }

  lemma {:induction false} ReserveOn(w: World, actions: seq<Action>, id: SessionId, verdicts: seq<bool>, i: nat)
    returns (more: seq<Action>)
    requires id in w.sessions && |verdicts| == w.size && ThrottleAnswers(w, id, verdicts)
    requires Asking(w, actions, id, i) && i <= w.size && forall j :: 0 <= j < i ==> verdicts[j]
    ensures if forall j :: 0 <= j < w.size ==> verdicts[j] then Reaches(w, more, id, Open)
            else Reaches(w, more, id, Rejected(FirstRefusal(verdicts)))
    decreases w.size - i
  {
    if i == w.size {
      OneMore(w, actions, FinishReserve(id));
      more := actions + [FinishReserve(id)];
    } else {
      more := AskOne(w, actions, id, verdicts, i);
      if verdicts[i] {
        more := ReserveOn(w, more, id, verdicts, i + 1);
      } else {
        assert FirstRefusal(verdicts) == i;
        more := RollBackOn(w, more, id, i, i);
      }
    }
  }

  /**
   A session that arrives off the allowlist can run its reservation to the end: open if every guard
   accepts, rejected by the first that refuses otherwise.
   */
  lemma ReserveRunsToEnd(w: World, id: SessionId, addr: SocketAddr, verdicts: seq<bool>) returns (actions: seq<Action>)
    requires id !in w.sessions && addr.ip !in w.allowlist && |verdicts| == w.size
    requires w.at < w.size ==> verdicts[w.at] == Throttle.Admits(w.cfg, w.tally, addr.ip)
    ensures if forall j :: 0 <= j < w.size ==> verdicts[j] then Reaches(w, actions, id, Open)
            else Reaches(w, actions, id, Rejected(FirstRefusal(verdicts)))
  {
    var arrived := Step(w, Arrive(id, addr));
    assert Asking(arrived, [], id, 0);
    var rest := ReserveOn(arrived, [], id, verdicts, 0);
    actions := [Arrive(id, addr)] + rest;
    RunAfter(w, Arrive(id, addr), rest);
  }

  lemma {:induction false} RunAfter(w: World, a: Action, rest: seq<Action>)
    requires Enabled(w, a) && AllEnabled(Step(w, a), rest)
    ensures AllEnabled(w, [a] + rest) && Run(w, [a] + rest) == Run(Step(w, a), rest)
  {
    if rest == [] {
      assert [a] + rest == [] + [a];
      OneMore(w, [], a);
    } else {
      var before, last := rest[..|rest| - 1], rest[|rest| - 1];
      RunAfter(w, a, before);
      assert [a] + rest == ([a] + before) + [last];
      OneMore(w, [a] + before, last);
    }
  }

  lemma {:induction false} CloseOn(w: World, actions: seq<Action>, id: SessionId, next: nat) returns (more: seq<Action>)
    requires Reaches(w, actions, id, Closing(next)) && next <= Run(w, actions).size
    ensures Reaches(w, more, id, Done)
    decreases Run(w, actions).size - next
  {
    if next == Run(w, actions).size {
      OneMore(w, actions, FinishClose(id));
      more := actions + [FinishClose(id)];
    } else {
      OneMore(w, actions, CloseOne(id));
      more := CloseOn(w, actions + [CloseOne(id)], id, next + 1);
    }
  }

  /** An open session's close can run to its end, after which every guard has been told. */
  lemma CloseRunsToEnd(w: World, id: SessionId) returns (actions: seq<Action>)
    requires id in w.sessions && w.sessions[id].life.Open?
    ensures Reaches(w, actions, id, Done)
  {
    assert AllEnabled(w, []) && Enabled(Run(w, []), BeginClose(id));
    OneMore(w, [], BeginClose(id));
    assert [] + [BeginClose(id)] == [BeginClose(id)];
    actions := CloseOn(w, [BeginClose(id)], id, 0);
  }

  // ---------------------------------------------------------------------------------------------
  // What is settled on arrival or by a failure
  // ---------------------------------------------------------------------------------------------

  /** A session bypasses the guards exactly when its address is on the allowlist as it arrives. */
  lemma BypassedIffListed(w: World, id: SessionId, addr: SocketAddr)
    requires Enabled(w, Arrive(id, addr))
    ensures Step(w, Arrive(id, addr)).sessions[id].life == if addr.ip in w.allowlist then Bypassed else Reserving(0)
  {
  }

  /** Later changes to the allowlist alter nothing about it. */
  lemma {:induction false} BypassedForGood(w: World, actions: seq<Action>, id: SessionId)
    requires id in w.sessions
    ensures id in Run(w, actions).sessions
    ensures Run(w, actions).sessions[id].life.Bypassed? <==> w.sessions[id].life.Bypassed?
  {
    if actions != [] { BypassedForGood(w, actions[..|actions| - 1], id); }
  }

  /** Once a guard has failed on establishment no further one is told, whatever happens. */
  lemma {:induction false} FailureEndsTelling(w: World, actions: seq<Action>, id: SessionId)
    requires Enabled(w, TellOne(id, false))
    ensures var t := Run(Step(w, TellOne(id, false)), actions);
            id in t.sessions && t.sessions[id].est == Told(w.sessions[id].est.next + 1)
  {
    if actions != [] { FailureEndsTelling(w, actions[..|actions| - 1], id); }
  }
}
