/** Claims of names by operations whose store calls interleave in any order. */
module Claims {
  import opened Outcomes
  import opened Records
  import opened Rules
  import opened StorePort
  import opened Engine
  import opened Processes
  import opened Interleaving
  import Addressing
  import Naming

  /** Where a `join` with a granted name stands: still to claim, the winner, or beaten to it. */
  ghost predicate JoinStands(w: Shared, pid: Pid, actor: Actor)
  {
    pid in w.running &&
      (|| (w.running[pid] == Joining(actor) && (actor.name in w.won ==> w.won[actor.name] != pid))
       || (w.running[pid] == Finished(Who(actor)) && actor.name in w.won && w.won[actor.name] == pid)
       || (w.running[pid] == Fail(NameUnavailable) && actor.name in w.won && w.won[actor.name] != pid))
  }

  /** Every actor in the store was put there by one claim, and no finished claim is forgotten. */
  ghost predicate ClaimsRecorded(w: Shared)
  {
    w.won.Keys == w.store.actors.Keys
  }

  lemma StepKeepsClaims(hub: string, b: Backend, w: Shared, pid: Pid)
    requires Inv(w) && MayStep(w, pid) && Fresh(hub, w, pid) && ClaimsRecorded(w)
    ensures ClaimsRecorded(StepOf(hub, b, w, pid))
    ensures forall n | n in w.won :: StepOf(hub, b, w, pid).won[n] == w.won[n]
  {
    hide Resume, AnswerTo, Descends;
    var p := w.running[pid];
    assert KeepsIdentity(w.store, p);
  }

  lemma StepKeepsJoins(hub: string, b: Backend, w: Shared, pid: Pid, joiner: Pid, actor: Actor)
    requires Inv(w) && MayStep(w, pid) && Fresh(hub, w, pid) && ClaimsRecorded(w) && JoinStands(w, joiner, actor)
    ensures JoinStands(StepOf(hub, b, w, pid), joiner, actor)
  {
    hide Descends, Addressing.LocalName, IsParty, Addressed, LocalNames, MayAttachTo, IdleIds, Unread, VisibleTurns;
    StepKeepsClaims(hub, b, w, pid);
  }

  /** Someone else's claim of the name came first. */
  ghost predicate Beaten(w: Shared, pid: Pid, n: Name)
  {
    n in w.won && w.won[n] != pid
  }

  /**
   Where a `join` that is issued a name stands: at its `k`-th candidate, having been beaten to
   all before it, and still to claim that one, or its winner, or out of candidates.
   */
  ghost predicate IssueStandsAt(w: Shared, pid: Pid, candidates: seq<Name>, now: Time, k: nat)
  {
    && pid in w.running && k <= |candidates|
    && (forall i | 0 <= i < k :: Beaten(w, pid, candidates[i]))
    && (|| (k < |candidates| && w.running[pid] == Issuing(candidates[k..], now)
              && forall n | n in w.won :: w.won[n] != pid)
        || (k < |candidates| && w.running[pid] == Finished(Who(NewActor(candidates[k], NO_PROFILE, now)))
              && candidates[k] in w.won && w.won[candidates[k]] == pid)
        || (k == |candidates| && w.running[pid] == Fail(NameUnavailable)))
  }

  ghost predicate IssueStands(w: Shared, pid: Pid, candidates: seq<Name>, now: Time)
  {
    exists k :: IssueStandsAt(w, pid, candidates, now, k)
  }

  lemma OthersStepsKeepIssues(hub: string, b: Backend, w: Shared, pid: Pid, issuer: Pid,
                              candidates: seq<Name>, now: Time, k: nat)
    requires Inv(w) && MayStep(w, pid) && Fresh(hub, w, pid) && ClaimsRecorded(w) && pid != issuer
    requires IssueStandsAt(w, issuer, candidates, now, k)
    ensures IssueStandsAt(StepOf(hub, b, w, pid), issuer, candidates, now, k)
  {
    hide Descends, CallOf, Resume, AnswerTo, After, Distinct, KeepsIdentity;
    StepKeepsClaims(hub, b, w, pid);
  }

  lemma OwnStepKeepsIssues(hub: string, b: Backend, w: Shared, pid: Pid, candidates: seq<Name>, now: Time, k: nat)
    requires Inv(w) && MayStep(w, pid) && Fresh(hub, w, pid) && ClaimsRecorded(w)
    requires IssueStandsAt(w, pid, candidates, now, k)
    ensures var next := if candidates[k] in w.store.actors then k + 1 else k;
      IssueStandsAt(StepOf(hub, b, w, pid), pid, candidates, now, next)
  {
    hide Descends, Distinct, KeepsIdentity, SendIn, SendAs, SeenIn, IdleIds, MayAttachTo, Unread, VisibleTurns,
      Addressed;
    var p, next := w.running[pid], StepOf(hub, b, w, pid);
    assert p == Issuing(candidates[k..], now) && p.candidates[0] == candidates[k];
    StepKeepsClaims(hub, b, w, pid);
    if candidates[k] in w.store.actors {
      assert candidates[k..][1..] == candidates[k + 1..];
      assert next.won == w.won && Beaten(next, pid, candidates[k]);
    }
  }

  lemma StepKeepsIssues(hub: string, b: Backend, w: Shared, pid: Pid, issuer: Pid, candidates: seq<Name>, now: Time)
    requires Inv(w) && MayStep(w, pid) && Fresh(hub, w, pid) && ClaimsRecorded(w)
    requires IssueStands(w, issuer, candidates, now)
    ensures IssueStands(StepOf(hub, b, w, pid), issuer, candidates, now)
  {
    hide Descends, StepOf, IssueStandsAt;
    var k: nat :| IssueStandsAt(w, issuer, candidates, now, k);
    if pid == issuer {
      OwnStepKeepsIssues(hub, b, w, pid, candidates, now, k);
    } else {
      OthersStepsKeepIssues(hub, b, w, pid, issuer, candidates, now, k);
    }
  }

  /**
   Of any number of concurrent claims of a free name, exactly one wins: every finished join of
   it either is the one recorded winner or was refused, and there is a winner once any finished.
   */
  lemma {:induction false} OneClaimWins(hub: string, b: Backend, w: Shared, schedule: seq<Pid>, joiner: Pid,
                                        actor: Actor)
    requires Inv(w) && Possible(hub, b, w, schedule) && ClaimsRecorded(w) && JoinStands(w, joiner, actor)
    ensures var e := Outcome(hub, b, w, schedule);
      && ClaimsRecorded(e) && JoinStands(e, joiner, actor)
      && (e.running[joiner].Finished? ==>
            && actor.name in e.store.actors
            && (e.running[joiner] == Finished(Who(actor)) <==> e.won[actor.name] == joiner))
    decreases |schedule|
  {
    hide Descends, Ready, StepOf, JoinStands, ClaimsRecorded, Fresh;
    if schedule == [] {
      StandingIsDecided(w, joiner, actor);
    } else {
      StepKeepsInv(hub, b, w, schedule[0]);
      StepKeepsClaims(hub, b, w, schedule[0]);
      StepKeepsJoins(hub, b, w, schedule[0], joiner, actor);
      OneClaimWins(hub, b, StepOf(hub, b, w, schedule[0]), schedule[1..], joiner, actor);
    }
  }

  lemma StandingIsDecided(w: Shared, joiner: Pid, actor: Actor)
    requires ClaimsRecorded(w) && JoinStands(w, joiner, actor)
    ensures joiner in w.running
    ensures w.running[joiner].Finished? ==>
      actor.name in w.store.actors && (w.running[joiner] == Finished(Who(actor)) <==> w.won[actor.name] == joiner)
  {
  }

  /**
   The same of joins that are issued a name, however many others, of either kind, run beside them:
   one that finished with a name is that name's one recorded winner and was beaten to every earlier
   candidate; one that was refused was beaten to all of them.
   */
  lemma {:induction false} IssuedNamesAreWon(hub: string, b: Backend, w: Shared, schedule: seq<Pid>, issuer: Pid,
                                             candidates: seq<Name>, now: Time)
    requires Inv(w) && Possible(hub, b, w, schedule) && ClaimsRecorded(w) && IssueStands(w, issuer, candidates, now)
    ensures var e := Outcome(hub, b, w, schedule);
      ClaimsRecorded(e) && issuer in e.running &&
      match e.running[issuer]
      case Finished(Who(actor)) =>
        exists k :: 0 <= k < |candidates| && actor == NewActor(candidates[k], NO_PROFILE, now)
          && actor.name in e.won && e.won[actor.name] == issuer
          && forall i | 0 <= i < k :: Beaten(e, issuer, candidates[i])
      case Finished(r) => r == Refused(NameUnavailable) && forall c | c in candidates :: Beaten(e, issuer, c)
      case _ => true
    decreases |schedule|
  {
    hide Descends, Ready, StepOf, IssueStands, ClaimsRecorded, Fresh;
    if schedule == [] {
      IssueIsDecided(w, issuer, candidates, now);
    } else {
      StepKeepsInv(hub, b, w, schedule[0]);
      StepKeepsClaims(hub, b, w, schedule[0]);
      StepKeepsIssues(hub, b, w, schedule[0], issuer, candidates, now);
      IssuedNamesAreWon(hub, b, StepOf(hub, b, w, schedule[0]), schedule[1..], issuer, candidates, now);
    }
  }

  lemma IssueIsDecided(w: Shared, issuer: Pid, candidates: seq<Name>, now: Time)
    requires IssueStands(w, issuer, candidates, now)
    ensures issuer in w.running &&
      match w.running[issuer]
      case Finished(Who(actor)) =>
        exists k :: 0 <= k < |candidates| && actor == NewActor(candidates[k], NO_PROFILE, now)
          && actor.name in w.won && w.won[actor.name] == issuer
          && forall i | 0 <= i < k :: Beaten(w, issuer, candidates[i])
      case Finished(r) => r == Refused(NameUnavailable) && forall c | c in candidates :: Beaten(w, issuer, c)
      case _ => true
  {
  }

  /** An operation at its beginning that joins, with a requested name or without. */
  lemma JoinBegins(cfg: Config, w: Shared, asked: map<Pid, Request>, joiner: Pid)
    requires Starts(cfg, w, asked) && joiner in asked
    ensures ClaimsRecorded(w)
    ensures asked[joiner].Join? && w.running[joiner].Joining? ==> JoinStands(w, joiner, w.running[joiner].actor)
    ensures asked[joiner].Join? ==> w.running[joiner].Joining? || w.running[joiner].Finished?
    ensures asked[joiner].Join? && w.running[joiner].Finished? ==> w.running[joiner].response.Refused?
    ensures asked[joiner].JoinIssued? ==> IssueStands(w, joiner, asked[joiner].candidates, asked[joiner].now)
  {
    hide Naming.Validate, Addressing.LocalName;
    if asked[joiner].JoinIssued? {
      var candidates := asked[joiner].candidates;
      assert candidates[0..] == candidates;
      assert IssueStandsAt(w, joiner, candidates, asked[joiner].now, 0);
    }
  }

  /** What has finished has finished. */
  lemma {:induction false} FinishedStays(hub: string, b: Backend, w: Shared, schedule: seq<Pid>, pid: Pid)
    requires Inv(w) && Possible(hub, b, w, schedule) && pid in w.running && w.running[pid].Finished?
    ensures var e := Outcome(hub, b, w, schedule); pid in e.running && e.running[pid] == w.running[pid]
    decreases |schedule|
  {
    hide Descends, Ready, CallOf, Resume, AnswerTo, After, Fresh;
    if schedule != [] {
      StepKeepsInv(hub, b, w, schedule[0]);
      FinishedStays(hub, b, StepOf(hub, b, w, schedule[0]), schedule[1..], pid);
    }
  }

  /** The operation has finished with an actor of that name. */
  predicate AnsweredAs(w: Shared, pid: Pid, n: Name)
  {
    && pid in w.running && w.running[pid].Finished? && w.running[pid].response.Who?
    && w.running[pid].response.actor.name == n
  }

  /** A join, of either kind, that has answered with an actor is the recorded winner of its name. */
  lemma AnswersAreWins(cfg: Config, b: Backend, w: Shared, asked: map<Pid, Request>, schedule: seq<Pid>, joiner: Pid)
    requires Starts(cfg, w, asked) && Inv(w) && Possible(cfg.hub, b, w, schedule)
    requires joiner in asked && (asked[joiner].Join? || asked[joiner].JoinIssued?)
    ensures var e := Outcome(cfg.hub, b, w, schedule);
      forall n | AnsweredAs(e, joiner, n) :: n in e.store.actors && n in e.won && e.won[n] == joiner
  {
    hide Descends, Ready, Possible, IssueStands, Start, Inv;
    JoinBegins(cfg, w, asked, joiner);
    if asked[joiner].JoinIssued? {
      IssuedNamesAreWon(cfg.hub, b, w, schedule, joiner, asked[joiner].candidates, asked[joiner].now);
    } else if w.running[joiner].Finished? {
      FinishedStays(cfg.hub, b, w, schedule, joiner);
    } else {
      OneClaimWins(cfg.hub, b, w, schedule, joiner, w.running[joiner].actor);
    }
  }

  /** From an empty store, under any schedule, no two joins, of either kind, answer with one name. */
  lemma NoTwoJoinsShareAName(cfg: Config, b: Backend, w: Shared, asked: map<Pid, Request>, schedule: seq<Pid>,
                             one: Pid, other: Pid)
    requires Starts(cfg, w, asked) && Inv(w) && Possible(cfg.hub, b, w, schedule)
    requires one in asked && (asked[one].Join? || asked[one].JoinIssued?)
    requires other in asked && (asked[other].Join? || asked[other].JoinIssued?)
    ensures var e := Outcome(cfg.hub, b, w, schedule);
      forall n | AnsweredAs(e, one, n) && AnsweredAs(e, other, n) :: one == other
  {
    hide Descends, Ready, Starts, Possible, Inv;
    AnswersAreWins(cfg, b, w, asked, schedule, one);
    AnswersAreWins(cfg, b, w, asked, schedule, other);
  }
}
