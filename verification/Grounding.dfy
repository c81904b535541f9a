/**
 What parent pointers, roots, read marks and waiting mail keep while store calls interleave, and
 exactly which removals break it.
 */
module Grounding {
  import opened Outcomes
  import opened Records
  import opened Rules
  import opened StorePort
  import opened Engine
  import opened Processes
  import opened Interleaving
  import opened FunctionalGraph
  import Addressing
  import Naming
  import Delivery
  import Threads

  // ------------------------------------------------------------ parents

  /** Every parent, of a message stored or about to be, is stored. */
  ghost predicate Grounded(w: Shared)
  {
    && Threads.NoDangling(w.store.messages)
    && forall pid | pid in w.running && w.running[pid].SendStoring? ::
         var o := w.running[pid].message;
         o.inReplyTo.Some? ==> o.inReplyTo.value in w.store.messages
  }

  ghost predicate InFlight(w: Shared, o: Message)
  {
    exists pid :: pid in w.running && w.running[pid] == SendStoring(o)
  }

  /** A message that is about to be stored, or is stored and not among `ids`. */
  ghost predicate Remains(w: Shared, ids: set<Id>, o: Message)
  {
    InFlight(w, o) || (o.id in w.store.messages && w.store.messages[o.id] == o && o.id !in ids)
  }

  /** The operation's next call removes the parent of a message that remains. */
  ghost predicate Beheads(w: Shared, pid: Pid)
  {
    && pid in w.running && w.running[pid].ExpireRemoving?
    && exists o :: Remains(w, w.running[pid].ids, o) && o.inReplyTo.Some? && o.inReplyTo.value in w.running[pid].ids
  }

  /** Only removals take messages away. */
  lemma CallsKeepMessages(b: Backend, s: Store, p: Process)
    requires Ready(p)
    ensures var after := After(b, s, CallOf(p)).messages;
      after == if p.ExpireRemoving? then s.messages - p.ids
               else if p.SendStoring? then s.messages[p.message.id := p.message] else s.messages
  {
  }

  /** A call leaves every parent stored exactly if it is not a removal that takes one. */
  lemma StepGrounds(hub: string, b: Backend, w: Shared, pid: Pid)
    requires Inv(w) && MayStep(w, pid) && Fresh(hub, w, pid) && Grounded(w)
    ensures Grounded(StepOf(hub, b, w, pid)) <==> !Beheads(w, pid)
  {
    hide Resume, AnswerTo, After, CallOf, Descends, Distinct, KeepsIdentity;
    var p, next := w.running[pid], StepOf(hub, b, w, pid);
    CallsKeepMessages(b, w.store, p);
    MadeOnStored(hub, w.store, p);
    if p.ExpireRemoving? {
      RemovingEnds(hub, w.store, p);
      RemovalGrounds(w, p.ids, next, pid);
    } else {
      if p.SendStoring? { StoringIsLast(hub, w.store, p); }
      forall id | id in next.store.messages && next.store.messages[id].inReplyTo.Some?
        ensures next.store.messages[id].inReplyTo.value in next.store.messages
      {
        CallsStoreWhatWasMade(b, w.store, p, id);
      }
    }
  }

  lemma RemovingEnds(hub: string, s: Store, p: Process)
    requires s.WellKeyed() && Ready(p) && p.ExpireRemoving?
    ensures Resume(hub, p, AnswerTo(s, CallOf(p))).Finished?
  {
  }

  lemma RemovalGrounds(w: Shared, ids: set<Id>, next: Shared, pid: Pid)
    requires Inv(w) && Grounded(w) && pid in w.running && w.running[pid] == ExpireRemoving(ids)
    requires next.store.messages == w.store.messages - ids
    requires next.running.Keys == w.running.Keys && next.running[pid].Finished?
    requires forall other | other in w.running && other != pid :: next.running[other] == w.running[other]
    ensures Grounded(next) <==> !Beheads(w, pid)
  {
    hide Ready, Descends, Distinct, KeepsIdentity, MadeOnce;
    var m := w.store.messages;
    if Beheads(w, pid) {
      var o :| Remains(w, ids, o) && o.inReplyTo.Some? && o.inReplyTo.value in ids;
      if InFlight(w, o) {
        var other :| other in w.running && w.running[other] == SendStoring(o);
        assert next.running[other].SendStoring?;
      } else {
        assert o.id in next.store.messages;
      }
    } else {
      forall id | id in next.store.messages && m[id].inReplyTo.Some?
        ensures m[id].inReplyTo.value !in ids
      {
        assert Remains(w, ids, m[id]);
      }
      forall other | other in next.running && next.running[other].SendStoring?
                       && next.running[other].message.inReplyTo.Some?
        ensures next.running[other].message.inReplyTo.value !in ids
      {
        assert InFlight(w, next.running[other].message);
        assert Remains(w, ids, next.running[other].message);
      }
    }
  }

  ghost predicate GroundedThroughout(hub: string, b: Backend, w: Shared, schedule: seq<Pid>)
    requires Inv(w) && Possible(hub, b, w, schedule)
    decreases |schedule|
  {
    Grounded(w) &&
    (schedule == [] ||
      (StepKeepsInv(hub, b, w, schedule[0]); GroundedThroughout(hub, b, StepOf(hub, b, w, schedule[0]), schedule[1..])))
  }

  ghost predicate NeverBeheads(hub: string, b: Backend, w: Shared, schedule: seq<Pid>)
    requires Inv(w) && Possible(hub, b, w, schedule)
    decreases |schedule|
  {
    schedule == [] ||
      (!Beheads(w, schedule[0]) &&
        (StepKeepsInv(hub, b, w, schedule[0]); NeverBeheads(hub, b, StepOf(hub, b, w, schedule[0]), schedule[1..])))
  }

  /**
   Under interleaving no parent goes missing exactly if no removal along the schedule takes the
   parent of a message that remains.
   */
  lemma {:induction false} GroundedUnlessBeheaded(hub: string, b: Backend, w: Shared, schedule: seq<Pid>)
    requires Inv(w) && Possible(hub, b, w, schedule) && Grounded(w)
    ensures GroundedThroughout(hub, b, w, schedule) <==> NeverBeheads(hub, b, w, schedule)
    ensures NeverBeheads(hub, b, w, schedule) ==> Grounded(Outcome(hub, b, w, schedule))
    decreases |schedule|
  {
    hide StepOf, Descends, Distinct, KeepsIdentity, MadeOnce, Fresh, Grounded, Beheads;
    if schedule != [] {
      StepKeepsInv(hub, b, w, schedule[0]);
      StepGrounds(hub, b, w, schedule[0]);
      var next := StepOf(hub, b, w, schedule[0]);
      if !Beheads(w, schedule[0]) {
        GroundedUnlessBeheaded(hub, b, next, schedule[1..]);
      } else {
        assert !GroundedThroughout(hub, b, next, schedule[1..]);
      }
    }
  }

  // ------------------------------------------------------------ which removals behead

  /** What was stored in the past is, if stored still, unchanged, and is never about to be stored again. */
  ghost predicate Since(past: Messages, w: Shared)
  {
    && (forall id | id in past && id in w.store.messages :: w.store.messages[id] == past[id])
    && (forall id | id in past :: id in w.issued)
    && (forall pid | pid in w.running && w.running[pid].SendStoring? :: w.running[pid].message.id !in past)
  }

  lemma StepKeepsSince(hub: string, b: Backend, w: Shared, pid: Pid, past: Messages)
    requires Inv(w) && MayStep(w, pid) && Fresh(hub, w, pid) && Since(past, w)
    ensures Since(past, StepOf(hub, b, w, pid))
  {
    hide Resume, AnswerTo, After, CallOf, Descends, Distinct, KeepsIdentity, MadeOnce;
    CallsKeepMessages(b, w.store, w.running[pid]);
  }

  /** An operation the schedule never runs is where it was. */
  lemma {:induction false} SinceThroughout(hub: string, b: Backend, w: Shared, schedule: seq<Pid>, past: Messages,
                                           idle: Pid)
    requires Inv(w) && Possible(hub, b, w, schedule) && Since(past, w) && idle in w.running && idle !in schedule
    ensures var e := Outcome(hub, b, w, schedule);
      Since(past, e) && idle in e.running && e.running[idle] == w.running[idle]
    decreases |schedule|
  {
    hide Descends, Distinct, KeepsIdentity, MadeOnce, Resume, AnswerTo, After, CallOf, Since, Fresh;
    if schedule != [] {
      StepKeepsInv(hub, b, w, schedule[0]);
      StepKeepsSince(hub, b, w, schedule[0], past);
      SinceThroughout(hub, b, StepOf(hub, b, w, schedule[0]), schedule[1..], past, idle);
    }
  }

  /** Stored or about to be, and not in the listing. */
  ghost predicate Unlisted(listed: Messages, w: Shared, o: Message)
  {
    o.id !in listed && (InFlight(w, o) || (o.id in w.store.messages && w.store.messages[o.id] == o))
  }

  /** Among what was listed, a parent is removed only together with what answers it. */
  lemma ExpiredTogether(m: Messages, cutoff: Time, id: Id)
    requires Acyclic(ParentGraph(m)) && id in m && m[id].inReplyTo.Some?
    requires m[id].inReplyTo.value in Threads.Expired(m, cutoff)
    ensures id in Threads.Expired(m, cutoff)
  {
    RootOfSuccessor(ParentGraph(m), id);
  }

  /**
   An expiry removes what it found idle when it listed the store. It takes the parent of a message
   that remains exactly if a message it had not listed, stored or made since, answers one of those.
   */
  lemma ExpiryBeheadsTheUnlisted(hub: string, b: Backend, w: Shared, expirer: Pid, cutoff: Time, schedule: seq<Pid>)
    requires Inv(w) && expirer in w.running && w.running[expirer] == ExpireListing(cutoff)
    requires Possible(hub, b, w, [expirer] + schedule) && expirer !in schedule
    requires Threads.Expired(w.store.messages, cutoff) != {}
    ensures var listed := w.store.messages;
      var ids := Threads.Expired(listed, cutoff);
      var u := Outcome(hub, b, w, [expirer] + schedule);
      && expirer in u.running && u.running[expirer] == ExpireRemoving(ids)
      && (Beheads(u, expirer) <==> exists o :: Unlisted(listed, u, o) && o.inReplyTo.Some? && o.inReplyTo.value in ids)
  {
    hide Descends, Distinct, KeepsIdentity, MadeOnce, Threads.Expired, Fresh, StepOf, Beheads, Unlisted, Since;
    assert ([expirer] + schedule)[1..] == schedule;
    ListingStep(hub, b, w, expirer, cutoff);
    StepKeepsInv(hub, b, w, expirer);
    var v := StepOf(hub, b, w, expirer);
    SinceThroughout(hub, b, v, schedule, w.store.messages, expirer);
    ReachableGraphsAreAcyclic(w);
    RemainingAreUnlisted(w.store.messages, cutoff, Outcome(hub, b, v, schedule), expirer);
  }

  lemma RemainingAreUnlisted(listed: Messages, cutoff: Time, u: Shared, expirer: Pid)
    requires Inv(u) && Since(listed, u) && Acyclic(ParentGraph(listed))
    requires expirer in u.running && u.running[expirer] == ExpireRemoving(Threads.Expired(listed, cutoff))
    ensures var ids := Threads.Expired(listed, cutoff);
      Beheads(u, expirer) <==> exists o :: Unlisted(listed, u, o) && o.inReplyTo.Some? && o.inReplyTo.value in ids
  {
    hide Inv, Since, Acyclic, ParentGraph, Threads.Expired, Remains, Unlisted;
    forall o: Message | o.inReplyTo.Some? && o.inReplyTo.value in Threads.Expired(listed, cutoff)
      ensures Remains(u, Threads.Expired(listed, cutoff), o) <==> Unlisted(listed, u, o)
    {
      RemainingIsUnlisted(listed, cutoff, u, o);
    }
  }

  lemma ListingStep(hub: string, b: Backend, w: Shared, expirer: Pid, cutoff: Time)
    requires Inv(w) && expirer in w.running && w.running[expirer] == ExpireListing(cutoff)
    requires Threads.Expired(w.store.messages, cutoff) != {}
    ensures MayStep(w, expirer) && Fresh(hub, w, expirer)
    ensures StepOf(hub, b, w, expirer) ==
      w.(running := w.running[expirer := ExpireRemoving(Threads.Expired(w.store.messages, cutoff))])
    ensures Since(w.store.messages, StepOf(hub, b, w, expirer))
  {
    hide Threads.Expired, IdleIds, Listing, Distinct, Descends, KeepsIdentity;
    Threads.ExpiredOfListing(w.store.messages, cutoff);
    forall id | id in w.store.messages ensures id in w.issued { StoredIsIssued(w, id); }
  }

  lemma RemainingIsUnlisted(listed: Messages, cutoff: Time, u: Shared, o: Message)
    requires Inv(u) && Since(listed, u) && Acyclic(ParentGraph(listed))
    requires o.inReplyTo.Some? && o.inReplyTo.value in Threads.Expired(listed, cutoff)
    ensures Remains(u, Threads.Expired(listed, cutoff), o) <==> Unlisted(listed, u, o)
  {
    hide Inv, Acyclic, ParentGraph, Threads.Expired;
    Threads.ExpiredIsStored(listed, cutoff);
    if o.id in listed && o.id in u.store.messages && u.store.messages[o.id] == o {
      ExpiredTogether(listed, cutoff, o.id);
    }
  }

  /**
   So the removal leaves every parent stored exactly if nothing it had not listed answers a message
   it removes.
   */
  lemma ExpiryIsSafeUnlessOvertaken(hub: string, b: Backend, w: Shared, expirer: Pid, cutoff: Time, schedule: seq<Pid>,
                                    u: Shared, e: Shared)
    requires Inv(w) && expirer in w.running && w.running[expirer] == ExpireListing(cutoff) && expirer !in schedule
    requires LeadsTo(hub, b, w, [expirer] + schedule, u) && LeadsTo(hub, b, u, [expirer], e)
    requires Threads.Expired(w.store.messages, cutoff) != {} && Grounded(u)
    ensures LeadsTo(hub, b, w, [expirer] + schedule + [expirer], e)
    ensures Grounded(e) <==>
      !exists o :: Unlisted(w.store.messages, u, o) && o.inReplyTo.Some?
        && o.inReplyTo.value in Threads.Expired(w.store.messages, cutoff)
  {
    hide Descends, Distinct, KeepsIdentity, MadeOnce, Threads.Expired, StepOf, Grounded, Beheads, Unlisted;
    SchedulesJoin(hub, b, w, [expirer] + schedule, u, [expirer], e);
    ExpiryBeheadsTheUnlisted(hub, b, w, expirer, cutoff, schedule);
    OneStepLeads(hub, b, u, expirer);
    StepGrounds(hub, b, u, expirer);
  }

  // ------------------------------------------------------------ without an expiry

  ghost predicate NoExpiry(w: Shared)
  {
    forall pid | pid in w.running :: !w.running[pid].ExpireListing? && !w.running[pid].ExpireRemoving?
  }

  lemma NothingTurnsToExpiry(hub: string, p: Process, a: Answer)
    requires Ready(p) && !p.ExpireListing?
    ensures !Resume(hub, p, a).ExpireListing? && !Resume(hub, p, a).ExpireRemoving?
  {
    hide IsParty, Addressing.LocalName, LocalNames, Unread, VisibleTurns, IdleIds, Known, Addressed, ReplyDraft;
  }

  /** Between these states nothing is lost, nothing is changed, and no root moves. */
  ghost predicate OnlyGrows(before: Messages, after: Messages)
  {
    forall id | id in before ::
      id in after && after[id] == before[id] && RootOf(after, id) == RootOf(before, id)
  }

  lemma StepOnlyGrows(hub: string, b: Backend, w: Shared, pid: Pid)
    requires Inv(w) && MayStep(w, pid) && Fresh(hub, w, pid) && Grounded(w) && NoExpiry(w)
    ensures var next := StepOf(hub, b, w, pid);
      Grounded(next) && NoExpiry(next) && OnlyGrows(w.store.messages, next.store.messages)
  {
    hide Resume, AnswerTo, After, CallOf, Descends, Distinct, KeepsIdentity, RootOf;
    var p := w.running[pid];
    StepGrounds(hub, b, w, pid);
    NothingTurnsToExpiry(hub, p, AnswerTo(w.store, CallOf(p)));
    CallsKeepMessages(b, w.store, p);
    if p.SendStoring? { Threads.AddingFramesWalks(w.store.messages, p.message); }
  }

  /**
   While no expiry is running, nothing interleaving does can leave a reply without its parent, lose
   or change a message, or move one to another thread.
   */
  lemma {:induction false} WithoutExpiryNothingDangles(hub: string, b: Backend, w: Shared, schedule: seq<Pid>)
    requires Inv(w) && Possible(hub, b, w, schedule) && Grounded(w) && NoExpiry(w)
    ensures var e := Outcome(hub, b, w, schedule);
      Grounded(e) && NoExpiry(e) && OnlyGrows(w.store.messages, e.store.messages)
    decreases |schedule|
  {
    hide Descends, Distinct, KeepsIdentity, MadeOnce, StepOf, Fresh, Grounded, RootOf;
    if schedule != [] {
      StepKeepsInv(hub, b, w, schedule[0]);
      StepOnlyGrows(hub, b, w, schedule[0]);
      WithoutExpiryNothingDangles(hub, b, StepOf(hub, b, w, schedule[0]), schedule[1..]);
    }
  }

  /** Operations at their beginning, none of them an expiry, on a store without dangling parents. */
  lemma BeginsGrounded(cfg: Config, w: Shared, asked: map<Pid, Request>)
    requires w.running.Keys == asked.Keys && forall pid | pid in asked :: w.running[pid] == Start(cfg, asked[pid])
    requires Threads.NoDangling(w.store.messages) && forall pid | pid in asked :: !asked[pid].Expire?
    ensures Grounded(w) && NoExpiry(w)
    ensures (forall k | k in w.store.marks :: k.0 in w.store.messages) ==> MarksGrounded(w)
    ensures (forall k | k in w.store.marks :: k.0 in w.issued) ==> MarksAreOld(w)
  {
    hide Start, ToMark, Threads.NoDangling;
    forall pid | pid in asked
      ensures !w.running[pid].SendStoring? && !w.running[pid].ExpireListing? && !w.running[pid].ExpireRemoving?
        && ToMark(w.running[pid]) == None
    {
      BeginsAtTheStart(cfg, asked[pid]);
    }
  }

  lemma BeginsAtTheStart(cfg: Config, r: Request)
    ensures var p := Start(cfg, r);
      !p.SendStoring? && !p.ExpireRemoving? && ToMark(p) == None && (p.ExpireListing? ==> r.Expire?)
  {
    hide Addressing.LocalName, Naming.Validate;
  }

  // ------------------------------------------------------------ read marks

  /** The message an operation has fetched to mark as read. */
  function ToMark(p: Process): Option<Id>
  {
    match p
    case SeeContext(_, o, ToRead(_)) => Some(o.id)
    case Marking(_, mark) => Some(mark.object_)
    case _ => None
  }

  /** Every read mark, made or about to be, is on a stored message. */
  ghost predicate MarksGrounded(w: Shared)
  {
    && (forall k | k in w.store.marks :: k.0 in w.store.messages)
    && forall pid | pid in w.running && ToMark(w.running[pid]).Some? :: ToMark(w.running[pid]).value in w.store.messages
  }

  /** The operation's next call removes a message that another has fetched to mark as read. */
  ghost predicate Snatches(w: Shared, pid: Pid)
  {
    && pid in w.running && w.running[pid].ExpireRemoving?
    && exists other :: other in w.running && ToMark(w.running[other]).Some?
         && ToMark(w.running[other]).value in w.running[pid].ids
  }

  lemma CallsKeepMarks(b: Backend, s: Store, p: Process)
    requires Ready(p)
    ensures var after := After(b, s, CallOf(p)).marks;
      forall k :: k in after <==>
        if p.ExpireRemoving? then k in s.marks && k.0 !in p.ids
        else k in s.marks || (p.Marking? && k == (p.mark.object_, p.mark.reader))
  {
  }

  /** What is to be marked has been found in the store, or was found before. */
  lemma FetchedToMark(hub: string, s: Store, p: Process)
    requires s.WellKeyed() && Ready(p)
    ensures var m := ToMark(Resume(hub, p, AnswerTo(s, CallOf(p))));
      m.Some? ==> m.value in s.messages || ToMark(p) == m
    ensures p.ExpireRemoving? ==> ToMark(Resume(hub, p, AnswerTo(s, CallOf(p)))) == None
  {
    hide Resume, AnswerTo, CallOf;
    if p.SeeMessage? {
      LookedUpToMark(hub, s, p);
    } else {
      OnlyLookupsFetch(hub, p, AnswerTo(s, CallOf(p)));
    }
  }

  lemma OnlyLookupsFetch(hub: string, p: Process, a: Answer)
    requires Ready(p) && !p.SeeMessage?
    ensures var m := ToMark(Resume(hub, p, a)); m.Some? ==> ToMark(p) == m
    ensures p.ExpireRemoving? ==> ToMark(Resume(hub, p, a)) == None
  {
    hide IsParty, Addressing.LocalName, LocalNames, Unread, VisibleTurns, IdleIds, Known, Addressed, ReplyDraft,
      ContextOf, MayAttachTo;
  }

  lemma LookedUpToMark(hub: string, s: Store, p: Process)
    requires s.WellKeyed() && p.SeeMessage?
    ensures var m := ToMark(Resume(hub, p, AnswerTo(s, CallOf(p)))); m.Some? ==> m.value in s.messages
  {
    hide SeenIn;
  }

  /** A call leaves every read mark on a stored message exactly if it is not a removal that snatches one. */
  lemma StepGroundsMarks(hub: string, b: Backend, w: Shared, pid: Pid)
    requires Inv(w) && MayStep(w, pid) && Fresh(hub, w, pid) && MarksGrounded(w)
    ensures MarksGrounded(StepOf(hub, b, w, pid)) <==> !Snatches(w, pid)
  {
    hide Resume, AnswerTo, After, CallOf, Descends, Distinct, KeepsIdentity, MadeOnce, ToMark;
    var p, next := w.running[pid], StepOf(hub, b, w, pid);
    CallsKeepMessages(b, w.store, p);
    CallsKeepMarks(b, w.store, p);
    FetchedToMark(hub, w.store, p);
    if p.Marking? { assert ToMark(p) == Some(p.mark.object_) by { MarkingIsToMark(p); } }
    if p.ExpireRemoving? {
      assert ToMark(p) == None by { MarkingIsToMark(p); }
      forall other | other in w.running && other != pid ensures next.running[other] == w.running[other] {}
    }
  }

  lemma MarkingIsToMark(p: Process)
    ensures p.Marking? ==> ToMark(p) == Some(p.mark.object_)
    ensures p.ExpireRemoving? ==> ToMark(p) == None
  {
  }

  /** While no expiry is running, no read mark is left without its message. */
  lemma {:induction false} WithoutExpiryNoMarkIsOrphaned(hub: string, b: Backend, w: Shared, schedule: seq<Pid>)
    requires Inv(w) && Possible(hub, b, w, schedule) && Grounded(w) && MarksGrounded(w) && NoExpiry(w)
    ensures MarksGrounded(Outcome(hub, b, w, schedule))
    decreases |schedule|
  {
    hide Descends, Distinct, KeepsIdentity, MadeOnce, StepOf, Fresh, Grounded, MarksGrounded;
    if schedule != [] {
      StepKeepsInv(hub, b, w, schedule[0]);
      StepOnlyGrows(hub, b, w, schedule[0]);
      StepGroundsMarks(hub, b, w, schedule[0]);
      WithoutExpiryNoMarkIsOrphaned(hub, b, StepOf(hub, b, w, schedule[0]), schedule[1..]);
    }
  }

  /** A mark keeps its time through any call but the removal of its message; a first mark takes the time it carries. */
  lemma CallsKeepFirstMarks(b: Backend, s: Store, p: Process, k: (Id, Name))
    requires Ready(p)
    ensures var after := After(b, s, CallOf(p)).marks;
      && (k in s.marks ==>
            if p.ExpireRemoving? && k.0 in p.ids then k !in after else k in after && after[k] == s.marks[k])
      && (k !in s.marks && k in after ==>
            p.Marking? && k == (p.mark.object_, p.mark.reader) && after[k] == p.mark.at)
  {
  }

  /** No call along the schedule removes the message. */
  ghost predicate Unremoved(hub: string, b: Backend, w: Shared, schedule: seq<Pid>, id: Id)
    requires Inv(w) && Possible(hub, b, w, schedule)
    decreases |schedule|
  {
    schedule == [] ||
      (!(w.running[schedule[0]].ExpireRemoving? && id in w.running[schedule[0]].ids) &&
        (StepKeepsInv(hub, b, w, schedule[0]); Unremoved(hub, b, StepOf(hub, b, w, schedule[0]), schedule[1..], id)))
  }

  /**
   Read once: under any schedule, however many reads of a message by one reader run, its first mark
   stays as it was made until the message is removed.
   */
  lemma {:induction false} FirstMarkStays(hub: string, b: Backend, w: Shared, schedule: seq<Pid>, k: (Id, Name))
    requires Inv(w) && Possible(hub, b, w, schedule) && Unremoved(hub, b, w, schedule, k.0) && k in w.store.marks
    ensures var marks := Outcome(hub, b, w, schedule).store.marks; k in marks && marks[k] == w.store.marks[k]
    decreases |schedule|
  {
    hide Descends, Distinct, KeepsIdentity, MadeOnce, Resume, AnswerTo, After, CallOf, Fresh;
    if schedule != [] {
      StepKeepsInv(hub, b, w, schedule[0]);
      CallsKeepFirstMarks(b, w.store, w.running[schedule[0]], k);
      FirstMarkStays(hub, b, StepOf(hub, b, w, schedule[0]), schedule[1..], k);
    }
  }

  // ------------------------------------------------------------ waiting mail

  /** An id given out, under which nothing is about to be stored. */
  ghost predicate Old(w: Shared, id: Id)
  {
    id in w.issued && forall pid | pid in w.running && w.running[pid].SendStoring? :: w.running[pid].message.id != id
  }

  /** Read marks, made or about to be, are only on messages that have been stored. */
  ghost predicate MarksAreOld(w: Shared)
  {
    && (forall k | k in w.store.marks :: Old(w, k.0))
    && forall pid | pid in w.running && ToMark(w.running[pid]).Some? :: Old(w, ToMark(w.running[pid]).value)
  }

  lemma StoredIsOld(w: Shared, id: Id)
    requires Inv(w) && id in w.store.messages
    ensures Old(w, id)
  {
    hide Descends, Distinct, KeepsIdentity;
    StoredIsIssued(w, id);
  }

  lemma AddressedIsOld(w: Shared, me: Name, id: Id)
    requires Inv(w) && Delivery.StillAddressed(w.store, me, id)
    ensures Old(w, id)
  {
    hide Descends, Distinct, KeepsIdentity, Old;
    StoredIsOld(w, id);
  }

  lemma OldStays(hub: string, b: Backend, w: Shared, pid: Pid, id: Id)
    requires Inv(w) && MayStep(w, pid) && Fresh(hub, w, pid) && Old(w, id)
    ensures Old(StepOf(hub, b, w, pid), id)
  {
    hide Resume, AnswerTo, After, CallOf, Descends, Distinct, KeepsIdentity, MadeOnce;
  }

  lemma StepKeepsOldMarks(hub: string, b: Backend, w: Shared, pid: Pid)
    requires Inv(w) && MayStep(w, pid) && Fresh(hub, w, pid) && MarksAreOld(w)
    ensures MarksAreOld(StepOf(hub, b, w, pid))
  {
    hide Resume, AnswerTo, After, CallOf, Descends, Distinct, KeepsIdentity, MadeOnce, ToMark, Old;
    var p := w.running[pid];
    CallsKeepMarks(b, w.store, p);
    FetchedToMark(hub, w.store, p);
    MarkingIsToMark(p);
    forall id | Old(w, id) ensures Old(StepOf(hub, b, w, pid), id) { OldStays(hub, b, w, pid, id); }
    forall id | id in w.store.messages ensures Old(w, id) { StoredIsOld(w, id); }
  }

  /** Storing a message that names `me`. */
  ghost predicate Posts(p: Process, me: Name, id: Id)
  {
    p.SendStoring? && p.message.id == id && me in p.message.Audience()
  }

  /** `me`'s own read of the message, or the removal of it. */
  ghost predicate Takes(p: Process, me: Name, id: Id)
  {
    (p.Marking? && p.mark.object_ == id && p.mark.reader == me) || (p.ExpireRemoving? && id in p.ids)
  }

  /**
   Conservation of mail, call by call. Whoever else is running, an unread message is waiting for an
   actor after a call exactly if the call posted it, or it was waiting and the call did not take it.
   */
  lemma CallsConserveMail(hub: string, b: Backend, w: Shared, pid: Pid, me: Name, id: Id)
    requires Inv(w) && MayStep(w, pid) && Fresh(hub, w, pid) && MarksAreOld(w)
    ensures var p := w.running[pid];
      Delivery.StillAddressed(StepOf(hub, b, w, pid).store, me, id) <==>
        Posts(p, me, id) || (Delivery.StillAddressed(w.store, me, id) && !Takes(p, me, id))
    ensures Old(w, id) ==> !Posts(w.running[pid], me, id)
  {
    hide Resume, AnswerTo, After, CallOf, Descends, Distinct, KeepsIdentity, ToMark;
    var p := w.running[pid];
    CallsKeepMessages(b, w.store, p);
    CallsKeepMarks(b, w.store, p);
  }

  /** No call along the schedule takes the message. */
  ghost predicate Untaken(hub: string, b: Backend, w: Shared, schedule: seq<Pid>, me: Name, id: Id)
    requires Inv(w) && Possible(hub, b, w, schedule)
    decreases |schedule|
  {
    schedule == [] ||
      (!Takes(w.running[schedule[0]], me, id) &&
        (StepKeepsInv(hub, b, w, schedule[0]); Untaken(hub, b, StepOf(hub, b, w, schedule[0]), schedule[1..], me, id)))
  }

  lemma {:induction false} TakenStaysTaken(hub: string, b: Backend, w: Shared, schedule: seq<Pid>, me: Name, id: Id)
    requires Inv(w) && Possible(hub, b, w, schedule) && MarksAreOld(w)
    requires Old(w, id) && !Delivery.StillAddressed(w.store, me, id)
    ensures !Delivery.StillAddressed(Outcome(hub, b, w, schedule).store, me, id)
    decreases |schedule|
  {
    hide Descends, Distinct, KeepsIdentity, MadeOnce, StepOf, Fresh, MarksAreOld, Old, Takes, Posts,
      Delivery.StillAddressed;
    if schedule != [] {
      StepKeepsInv(hub, b, w, schedule[0]);
      StepKeepsOldMarks(hub, b, w, schedule[0]);
      CallsConserveMail(hub, b, w, schedule[0], me, id);
      OldStays(hub, b, w, schedule[0], id);
      TakenStaysTaken(hub, b, StepOf(hub, b, w, schedule[0]), schedule[1..], me, id);
    }
  }

  /** Under any schedule, waiting mail waits exactly until its reader's own mark or its removal. */
  lemma {:induction false} MailWaitsUntilTaken(hub: string, b: Backend, w: Shared, schedule: seq<Pid>, me: Name, id: Id)
    requires Inv(w) && Possible(hub, b, w, schedule) && MarksAreOld(w) && Delivery.StillAddressed(w.store, me, id)
    ensures Delivery.StillAddressed(Outcome(hub, b, w, schedule).store, me, id) <==>
      Untaken(hub, b, w, schedule, me, id)
    decreases |schedule|
  {
    hide Descends, Distinct, KeepsIdentity, MadeOnce, StepOf, Fresh, MarksAreOld, Old, Takes, Posts,
      Delivery.StillAddressed;
    if schedule != [] {
      StepKeepsInv(hub, b, w, schedule[0]);
      StepKeepsOldMarks(hub, b, w, schedule[0]);
      CallsConserveMail(hub, b, w, schedule[0], me, id);
      AddressedIsOld(w, me, id);
      OldStays(hub, b, w, schedule[0], id);
      var next := StepOf(hub, b, w, schedule[0]);
      if Takes(w.running[schedule[0]], me, id) {
        TakenStaysTaken(hub, b, next, schedule[1..], me, id);
      } else {
        MailWaitsUntilTaken(hub, b, next, schedule[1..], me, id);
      }
    }
  }
}
