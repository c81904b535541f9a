/** A mailbox with its house rules applied: check, act, record. */
module Houses {
  import opened Outcomes
  import opened Records
  import opened StorePort
  import opened Engine
  import opened Mailboxes
  import opened Policies

  /** The refusal of the first policy that refuses. */
  function FirstRefusal(policies: seq<Policy>, a: Attempt): (r: Option<Error>)
    ensures r.None? <==> forall p | p in policies :: p.check(a).None?
  {
    if policies == [] then None
    else if policies[0].check(a).Some? then policies[0].check(a)
    else
      assert forall p :: p in policies <==> p == policies[0] || p in policies[1..];
      FirstRefusal(policies[1..], a)
  }

  /** One observation delivered to one policy, by its place in the list. */
  datatype Notice = Notice(policy: nat, event: Event)

  /** Each of the first `n` policies told once, in order. */
  function Notices(n: nat, e: Event): (r: seq<Notice>)
    ensures |r| == n && forall i | 0 <= i < n :: r[i] == Notice(i, e)
  {
    seq(n, i requires 0 <= i < n => Notice(i, e))
  }

  function SendAttempt(d: Draft): Attempt
  {
    Attempt("send", d.caller, d.to + d.cc, d.subject, d.body, None)
  }

  function ReadAttempt(caller: string, objectId: Id): Attempt
  {
    Attempt("read", caller, [], None, "", Some(objectId))
  }

  /** A join attempt carries the name asked for; none, or an empty one, shows as `<unnamed>`. */
  function JoinAttempt(requested: Option<string>): Attempt
  {
    var actor := if requested.Some? && requested.value != "" then requested.value else "<unnamed>";
    Attempt("join", actor, [], None, "", None)
  }

  /** With a name the mailbox grants or refuses it; without one it issues a name. */
  function Admitted(fold: string -> string, s: Store, requested: Option<string>, candidates: seq<Name>, now: Time)
    : Result<Actor>
  {
    if requested.Some? then GrantName(fold, s, requested.value, now) else IssueName(s, candidates, now)
  }

  /** The places of the policies that raise on being told. */
  function Failing(policies: seq<Policy>, n: nat, e: Event): seq<nat>
    requires n <= |policies|
  {
    if n == 0 then [] else Failing(policies, n - 1, e) + (if policies[n - 1].fails(e) then [n - 1] else [])
  }

  function ErrorOf<T>(r: Result<T>): Option<Error>
  {
    match r case Ok(_) => None case Err(e) => Some(e)
  }

  function SendEvent(d: Draft, r: Result<Message>): Event
  {
    Event(SendAttempt(d), ErrorOf(r), false, if r.Ok? then Some(r.value.id) else None)
  }

  function ReadEvent(caller: string, objectId: Id, r: Result<Message>): Event
  {
    Event(ReadAttempt(caller, objectId), ErrorOf(r), r.Err?, None)
  }

  function JoinEvent(requested: Option<string>, r: Result<Actor>): Event
  {
    Event(JoinAttempt(requested), ErrorOf(r), false, if r.Ok? then Some(r.value.name) else None)
  }

  class House {
    const mailbox: Mailbox
    const policies: seq<Policy>
    /** Every observation made of this house, failed observers included. */
    var told: seq<Notice>
    /** The places of the policies that raised while observing. */
    var failures: seq<nat>

    ghost predicate Valid()
      reads this, mailbox.store
    {
      mailbox.store.Valid()
    }

    ghost function View(): Store
      reads this, mailbox.store
    {
      mailbox.store.View()
    }

    /** Since then every policy was told of the event once, in order, and exactly those that raised were noted. */
    ghost predicate Observed(event: Event, formerlyTold: seq<Notice>, formerFailures: seq<nat>)
      reads this`told, this`failures
    {
      && told == formerlyTold + Notices(|policies|, event)
      && failures == formerFailures + Failing(policies, |policies|, event)
    }

    constructor (mailbox: Mailbox, policies: seq<Policy>)
      requires mailbox.store.Valid()
      ensures Valid() && this.mailbox == mailbox && this.policies == policies && told == []
    {
      this.mailbox, this.policies := mailbox, policies;
      told, failures := [], [];
    }

    method Check(attempt: Attempt) returns (refusal: Option<Error>)
      ensures refusal == FirstRefusal(policies, attempt)
    {
      for i := 0 to |policies|
        invariant FirstRefusal(policies, attempt) == FirstRefusal(policies[i..], attempt)
      {
        assert policies[i..][1..] == policies[i + 1..];
        var verdict := policies[i].check(attempt);
        if verdict.Some? {
          return verdict;
        }
      }
      return None;
    }

    /** Tell one observer, which may raise. */
    method Tell(i: nat, event: Event) returns (r: Result<()>)
      requires i < |policies|
      modifies this`told
      ensures told == old(told) + [Notice(i, event)]
      ensures r.Err? <==> policies[i].fails(event)
    {
      told := told + [Notice(i, event)];
      return if policies[i].fails(event) then Err(ObserverFailed) else Ok(());
    }

    /** Tell every observer; one that raises is noted and does not stop the rest. */
    method Record(event: Event)
      modifies this`told, this`failures
      ensures Observed(event, old(told), old(failures))
    {
      for i := 0 to |policies|
        invariant told == old(told) + Notices(|policies|, event)[..i]
        invariant failures == old(failures) + Failing(policies, i, event)
      {
        var observed := Tell(i, event);
        if observed.Err? {
          failures := failures + [i];
        }
        assert Notices(|policies|, event)[..i + 1] == Notices(|policies|, event)[..i] + [Notice(i, event)];
      }
    }

    /** Establish the standing residents of every policy. */
    method Open(now: Time)
      requires Valid()
      modifies mailbox.store
      ensures Valid()
      ensures View() == OpenedBy(old(View()), policies, now)
      ensures told == old(told)
    {
      for i := 0 to |policies|
        invariant Valid() && told == old(told)
        invariant OpenedBy(old(View()), policies, now) == OpenedBy(View(), policies[i..], now)
      {
        assert policies[i..][1..] == policies[i + 1..];
        OnOpen(policies[i].residents, now);
      }
    }

    /** `StandingResidents.on_open`: install each resident who is not there. */
    method OnOpen(residents: seq<(Name, Profile)>, now: Time)
      requires Valid()
      modifies mailbox.store
      ensures Valid() && View() == Settled(old(View()), residents, now)
      ensures told == old(told)
    {
      hide InMemory.Flatten;
      for i := 0 to |residents|
        invariant Valid() && told == old(told)
        invariant Settled(old(View()), residents, now) == Settled(View(), residents[i..], now)
      {
        assert residents[i..][1..] == residents[i + 1..];
        var known := mailbox.store.GetActor(residents[i].0);
        if known.None? {
          var actor := mailbox.InstallResident(residents[i].0, residents[i].1, now);
        }
      }
    }

    method Send(d: Draft, id: Id, now: Time) returns (r: Result<Message>)
      requires Valid()
      modifies this`told, this`failures, mailbox.store
      ensures Valid()
      ensures var refusal := FirstRefusal(policies, SendAttempt(d));
        if refusal.Some?
        then r == Err(refusal.value) && View() == old(View()) && unchanged(this`told, this`failures)
        else
          && r == Compose(mailbox.hub, old(View()), d, id, now) && View() == Stored(old(View()), r)
          && Observed(SendEvent(d, r), old(told), old(failures))
    {
      hide Compose, FirstRefusal, InMemory.Flatten;
      var attempt := SendAttempt(d);
      var refusal := Check(attempt);
      if refusal.Some? {
        return Err(refusal.value);
      }
      r := mailbox.Send(d, id, now);
      Record(SendEvent(d, r));
    }

    method Read(caller: string, objectId: Id, now: Time) returns (r: Result<Message>)
      requires Valid()
      modifies this`told, this`failures, mailbox.store
      ensures Valid()
      ensures var refusal := FirstRefusal(policies, ReadAttempt(caller, objectId));
        if refusal.Some?
        then r == Err(refusal.value) && View() == old(View()) && unchanged(this`told, this`failures)
        else
          && r == Visible(mailbox.hub, old(View()), caller, objectId)
          && (r.Ok? ==> RequireActor(mailbox.hub, old(View()), caller).Ok?)
          && View() == (if r.Ok?
               then Marked(old(View()), objectId, RequireActor(mailbox.hub, old(View()), caller).value.name, now)
               else old(View()))
          && Observed(ReadEvent(caller, objectId, r), old(told), old(failures))
    {
      hide Visible, FirstRefusal, RequireActor, InMemory.Flatten;
      var attempt := ReadAttempt(caller, objectId);
      var refusal := Check(attempt);
      if refusal.Some? {
        return Err(refusal.value);
      }
      r := mailbox.Read(caller, objectId, now);
      Record(ReadEvent(caller, objectId, r));
    }

    /** Join, with the name asked for or, where none is, with the first free one issued. */
    method Join(requested: Option<string>, candidates: seq<Name>, now: Time) returns (r: Result<Actor>)
      requires Valid()
      modifies this`told, this`failures, mailbox.store
      ensures Valid()
      ensures var refusal := FirstRefusal(policies, JoinAttempt(requested));
        if refusal.Some?
        then r == Err(refusal.value) && View() == old(View()) && unchanged(this`told, this`failures)
        else
          && r == Admitted(mailbox.fold, old(View()), requested, candidates, now)
          && View() == (if r.Ok? then Claimed(old(View()), r.value) else old(View()))
          && Observed(JoinEvent(requested, r), old(told), old(failures))
    {
      hide GrantName, IssueName, FirstRefusal, InMemory.Flatten;
      var attempt := JoinAttempt(requested);
      var refusal := Check(attempt);
      if refusal.Some? {
        return Err(refusal.value);
      }
      if requested.Some? {
        r := mailbox.Join(requested.value, now);
      } else {
        r := mailbox.JoinIssued(candidates, now);
      }
      Record(JoinEvent(requested, r));
    }

    /** A reply the house permits is the mailbox's own reply. */
    method Reply(caller: string, objectId: Id, body: string, subject: Option<string>, id: Id, now: Time)
      returns (r: Result<Message>)
      requires Valid()
      modifies this`told, this`failures, mailbox.store
      ensures Valid()
      ensures var original := Visible(mailbox.hub, old(View()), caller, objectId);
        if original.Err?
        then r == Err(original.error) && View() == old(View()) && unchanged(this`told, this`failures)
        else
          var attempt := SendAttempt(ReplyDraft(caller, original.value, body, subject));
          var refusal := FirstRefusal(policies, attempt);
          if refusal.Some?
          then r == Err(refusal.value) && View() == old(View()) && unchanged(this`told, this`failures)
          else
            && r == ComposeReply(mailbox.hub, old(View()), caller, objectId, body, subject, id, now)
            && View() == Stored(old(View()), r)
            && Observed(SendEvent(ReplyDraft(caller, original.value, body, subject), r), old(told), old(failures))
    {
      hide Compose, Visible, FirstRefusal, ReplyDraft, InMemory.Flatten;
      var original := mailbox.VisibleObject(caller, objectId);
      if original.Err? {
        return Err(original.error);
      }
      r := Send(ReplyDraft(caller, original.value, body, subject), id, now);
    }
  }

  function OpenedBy(s: Store, policies: seq<Policy>, now: Time): Store
    decreases |policies|
  {
    if policies == [] then s else OpenedBy(Settled(s, policies[0].residents, now), policies[1..], now)
  }

  /** Afterwards every policy's residents exist, nobody who existed was disturbed, and no mail was touched. */
  lemma {:induction false} OpeningSettles(s: Store, policies: seq<Policy>, now: Time)
    ensures var t := OpenedBy(s, policies, now);
      && (forall p, r | p in policies && r in p.residents :: r.0 in t.actors)
      && (forall n | n in s.actors :: n in t.actors && t.actors[n] == s.actors[n])
      && t.messages == s.messages && t.marks == s.marks
    decreases |policies|
  {
    if policies != [] {
      var first := Settled(s, policies[0].residents, now);
      ResidentsSettle(s, policies[0].residents, now);
      OpeningSettles(first, policies[1..], now);
      forall p | p in policies ensures p == policies[0] || p in policies[1..] {}
    }
  }

  lemma {:induction false} OpenStays(s: Store, policies: seq<Policy>, now: Time)
    requires forall p, r | p in policies && r in p.residents :: r.0 in s.actors
    ensures OpenedBy(s, policies, now) == s
    decreases |policies|
  {
    if policies != [] {
      assert policies[0] in policies && forall p | p in policies[1..] :: p in policies;
      SettledStays(s, policies[0].residents, now);
      OpenStays(s, policies[1..], now);
    }
  }

  /** Reopening disturbs no one: a resident whose profile was edited keeps the edit. */
  lemma ReopeningChangesNothing(s: Store, t: Store, policies: seq<Policy>, now: Time, later: Time)
    requires forall n | n in OpenedBy(s, policies, now).actors :: n in t.actors
    ensures OpenedBy(t, policies, later) == t
  {
    OpeningSettles(s, policies, now);
    OpenStays(t, policies, later);
  }

  /** Whatever a house with limits lets through is within them. */
  lemma LimitsHold(policies: seq<Policy>, d: Draft, maxBodyBytes: nat, maxRecipients: nat)
    requires MessageLimits(maxBodyBytes, maxRecipients) in policies
    requires FirstRefusal(policies, SendAttempt(d)).None?
    ensures Utf8Length(d.body) <= maxBodyBytes && |d.to| + |d.cc| <= maxRecipients
  {
    assert MessageLimits(maxBodyBytes, maxRecipients).check(SendAttempt(d)).None?;
  }

  /** Opening with the standing residents: `admin` and `host` exist, with their profiles if nothing made them before. */
  lemma {:induction false} StandingAfterOpening(s: Store, policies: seq<Policy>, admin: Profile, host: Profile,
                                                now: Time)
    requires StandingResidents(admin, host) in policies
    requires forall p, r | p in policies && p != StandingResidents(admin, host) && r in p.residents ::
      r.0 != "admin" && r.0 != "host"
    ensures var t := OpenedBy(s, policies, now).actors;
      && "admin" in t && "host" in t
      && t["admin"] == (if "admin" in s.actors then s.actors["admin"] else Actor("admin", Service, admin, now, now))
      && t["host"] == (if "host" in s.actors then s.actors["host"] else Actor("host", Service, host, now, now))
    decreases |policies|
  {
    var first := Settled(s, policies[0].residents, now);
    ResidentsSettle(s, policies[0].residents, now);
    OpeningSettles(first, policies[1..], now);
    StandingResidentsStand(s, admin, host, now);
    assert policies[0] in policies && forall p | p in policies[1..] :: p in policies;
    if policies[0] != StandingResidents(admin, host) {
      StandingAfterOpening(first, policies[1..], admin, host, now);
    }
  }

  // ------------------------------------------------------------ what is checked and told

  /** The error is that of the first policy in the list that refuses. */
  lemma {:induction false} FirstRefusalMeans(policies: seq<Policy>, a: Attempt)
    ensures var r := FirstRefusal(policies, a);
      if forall i | 0 <= i < |policies| :: policies[i].check(a).None? then r == None
      else
        exists i :: 0 <= i < |policies| && policies[i].check(a).Some? && r == policies[i].check(a)
          && forall j | 0 <= j < i :: policies[j].check(a).None?
  {
    if policies != [] && policies[0].check(a).None? {
      FirstRefusalMeans(policies[1..], a);
      forall i | 0 < i < |policies| ensures policies[i] == policies[1..][i - 1] {}
      if i :| 0 <= i < |policies[1..]| && policies[1..][i].check(a).Some?
              && FirstRefusal(policies[1..], a) == policies[1..][i].check(a)
              && forall j | 0 <= j < i :: policies[1..][j].check(a).None? {
        assert policies[i + 1].check(a).Some?;
        assert FirstRefusal(policies, a) == policies[i + 1].check(a);
      }
    }
  }

  /** What each attempt shows the policies: who, to whom, what; and for a join the name, or that there is none. */
  lemma AttemptsShow(d: Draft, caller: string, objectId: Id, requested: Option<string>)
    ensures SendAttempt(d) == Attempt("send", d.caller, d.to + d.cc, d.subject, d.body, None)
    ensures ReadAttempt(caller, objectId) == Attempt("read", caller, [], None, "", Some(objectId))
    ensures JoinAttempt(requested) == Attempt("join",
      if requested == None || requested == Some("") then "<unnamed>" else requested.value, [], None, "", None)
  {
  }

  /** A limit holds for the recipients and the body of the draft, whatever else is checked, and refuses nothing else. */
  lemma LimitsRefuse(policies: seq<Policy>, d: Draft, maxBodyBytes: nat, maxRecipients: nat)
    requires MessageLimits(maxBodyBytes, maxRecipients) in policies
    requires forall p | p in policies && p != MessageLimits(maxBodyBytes, maxRecipients) ::
      p.check(SendAttempt(d)).None?
    ensures FirstRefusal(policies, SendAttempt(d)) ==
      if Utf8Length(d.body) > maxBodyBytes || |d.to| + |d.cc| > maxRecipients
      then Some(PolicyRefusal("message_limits")) else None
  {
    FirstRefusalMeans(policies, SendAttempt(d));
    LimitsDecide(maxBodyBytes, maxRecipients, SendAttempt(d));
    assert MessageLimits(maxBodyBytes, maxRecipients) in policies;
    assert forall i | 0 <= i < |policies| :: policies[i] in policies;
    var i :| 0 <= i < |policies| && policies[i] == MessageLimits(maxBodyBytes, maxRecipients);
  }

  /**
   Watching a house: a read is counted against its caller exactly if the mailbox refused it, and a
   send exactly if it was refused for a message that is not there.
   */
  lemma ProbesAreRefusals(events: seq<Event>, actor: string, caller: string, objectId: Id, read: Result<Message>,
                          d: Draft, sent: Result<Message>)
    ensures Probes(events + [ReadEvent(caller, objectId, read)], actor) ==
      Probes(events, actor) + (if read.Err? && caller == actor then 1 else 0)
    ensures Probes(events + [SendEvent(d, sent)], actor) ==
      Probes(events, actor) + (if sent == Err(NoSuchMessage) && d.caller == actor then 1 else 0)
  {
    forall e: Event ensures (events + [e])[..|events + [e]| - 1] == events {}
  }

  /** Exactly the policies that raise are noted, each once and in order. */
  lemma {:induction false} FailingMeans(policies: seq<Policy>, n: nat, e: Event)
    requires n <= |policies|
    ensures var failing := Failing(policies, n, e);
      && (forall i: nat :: i in failing <==> i < n && policies[i].fails(e))
      && forall i, j | 0 <= i < j < |failing| :: failing[i] < failing[j]
  {
    if n > 0 {
      FailingMeans(policies, n - 1, e);
      var before := Failing(policies, n - 1, e);
      forall i | 0 <= i < |before| ensures before[i] < n - 1 { assert before[i] in before; }
    }
  }

  /** What observers are told: the attempt; the error of a failure; the new id or name of a success. */
  lemma EventsTell(d: Draft, sent: Result<Message>, caller: string, objectId: Id, read: Result<Message>,
                   requested: Option<string>, joined: Result<Actor>)
    ensures SendEvent(d, sent) ==
      match sent
      case Ok(o) => Event(SendAttempt(d), None, false, Some(o.id))
      case Err(e) => Event(SendAttempt(d), Some(e), false, None)
    ensures ReadEvent(caller, objectId, read) ==
      match read
      case Ok(_) => Event(ReadAttempt(caller, objectId), None, false, None)
      case Err(e) => Event(ReadAttempt(caller, objectId), Some(e), true, None)
    ensures JoinEvent(requested, joined) ==
      match joined
      case Ok(a) => Event(JoinAttempt(requested), None, false, Some(a.name))
      case Err(e) => Event(JoinAttempt(requested), Some(e), false, None)
  {
  }
}
