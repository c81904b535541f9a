/** House rules: standing residents, limits, and observers. */
module Policies {
  import opened Outcomes
  import opened Records
  import opened StorePort
  import opened Engine
  import Naming

  /** Something an actor is about to do. */
  datatype Attempt = Attempt(
    action: string,
    actor: string,
    recipients: seq<string>,
    subject: Option<string>,
    body: string,
    objectId: Option<Id>)

  /** What actually happened: no error means it succeeded, and then `detail` is the sent id or the joined name. */
  datatype Event = Event(attempt: Attempt, error: Option<Error>, notYours: bool, detail: Option<string>)

  /**
   A policy's three moments. `check` may refuse; `fails` tells which observations the policy
   raises on. Neither changes the mailbox.
   */
  datatype Policy = Policy(
    name: string,
    residents: seq<(Name, Profile)>,
    check: Attempt -> Option<Error>,
    fails: Event -> bool)

  // ------------------------------------------------------------ limits

  function Utf8Length(s: string): nat
  {
    if s == "" then 0 else
      (if s[0] < '\U{80}' then 1 else if s[0] < '\U{800}' then 2 else if s[0] < '\U{10000}' then 3 else 4)
        + Utf8Length(s[1..])
  }

  /** `message_limits`: size and reach, for sends only. */
  function MessageLimits(maxBodyBytes: nat, maxRecipients: nat): Policy
  {
    Policy("message_limits", [],
      (a: Attempt) =>
        if a.action == "send" && (Utf8Length(a.body) > maxBodyBytes || |a.recipients| > maxRecipients)
        then Some(PolicyRefusal("message_limits")) else None,
      (e: Event) => false)
  }

  /** How many characters of `s` are `least` or beyond. */
  function HowMany(s: string, least: char): nat
  {
    if s == "" then 0 else (if s[0] >= least then 1 else 0) + HowMany(s[1..], least)
  }

  /** One byte a character, and one more from each of U+0080, U+0800 and U+10000 on. */
  lemma {:induction false} Utf8LengthCounts(s: string)
    ensures Utf8Length(s) ==
      |s| + HowMany(s, '\U{80}') + HowMany(s, '\U{800}') + HowMany(s, '\U{10000}')
  {
    if s != "" { Utf8LengthCounts(s[1..]); }
  }

  /** Limits refuse exactly the sends that are too long or too wide, under their own name, and say nothing else. */
  lemma LimitsDecide(maxBodyBytes: nat, maxRecipients: nat, a: Attempt)
    ensures MessageLimits(maxBodyBytes, maxRecipients).check(a) ==
      if a.action == "send" && (Utf8Length(a.body) > maxBodyBytes || |a.recipients| > maxRecipients)
      then Some(PolicyRefusal("message_limits")) else None
    ensures MessageLimits(maxBodyBytes, maxRecipients).residents == []
  {
  }

  // ------------------------------------------------------------ standing residents

  function StandingResidents(admin: Profile, host: Profile): Policy
  {
    var residents := [(Naming.ADMIN, admin), (Naming.HOST, host)];
    Policy("standing_residents", residents, (a: Attempt) => None, (e: Event) => false)
  }

  /** The store once every resident has been installed who was not there. */
  function Settled(s: Store, residents: seq<(Name, Profile)>, now: Time): Store
    decreases |residents|
  {
    if residents == [] then s
    else Settled(Claimed(s, NewActor(residents[0].0, residents[0].1, now)), residents[1..], now)
  }

  /** Afterwards every resident exists, and nobody who existed was disturbed. */
  lemma {:induction false} ResidentsSettle(s: Store, residents: seq<(Name, Profile)>, now: Time)
    ensures var t := Settled(s, residents, now);
      && (forall r | r in residents :: r.0 in t.actors)
      && (forall n | n in s.actors :: n in t.actors && t.actors[n] == s.actors[n])
      && (forall n | n in t.actors && n !in s.actors ::
           exists r :: r in residents && r.0 == n && t.actors[n] == Actor(n, Service, r.1, now, now))
      && t.messages == s.messages && t.marks == s.marks
    decreases |residents|
  {
    if residents != [] {
      var first := NewActor(residents[0].0, residents[0].1, now);
      ResidentsSettle(Claimed(s, first), residents[1..], now);
      forall r | r in residents ensures r == residents[0] || r in residents[1..] {}
      assert residents[0] in residents && forall r | r in residents[1..] :: r in residents;
    }
  }

  /** `admin` and `host` exist afterwards; either that did not is a plain actor with its profile. */
  lemma StandingResidentsStand(s: Store, admin: Profile, host: Profile, now: Time)
    ensures var t := Settled(s, StandingResidents(admin, host).residents, now).actors;
      && "admin" in t && "host" in t
      && t["admin"] == (if "admin" in s.actors then s.actors["admin"] else Actor("admin", Service, admin, now, now))
      && t["host"] == (if "host" in s.actors then s.actors["host"] else Actor("host", Service, host, now, now))
      && forall n | n != "admin" && n != "host" :: (n in t <==> n in s.actors) && (n in t ==> t[n] == s.actors[n])
  {
    var residents := StandingResidents(admin, host).residents;
    var first := Claimed(s, NewActor("admin", admin, now));
    var second := Claimed(first, NewActor("host", host, now));
    assert residents[1..] == [("host", host)] && residents[1..][1..] == [];
    assert residents[0] == ("admin", admin) && residents[1..][0] == ("host", host);
    assert Settled(s, residents, now) == Settled(first, residents[1..], now);
    assert Settled(first, residents[1..], now) == Settled(second, [], now) == second;
  }

  /** Where every resident exists already, installing them changes nothing. */
  lemma {:induction false} SettledStays(s: Store, residents: seq<(Name, Profile)>, now: Time)
    requires forall r | r in residents :: r.0 in s.actors
    ensures Settled(s, residents, now) == s
    decreases |residents|
  {
    if residents != [] {
      assert residents[0] in residents && forall r | r in residents[1..] :: r in residents;
      SettledStays(s, residents[1..], now);
    }
  }

  // ------------------------------------------------------------ watching for probes

  /** A refusal worth counting: reaching for something that is not the caller's. */
  predicate IsProbe(e: Event)
  {
    e.error.Some? && (e.notYours || e.error.value == NoSuchMessage)
  }

  ghost function Probes(events: seq<Event>, actor: string): nat
  {
    if events == [] then 0 else
      var last := events[|events| - 1];
      Probes(events[..|events| - 1], actor) + (if IsProbe(last) && last.attempt.actor == actor then 1 else 0)
  }

  class ProbeDetector {
    const threshold: nat
    var refusals: map<string, nat>
    ghost var observed: seq<Event>

    /** The counter of each actor is the number of its observed probes. */
    ghost predicate Valid()
      reads this
    {
      forall actor: string :: Probes(observed, actor) == if actor in refusals then refusals[actor] else 0
    }

    constructor (threshold: nat)
      ensures Valid() && observed == [] && this.threshold == threshold
    {
      this.threshold, refusals, observed := threshold, map[], [];
    }

    /** Observe, and report an actor whose probes have reached the threshold. */
    method Record(e: Event) returns (warned: bool)
      requires Valid()
      modifies this
      ensures Valid() && observed == old(observed) + [e]
      ensures warned <==> IsProbe(e) && Probes(observed, e.attempt.actor) >= threshold
    {
      observed := observed + [e];
      assert observed[..|observed| - 1] == old(observed);
      var actor := e.attempt.actor;
      if !IsProbe(e) {
        return false;
      }
      var seen := (if actor in refusals then refusals[actor] else 0) + 1;
      refusals := refusals[actor := seen];
      return seen >= threshold;
    }

    method RefusalsFor(actor: string) returns (n: nat)
      requires Valid()
      ensures n == Probes(observed, actor)
    {
      return if actor in refusals then refusals[actor] else 0;
    }
  }
}
