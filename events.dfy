/** `src/controllers/event/events.controller.ts`: the public list of events,
    each shown with whether registration is open or full and how many have
    registered, split into upcoming, ongoing and past events. The rows come
    in the query's order (`ORDER BY event_start_time ASC`, NULLs last);
    timestamps are milliseconds and `now` is a parameter. */
module EventsController {
  import opened Http
  import opened Schema
  import opened Db
  import RegistrationController

  /** `new Date(x)` of a timestamp column: a NULL reads as the epoch. */
  function DateOf(t: Option<int>): (d: int)
    ensures t.Some? ==> d == t.value
    ensures t.None? ==> d == 0
  {
    if t.None? then 0 else t.value
  }

  datatype Bucket = Upcoming | Ongoing | Past

  /** The categorisation (104-110): before the start, between start and
      end inclusive, or after the end. */
  function BucketOf(start: Option<int>, end: Option<int>, now: int): (b: Bucket)
    ensures b == Upcoming <==> now < DateOf(start)
    ensures b == Ongoing <==> DateOf(start) <= now <= DateOf(end)
    ensures b == Past <==> DateOf(start) <= now && DateOf(end) < now
  {
    if now < DateOf(start) then Upcoming
    else if now <= DateOf(end) then Ongoing
    else Past
  }

  /** `regOpen` (66): inclusive at both ends. */
  predicate RegOpen(regStart: Option<int>, regEnd: Option<int>, now: int) {
    DateOf(regStart) <= now <= DateOf(regEnd)
  }

  /** With both bounds set, `regOpen` is exactly the window registration
      enforces. */
  lemma RegOpenMatchesWindow(regStart: Option<int>, regEnd: Option<int>, now: int)
    requires regStart.Some? && regEnd.Some?
    ensures RegOpen(regStart, regEnd, now) <==> RegistrationController.InWindow(regStart, regEnd, now)
  {
  }

  /** Without an end the list shows registration closed (the end reads as
      the epoch) while registering is accepted, since a missing bound is
      open there. */
  lemma OpenEndedWindowShownClosed(regStart: Option<int>, now: int)
    requires 0 < now && (regStart.None? || regStart.value <= now)
    ensures RegistrationController.InWindow(regStart, None, now)
    ensures !RegOpen(regStart, None, now)
  {
  }

  /** `Number(x) || 0` of `max_registrations`: NULL reads as 0. */
  function CapOf(maxRegistrations: Option<int>): (m: int)
    ensures maxRegistrations.None? ==> m == 0
    ensures maxRegistrations.Some? ==> m == maxRegistrations.value
  {
    if maxRegistrations.None? then 0 else maxRegistrations.value
  }

  /** `isRegistrationFull` (68). */
  predicate IsRegistrationFull(count: int, maxRegistrations: Option<int>) {
    CapOf(maxRegistrations) > 0 && count >= CapOf(maxRegistrations)
  }

  /** An event without a cap (NULL or 0) is never shown full. */
  lemma UncappedNeverFull(count: int, maxRegistrations: Option<int>)
    requires !RegistrationController.Capped(maxRegistrations)
    ensures !IsRegistrationFull(count, maxRegistrations)
  {
  }

  /** For a positive cap, "full" is exactly when registering is refused
      for capacity; a negative cap refuses every registration while the
      list never shows the event full. */
  lemma FullMatchesCapacityCheck(count: int, maxRegistrations: Option<int>)
    ensures CapOf(maxRegistrations) >= 0 ==>
              (IsRegistrationFull(count, maxRegistrations) <==>
                 RegistrationController.Capped(maxRegistrations) && count >= maxRegistrations.value)
    ensures CapOf(maxRegistrations) < 0 ==>
              !IsRegistrationFull(count, maxRegistrations) &&
              (count >= 0 ==> RegistrationController.Capped(maxRegistrations) && count >= maxRegistrations.value)
  {
  }

  /** `registrations_count` (36-47): a solo event counts its registrations,
      any other event all its teams. */
  function RegistrationsCount(regs: map<RegId, Registration>, teams: map<TeamId, Team>,
                              id: EventId, e: Event): (n: nat)
    ensures e.maxTeamSize == 1 ==> n == |RegistrationsOf(regs, id)|
    ensures e.maxTeamSize != 1 ==> n == |TeamsOf(teams, id)|
  {
    if e.maxTeamSize == 1 then |RegistrationsOf(regs, id)| else |TeamsOf(teams, id)|
  }

  /** The count shown is never below the count registration checks the cap
      against: a team event shows every team, registration counts only the
      teams with a member. */
  lemma ShownCountCoversCapacityCount(regs: map<RegId, Registration>, teams: map<TeamId, Team>,
                                      links: map<RegId, TeamId>, id: EventId, e: Event)
    requires 0 < e.maxTeamSize
    ensures RegistrationController.CurrentRegistrationCount(regs, teams, links, id, e.maxTeamSize > 1)
            <= RegistrationsCount(regs, teams, id, e)
    ensures e.maxTeamSize == 1 ==>
              RegistrationController.CurrentRegistrationCount(regs, teams, links, id, false)
              == RegistrationsCount(regs, teams, id, e)
  {
  }

  /** One entry of the list (71-101), with timestamps for the formatted
      dates. */
  datatype EventView = EventView(
    id: EventId,
    name: string,
    start: Option<int>,
    end: Option<int>,
    regStart: Option<int>,
    regEnd: Option<int>,
    regOpen: bool,
    isRegistrationFull: bool,
    feePaise: int,
    minTeamSize: int,
    maxTeamSize: int,
    status: EventStatus,
    registrationsCount: nat,
    maxRegistrations: int)

  function ViewOf(id: EventId, e: Event, count: nat, now: int): (v: EventView)
    ensures v.regOpen <==> RegOpen(e.regStart, e.regEnd, now)
    ensures v.isRegistrationFull <==> IsRegistrationFull(count, e.maxRegistrations)
    ensures v.registrationsCount == count && v.maxRegistrations == CapOf(e.maxRegistrations)
    ensures v.start == e.eventStart && v.end == e.eventEnd
  {
    EventView(id, e.name, e.eventStart, e.eventEnd, e.regStart, e.regEnd,
              RegOpen(e.regStart, e.regEnd, now), IsRegistrationFull(count, e.maxRegistrations),
              e.feePaise, e.minTeamSize, e.maxTeamSize, e.status, count, CapOf(e.maxRegistrations))
  }

  /** The entries of the rows, in the rows' order. */
  function Views(events: map<EventId, Event>, regs: map<RegId, Registration>, teams: map<TeamId, Team>,
                 order: seq<EventId>, now: int): (vs: seq<EventView>)
    requires forall i :: 0 <= i < |order| ==> order[i] in events
    ensures |vs| == |order|
    ensures forall i :: 0 <= i < |order| ==>
              vs[i] == ViewOf(order[i], events[order[i]], RegistrationsCount(regs, teams, order[i], events[order[i]]), now)
  {
    seq(|order|, i requires 0 <= i < |order| =>
      ViewOf(order[i], events[order[i]], RegistrationsCount(regs, teams, order[i], events[order[i]]), now))
  }

  /** The entries of one bucket, in list order. */
  function InBucket(vs: seq<EventView>, b: Bucket, now: int): (r: seq<EventView>)
    ensures |r| <= |vs|
  {
    if vs == [] then []
    else
      var last := vs[|vs| - 1];
      InBucket(vs[..|vs| - 1], b, now) + (if BucketOf(last.start, last.end, now) == b then [last] else [])
  }

  /** A bucket holds entries of the list that belong to it, and every
      such entry. */
  lemma {:induction false} InBucketMembers(vs: seq<EventView>, b: Bucket, now: int)
    ensures forall v :: v in InBucket(vs, b, now) <==> v in vs && BucketOf(v.start, v.end, now) == b
  {
    if vs != [] {
      var init, last := vs[..|vs| - 1], vs[|vs| - 1];
      assert vs == init + [last];
      InBucketMembers(init, b, now);
    }
  }

  /** Appending an entry appends it to its own bucket only. */
  lemma InBucketSnoc(vs: seq<EventView>, v: EventView, b: Bucket, now: int)
    ensures InBucket(vs + [v], b, now) == InBucket(vs, b, now) + (if BucketOf(v.start, v.end, now) == b then [v] else [])
  {
    assert (vs + [v])[..|vs|] == vs;
  }

  /** One more entry of the list: it joins its own bucket and no other. */
  lemma InBucketStep(vs: seq<EventView>, i: nat, now: int)
    requires i < |vs|
    ensures forall b: Bucket :: InBucket(vs[..i + 1], b, now)
              == InBucket(vs[..i], b, now) + (if BucketOf(vs[i].start, vs[i].end, now) == b then [vs[i]] else [])
  {
    assert vs[..i + 1] == vs[..i] + [vs[i]];
    forall b: Bucket
      ensures InBucket(vs[..i + 1], b, now)
              == InBucket(vs[..i], b, now) + (if BucketOf(vs[i].start, vs[i].end, now) == b then [vs[i]] else [])
    {
      InBucketSnoc(vs[..i], vs[i], b, now);
    }
  }

  /** Every entry lands in exactly one bucket, as often as it occurs. */
  lemma {:induction false} BucketsPartition(vs: seq<EventView>, now: int)
    ensures multiset(InBucket(vs, Upcoming, now)) + multiset(InBucket(vs, Ongoing, now))
            + multiset(InBucket(vs, Past, now)) == multiset(vs)
  {
    if vs != [] {
      var init, last := vs[..|vs| - 1], vs[|vs| - 1];
      assert vs == init + [last];
      BucketsPartition(init, now);
      InBucketSnoc(init, last, Upcoming, now);
      InBucketSnoc(init, last, Ongoing, now);
      InBucketSnoc(init, last, Past, now);
      assert multiset(vs) == multiset(init) + multiset{last};
    }
  }

  /** `ORDER BY event_start_time ASC` (NULLs last) between two entries. */
  predicate StartsNoLater(a: Option<int>, b: Option<int>) {
    if a.None? then b.None? else b.None? || a.value <= b.value
  }

  predicate InStartOrder(vs: seq<EventView>) {
    forall i, j :: 0 <= i < j < |vs| ==> StartsNoLater(vs[i].start, vs[j].start)
  }

  /** Each bucket keeps the query's start-time order. */
  lemma {:induction false} BucketKeepsOrder(vs: seq<EventView>, b: Bucket, now: int)
    requires InStartOrder(vs)
    ensures InStartOrder(InBucket(vs, b, now))
  {
    if vs != [] {
      var init, last := vs[..|vs| - 1], vs[|vs| - 1];
      assert InStartOrder(init);
      BucketKeepsOrder(init, b, now);
      InBucketMembers(init, b, now);
      var a := InBucket(init, b, now);
      forall x | x in a ensures StartsNoLater(x.start, last.start) {
        var k :| 0 <= k < |init| && init[k] == x;
      }
    }
  }

  /** The ids of a list of entries. */
  function Ids(vs: seq<EventView>): (ids: seq<EventId>)
    ensures |ids| == |vs| && forall i :: 0 <= i < |vs| ==> ids[i] == vs[i].id
  {
    seq(|vs|, i requires 0 <= i < |vs| => vs[i].id)
  }

  lemma IdsConcat(a: seq<EventView>, b: seq<EventView>)
    ensures Ids(a + b) == Ids(a) + Ids(b)
  {
    assert forall i :: 0 <= i < |a + b| ==> Ids(a + b)[i] == (Ids(a) + Ids(b))[i];
  }

  /** Appending an entry adds its id to its own bucket's ids only. */
  lemma IdsSnoc(vs: seq<EventView>, v: EventView, b: Bucket, now: int)
    ensures multiset(Ids(InBucket(vs + [v], b, now)))
            == multiset(Ids(InBucket(vs, b, now))) + if BucketOf(v.start, v.end, now) == b then multiset{v.id} else multiset{}
  {
    InBucketSnoc(vs, v, b, now);
    IdsConcat(InBucket(vs, b, now), if BucketOf(v.start, v.end, now) == b then [v] else []);
  }

  /** Appending an entry adds its id to the buckets' ids once. */
  lemma IdsSnocAll(vs: seq<EventView>, v: EventView, now: int)
    ensures multiset(Ids(InBucket(vs + [v], Upcoming, now))) + multiset(Ids(InBucket(vs + [v], Ongoing, now)))
            + multiset(Ids(InBucket(vs + [v], Past, now)))
            == multiset(Ids(InBucket(vs, Upcoming, now))) + multiset(Ids(InBucket(vs, Ongoing, now)))
               + multiset(Ids(InBucket(vs, Past, now))) + multiset{v.id}
  {
    IdsSnoc(vs, v, Upcoming, now);
    IdsSnoc(vs, v, Ongoing, now);
    IdsSnoc(vs, v, Past, now);
  }

  /** Every entry's id lands in exactly one bucket, as often as it occurs. */
  lemma {:induction false} IdsPartition(vs: seq<EventView>, now: int)
    ensures multiset(Ids(InBucket(vs, Upcoming, now))) + multiset(Ids(InBucket(vs, Ongoing, now)))
            + multiset(Ids(InBucket(vs, Past, now))) == multiset(Ids(vs))
  {
    if vs != [] {
      var init, last := vs[..|vs| - 1], vs[|vs| - 1];
      assert vs == init + [last];
      IdsPartition(init, now);
      IdsSnocAll(init, last, now);
      assert Ids(vs) == Ids(init) + [last.id] by {
        IdsConcat(init, [last]);
      }
    }
  }

  /** In a sequence without repeats every element occurs once. */
  lemma {:induction false} DistinctOnce(order: seq<EventId>)
    requires forall i, j :: 0 <= i < j < |order| ==> order[i] != order[j]
    ensures forall id :: multiset(order)[id] == if id in order then 1 else 0
  {
    if order != [] {
      var init, last := order[..|order| - 1], order[|order| - 1];
      assert order == init + [last];
      DistinctOnce(init);
      assert last !in init;
    }
  }

  /** The rows of the query (31-57): every event exactly once, in
      `ORDER BY event_start_time ASC` order. */
  predicate QueryOrder(events: map<EventId, Event>, order: seq<EventId>) {
    && (forall i :: 0 <= i < |order| ==> order[i] in events)
    && (forall i, j :: 0 <= i < j < |order| ==> order[i] != order[j])
    && (forall id :: id in events ==> id in order)
    && (forall i, j :: 0 <= i < j < |order| ==>
          StartsNoLater(events[order[i]].eventStart, events[order[j]].eventStart))
  }

  /** An entry of a bucket: the view of an existing event, shown with its
      count, whose dates place it in bucket `b`. */
  predicate BucketEntries(events: map<EventId, Event>, regs: map<RegId, Registration>, teams: map<TeamId, Team>,
                          vs: seq<EventView>, b: Bucket, now: int)
  {
    forall v :: v in vs ==>
      && v.id in events
      && v == ViewOf(v.id, events[v.id], RegistrationsCount(regs, teams, v.id, events[v.id]), now)
      && BucketOf(v.start, v.end, now) == b
  }

  /** Over the query's rows, the three buckets split the events: each event
      appears in exactly one of them, once, as its own view; every bucket
      holds only entries that belong to it, and keeps start-time order. */
  lemma BucketsOfQuery(events: map<EventId, Event>, regs: map<RegId, Registration>, teams: map<TeamId, Team>,
                       order: seq<EventId>, now: int)
    requires QueryOrder(events, order)
    ensures var vs := Views(events, regs, teams, order, now);
            var up, on, past := InBucket(vs, Upcoming, now), InBucket(vs, Ongoing, now), InBucket(vs, Past, now);
            && (forall id :: (multiset(Ids(up)) + multiset(Ids(on)) + multiset(Ids(past)))[id]
                               == if id in events then 1 else 0)
            && InStartOrder(up) && InStartOrder(on) && InStartOrder(past)
            && BucketEntries(events, regs, teams, up, Upcoming, now)
            && BucketEntries(events, regs, teams, on, Ongoing, now)
            && BucketEntries(events, regs, teams, past, Past, now)
  {
    var vs := Views(events, regs, teams, order, now);
    assert Ids(vs) == order;
    IdsPartition(vs, now);
    DistinctOnce(order);
    QueryBucket(events, regs, teams, order, Upcoming, now);
    QueryBucket(events, regs, teams, order, Ongoing, now);
    QueryBucket(events, regs, teams, order, Past, now);
  }

  /** One bucket over the query's rows: its own entries, in start order. */
  lemma QueryBucket(events: map<EventId, Event>, regs: map<RegId, Registration>, teams: map<TeamId, Team>,
                    order: seq<EventId>, b: Bucket, now: int)
    requires QueryOrder(events, order)
    ensures var bucket := InBucket(Views(events, regs, teams, order, now), b, now);
            InStartOrder(bucket) && BucketEntries(events, regs, teams, bucket, b, now)
  {
    var vs := Views(events, regs, teams, order, now);
    assert InStartOrder(vs);
    BucketKeepsOrder(vs, b, now);
    InBucketMembers(vs, b, now);
    forall v | v in InBucket(vs, b, now)
      ensures v.id in events && v == ViewOf(v.id, events[v.id], RegistrationsCount(regs, teams, v.id, events[v.id]), now)
    {
      var k :| 0 <= k < |vs| && vs[k] == v;
    }
  }

  /** `getEvents` (31-118): each row's entry is pushed onto the list of its
      bucket, in row order. */
  method GetEvents(events: map<EventId, Event>, regs: map<RegId, Registration>, teams: map<TeamId, Team>,
                   order: seq<EventId>, now: int)
    returns (upcoming: seq<EventView>, ongoing: seq<EventView>, past: seq<EventView>)
    requires QueryOrder(events, order)
    ensures upcoming == InBucket(Views(events, regs, teams, order, now), Upcoming, now)
    ensures ongoing == InBucket(Views(events, regs, teams, order, now), Ongoing, now)
    ensures past == InBucket(Views(events, regs, teams, order, now), Past, now)
    ensures forall id :: (multiset(Ids(upcoming)) + multiset(Ids(ongoing)) + multiset(Ids(past)))[id]
                           == if id in events then 1 else 0
    ensures InStartOrder(upcoming) && InStartOrder(ongoing) && InStartOrder(past)
    ensures BucketEntries(events, regs, teams, upcoming, Upcoming, now)
    ensures BucketEntries(events, regs, teams, ongoing, Ongoing, now)
    ensures BucketEntries(events, regs, teams, past, Past, now)
  {
    ghost var vs := Views(events, regs, teams, order, now);
    upcoming, ongoing, past := [], [], [];
    var i := 0;
    while i < |order|
      invariant 0 <= i <= |order|
      invariant upcoming == InBucket(vs[..i], Upcoming, now)
      invariant ongoing == InBucket(vs[..i], Ongoing, now)
      invariant past == InBucket(vs[..i], Past, now)
    {
      var e := events[order[i]];
      var v := ViewOf(order[i], e, RegistrationsCount(regs, teams, order[i], e), now);
      assert v == vs[i];
      InBucketStep(vs, i, now);
      match BucketOf(v.start, v.end, now) {
        case Upcoming => upcoming := upcoming + [v];
        case Ongoing => ongoing := ongoing + [v];
        case Past => past := past + [v];
      }
      i := i + 1;
    }
    assert vs[..i] == vs;
    BucketsOfQuery(events, regs, teams, order, now);
  }
}
