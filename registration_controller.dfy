/** `src/controllers/registration/registration.controller.ts`: registering
    for an event (solo, or as the lead of a new team), joining a team by
    its code, and the read-only registration status. Each handler that
    writes is one transaction on the store: its checks run in source
    order, the first failing one decides the reply, and every failure
    after BEGIN is a ROLLBACK that leaves the store as it was. */
module RegistrationController {
  import opened Http
  import opened Text
  import opened Schema
  import opened Db

  // ---------------------------------------------------------------------
  // Checks shared by registering and joining

  /** The registration window: inclusive at both ends, a missing bound
      is open. */
  predicate InWindow(start: Option<int>, end: Option<int>, now: int) {
    (start.None? || start.value <= now) && (end.None? || now <= end.value)
  }

  /** The two window checks (63-77 and 415-430): "not started" is reported
      before "ended". */
  function WindowRefusal(start: Option<int>, end: Option<int>, now: int): (r: Option<Reason>)
    ensures r.None? <==> InWindow(start, end, now)
    ensures r.Some? ==> r.value in {RegistrationNotStarted, RegistrationEnded}
    ensures start.Some? && now < start.value ==> r == Some(RegistrationNotStarted)
  {
    if start.Some? && now < start.value then Some(RegistrationNotStarted)
    else if end.Some? && now > end.value then Some(RegistrationEnded)
    else None
  }

  /** The event-configuration check (47-53). */
  predicate SizesValid(e: Event) {
    1 <= e.minTeamSize && 1 <= e.maxTeamSize && e.minTeamSize <= e.maxTeamSize
  }

  /** `if (event.max_registrations)`: a NULL or zero cap is no cap. */
  predicate Capped(maxRegistrations: Option<int>) {
    maxRegistrations.Some? && maxRegistrations.value != 0
  }

  /** The teams of an event that have at least one member. */
  function TeamsWithMembers(teams: map<TeamId, Team>, links: map<RegId, TeamId>, event: EventId): set<TeamId> {
    set t | t in teams && teams[t].eventId == event && HasMembers(links, t)
  }

  /** `getCurrentRegistrationCount` (159-177): a team event counts its
      distinct teams that have a member, a solo event its registrations. */
  function CurrentRegistrationCount(regs: map<RegId, Registration>, teams: map<TeamId, Team>,
                                    links: map<RegId, TeamId>, event: EventId, isTeamEvent: bool): (n: nat)
    ensures !isTeamEvent ==> n == |RegistrationsOf(regs, event)|
    ensures isTeamEvent ==> n <= |TeamsOf(teams, event)|
  {
    if isTeamEvent then
      SubsetCardinality(TeamsWithMembers(teams, links, event), TeamsOf(teams, event));
      |TeamsWithMembers(teams, links, event)|
    else |RegistrationsOf(regs, event)|
  }

  /** The teams reached from a set of linked registrations. */
  function TeamsOfRegs(dom: set<RegId>, links: map<RegId, TeamId>): set<TeamId>
    requires dom <= links.Keys
  {
    set r | r in dom :: links[r]
  }

  lemma {:induction false} TeamsOfRegsAtMost(dom: set<RegId>, links: map<RegId, TeamId>)
    requires dom <= links.Keys
    ensures |TeamsOfRegs(dom, links)| <= |dom|
    decreases dom
  {
    if dom != {} {
      var x :| x in dom;
      TeamsOfRegsAtMost(dom - {x}, links);
      assert TeamsOfRegs(dom, links) == TeamsOfRegs(dom - {x}, links) + {links[x]};
    }
  }

  /** A team event's count never exceeds its number of registrations:
      every counted team has a member of its own, and a registration
      belongs to one team only. */
  lemma TeamCountAtMostRegistrations(events: map<EventId, Event>, regs: map<RegId, Registration>,
                                     teams: map<TeamId, Team>, links: map<RegId, TeamId>, event: EventId)
    requires LinksOk(events, regs, teams, links)
    ensures CurrentRegistrationCount(regs, teams, links, event, true)
         <= CurrentRegistrationCount(regs, teams, links, event, false)
  {
    var linked := set r | r in links && regs[r].eventId == event;
    assert TeamsWithMembers(teams, links, event) <= TeamsOfRegs(linked, links) by {
      forall t | t in TeamsWithMembers(teams, links, event) ensures t in TeamsOfRegs(linked, links) {
        var r :| r in links && links[r] == t;
        assert r in linked;
      }
    }
    TeamsOfRegsAtMost(linked, links);
    assert linked <= RegistrationsOf(regs, event);
    SubsetCardinality(TeamsWithMembers(teams, links, event), TeamsOfRegs(linked, links));
    SubsetCardinality(linked, RegistrationsOf(regs, event));
  }

  // ---------------------------------------------------------------------
  // registerForEvent: the checks before any row is written

  datatype RegisterRequest = RegisterRequest(
    userId: Option<UserId>,
    userName: Option<string>,
    eventId: Option<EventId>,
    teamName: Option<string>)

  /** What `registerForEvent` demands before its capacity check. */
  predicate PassesPreCount(req: RegisterRequest, events: map<EventId, Event>, regs: map<RegId, Registration>,
                           now: int) {
    && req.userId.Some? && req.eventId.Some?
    && req.userName.Some? && Trim(req.userName.value) != []
    && req.eventId.value in events
    && var e := events[req.eventId.value];
       && SizesValid(e)
       && e.status == Active
       && InWindow(e.regStart, e.regEnd, now)
       && !RegisteredFor(regs, req.userId.value, req.eventId.value)
  }

  /** Everything `registerForEvent` demands before it writes. */
  predicate Admissible(req: RegisterRequest, events: map<EventId, Event>, regs: map<RegId, Registration>,
                       teams: map<TeamId, Team>, links: map<RegId, TeamId>, now: int) {
    && PassesPreCount(req, events, regs, now)
    && var e := events[req.eventId.value];
       !(Capped(e.maxRegistrations)
         && CurrentRegistrationCount(regs, teams, links, req.eventId.value, e.maxTeamSize > 1)
            >= e.maxRegistrations.value)
  }

  /** The checks of 13-91, before the capacity check, in source order; the
      first that fails names the refusal. */
  function PreCountRefusal(req: RegisterRequest, events: map<EventId, Event>, regs: map<RegId, Registration>,
                           now: int): (r: Option<Reason>)
    ensures r.None? <==> PassesPreCount(req, events, regs, now)
    ensures req.userId.None? || req.eventId.None? ==> r == Some(MissingUserOrEvent)
    ensures r == Some(EventNotFound) ==> req.eventId.Some? && req.eventId.value !in events
    ensures r == Some(AlreadyRegistered) ==> RegisteredFor(regs, req.userId.value, req.eventId.value)
    ensures r != Some(RegistrationFull) && r != Some(ServerError)
  {
    if req.userId.None? || req.eventId.None? then Some(MissingUserOrEvent)
    else if req.userName.None? || Trim(req.userName.value) == [] then Some(BlankUserName)
    else if req.eventId.value !in events then Some(EventNotFound)
    else
      var e := events[req.eventId.value];
      if !SizesValid(e) then Some(InvalidEventConfig)
      else if e.status != Active then Some(EventNotActive)
      else if WindowRefusal(e.regStart, e.regEnd, now).Some? then WindowRefusal(e.regStart, e.regEnd, now)
      else if RegisteredFor(regs, req.userId.value, req.eventId.value) then Some(AlreadyRegistered)
      else None
  }

  /** The checks of 13-107 in source order, with the capacity check as
      intended: a capped event refuses once its count reaches the cap. */
  function RegisterRefusal(req: RegisterRequest, events: map<EventId, Event>, regs: map<RegId, Registration>,
                           teams: map<TeamId, Team>, links: map<RegId, TeamId>, now: int): (r: Option<Reason>)
    ensures r.None? <==> Admissible(req, events, regs, teams, links, now)
    ensures req.userId.None? || req.eventId.None? ==> r == Some(MissingUserOrEvent)
    ensures r == Some(EventNotFound) ==> req.eventId.Some? && req.eventId.value !in events
    ensures r == Some(AlreadyRegistered) ==> RegisteredFor(regs, req.userId.value, req.eventId.value)
    ensures r == Some(RegistrationFull) ==>
              && req.eventId.Some? && req.eventId.value in events
              && var e := events[req.eventId.value];
                 && Capped(e.maxRegistrations)
                 && CurrentRegistrationCount(regs, teams, links, req.eventId.value, e.maxTeamSize > 1)
                    >= e.maxRegistrations.value
  {
    var pre := PreCountRefusal(req, events, regs, now);
    if pre.Some? then pre
    else
      var e := events[req.eventId.value];
      if Capped(e.maxRegistrations)
         && CurrentRegistrationCount(regs, teams, links, req.eventId.value, e.maxTeamSize > 1)
            >= e.maxRegistrations.value
      then Some(RegistrationFull)
      else None
  }

  /** The checks of 13-107 as written. The count query of 159-177 carries
      `FOR UPDATE OF`, which PostgreSQL rejects beside an aggregate
      (SQLSTATE 0A000), so every capped event that passes the earlier
      checks ends in the catch's 500. */
  function RegisterRefusalAsWritten(req: RegisterRequest, events: map<EventId, Event>,
                                    regs: map<RegId, Registration>, now: int): (r: Option<Reason>)
    ensures r.None? <==> PassesPreCount(req, events, regs, now) && !Capped(events[req.eventId.value].maxRegistrations)
    ensures r != Some(RegistrationFull)
  {
    var pre := PreCountRefusal(req, events, regs, now);
    if pre.Some? then pre
    else if Capped(events[req.eventId.value].maxRegistrations) then Some(ServerError)
    else None
  }

  /** As written, nobody gets into a capped event: where the intended check
      admits the caller or reports the event full, the source answers 500.
      On an uncapped event the two agree. */
  lemma CappedRegistrationFailsAsWritten(req: RegisterRequest, events: map<EventId, Event>,
                                         regs: map<RegId, Registration>, teams: map<TeamId, Team>,
                                         links: map<RegId, TeamId>, now: int)
    requires PreCountRefusal(req, events, regs, now).None?
    ensures req.eventId.Some? && req.eventId.value in events
    ensures Capped(events[req.eventId.value].maxRegistrations) ==>
              && RegisterRefusalAsWritten(req, events, regs, now) == Some(ServerError)
              && RegisterRefusal(req, events, regs, teams, links, now) != Some(ServerError)
    ensures !Capped(events[req.eventId.value].maxRegistrations) ==>
              RegisterRefusalAsWritten(req, events, regs, now) == RegisterRefusal(req, events, regs, teams, links, now)
              == None
  {
  }

  /** An event capped at 50 with nobody registered: the intended check
      admits the caller, the source answers 500. */
  lemma EmptyCappedEventRefusedAsWritten(req: RegisterRequest, events: map<EventId, Event>, now: int)
    requires PreCountRefusal(req, events, map[], now).None?
    requires events[req.eventId.value].maxRegistrations == Some(50)
    ensures RegisterRefusal(req, events, map[], map[], map[], now).None?
    ensures RegisterRefusalAsWritten(req, events, map[], now) == Some(ServerError)
  {
    var e := events[req.eventId.value];
    assert RegistrationsOf(map[], req.eventId.value) == {};
    assert TeamsWithMembers(map[], map[], req.eventId.value) == {};
    assert CurrentRegistrationCount(map[], map[], map[], req.eventId.value, e.maxTeamSize > 1) == 0;
  }

  /** A registration that exists is refused whatever its payment state:
      there is no path that resumes an unpaid registration. */
  lemma ExistingRegistrationAlwaysRefused(req: RegisterRequest, events: map<EventId, Event>,
                                          regs: map<RegId, Registration>, teams: map<TeamId, Team>,
                                          links: map<RegId, TeamId>, now: int, id: RegId)
    requires req.userId.Some? && req.eventId.Some?
    requires id in regs && regs[id].studentId == req.userId.value && regs[id].eventId == req.eventId.value
    ensures RegisterRefusal(req, events, regs, teams, links, now).Some?
  {
    assert RegisteredFor(regs, req.userId.value, req.eventId.value);
  }

  // ---------------------------------------------------------------------
  // The team name

  /** What `^[\w\s\-_()]+$` accepts at each position. */
  predicate IsTeamNameChar(c: char) {
    || 'A' <= c <= 'Z' || 'a' <= c <= 'z' || IsDigit(c) || c == '_'
    || IsJsSpace(c) || c == '-' || c == '(' || c == ')'
  }

  /** The checks on a required team name (220-245): present and not blank,
      trimmed length 1 to 100 as JavaScript counts it (UTF-16 code units),
      allowed characters only. Gives the trimmed name. */
  function CheckRequiredTeamName(supplied: Option<string>): (r: Reply<string>)
    ensures r.Ok? <==> supplied.Some? && Trim(supplied.value) != [] && Utf16Length(Trim(supplied.value)) <= 100
                       && forall i :: 0 <= i < |Trim(supplied.value)| ==> IsTeamNameChar(Trim(supplied.value)[i])
    ensures r.Ok? ==> r.value == Trim(supplied.value) && TeamNameFits(r.value)
    ensures r.Fail? ==> r.reason in {TeamNameRequired, TeamNameLength, TeamNameInvalidChars}
    ensures r == Fail(TeamNameRequired) <==> supplied.None? || Trim(supplied.value) == []
  {
    if supplied.None? || Trim(supplied.value) == [] then Fail(TeamNameRequired)
    else
      var trimmed := Trim(supplied.value);
      if Utf16Length(trimmed) < 1 || Utf16Length(trimmed) > 100 then Fail(TeamNameLength)
      else if exists i :: 0 <= i < |trimmed| && !IsTeamNameChar(trimmed[i]) then Fail(TeamNameInvalidChars)
      else
        PgTrimOfTrimmed(supplied.value);
        Ok(trimmed)
  }

  /** A name of more than 50 characters, all above U+FFFF, is over 100
      code units long: it is refused for its length, before its characters
      are looked at. */
  lemma AstralTeamNameTooLong(s: string)
    requires |s| > 50 && forall i :: 0 <= i < |s| ==> IsAstral(s[i])
    ensures CheckRequiredTeamName(Some(s)) == Fail(TeamNameLength)
  {
    TrimOfUnpadded(s);
    AllAstralDoubles(s);
  }

  /** Does `name` belong to `existing_names` (318-324) for the lower-cased
      base `lb`: equal to it, or `lb (N)`, ignoring case. */
  predicate InBaseFamily(name: string, lb: string) {
    || Lower(name) == lb
    || (SplitSuffix(Lower(name)).Some? && SplitSuffix(Lower(name)).value.0 == lb)
  }

  /** The suffix `max_suffix` (326-336) reads from a name: matched
      case-sensitively, against the LOWER-cased base; 0 when it does not
      match. */
  function SuffixValue(name: string, lb: string): nat {
    match SplitSuffix(name)
    case Some((h, v)) => if EndsWith(h, lb) then v else 0
    case None => 0
  }

  /** `MAX(...)` over the family, `COALESCE(..., 0)`. */
  function MaxSuffix(names: seq<string>, lb: string): (m: nat)
    ensures forall n :: n in names && InBaseFamily(n, lb) ==> SuffixValue(n, lb) <= m
    ensures m == 0 || exists n :: n in names && InBaseFamily(n, lb) && SuffixValue(n, lb) == m
  {
    if names == [] then 0
    else
      var rest := MaxSuffix(names[1..], lb);
      if InBaseFamily(names[0], lb) && SuffixValue(names[0], lb) > rest then SuffixValue(names[0], lb)
      else rest
  }

  /** `base (n)`. */
  function Numbered(base: string, n: nat): string {
    base + " (" + NatToDecimal(n) + ")"
  }

  /** `generateUniqueTeamName` (316-349) over the names of the event's
      teams, with the base matched literally: the base itself when neither
      it (ignoring case) nor a numbered suffix is found, else the base
      numbered one past the largest suffix (`GeneratedNumbered`). */
  function GeneratedTeamName(names: seq<string>, base: string): (r: string)
    ensures r == base <==> MaxSuffix(names, Lower(base)) == 0 && !HoldsBase(names, Lower(base))
  {
    var lb := Lower(base);
    var m := MaxSuffix(names, lb);
    if m == 0 && !HoldsBase(names, lb) then base
    else
      assert |Numbered(base, m + 1)| > |base|;
      Numbered(base, m + 1)
  }

  /** When no stored name belongs to the family, the base is used as it
      is. */
  lemma GeneratedBaseWhenNoFamily(names: seq<string>, base: string)
    requires forall n :: n in names ==> !InBaseFamily(n, Lower(base))
    ensures GeneratedTeamName(names, base) == base
  {
    if MaxSuffix(names, Lower(base)) != 0 || HoldsBase(names, Lower(base)) {
      FamilyNotEmpty(names, Lower(base));
    }
  }

  /** When the family holds the base itself or a numbered name, the
      generated name joins the family, read ignoring case, with a suffix
      one past the largest suffix found. */
  lemma GeneratedNumbered(names: seq<string>, base: string)
    requires MaxSuffix(names, Lower(base)) != 0 || HoldsBase(names, Lower(base))
    ensures GeneratedTeamName(names, base) == Numbered(base, MaxSuffix(names, Lower(base)) + 1)
    ensures var r := GeneratedTeamName(names, base); var lb := Lower(base);
            && InBaseFamily(Lower(r), lb)
            && SuffixValue(Lower(r), lb) == MaxSuffix(names, lb) + 1
  {
    var lb := Lower(base);
    var k := MaxSuffix(names, lb) + 1;
    LowerOfNumbered(base, k);
    LowerIdempotent(base);
    NumberedInFamily(lb, k);
    NumberedSuffix(lb, k);
  }

  /** A positive maximum suffix, or the base itself among the names,
      means the family has a member. */
  lemma FamilyNotEmpty(names: seq<string>, lb: string)
    requires MaxSuffix(names, lb) != 0 || HoldsBase(names, lb)
    ensures exists n :: n in names && InBaseFamily(n, lb)
  {
    if !HoldsBase(names, lb) {
      var n :| n in names && InBaseFamily(n, lb) && SuffixValue(n, lb) == MaxSuffix(names, lb);
    } else {
      var n :| n in names && Lower(n) == lb;
      assert InBaseFamily(n, lb);
    }
  }

  /** `EXISTS (SELECT 1 FROM existing_names WHERE LOWER(team_name) = LOWER($2))`:
      a name in the family that is the base itself, ignoring case. */
  predicate HoldsBase(names: seq<string>, lb: string) {
    exists n :: n in names && Lower(n) == lb
  }

  lemma LowerOfNumbered(base: string, n: nat)
    ensures Lower(Numbered(base, n)) == Numbered(Lower(base), n)
  {
    var d := NatToDecimal(n);
    LowerDistributes(base, " (" + d + ")");
    assert Lower(" (" + d + ")") == " (" + d + ")";
  }

  /** When every stored name is already lower case, the generated name is
      not taken, not even ignoring case. */
  lemma GeneratedNameIsFresh(names: seq<string>, base: string)
    requires forall n :: n in names ==> Lower(n) == n
    ensures forall n :: n in names ==> Lower(n) != Lower(GeneratedTeamName(names, base))
  {
    var lb := Lower(base);
    var m := MaxSuffix(names, lb);
    if m == 0 && !HoldsBase(names, lb) {
      BaseNameFresh(names, base);
    } else {
      NumberedNameFresh(names, base);
    }
  }

  /** The base is free when no stored name matches it ignoring case. */
  lemma BaseNameFresh(names: seq<string>, base: string)
    requires forall n :: n in names ==> Lower(n) == n
    requires !HoldsBase(names, Lower(base))
    ensures forall n :: n in names ==> Lower(n) != Lower(base)
  {
  }

  /** The base numbered one past the largest suffix is free. */
  lemma NumberedNameFresh(names: seq<string>, base: string)
    requires forall n :: n in names ==> Lower(n) == n
    ensures forall n :: n in names ==> Lower(n) != Lower(Numbered(base, MaxSuffix(names, Lower(base)) + 1))
  {
    var lb := Lower(base);
    var m := MaxSuffix(names, lb);
    var target := Numbered(lb, m + 1);
    LowerOfNumbered(base, m + 1);
    LowerIdempotent(base);
    NoneNumberedAboveMax(names, lb);
    forall n | n in names ensures Lower(n) != Lower(Numbered(base, m + 1)) {
      assert n != target;
    }
  }

  /** No stored name is the lower-case base numbered one past the largest
      suffix: that name belongs to the family, and its suffix exceeds the
      maximum. */
  lemma NoneNumberedAboveMax(names: seq<string>, lb: string)
    requires Lower(lb) == lb
    ensures forall n :: n in names ==> n != Numbered(lb, MaxSuffix(names, lb) + 1)
  {
    var m := MaxSuffix(names, lb);
    NumberedInFamily(lb, m + 1);
    forall n | n in names ensures n != Numbered(lb, m + 1) {
      if InBaseFamily(n, lb) {
        MaxSuffixBound(names, lb, n);
        NumberedAbove(lb, n, m);
      }
    }
  }

  /** A name whose suffix is at most `m` is not the base numbered `m + 1`. */
  lemma NumberedAbove(lb: string, n: string, m: nat)
    requires SuffixValue(n, lb) <= m
    ensures n != Numbered(lb, m + 1)
  {
    NumberedSuffix(lb, m + 1);
  }

  /** Every member of the family has a suffix at most the maximum. */
  lemma MaxSuffixBound(names: seq<string>, lb: string, n: string)
    requires n in names && InBaseFamily(n, lb)
    ensures SuffixValue(n, lb) <= MaxSuffix(names, lb)
  {
  }

  /** `lb (k)` carries the suffix `k` for the base `lb`. */
  lemma NumberedSuffix(lb: string, k: nat)
    ensures SuffixValue(Numbered(lb, k), lb) == k
  {
    SplitSuffixOfNumbered(lb, k);
    assert EndsWith(lb, lb);
  }

  /** For a lower-case base, `lb (k)` belongs to the family of `lb`. */
  lemma NumberedInFamily(lb: string, k: nat)
    requires Lower(lb) == lb
    ensures InBaseFamily(Numbered(lb, k), lb)
  {
    SplitSuffixOfNumbered(lb, k);
    LowerOfNumbered(lb, k);
  }

  /** With a mixed-case base the suffix is not read back: a third "Noah"
      is offered the name the second one already holds. */
  lemma GeneratedNameCanCollide()
    ensures GeneratedTeamName(["Noah", "Noah (1)"], "Noah") == "Noah (1)"
  {
    NoahFamily();
    assert GeneratedTeamName(["Noah", "Noah (1)"], "Noah") == Numbered("Noah", 1);
    assert NatToDecimal(1) == "1";
  }

  /** The family of "noah" among the two names: the base itself, and a
      numbered name whose mixed case hides its suffix. */
  lemma NoahFamily()
    ensures MaxSuffix(["Noah", "Noah (1)"], Lower("Noah")) == 0 && HoldsBase(["Noah", "Noah (1)"], Lower("Noah"))
  {
    var names := ["Noah", "Noah (1)"];
    assert Lower("Noah") == "noah";
    assert "Noah (1)" == Numbered("Noah", 1) by { SplitSuffixOfNumbered("Noah", 1); }
    assert SuffixValue("Noah (1)", "noah") == 0 by { SplitSuffixOfNumbered("Noah", 1); }
    assert SplitSuffix("Noah") == None;
    assert SuffixValue("Noah", "noah") == 0;
    assert names[0] in names && Lower(names[0]) == "noah";
  }

  // ---------------------------------------------------------------------
  // getRegistrationStatus

  /** The caller's team, as the status reports it. */
  datatype TeamInfo = TeamInfo(
    teamId: TeamId,
    teamName: string,
    teamCode: string,
    isTeamLead: bool,
    currentMembers: nat,
    maxMembers: int,
    minMembers: int,
    teamIsFull: bool)

  datatype RegistrationStatus =
    | NotRegistered
    | IsRegistered(
        registrationId: RegId,
        eventName: string,
        isTeamEvent: bool,
        timestamp: int,
        paid: bool,
        attendance: Attendance,
        feePaise: int,
        paymentRequired: bool,
        teamInfo: Option<TeamInfo>)

  /** The caller's registration row for the event, joined with its event. */
  predicate HasRegistrationRow(events: map<EventId, Event>, regs: map<RegId, Registration>,
                               userId: UserId, eventId: EventId) {
    eventId in events && RegisteredFor(regs, userId, eventId)
  }

  /** `getRegistrationStatus` (562-657): the caller's registration for the
      event, if any, with the team it belongs to when the event is a team
      event. */
  function GetRegistrationStatus(events: map<EventId, Event>, regs: map<RegId, Registration>,
                                 teams: map<TeamId, Team>, links: map<RegId, TeamId>,
                                 userId: Option<UserId>, eventId: Option<EventId>): (r: Reply<RegistrationStatus>)
    requires OneRegistrationPerStudentEvent(regs)
    ensures r.Fail? <==> userId.None? || eventId.None?
    ensures r.Fail? ==> r.reason == MissingUserOrEvent
    ensures r == Ok(NotRegistered) <==>
              userId.Some? && eventId.Some? && !HasRegistrationRow(events, regs, userId.value, eventId.value)
    ensures r.Ok? && r.value.IsRegistered? ==>
              var s := r.value; var id := s.registrationId;
              && id in regs && regs[id].studentId == userId.value && regs[id].eventId == eventId.value
              && s.paid == regs[id].paid && s.attendance == regs[id].attendance
              && s.timestamp == regs[id].timestamp
              && s.isTeamEvent == (events[eventId.value].maxTeamSize > 1)
              && s.paymentRequired == (s.feePaise > 0)
    ensures r.Ok? && r.value.IsRegistered? ==>
              var s := r.value; var id := s.registrationId;
              && eventId.value in events
              && s.eventName == events[eventId.value].name
              && s.feePaise == events[eventId.value].feePaise
              && (s.teamInfo.Some? <==>
                    s.isTeamEvent && id in links && links[id] in teams && teams[links[id]].eventId in events)
    ensures r.Ok? && r.value.IsRegistered? && r.value.teamInfo.Some? ==>
              var info := r.value.teamInfo.value;
              && info.teamId in teams && teams[info.teamId].eventId in events
              && info.teamName == teams[info.teamId].name
              && info.teamCode == teams[info.teamId].code
              && info.maxMembers == events[teams[info.teamId].eventId].maxTeamSize
              && info.minMembers == events[teams[info.teamId].eventId].minTeamSize
    ensures r.Ok? && r.value.IsRegistered? && r.value.teamInfo.Some? ==>
              var id := r.value.registrationId; var info := r.value.teamInfo.value;
              && r.value.isTeamEvent
              && id in links && links[id] == info.teamId && info.teamId in teams
              && info.currentMembers == MemberCount(links, info.teamId) && info.currentMembers >= 1
              && info.isTeamLead == (teams[info.teamId].leadId == userId.value)
              && info.teamIsFull == (info.currentMembers >= info.maxMembers)
  {
    if userId.None? || eventId.None? then Fail(MissingUserOrEvent)
    else if !HasRegistrationRow(events, regs, userId.value, eventId.value) then Ok(NotRegistered)
    else
      var id :| id in regs && regs[id].studentId == userId.value && regs[id].eventId == eventId.value;
      var e := events[eventId.value];
      var isTeamEvent := e.maxTeamSize > 1;
      var info :=
        if isTeamEvent && id in links && links[id] in teams && teams[links[id]].eventId in events then
          var t := links[id];
          var te := events[teams[t].eventId];
          var n := MemberCount(links, t);
          assert id in Members(links, t);
          Some(TeamInfo(t, teams[t].name, teams[t].code, teams[t].leadId == userId.value,
                        n, te.maxTeamSize, te.minTeamSize, n >= te.maxTeamSize))
        else None;
      Ok(IsRegistered(id, e.name, isTeamEvent, regs[id].timestamp, regs[id].paid, regs[id].attendance,
                      e.feePaise, e.feePaise > 0, info))
  }

  // ---------------------------------------------------------------------
  // registerForEvent

  /** What a successful registration reports. */
  datatype Registered =
    | SoloRegistered(
        registrationId: RegId,
        eventName: string,
        feePaise: int,
        paymentRequired: bool,
        timestamp: int)
    | TeamRegistered(
        registrationId: RegId,
        eventName: string,
        teamName: string,
        teamId: TeamId,
        teamCode: string,
        currentMembers: nat,
        maxMembers: int,
        minMembers: int,
        feePaise: int,
        paymentRequired: bool,
        timestamp: int)

  /** `handleSoloEventRegistration` (179-206): one registration row with the
      column defaults, and nothing else. Inserting for a user that is not
      in `users` breaks the foreign key: a server error. */
  method HandleSoloRegistration(db: Store, userId: UserId, eventId: EventId, now: int)
    returns (r: Reply<Registered>)
    requires db.Valid() && eventId in db.events && db.events[eventId].maxTeamSize == 1
    requires !RegisteredFor(db.registrations, userId, eventId)
    modifies db
    ensures db.Valid()
    ensures r.Fail? <==> userId !in old(db.users)
    ensures r.Fail? ==> r.reason == ServerError && unchanged(db)
    ensures r.Ok? ==>
              var e := db.events[eventId]; var id := r.value.registrationId;
              && r.value == SoloRegistered(id, e.name, e.feePaise, e.feePaise > 0, now)
              && id !in old(db.registrations)
              && id == old(db.nextId)
              && db.Snapshot() == AddRegistration(old(db.Snapshot()), NewRegistration(userId, eventId, now, NoFood, None))
  {
    if userId !in db.users {
      return Fail(ServerError);
    }
    var e := db.events[eventId];
    var t := db.Snapshot();
    var id := t.nextId;
    var reg := NewRegistration(userId, eventId, now, NoFood, None);
    InsertRegistrationKeeps(t, db.events, db.sign, reg);
    db.Commit(AddRegistration(t, reg));
    r := Ok(SoloRegistered(id, e.name, e.feePaise, e.feePaise > 0, now));
  }

  /** The team name `handleTeamEventRegistration` settles on (220-265): a
      required name must pass the checks and be free in the event (ignoring
      case); otherwise any supplied name is ignored and one is generated
      from `base`. */
  method SettleTeamName(db: Store, eventId: EventId, required: bool, teamName: Option<string>, base: string)
    returns (r: Reply<string>)
    ensures required ==>
              var checked := CheckRequiredTeamName(teamName);
              && (checked.Fail? ==> r == checked)
              && (checked.Ok? ==> r == if NameTaken(db.teams, eventId, checked.value) then Fail(TeamNameTaken)
                                       else checked)
    ensures !required ==> r.Ok? && exists names :: ListsTeamNames(names, db.teams, eventId)
                                                   && r.value == GeneratedTeamName(names, base)
  {
    if required {
      var checked := CheckRequiredTeamName(teamName);
      if checked.Fail? {
        return checked;
      }
      if NameTaken(db.teams, eventId, checked.value) {
        return Fail(TeamNameTaken);
      }
      r := checked;
    } else {
      var names := TeamNamesIn(db.teams, eventId);
      r := Ok(GeneratedTeamName(names, base));
    }
  }

  /** The tables after a new team led by `userId`: its lead's registration,
      the team and the link between them are added, with a code and a
      name free in the event, and nothing else changes; `d` reports them. */
  ghost predicate TeamInserted(t: Tables, t': Tables, e: Event, userId: UserId, eventId: EventId, now: int,
                               d: Registered)
  {
    && d.TeamRegistered?
    && d.registrationId == t.nextId && d.teamId == t.nextId + 1
    && d.registrationId !in t.registrations && d.teamId !in t.teams
    && IsTeamCode(d.teamCode) && d.teamCode !in CodesIn(t.teams, eventId)
    && !NameTaken(t.teams, eventId, d.teamName) && TeamNameFits(d.teamName)
    && t' == AddTeamWithLead(t, NewRegistration(userId, eventId, now, NoFood, None),
                             Team(d.teamCode, d.teamName, userId, eventId))
    && d.currentMembers == 1 == MemberCount(t'.teamRegistrations, d.teamId)
    && d.eventName == e.name && d.maxMembers == e.maxTeamSize && d.minMembers == e.minTeamSize
    && d.feePaise == e.feePaise && d.paymentRequired == (e.feePaise > 0) && d.timestamp == now
  }

  /** What the handler reports for a new team. */
  function NewTeamReply(t: Tables, e: Event, now: int, code: string, name: string): Registered {
    TeamRegistered(t.nextId, e.name, name, t.nextId + 1, code, 1, e.maxTeamSize, e.minTeamSize,
                   e.feePaise, e.feePaise > 0, now)
  }

  /** After the three inserts the new team has exactly its lead as member,
      and the reply describes the new rows. */
  lemma NewTeamInserted(t: Tables, events: map<EventId, Event>, sign: string -> string,
                        userId: UserId, eventId: EventId, now: int, code: string, name: string)
    requires TablesOk(t, events, sign) && eventId in events
    requires IsTeamCode(code) && code !in CodesIn(t.teams, eventId)
    requires TeamNameFits(name) && !NameTaken(t.teams, eventId, name)
    ensures TeamInserted(t, AddTeamWithLead(t, NewRegistration(userId, eventId, now, NoFood, None),
                                            Team(code, name, userId, eventId)),
                         events[eventId], userId, eventId, now, NewTeamReply(t, events[eventId], now, code, name))
  {
    var links := t.teamRegistrations;
    var id := t.nextId + 1;
    assert t.nextId !in t.registrations && id !in t.teams by {
      assert KeysBelow(t.registrations, t.nextId) && KeysBelow(t.teams, t.nextId);
    }
    assert t.nextId !in links && Members(links, id) == {} by {
      assert LinkRowsOk(events, t.registrations, t.teams, links);
    }
    AddLinkCounts(links, t.nextId, id, id);
  }

  /** The three inserts once every check has passed: the lead's
      registration, the team with its assigned code, and the link. */
  method CreateTeam(db: Store, userId: UserId, eventId: EventId, name: string, code: string, now: int)
    returns (d: Registered)
    requires db.Valid() && userId in db.users
    requires eventId in db.events && db.events[eventId].maxTeamSize > 1
    requires !RegisteredFor(db.registrations, userId, eventId)
    requires IsTeamCode(code) && code !in CodesIn(db.teams, eventId)
    requires TeamNameFits(name) && !NameTaken(db.teams, eventId, name)
    modifies db
    ensures db.Valid()
    ensures TeamInserted(old(db.Snapshot()), db.Snapshot(), db.events[eventId], userId, eventId, now, d)
    ensures d.teamName == name && d.teamCode == code
  {
    var t := db.Snapshot();
    var reg, team := NewRegistration(userId, eventId, now, NoFood, None), Team(code, name, userId, eventId);
    InsertTeamWithLeadKeeps(t, db.events, db.sign, reg, team);
    NewTeamInserted(t, db.events, db.sign, userId, eventId, now, code, name);
    db.Commit(AddTeamWithLead(t, reg, team));
    d := NewTeamReply(t, db.events[eventId], now, code, name);
  }

  /** The reply is the refusal, or success when there is none. */
  predicate RepliesAs<T>(r: Reply<T>, refusal: Option<Reason>) {
    && (refusal.Some? ==> r == Fail(refusal.value))
    && (refusal.None? ==> r.Ok?)
  }

  /** Some attempt of the code trigger draws a code free in the event. */
  predicate FreeCodeDrawn(teams: map<TeamId, Team>, eventId: EventId, draws: seq<seq<nat>>)
    requires ValidDraws(draws)
  {
    exists k :: 0 <= k < MaxCodeAttempts && CodeFromRolls(draws[k]) !in CodesIn(teams, eventId)
  }

  /** How the three inserts of a new team end (267-289), in the order the
      database meets the failures: the registration's foreign key, the
      code trigger, the name's length CHECK, the unique index on the
      lower-cased name. */
  function InsertRefusal(users: map<UserId, User>, teams: map<TeamId, Team>, userId: UserId, eventId: EventId,
                         name: string, draws: seq<seq<nat>>): Option<Reason>
    requires ValidDraws(draws)
  {
    if userId !in users then Some(ServerError)
    else if !FreeCodeDrawn(teams, eventId, draws) then Some(ServerError)
    else if !TeamNameFits(name) then Some(ServerError)
    else if NameTaken(teams, eventId, name) then Some(UniqueViolation)
    else None
  }

  /** The three inserts of `handleTeamEventRegistration` (267-289). The
      registration fails on a user missing from `users`; the team insert
      fails when the trigger finds no free code, when the name's length
      breaks the CHECK (both server errors), or when the name is taken
      ignoring case (the unique index: SQLSTATE 23505). Otherwise all
      three rows are added. */
  method InsertTeam(db: Store, userId: UserId, eventId: EventId, name: string, now: int, draws: seq<seq<nat>>)
    returns (r: Reply<Registered>)
    requires db.Valid() && ValidDraws(draws)
    requires eventId in db.events && db.events[eventId].maxTeamSize > 1
    requires !RegisteredFor(db.registrations, userId, eventId)
    modifies db
    ensures db.Valid()
    ensures r.Fail? ==> unchanged(db)
    ensures r.Fail? ==> r.reason in {ServerError, UniqueViolation}
    ensures userId !in old(db.users) ==> r == Fail(ServerError)
    ensures r == Fail(UniqueViolation) <==> (userId in old(db.users) && TeamNameFits(name)
              && NameTaken(old(db.teams), eventId, name)
              && exists k :: 0 <= k < MaxCodeAttempts && CodeFromRolls(draws[k]) !in CodesIn(old(db.teams), eventId))
    ensures RepliesAs(r, InsertRefusal(old(db.users), old(db.teams), userId, eventId, name, draws))
    ensures r.Ok? ==> TeamInserted(old(db.Snapshot()), db.Snapshot(), db.events[eventId], userId, eventId, now, r.value)
                      && r.value.teamName == name
  {
    if userId !in db.users {
      return Fail(ServerError);
    }
    var code := AssignTeamCode(CodesIn(db.teams, eventId), draws);
    if code.None? {
      return Fail(ServerError);
    }
    if !TeamNameFits(name) {
      return Fail(ServerError);
    }
    if NameTaken(db.teams, eventId, name) {
      return Fail(UniqueViolation);
    }
    var d := CreateTeam(db, userId, eventId, name, code.value, now);
    r := Ok(d);
  }

  /** How the team path ends for a caller: a required name's own refusal,
      or `TeamNameTaken` when another team of the event holds it; otherwise
      the inserts' outcome for the settled name, which for a generated name
      is computed from the event's team names as listed. */
  ghost predicate TeamPathReply(r: Reply<Registered>, users: map<UserId, User>, teams: map<TeamId, Team>,
                                required: bool, userId: UserId, eventId: EventId, base: string,
                                teamName: Option<string>, draws: seq<seq<nat>>)
    requires ValidDraws(draws)
  {
    if required then
      var checked := CheckRequiredTeamName(teamName);
      if checked.Fail? then r == Fail(checked.reason)
      else if NameTaken(teams, eventId, checked.value) then r == Fail(TeamNameTaken)
      else RepliesAs(r, InsertRefusal(users, teams, userId, eventId, checked.value, draws))
    else
      exists names :: ListsTeamNames(names, teams, eventId)
                      && RepliesAs(r, InsertRefusal(users, teams, userId, eventId, GeneratedTeamName(names, base), draws))
  }

  /** `handleTeamEventRegistration` (209-313): settles the team name, then
      inserts the caller's registration, a team led by the caller and the
      link; whether or not the event is paid. `base` is the caller's
      trimmed name. */
  method HandleTeamRegistration(db: Store, userId: UserId, base: string, eventId: EventId,
                                teamName: Option<string>, now: int, draws: seq<seq<nat>>)
    returns (r: Reply<Registered>)
    requires db.Valid() && ValidDraws(draws)
    requires eventId in db.events && db.events[eventId].maxTeamSize > 1
    requires !RegisteredFor(db.registrations, userId, eventId)
    modifies db
    ensures db.Valid()
    ensures r.Fail? ==> unchanged(db)
    ensures r.Fail? ==> r.reason in {TeamNameRequired, TeamNameLength, TeamNameInvalidChars, TeamNameTaken,
                                     ServerError, UniqueViolation}
    ensures db.events[eventId].teamNameRequired ==>
              var checked := CheckRequiredTeamName(teamName);
              && (checked.Fail? ==> r == Fail(checked.reason))
              && (checked.Ok? && NameTaken(old(db.teams), eventId, checked.value) ==> r == Fail(TeamNameTaken))
              && (r.Ok? ==> r.value.TeamRegistered? && r.value.teamName == checked.value)
              && r != Fail(UniqueViolation)
    ensures !db.events[eventId].teamNameRequired && r.Ok? ==>
              r.value.TeamRegistered?
              && exists names :: ListsTeamNames(names, old(db.teams), eventId)
                                 && r.value.teamName == GeneratedTeamName(names, base)
    ensures r.Ok? ==> TeamInserted(old(db.Snapshot()), db.Snapshot(), db.events[eventId], userId, eventId, now, r.value)
    ensures TeamPathReply(r, old(db.users), old(db.teams), db.events[eventId].teamNameRequired, userId, eventId,
                          base, teamName, draws)
  {
    var e := db.events[eventId];
    var name := SettleTeamName(db, eventId, e.teamNameRequired, teamName, base);
    if name.Fail? {
      return Fail(name.reason);
    }
    r := InsertTeam(db, userId, eventId, name.value, now, draws);
  }

  /** `registerForEvent` (5-157): the checks in source order, each refusal
      rolling back; then the solo path when `max_team_size` is 1 and the
      team path otherwise. The fallback 500 of 129-131 is unreachable: the
      configuration check has already refused a maximum below 1. */
  method RegisterForEvent(db: Store, req: RegisterRequest, now: int, draws: seq<seq<nat>>)
    returns (r: Reply<Registered>)
    requires db.Valid() && ValidDraws(draws)
    modifies db
    ensures db.Valid()
    ensures r.Fail? ==> unchanged(db)
    ensures var refusal := RegisterRefusal(req, db.events, old(db.registrations), old(db.teams),
                                           old(db.teamRegistrations), now);
            refusal.Some? ==> r == Fail(refusal.value)
    ensures r.Ok? ==> Admissible(req, db.events, old(db.registrations), old(db.teams),
                                 old(db.teamRegistrations), now)
    ensures r.Ok? ==>
              var e := db.events[req.eventId.value];
              && (e.maxTeamSize == 1 <==> r.value.SoloRegistered?)
              && (r.value.SoloRegistered? ==>
                    db.Snapshot() == AddRegistration(old(db.Snapshot()),
                                       NewRegistration(req.userId.value, req.eventId.value, now, NoFood, None)))
              && (r.value.TeamRegistered? ==>
                    TeamInserted(old(db.Snapshot()), db.Snapshot(), e, req.userId.value, req.eventId.value, now,
                                 r.value))
              && r.value.registrationId == old(db.nextId)
              && r.value.paymentRequired == (e.feePaise > 0)
    ensures RegisterRefusal(req, db.events, old(db.registrations), old(db.teams), old(db.teamRegistrations), now).None? ==>
              var userId, eventId := req.userId.value, req.eventId.value;
              var e := db.events[eventId];
              && (e.maxTeamSize == 1 ==> RepliesAs(r, if userId in old(db.users) then None else Some(ServerError)))
              && (e.maxTeamSize != 1 ==> TeamPathReply(r, old(db.users), old(db.teams), e.teamNameRequired, userId,
                                                       eventId, Trim(req.userName.value), req.teamName, draws))
  {
    var refusal := RegisterRefusal(req, db.events, db.registrations, db.teams, db.teamRegistrations, now);
    if refusal.Some? {
      return Fail(refusal.value);
    }
    var userId, eventId := req.userId.value, req.eventId.value;
    var e := db.events[eventId];
    if e.maxTeamSize == 1 {
      r := HandleSoloRegistration(db, userId, eventId, now);
    } else {
      r := HandleTeamRegistration(db, userId, Trim(req.userName.value), eventId, req.teamName, now, draws);
    }
  }

  /** After a successful registration the caller's status for the event
      reports the new row: unpaid, absent, stamped `now`. */
  lemma RegisteredStatus(t: Tables, events: map<EventId, Event>, sign: string -> string,
                         t': Tables, userId: UserId, eventId: EventId, now: int)
    requires TablesOk(t', events, sign) && eventId in events
    requires t'.registrations == t.registrations[t.nextId := NewRegistration(userId, eventId, now, NoFood, None)]
    ensures var s := GetRegistrationStatus(events, t'.registrations, t'.teams, t'.teamRegistrations,
                                           Some(userId), Some(eventId));
            && s.Ok? && s.value.IsRegistered?
            && s.value.registrationId == t.nextId
            && !s.value.paid && s.value.attendance == Absent && s.value.timestamp == now
  {
    var regs := t'.registrations;
    assert t.nextId in regs && regs[t.nextId].studentId == userId && regs[t.nextId].eventId == eventId;
    assert HasRegistrationRow(events, regs, userId, eventId);
  }

  // ---------------------------------------------------------------------
  // joinTeam

  datatype JoinRequest = JoinRequest(userId: Option<UserId>, eventId: Option<EventId>, teamCode: Option<string>)

  /** `teamCode.trim().toUpperCase()` (366). */
  function SanitizeCode(code: string): (r: string)
    ensures |r| == |Trim(code)| <= |code|
    ensures forall i :: 0 <= i < |r| ==> !('a' <= r[i] <= 'z')
  {
    Upper(Trim(code))
  }

  /** The sanitized code is the trimmed code with its letters in upper
      case: it has no white space at either end, it spells the trimmed
      code ignoring case, and sanitizing it again changes nothing. */
  lemma SanitizedCodeIsTrimmedUpper(code: string)
    ensures var r := SanitizeCode(code);
            && (r != [] ==> !IsJsSpace(r[0]) && !IsJsSpace(r[|r| - 1]))
            && Lower(r) == Lower(Trim(code))
            && SanitizeCode(r) == r
  {
    var t := Trim(code);
    var r := SanitizeCode(code);
    LowerOfUpper(t);
    UpperIdempotent(t);
    if r != [] {
      assert !IsJsSpace(t[0]) && !IsJsSpace(t[|t| - 1]) by { TrimProperties(code); }
      UpperKeepsSpace(t[0]);
      UpperKeepsSpace(t[|t| - 1]);
      TrimOfUnpadded(r);
    }
  }

  /** The checks of `joinTeam` that need no store (358-372): all three
      fields present (an empty code is falsy), and a sanitised code of six
      letters or digits. */
  function JoinRequestRefusal(req: JoinRequest): (r: Option<Reason>)
    ensures r.None? <==> req.userId.Some? && req.eventId.Some? && req.teamCode.Some? && req.teamCode.value != []
                         && IsTeamCode(SanitizeCode(req.teamCode.value))
    ensures r.Some? ==> r.value in {MissingJoinFields, InvalidTeamCode}
    ensures r == Some(MissingJoinFields) <==>
              (req.userId.None? || req.eventId.None? || req.teamCode.None? || req.teamCode.value == [])
  {
    if req.userId.None? || req.teamCode.None? || req.teamCode.value == [] || req.eventId.None? then
      Some(MissingJoinFields)
    else if !IsTeamCode(SanitizeCode(req.teamCode.value)) then Some(InvalidTeamCode)
    else None
  }

  /** A team of `event` with `code`. */
  predicate IsTeamWithCode(teams: map<TeamId, Team>, id: TeamId, code: string, event: EventId) {
    id in teams && teams[id].code == code && teams[id].eventId == event
  }

  predicate TeamWithCodeExists(teams: map<TeamId, Team>, code: string, event: EventId) {
    exists id :: id in teams && IsTeamWithCode(teams, id, code, event)
  }

  /** The checks of 388-452 once the team `id` has been found, before its
      member count is read, in source order. */
  function JoinPreCountRefusal(events: map<EventId, Event>, regs: map<RegId, Registration>,
                               teams: map<TeamId, Team>, userId: UserId, id: TeamId, now: int): (r: Option<Reason>)
    requires id in teams && teams[id].eventId in events
    ensures var e := events[teams[id].eventId];
            r.None? <==> && e.maxTeamSize != 1 && e.status == Active && InWindow(e.regStart, e.regEnd, now)
                         && !RegisteredFor(regs, userId, teams[id].eventId)
                         && teams[id].leadId != userId
    ensures r == Some(AlreadyRegistered) ==> RegisteredFor(regs, userId, teams[id].eventId)
    ensures r != Some(TeamFull) && r != Some(ServerError)
  {
    var e := events[teams[id].eventId];
    if e.maxTeamSize == 1 then Some(SoloEventJoin)
    else if e.status != Active then Some(EventNotActive)
    else if WindowRefusal(e.regStart, e.regEnd, now).Some? then WindowRefusal(e.regStart, e.regEnd, now)
    else if RegisteredFor(regs, userId, teams[id].eventId) then Some(AlreadyRegistered)
    else if teams[id].leadId == userId then Some(CannotJoinOwnTeam)
    else None
  }

  /** The checks of 388-472 in source order, with the member count read as
      intended: a team whose members reach its event's maximum is full. */
  function JoinTeamRefusal(events: map<EventId, Event>, regs: map<RegId, Registration>, teams: map<TeamId, Team>,
                           links: map<RegId, TeamId>, userId: UserId, id: TeamId, now: int): (r: Option<Reason>)
    requires id in teams && teams[id].eventId in events
    ensures var e := events[teams[id].eventId];
            r.None? <==> && e.maxTeamSize != 1 && e.status == Active && InWindow(e.regStart, e.regEnd, now)
                         && !RegisteredFor(regs, userId, teams[id].eventId)
                         && teams[id].leadId != userId
                         && MemberCount(links, id) < e.maxTeamSize
    ensures r == Some(AlreadyRegistered) ==> RegisteredFor(regs, userId, teams[id].eventId)
    ensures r == Some(TeamFull) ==> MemberCount(links, id) >= events[teams[id].eventId].maxTeamSize
  {
    var pre := JoinPreCountRefusal(events, regs, teams, userId, id, now);
    if pre.Some? then pre
    else if MemberCount(links, id) >= events[teams[id].eventId].maxTeamSize then Some(TeamFull)
    else None
  }

  /** The checks of 388-472 as written. The member count of 454-459 is read
      with `FOR UPDATE OF r`, which PostgreSQL rejects beside `COUNT(*)`
      (SQLSTATE 0A000): every join that passes the earlier checks ends in
      the catch's 500. */
  function JoinTeamRefusalAsWritten(events: map<EventId, Event>, regs: map<RegId, Registration>,
                                    teams: map<TeamId, Team>, userId: UserId, id: TeamId, now: int): (r: Option<Reason>)
    requires id in teams && teams[id].eventId in events
    ensures r.Some? && r != Some(TeamFull)
  {
    var pre := JoinPreCountRefusal(events, regs, teams, userId, id, now);
    if pre.Some? then pre else Some(ServerError)
  }

  /** As written, `joinTeam` never admits anyone: every request is refused,
      and one the intended checks admit gets a 500. */
  lemma JoinNeverSucceedsAsWritten(events: map<EventId, Event>, regs: map<RegId, Registration>,
                                   teams: map<TeamId, Team>, links: map<RegId, TeamId>, userId: UserId,
                                   id: TeamId, now: int)
    requires id in teams && teams[id].eventId in events
    ensures JoinTeamRefusalAsWritten(events, regs, teams, userId, id, now).Some?
    ensures JoinTeamRefusal(events, regs, teams, links, userId, id, now).None? ==>
              JoinTeamRefusalAsWritten(events, regs, teams, userId, id, now) == Some(ServerError)
  {
  }

  /** The own-team refusal (446-452) never fires: every lead already holds
      a registration for the team's event, which the duplicate check
      before it refuses. */
  lemma OwnTeamUnreachable(events: map<EventId, Event>, regs: map<RegId, Registration>, teams: map<TeamId, Team>,
                           links: map<RegId, TeamId>, userId: UserId, id: TeamId, now: int)
    requires TeamsOk(events, regs, teams) && id in teams
    ensures JoinTeamRefusal(events, regs, teams, links, userId, id, now) != Some(CannotJoinOwnTeam)
  {
    if teams[id].leadId == userId {
      assert RegisteredFor(regs, userId, teams[id].eventId);
    }
  }

  /** UNIQUE(event_id, team_code): the code finds at most one team of an
      event. */
  lemma TeamWithCodeUnique(teams: map<TeamId, Team>, id: TeamId, code: string, event: EventId)
    requires TeamKeysUnique(teams) && IsTeamWithCode(teams, id, code, event)
    ensures forall other :: IsTeamWithCode(teams, other, code, event) ==> other == id
  {
  }

  /** How a join of team `id` ends once it is found: the checks' refusal,
      else a server error when the registration's foreign key finds no
      user, else success. */
  function JoinOutcome(events: map<EventId, Event>, regs: map<RegId, Registration>, teams: map<TeamId, Team>,
                       links: map<RegId, TeamId>, users: map<UserId, User>, userId: UserId, id: TeamId,
                       now: int): Option<Reason>
    requires id in teams && teams[id].eventId in events
  {
    var refusal := JoinTeamRefusal(events, regs, teams, links, userId, id, now);
    if refusal.Some? then refusal
    else if userId !in users then Some(ServerError)
    else None
  }

  /** What a successful join reports. */
  datatype Joined = Joined(
    registrationId: RegId,
    eventId: EventId,
    eventName: string,
    teamName: string,
    teamCode: string,
    teamId: TeamId,
    teamLeadId: UserId,
    isTeamLead: bool,
    currentMembers: nat,
    maxMembers: int,
    minMembers: int,
    teamIsFull: bool,
    feePaise: int,
    paymentRequired: bool,
    timestamp: int)

  /** `joinTeam` (351-560): sanitises and checks the code, finds the team
      by (code, event), runs the checks, then inserts the caller's
      registration and its link to the team. A caller missing from `users`
      breaks the registration's foreign key: a server error. */
  method JoinTeam(db: Store, req: JoinRequest, now: int) returns (r: Reply<Joined>)
    requires db.Valid()
    modifies db
    ensures db.Valid()
    ensures r.Fail? ==> unchanged(db)
    ensures r != Fail(CannotJoinOwnTeam)
    ensures JoinRequestRefusal(req).Some? ==> r == Fail(JoinRequestRefusal(req).value)
    ensures JoinRequestRefusal(req).None?
            && !TeamWithCodeExists(old(db.teams), SanitizeCode(req.teamCode.value), req.eventId.value)
            ==> r == Fail(TeamNotFound)
    ensures JoinRequestRefusal(req).None? ==>
              forall id :: IsTeamWithCode(old(db.teams), id, SanitizeCode(req.teamCode.value), req.eventId.value) ==>
                RepliesAs(r, JoinOutcome(db.events, old(db.registrations), old(db.teams), old(db.teamRegistrations),
                                         old(db.users), req.userId.value, id, now))
    ensures r.Ok? ==>
              var d := r.value; var id := d.teamId;
              && JoinRequestRefusal(req).None?
              && IsTeamWithCode(old(db.teams), id, SanitizeCode(req.teamCode.value), req.eventId.value)
              && JoinTeamRefusal(db.events, old(db.registrations), old(db.teams), old(db.teamRegistrations),
                                 req.userId.value, id, now).None?
              && db.Snapshot() == AddMember(old(db.Snapshot()),
                                    NewRegistration(req.userId.value, req.eventId.value, now, NoFood, None), id)
              && d.registrationId == old(db.nextId) && d.teamCode == SanitizeCode(req.teamCode.value)
              && d.currentMembers == MemberCount(db.teamRegistrations, id)
              && d.currentMembers == MemberCount(old(db.teamRegistrations), id) + 1
              && d.currentMembers <= d.maxMembers == db.events[req.eventId.value].maxTeamSize
              && !d.isTeamLead && d.teamLeadId != req.userId.value
              && (d.teamIsFull <==> d.currentMembers >= d.maxMembers)
              && d.paymentRequired == (d.feePaise > 0)
  {
    var refusal := JoinRequestRefusal(req);
    if refusal.Some? {
      return Fail(refusal.value);
    }
    var userId, eventId, code := req.userId.value, req.eventId.value, SanitizeCode(req.teamCode.value);
    if !TeamWithCodeExists(db.teams, code, eventId) {
      return Fail(TeamNotFound);
    }
    var id :| id in db.teams && IsTeamWithCode(db.teams, id, code, eventId);
    var t := db.Snapshot();
    TeamWithCodeUnique(t.teams, id, code, eventId);
    var team := t.teams[id];
    var e := db.events[eventId];
    OwnTeamUnreachable(db.events, t.registrations, t.teams, t.teamRegistrations, userId, id, now);
    var joinRefusal := JoinTeamRefusal(db.events, t.registrations, t.teams, t.teamRegistrations, userId, id, now);
    if joinRefusal.Some? {
      return Fail(joinRefusal.value);
    }
    if userId !in t.users {
      return Fail(ServerError);
    }
    var current := MemberCount(t.teamRegistrations, id);
    var reg := NewRegistration(userId, eventId, now, NoFood, None);
    InsertMemberKeeps(t, db.events, db.sign, reg, id);
    AddLinkCounts(t.teamRegistrations, t.nextId, id, id);
    db.Commit(AddMember(t, reg, id));
    r := Ok(Joined(t.nextId, eventId, e.name, team.name, team.code, id, team.leadId, false, current + 1,
                   e.maxTeamSize, e.minTeamSize, current + 1 >= e.maxTeamSize, e.feePaise, e.feePaise > 0, now));
  }
}
