/** `src/services/registration.service.ts`: a variant of the registration
    handlers that no route calls. Its functions take the caller's
    transaction and throw on failure, leaving ROLLBACK to the caller; here
    a thrown error is a `Fail` with the store unchanged. It differs from
    the controller in three ways the model keeps: the count always counts
    registrations, a supplied team name is taken without the length and
    character checks, and the generated-name query escapes its suffix
    pattern so that it never reads a suffix back. */
module RegistrationService {
  import opened Http
  import opened Text
  import opened Schema
  import opened Db
  import opened RegistrationController

  // ---------------------------------------------------------------------
  // The checks

  /** `validateEventAccess` (20-82): the event row, or the first check it
      fails, in source order. */
  function ValidateEventAccess(events: map<EventId, Event>, eventId: EventId, now: int): (r: Reply<Event>)
    ensures r.Ok? <==> eventId in events && SizesValid(events[eventId]) && events[eventId].status == Active
                       && InWindow(events[eventId].regStart, events[eventId].regEnd, now)
    ensures r.Ok? ==> r.value == events[eventId]
    ensures r == Fail(EventNotFound) <==> eventId !in events
    ensures r.Fail? && eventId in events && !SizesValid(events[eventId]) ==> r.reason == InvalidEventConfig
  {
    if eventId !in events then Fail(EventNotFound)
    else
      var e := events[eventId];
      if !SizesValid(e) then Fail(InvalidEventConfig)
      else if e.status != Active then Fail(EventNotActive)
      else if WindowRefusal(e.regStart, e.regEnd, now).Some? then Fail(WindowRefusal(e.regStart, e.regEnd, now).value)
      else Ok(e)
  }

  /** `checkExistingRegistration` (84-96): a refusal when (user, event)
      already has a row, whatever its payment state. */
  function CheckExistingRegistration(regs: map<RegId, Registration>, userId: UserId, eventId: EventId)
    : (r: Option<Reason>)
    ensures r.Some? <==> RegisteredFor(regs, userId, eventId)
    ensures r.Some? ==> r.value == AlreadyRegistered
  {
    if RegisteredFor(regs, userId, eventId) then Some(AlreadyRegistered) else None
  }

  /** The service's event checks refuse exactly as the controller does,
      once the caller's ids and name are present. */
  lemma ValidateAgreesWithController(req: RegisterRequest, events: map<EventId, Event>,
                                     regs: map<RegId, Registration>, teams: map<TeamId, Team>,
                                     links: map<RegId, TeamId>, now: int)
    requires req.userId.Some? && req.eventId.Some? && req.userName.Some? && Trim(req.userName.value) != []
    ensures var v := ValidateEventAccess(events, req.eventId.value, now);
            && (v.Fail? ==> RegisterRefusal(req, events, regs, teams, links, now) == Some(v.reason))
            && (v.Ok? ==> RegisterRefusal(req, events, regs, teams, links, now) ==
                            if CheckExistingRegistration(regs, req.userId.value, req.eventId.value).Some?
                            then Some(AlreadyRegistered)
                            else if Capped(v.value.maxRegistrations)
                                    && CurrentRegistrationCount(regs, teams, links, req.eventId.value,
                                                                v.value.maxTeamSize > 1)
                                       >= v.value.maxRegistrations.value
                            then Some(RegistrationFull)
                            else None)
  {
  }

  /** `getCurrentRegistrationCount` (98-119): the flag is overwritten with
      false before it is read, so every event counts its registrations. */
  function ServiceRegistrationCount(regs: map<RegId, Registration>, teams: map<TeamId, Team>,
                                    links: map<RegId, TeamId>, event: EventId, isTeamEvent: bool): (n: nat)
    ensures n == |RegistrationsOf(regs, event)|
  {
    var isTeamEvent := false;
    CurrentRegistrationCount(regs, teams, links, event, isTeamEvent)
  }

  /** The service's count ignores the event type: for a team event it is
      the controller's solo count, never its team count. */
  lemma ServiceCountIgnoresTeams(regs: map<RegId, Registration>, teams: map<TeamId, Team>,
                                 links: map<RegId, TeamId>, event: EventId, isTeamEvent: bool)
    ensures ServiceRegistrationCount(regs, teams, links, event, isTeamEvent)
            == CurrentRegistrationCount(regs, teams, links, event, false)
            == ServiceRegistrationCount(regs, teams, links, event, !isTeamEvent)
  {
  }

  // ---------------------------------------------------------------------
  // The generated team name, as the service writes it

  /** The number of leading decimal digits of `s`. */
  function LeadingDigits(s: string): (k: nat)
    ensures k <= |s| && IsDigits(s[..k])
    ensures k < |s| ==> !IsDigit(s[k])
  {
    if s == [] || !IsDigit(s[0]) then 0
    else
      var k := 1 + LeadingDigits(s[1..]);
      assert s[..k] == [s[0]] + s[1..][..k - 1];
      k
  }

  /** What `'^' || lb || ' (\\([0-9]+\\))'` matches once the template
      literal and the SQL string have each removed a level of escaping:
      `lb`, a space, a backslash, digits and a backslash, followed by
      anything (there is no end anchor). */
  predicate BackslashNumbered(name: string, lb: string) {
    var p := lb + " \\";
    && StartsWith(name, p)
    && var rest := name[|p|..];
       var k := LeadingDigits(rest);
       0 < k < |rest| && rest[k] == '\\'
  }

  /** `generateUniqueTeamName` (310-341) as written. A name the suffix
      pattern matches (case-sensitively) makes the `::int` cast of the
      captured "digits and backslash" raise; otherwise the maximum suffix
      is 0, and the base is numbered 1 when it is taken ignoring case. */
  function ServiceGeneratedTeamName(names: seq<string>, base: string): (r: Reply<string>)
    ensures r.Fail? <==> exists n :: n in names && BackslashNumbered(n, Lower(base))
    ensures r.Fail? ==> r.reason == ServerError
    ensures r.Ok? ==> r.value == base || r.value == Numbered(base, 1)
    ensures r == Ok(base) <==> (forall n :: n in names ==> !BackslashNumbered(n, Lower(base)))
                               && !HoldsBase(names, Lower(base))
  {
    var lb := Lower(base);
    if exists n :: n in names && BackslashNumbered(n, lb) then Fail(ServerError)
    else if HoldsBase(names, lb) then Ok(Numbered(base, 1))
    else Ok(base)
  }

  /** Two automatically named teams in one event: the service numbers the
      second `bob (1)` again, which the unique index on the lower-cased
      name then refuses. */
  lemma ServiceNameRepeats()
    ensures ServiceGeneratedTeamName(["bob", "bob (1)"], "bob") == Ok("bob (1)")
  {
    var names := ["bob", "bob (1)"];
    var lb := Lower("bob");
    assert lb == "bob";
    forall n | n in names ensures !BackslashNumbered(n, lb) {
      assert n == "bob" || n[4] == '(';
    }
    assert Lower(names[0]) == lb;
    assert "bob (1)" == Numbered("bob", 1);
  }

  /** For the same names the controller numbers the second team
      `bob (2)`. */
  lemma ControllerNumbersPastSuffix()
    ensures GeneratedTeamName(["bob", "bob (1)"], "bob") == Numbered("bob", 2)
  {
    var names := ["bob", "bob (1)"];
    var lb := Lower("bob");
    assert lb == "bob";
    var numbered := Numbered("bob", 1);
    assert numbered == "bob (1)";
    assert Lower(numbered) == numbered;
    SplitSuffixOfNumbered("bob", 1);
    assert SuffixValue(numbered, lb) == 1 && InBaseFamily(numbered, lb);
    assert names[1..] == [numbered] && [numbered][1..] == [];
    assert MaxSuffix([numbered], lb) == 1;
    assert SplitSuffix("bob") == None;
    assert MaxSuffix(names, lb) == 1;
    assert HoldsBase(names, lb);
  }

  // ---------------------------------------------------------------------
  // handleRegistrationFlow and its two paths

  /** `foodPref || 'No food'`: an absent or empty preference is the
      default. */
  function FoodOrDefault(food: Option<string>): (r: string)
    ensures r == NoFood <==> food.None? || food.value == [] || food.value == NoFood
  {
    if food.None? || food.value == [] then NoFood else food.value
  }

  /** `accommodationId || null`: an absent or zero id is NULL. */
  function AccommodationOrNull(id: Option<int>): (r: Option<int>)
    ensures r.Some? <==> id.Some? && id.value != 0
    ensures r.Some? ==> r == id
  {
    if id.None? || id.value == 0 then None else id
  }

  /** The accommodation a reply echoes: looked up only for a non-zero id,
      NULL when the lookup finds no row. */
  function AccommodationData(accommodations: map<int, string>, id: Option<int>): (r: Option<(int, string)>)
    ensures r.Some? <==> AccommodationOrNull(id).Some? && id.value in accommodations
    ensures r.Some? ==> r.value == (id.value, accommodations[id.value])
  {
    if AccommodationOrNull(id).Some? && id.value in accommodations then Some((id.value, accommodations[id.value]))
    else None
  }

  /** `Math.random().toString(36).substring(2, 8).toUpperCase()`: up to six
      of the base-36 digits after "0.", upper-cased. `digits` are those
      digits, which the model takes as a parameter. */
  function RandomTeamCode(digits: string): (r: string)
    ensures |r| == if |digits| < 6 then |digits| else 6
    ensures forall i :: 0 <= i < |r| ==> r[i] == UpperChar(digits[i])
  {
    Upper(if |digits| < 6 then digits else digits[..6])
  }

  /** What the service reports. */
  datatype ServiceRegistered =
    | ServiceSolo(
        registrationId: RegId,
        eventName: string,
        feePaise: int,
        paymentRequired: bool,
        timestamp: int,
        accommodation: Option<(int, string)>,
        foodPreference: string)
    | ServiceTeam(
        registrationId: RegId,
        eventName: string,
        teamName: string,
        teamId: TeamId,
        teamCode: string,
        isTeamLead: bool,
        currentMembers: nat,
        maxMembers: int,
        minMembers: int,
        canInviteMembers: bool,
        feePaise: int,
        paymentRequired: bool,
        timestamp: int,
        accommodation: Option<(int, string)>,
        foodPreference: string)

  /** The registration row both paths insert. */
  function ServiceRegistration(userId: UserId, eventId: EventId, now: int, food: Option<string>,
                               accommodation: Option<int>): (reg: Registration)
    ensures reg.foodPreference == Some(FoodOrDefault(food))
    ensures reg.accommodationId == AccommodationOrNull(accommodation)
    ensures reg.studentId == userId && reg.eventId == eventId && !reg.paid && reg.attendance == Absent
  {
    NewRegistration(userId, eventId, now, FoodOrDefault(food), AccommodationOrNull(accommodation))
  }

  /** `handleSoloEventRegistration` (156-201): one registration row with the
      given food preference and accommodation. The insert fails on a user
      or event missing from their tables (foreign keys) and on an existing
      (user, event) row (the UNIQUE constraint). */
  method SoloEventRegistration(db: Store, userId: UserId, eventId: EventId, e: Event, now: int,
                     accommodation: Option<int>, food: Option<string>)
    returns (r: Reply<ServiceRegistered>)
    requires db.Valid()
    modifies db
    ensures db.Valid()
    ensures r.Fail? ==> unchanged(db)
    ensures r.Fail? <==> userId !in old(db.users) || eventId !in db.events
                         || RegisteredFor(old(db.registrations), userId, eventId)
    ensures r.Ok? ==>
              && db.Snapshot() == AddRegistration(old(db.Snapshot()),
                                    ServiceRegistration(userId, eventId, now, food, accommodation))
              && r.value == ServiceSolo(old(db.nextId), e.name, e.feePaise, e.feePaise > 0, now,
                                        AccommodationData(db.accommodations, accommodation), FoodOrDefault(food))
  {
    if userId !in db.users || eventId !in db.events {
      return Fail(ServerError);
    }
    if RegisteredFor(db.registrations, userId, eventId) {
      return Fail(UniqueViolation);
    }
    var t := db.Snapshot();
    var reg := ServiceRegistration(userId, eventId, now, food, accommodation);
    InsertRegistrationKeeps(t, db.events, db.sign, reg);
    db.Commit(AddRegistration(t, reg));
    r := Ok(ServiceSolo(t.nextId, e.name, e.feePaise, e.feePaise > 0, now,
                        AccommodationData(db.accommodations, accommodation), FoodOrDefault(food)));
  }

  /** The name the team path settles on (213-236): a supplied name that is
      not blank, trimmed, unless it is taken ignoring case; otherwise the
      generated one. No length or character check. */
  method ServiceTeamName(db: Store, eventId: EventId, teamName: Option<string>, base: string)
    returns (r: Reply<string>)
    ensures teamName.Some? && Trim(teamName.value) != [] ==>
              r == if NameTaken(db.teams, eventId, Trim(teamName.value)) then Fail(TeamNameTaken)
                   else Ok(Trim(teamName.value))
    ensures !(teamName.Some? && Trim(teamName.value) != []) ==>
              exists names :: ListsTeamNames(names, db.teams, eventId)
                              && r == ServiceGeneratedTeamName(names, base)
  {
    if teamName.Some? && Trim(teamName.value) != [] {
      var name := Trim(teamName.value);
      if NameTaken(db.teams, eventId, name) {
        return Fail(TeamNameTaken);
      }
      r := Ok(name);
    } else {
      var names := TeamNamesIn(db.teams, eventId);
      r := ServiceGeneratedTeamName(names, base);
    }
  }

  /** `t'` is `t` with the team, its lead's registration and their link
      added, and the new team has its lead as its one member. */
  ghost predicate LeadTeamAdded(t: Tables, t': Tables, reg: Registration, team: Team) {
    && t' == AddTeamWithLead(t, reg, team)
    && MemberCount(t'.teamRegistrations, t.nextId + 1) == 1
  }

  /** Commits a team with its lead's registration and their link, once
      every constraint is known to hold. */
  method CommitTeam(db: Store, reg: Registration, team: Team)
    requires db.Valid()
    requires reg.studentId in db.users && reg.eventId in db.events && !reg.paid
    requires !RegisteredFor(db.registrations, reg.studentId, reg.eventId)
    requires reg.eventId == team.eventId && reg.studentId == team.leadId
    requires TeamNameFits(team.name) && TeamLinkAllowed(db.events[team.eventId].maxTeamSize)
    requires team.code !in CodesIn(db.teams, team.eventId) && !NameTaken(db.teams, team.eventId, team.name)
    modifies db
    ensures db.Valid()
    ensures LeadTeamAdded(old(db.Snapshot()), db.Snapshot(), reg, team)
  {
    var t := db.Snapshot();
    InsertTeamWithLeadKeeps(t, db.events, db.sign, reg, team);
    FreshTeamHasLeadOnly(db.events, t.registrations, t.teams, t.teamRegistrations, t.nextId);
    db.Commit(AddTeamWithLead(t, reg, team));
  }

  /** What the team path reports (285-306): the new registration and team,
      the caller as lead and only member, and the event's sizes and fee. */
  function ServiceTeamReply(id: RegId, e: Event, name: string, code: string, now: int,
                            room: Option<(int, string)>, food: string): (d: ServiceRegistered)
    ensures d.ServiceTeam? && d.registrationId == id && d.teamId == id + 1 && d.teamName == name
    ensures d.teamCode == code && d.isTeamLead && d.currentMembers == 1 && d.canInviteMembers
    ensures d.maxMembers == e.maxTeamSize && d.minMembers == e.minTeamSize
    ensures d.paymentRequired == (e.feePaise > 0) && d.foodPreference == food && d.accommodation == room
  {
    ServiceTeam(id, e.name, name, id + 1, code, true, 1, e.maxTeamSize, e.minTeamSize, true,
                e.feePaise, e.feePaise > 0, now, room, food)
  }

  /** The three inserts of the team path (238-266): the registration, the
      team with the drawn code (the code trigger fires only for a NULL
      code, so the drawn code is stored as it is), and the link. Each
      insert can violate a constraint: the foreign keys and UNIQUE
      (user, event) of the registration, the name-length CHECK and the two
      unique keys of the team, and the solo-event trigger on the link. */
  method ServiceInsertTeam(db: Store, userId: UserId, eventId: EventId, e: Event, name: string, code: string,
                           now: int, accommodation: Option<int>, food: Option<string>)
    returns (r: Reply<ServiceRegistered>)
    requires db.Valid()
    modifies db
    ensures db.Valid()
    ensures r.Fail? ==> unchanged(db)
    ensures r.Ok? <==> ServiceInsertOk(old(db.users), db.events, old(db.registrations), old(db.teams),
                                       userId, eventId, name, code)
    ensures r.Ok? ==>
              && LeadTeamAdded(old(db.Snapshot()), db.Snapshot(),
                               ServiceRegistration(userId, eventId, now, food, accommodation),
                               Team(code, name, userId, eventId))
              && r.value == ServiceTeamReply(old(db.nextId), e, name, code, now,
                                             AccommodationData(db.accommodations, accommodation), FoodOrDefault(food))
  {
    if userId !in db.users || eventId !in db.events {
      return Fail(ServerError);
    }
    if RegisteredFor(db.registrations, userId, eventId) {
      return Fail(UniqueViolation);
    }
    if !TeamNameFits(name) {
      return Fail(ServerError);
    }
    if code in CodesIn(db.teams, eventId) || NameTaken(db.teams, eventId, name) {
      return Fail(UniqueViolation);
    }
    if !TeamLinkAllowed(db.events[eventId].maxTeamSize) {
      return Fail(ServerError);
    }
    r := Ok(ServiceTeamReply(db.nextId, e, name, code, now, AccommodationData(db.accommodations, accommodation),
                             FoodOrDefault(food)));
    CommitTeam(db, ServiceRegistration(userId, eventId, now, food, accommodation), Team(code, name, userId, eventId));
  }

  /** When the three inserts of the team path (252-296) all succeed: the
      user and event exist (foreign keys), the user holds no registration
      for the event, the name fits the length CHECK, code and name are free
      in the event (the unique constraints), and the event admits teams
      (the link's trigger). */
  predicate ServiceInsertOk(users: map<UserId, User>, events: map<EventId, Event>, regs: map<RegId, Registration>,
                            teams: map<TeamId, Team>, userId: UserId, eventId: EventId, name: string, code: string)
  {
    && userId in users && eventId in events
    && !RegisteredFor(regs, userId, eventId)
    && TeamNameFits(name) && code !in CodesIn(teams, eventId)
    && !NameTaken(teams, eventId, name)
    && TeamLinkAllowed(events[eventId].maxTeamSize)
  }

  /** How the team path ends: a supplied non-blank name that is taken is
      refused; a free supplied name, or the generated one, registers exactly
      when the inserts' constraints hold; a failing generator's error is the
      reply. */
  ghost predicate ServiceTeamOutcome(r: Reply<ServiceRegistered>, users: map<UserId, User>,
                                     events: map<EventId, Event>, regs: map<RegId, Registration>,
                                     teams: map<TeamId, Team>, userId: UserId, eventId: EventId, base: string,
                                     teamName: Option<string>, digits: string)
  {
    var code := RandomTeamCode(digits);
    if teamName.Some? && Trim(teamName.value) != [] then
      if NameTaken(teams, eventId, Trim(teamName.value)) then r == Fail(TeamNameTaken)
      else (r.Ok? <==> ServiceInsertOk(users, events, regs, teams, userId, eventId, Trim(teamName.value), code))
    else
      exists names :: && ListsTeamNames(names, teams, eventId)
                      && var g := ServiceGeneratedTeamName(names, base);
                         && (g.Fail? ==> r == Fail(g.reason))
                         && (g.Ok? ==> (r.Ok? <==> ServiceInsertOk(users, events, regs, teams, userId, eventId,
                                                                   g.value, code)))
  }

  /** `handleTeamEventRegistration` (203-307): settles the name, then makes
      the three inserts with the drawn code. `base` is the caller's name
      and `digits` the random draw behind the code. */
  method ServiceTeamRegistration(db: Store, userId: UserId, base: string, eventId: EventId, e: Event,
                                 teamName: Option<string>, accommodation: Option<int>, food: Option<string>,
                                 now: int, digits: string)
    returns (r: Reply<ServiceRegistered>)
    requires db.Valid()
    modifies db
    ensures db.Valid()
    ensures r.Fail? ==> unchanged(db)
    ensures RegisteredFor(old(db.registrations), userId, eventId) ==> r.Fail?
    ensures teamName.Some? && Trim(teamName.value) != [] && NameTaken(old(db.teams), eventId, Trim(teamName.value))
            ==> r == Fail(TeamNameTaken)
    ensures r.Ok? ==>
              && r.value.ServiceTeam?
              && LeadTeamAdded(old(db.Snapshot()), db.Snapshot(),
                               ServiceRegistration(userId, eventId, now, food, accommodation),
                               Team(RandomTeamCode(digits), r.value.teamName, userId, eventId))
              && r.value == ServiceTeamReply(old(db.nextId), e, r.value.teamName, RandomTeamCode(digits), now,
                                             AccommodationData(db.accommodations, accommodation), FoodOrDefault(food))
              && (teamName.Some? && Trim(teamName.value) != [] ==> r.value.teamName == Trim(teamName.value))
              && (!(teamName.Some? && Trim(teamName.value) != []) ==>
                    exists names :: ListsTeamNames(names, old(db.teams), eventId)
                                    && ServiceGeneratedTeamName(names, base) == Ok(r.value.teamName))
    ensures teamName.Some? && Trim(teamName.value) != [] && !NameTaken(old(db.teams), eventId, Trim(teamName.value))
            ==> (r.Ok? <==> ServiceInsertOk(old(db.users), db.events, old(db.registrations), old(db.teams),
                                            userId, eventId, Trim(teamName.value), RandomTeamCode(digits)))
    ensures !(teamName.Some? && Trim(teamName.value) != []) ==>
              exists names :: && ListsTeamNames(names, old(db.teams), eventId)
                              && var g := ServiceGeneratedTeamName(names, base);
                                 && (g.Fail? ==> r == Fail(g.reason))
                                 && (g.Ok? ==> (r.Ok? <==> ServiceInsertOk(old(db.users), db.events,
                                                  old(db.registrations), old(db.teams), userId, eventId, g.value,
                                                  RandomTeamCode(digits))))
    ensures ServiceTeamOutcome(r, old(db.users), db.events, old(db.registrations), old(db.teams), userId, eventId,
                               base, teamName, digits)
  {
    var name := ServiceTeamName(db, eventId, teamName, base);
    if name.Fail? {
      return Fail(name.reason);
    }
    r := ServiceInsertTeam(db, userId, eventId, e, name.value, RandomTeamCode(digits), now, accommodation, food);
  }

  /** `handleRegistrationFlow` (121-154) over the event row its caller
      validated: the solo path when `max_team_size` is 1, the team path
      when it is larger, and a 500 otherwise. */
  method HandleRegistrationFlow(db: Store, userId: UserId, base: string, eventId: EventId, e: Event,
                                teamName: Option<string>, accommodation: Option<int>, food: Option<string>,
                                now: int, digits: string)
    returns (r: Reply<ServiceRegistered>)
    requires db.Valid()
    modifies db
    ensures db.Valid()
    ensures r.Fail? ==> unchanged(db)
    ensures e.maxTeamSize < 1 ==> r == Fail(UnexpectedEventType)
    ensures RegisteredFor(old(db.registrations), userId, eventId) ==> r.Fail?
    ensures e.maxTeamSize == 1 ==>
              (r.Ok? <==> userId in old(db.users) && eventId in db.events
                          && !RegisteredFor(old(db.registrations), userId, eventId))
    ensures e.maxTeamSize > 1 ==>
              ServiceTeamOutcome(r, old(db.users), db.events, old(db.registrations), old(db.teams), userId, eventId,
                                 base, teamName, digits)
    ensures r.Ok? ==> (r.value.ServiceSolo? <==> e.maxTeamSize == 1)
    ensures r.Ok? ==> r.value.foodPreference == FoodOrDefault(food) && r.value.registrationId == old(db.nextId)
    ensures r.Ok? && r.value.ServiceSolo? ==>
              db.Snapshot() == AddRegistration(old(db.Snapshot()),
                                 ServiceRegistration(userId, eventId, now, food, accommodation))
    ensures r.Ok? && r.value.ServiceTeam? ==>
              && LeadTeamAdded(old(db.Snapshot()), db.Snapshot(),
                               ServiceRegistration(userId, eventId, now, food, accommodation),
                               Team(RandomTeamCode(digits), r.value.teamName, userId, eventId))
              && r.value == ServiceTeamReply(old(db.nextId), e, r.value.teamName, RandomTeamCode(digits), now,
                                             AccommodationData(db.accommodations, accommodation), FoodOrDefault(food))
  {
    if e.maxTeamSize == 1 {
      r := SoloEventRegistration(db, userId, eventId, e, now, accommodation, food);
    } else if e.maxTeamSize > 1 {
      r := ServiceTeamRegistration(db, userId, base, eventId, e, teamName, accommodation, food, now, digits);
    } else {
      r := Fail(UnexpectedEventType);
    }
  }
}
