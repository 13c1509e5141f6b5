/** The store the handlers share: one object holding the tables as finite
    maps from primary key to row, and the invariants the schema's keys,
    constraints and triggers, together with the handlers, keep. A handler
    is one atomic method on this store: it works on copies of the tables
    (its transaction) and writes them back only on COMMIT, so every
    ROLLBACK leaves the store as it was. */
module Db {
  import opened Http
  import opened Text
  import opened Schema

  // ---------------------------------------------------------------------
  // Queries shared by several handlers

  /** A row of `registrations` exists for (student, event). */
  predicate RegisteredFor(regs: map<RegId, Registration>, student: UserId, event: EventId) {
    exists r :: r in regs && regs[r].studentId == student && regs[r].eventId == event
  }

  /** The registrations of an event. */
  function RegistrationsOf(regs: map<RegId, Registration>, event: EventId): set<RegId> {
    set r | r in regs && regs[r].eventId == event
  }

  /** The teams of an event. */
  function TeamsOf(teams: map<TeamId, Team>, event: EventId): set<TeamId> {
    set t | t in teams && teams[t].eventId == event
  }

  /** The team codes used in an event. */
  function CodesIn(teams: map<TeamId, Team>, event: EventId): set<string> {
    set t | t in teams && teams[t].eventId == event :: teams[t].code
  }

  /** `SELECT 1 FROM teams WHERE event_id = $1 AND LOWER(team_name) = LOWER($2)`. */
  predicate NameTaken(teams: map<TeamId, Team>, event: EventId, name: string) {
    exists t :: t in teams && teams[t].eventId == event && Lower(teams[t].name) == Lower(name)
  }

  /** The registrations linked to a team through `team_registrations`. */
  function Members(links: map<RegId, TeamId>, team: TeamId): set<RegId> {
    set r | r in links && links[r] == team
  }

  function MemberCount(links: map<RegId, TeamId>, team: TeamId): nat {
    |Members(links, team)|
  }

  /** A team that has at least one `team_registrations` row. */
  predicate HasMembers(links: map<RegId, TeamId>, team: TeamId) {
    exists r :: r in links && links[r] == team
  }

  /** Linking one new registration to `team` adds one member to it and
      none to any other team. */
  lemma AddLinkCounts(links: map<RegId, TeamId>, k: RegId, team: TeamId, other: TeamId)
    requires k !in links
    ensures MemberCount(links[k := team], other) == MemberCount(links, other) + (if other == team then 1 else 0)
  {
    var before, after := Members(links, other), Members(links[k := team], other);
    if other == team {
      assert k !in before;
      assert after == before + {k};
    } else {
      assert after == before;
    }
  }

  /** A team under a fresh key, linked to a fresh registration alone, has
      one member. */
  lemma FreshTeamHasLeadOnly(events: map<EventId, Event>, regs: map<RegId, Registration>,
                             teams: map<TeamId, Team>, links: map<RegId, TeamId>, n: nat)
    requires LinkRowsOk(events, regs, teams, links) && KeysBelow(regs, n) && KeysBelow(teams, n)
    ensures MemberCount(links[n := n + 1], n + 1) == 1
  {
    assert n !in links;
    assert Members(links, n + 1) == {};
    AddLinkCounts(links, n, n + 1, n + 1);
  }

  /** A subset is no larger than its superset. */
  lemma SubsetCardinality<T>(a: set<T>, b: set<T>)
    requires a <= b
    ensures |a| <= |b|
  {
    assert b == a + (b - a);
  }

  /** The names of an event's teams, listed in some order (the rows of the
      query that reads them). */
  ghost predicate ListsTeamNames(names: seq<string>, teams: map<TeamId, Team>, event: EventId) {
    forall n :: n in names <==> exists t :: t in teams && teams[t].eventId == event && teams[t].name == n
  }

  method TeamNamesIn(teams: map<TeamId, Team>, event: EventId) returns (names: seq<string>)
    ensures ListsTeamNames(names, teams, event)
  {
    names := [];
    var rest := teams.Keys;
    while rest != {}
      invariant rest <= teams.Keys
      invariant forall n :: n in names <==>
        exists t :: t in teams && t !in rest && teams[t].eventId == event && teams[t].name == n
      decreases rest
    {
      var t :| t in rest;
      if teams[t].eventId == event {
        names := names + [teams[t].name];
      }
      rest := rest - {t};
    }
  }

  // ---------------------------------------------------------------------
  // The invariants, table by table

  /** Every event satisfies the CHECK constraints of its table. */
  predicate EventsOk(events: map<EventId, Event>) {
    forall e :: e in events ==> EventRowOk(events[e])
  }

  /** `users.email` is UNIQUE. */
  predicate UsersOk(users: map<UserId, User>) {
    forall a, b :: a in users && b in users && a != b ==> users[a].email != users[b].email
  }

  /** UNIQUE(student_id, event_id) on `registrations`. */
  predicate OneRegistrationPerStudentEvent(regs: map<RegId, Registration>) {
    forall a, b :: a in regs && b in regs && a != b ==>
      regs[a].studentId != regs[b].studentId || regs[a].eventId != regs[b].eventId
  }

  /** The foreign keys of `registrations`. */
  predicate RegistrationRefsOk(users: map<UserId, User>, events: map<EventId, Event>,
                               regs: map<RegId, Registration>) {
    forall r :: r in regs ==> regs[r].studentId in users && regs[r].eventId in events
  }

  predicate RegistrationsOk(users: map<UserId, User>, events: map<EventId, Event>,
                            regs: map<RegId, Registration>) {
    RegistrationRefsOk(users, events, regs) && OneRegistrationPerStudentEvent(regs)
  }

  /** Foreign key of `teams` and the name-length CHECK. */
  predicate TeamRowsOk(events: map<EventId, Event>, teams: map<TeamId, Team>) {
    forall t :: t in teams ==> teams[t].eventId in events && TeamNameFits(teams[t].name)
  }

  /** UNIQUE(event_id, team_code) and the unique index on
      (event_id, LOWER(team_name)). */
  predicate TeamKeysUnique(teams: map<TeamId, Team>) {
    forall a, b :: a in teams && b in teams && a != b && teams[a].eventId == teams[b].eventId ==>
      teams[a].code != teams[b].code && Lower(teams[a].name) != Lower(teams[b].name)
  }

  /** Kept by the handlers: every team's lead holds a registration for its
      event. */
  predicate LeadsRegistered(regs: map<RegId, Registration>, teams: map<TeamId, Team>) {
    forall t :: t in teams ==> RegisteredFor(regs, teams[t].leadId, teams[t].eventId)
  }

  predicate TeamsOk(events: map<EventId, Event>, regs: map<RegId, Registration>,
                    teams: map<TeamId, Team>) {
    TeamRowsOk(events, teams) && TeamKeysUnique(teams) && LeadsRegistered(regs, teams)
  }

  /** `team_registrations`: keyed by registration (one team per
      registration), foreign keys, never a solo event (the
      `validate_team_registration` trigger); and, kept by the handlers,
      a registration joins a team of its own event. */
  predicate LinkRowsOk(events: map<EventId, Event>, regs: map<RegId, Registration>,
                       teams: map<TeamId, Team>, links: map<RegId, TeamId>) {
    forall r :: r in links ==>
      && r in regs && links[r] in teams
      && regs[r].eventId == teams[links[r]].eventId
      && teams[links[r]].eventId in events
      && TeamLinkAllowed(events[teams[links[r]].eventId].maxTeamSize)
  }

  /** Kept by the handlers: no team grows past its event's `max_team_size`. */
  predicate TeamSizesOk(events: map<EventId, Event>, teams: map<TeamId, Team>, links: map<RegId, TeamId>) {
    forall t :: t in teams && teams[t].eventId in events ==>
      MemberCount(links, t) <= events[teams[t].eventId].maxTeamSize
  }

  predicate LinksOk(events: map<EventId, Event>, regs: map<RegId, Registration>,
                    teams: map<TeamId, Team>, links: map<RegId, TeamId>) {
    LinkRowsOk(events, regs, teams, links) && TeamSizesOk(events, teams, links)
  }

  /** A completed payment for the registration exists. */
  predicate HasCompletedPayment(payments: map<PaymentId, Payment>, r: RegId) {
    exists p :: p in payments && payments[p].registrationId == r && payments[p].status == Completed
  }

  /** The message the gateway signs: `order_id + "|" + payment_id`. */
  function SignedMessage(orderId: string, paymentId: string): string {
    orderId + "|" + paymentId
  }

  /** Foreign key of `payments`. */
  predicate PaymentRefsOk(regs: map<RegId, Registration>, payments: map<PaymentId, Payment>) {
    forall p :: p in payments ==> payments[p].registrationId in regs
  }

  /** UNIQUE(registration_id) on `payments`. */
  predicate OnePaymentPerRegistration(payments: map<PaymentId, Payment>) {
    forall p, q :: p in payments && q in payments && p != q ==>
      payments[p].registrationId != payments[q].registrationId
  }

  /** Kept by the handlers: a payment is completed only with the gateway's
      signature over its order and payment ids. */
  predicate CompletedPaymentsSigned(payments: map<PaymentId, Payment>, sign: string -> string) {
    forall p :: p in payments && payments[p].status == Completed ==>
      && payments[p].gatewayPaymentId.Some?
      && payments[p].signature == Some(sign(SignedMessage(payments[p].orderId, payments[p].gatewayPaymentId.value)))
  }

  /** Kept by the handlers: a registration is paid exactly when its payment
      is completed. */
  predicate PaidMatchesPayments(regs: map<RegId, Registration>, payments: map<PaymentId, Payment>) {
    forall r :: r in regs ==> (regs[r].paid <==> HasCompletedPayment(payments, r))
  }

  predicate PaymentsOk(regs: map<RegId, Registration>, payments: map<PaymentId, Payment>,
                       sign: string -> string) {
    && PaymentRefsOk(regs, payments) && OnePaymentPerRegistration(payments)
    && CompletedPaymentsSigned(payments, sign) && PaidMatchesPayments(regs, payments)
  }

  /** Every reset token belongs to a user. */
  predicate TokensOk(users: map<UserId, User>, tokens: map<TokenId, ResetToken>) {
    forall k :: k in tokens ==> tokens[k].userId in users
  }

  /** Keys handed out so far are below `next`. */
  predicate KeysBelow<V>(m: map<nat, V>, next: nat) {
    forall k :: k in m ==> k < next
  }

  /** One copy of every table the core writes, with the key generator:
      what a transaction reads, edits and commits. */
  datatype Tables = Tables(
    users: map<UserId, User>,
    registrations: map<RegId, Registration>,
    teams: map<TeamId, Team>,
    teamRegistrations: map<RegId, TeamId>,
    payments: map<PaymentId, Payment>,
    resetTokens: map<TokenId, ResetToken>,
    nextId: nat)

  /** All the invariants together. */
  predicate TablesOk(t: Tables, events: map<EventId, Event>, sign: string -> string) {
    && UsersOk(t.users)
    && EventsOk(events)
    && RegistrationsOk(t.users, events, t.registrations)
    && TeamsOk(events, t.registrations, t.teams)
    && LinksOk(events, t.registrations, t.teams, t.teamRegistrations)
    && PaymentsOk(t.registrations, t.payments, sign)
    && TokensOk(t.users, t.resetTokens)
    && KeysBelow(t.registrations, t.nextId) && KeysBelow(t.teams, t.nextId)
    && KeysBelow(t.payments, t.nextId) && KeysBelow(t.resetTokens, t.nextId)
  }

  // ---------------------------------------------------------------------
  // What each kind of insert needs for the invariants to survive it

  /** A fresh (student, event) pair keeps registrations unique, and
      existing users and events keep the foreign keys. */
  lemma AddRegistrationRowOk(users: map<UserId, User>, events: map<EventId, Event>,
                             regs: map<RegId, Registration>, id: RegId, reg: Registration)
    requires RegistrationsOk(users, events, regs)
    requires id !in regs && reg.studentId in users && reg.eventId in events
    requires !RegisteredFor(regs, reg.studentId, reg.eventId)
    ensures RegistrationsOk(users, events, regs[id := reg])
  {
  }

  /** A new registration takes nothing from the leads of existing teams. */
  lemma AddRegistrationTeamsOk(events: map<EventId, Event>, regs: map<RegId, Registration>,
                               teams: map<TeamId, Team>, id: RegId, reg: Registration)
    requires TeamsOk(events, regs, teams) && id !in regs
    ensures TeamsOk(events, regs[id := reg], teams)
  {
    var regs' := regs[id := reg];
    forall t | t in teams ensures RegisteredFor(regs', teams[t].leadId, teams[t].eventId) {
      var w :| w in regs && regs[w].studentId == teams[t].leadId && regs[w].eventId == teams[t].eventId;
      assert regs'[w] == regs[w];
    }
  }

  /** A new registration has no link yet, so the links still hold. */
  lemma AddRegistrationLinksOk(events: map<EventId, Event>, regs: map<RegId, Registration>,
                               teams: map<TeamId, Team>, links: map<RegId, TeamId>, id: RegId, reg: Registration)
    requires LinksOk(events, regs, teams, links) && id !in regs
    ensures LinksOk(events, regs[id := reg], teams, links)
  {
  }

  /** An unpaid registration has no completed payment, and no payment
      refers to its fresh key. */
  lemma AddRegistrationPaymentsOk(regs: map<RegId, Registration>, payments: map<PaymentId, Payment>,
                                  sign: string -> string, id: RegId, reg: Registration)
    requires PaymentsOk(regs, payments, sign) && id !in regs && !reg.paid
    ensures PaymentsOk(regs[id := reg], payments, sign)
  {
    assert !HasCompletedPayment(payments, id);
  }

  /** Inserting an unpaid registration under a fresh key, for a user and an
      event that exist and a (student, event) pair not yet taken, keeps
      every invariant that mentions registrations. */
  lemma AddRegistrationKeeps(users: map<UserId, User>, events: map<EventId, Event>,
                             regs: map<RegId, Registration>, teams: map<TeamId, Team>,
                             links: map<RegId, TeamId>, payments: map<PaymentId, Payment>,
                             sign: string -> string, id: RegId, reg: Registration)
    requires RegistrationsOk(users, events, regs) && TeamsOk(events, regs, teams)
    requires LinksOk(events, regs, teams, links) && PaymentsOk(regs, payments, sign)
    requires id !in regs && reg.studentId in users && reg.eventId in events
    requires !RegisteredFor(regs, reg.studentId, reg.eventId) && !reg.paid
    ensures RegistrationsOk(users, events, regs[id := reg])
    ensures TeamsOk(events, regs[id := reg], teams)
    ensures LinksOk(events, regs[id := reg], teams, links)
    ensures PaymentsOk(regs[id := reg], payments, sign)
  {
    AddRegistrationRowOk(users, events, regs, id, reg);
    AddRegistrationTeamsOk(events, regs, teams, id, reg);
    AddRegistrationLinksOk(events, regs, teams, links, id, reg);
    AddRegistrationPaymentsOk(regs, payments, sign, id, reg);
  }

  /** Inserting a team under a fresh key, in an existing event, with a name
      that fits, a code and a (case-insensitive) name not used in the event,
      and a lead registered for the event, keeps the team invariants. */
  lemma AddTeamKeeps(events: map<EventId, Event>, regs: map<RegId, Registration>,
                     teams: map<TeamId, Team>, id: TeamId, team: Team)
    requires TeamsOk(events, regs, teams)
    requires id !in teams && team.eventId in events && TeamNameFits(team.name)
    requires team.code !in CodesIn(teams, team.eventId) && !NameTaken(teams, team.eventId, team.name)
    requires RegisteredFor(regs, team.leadId, team.eventId)
    ensures TeamsOk(events, regs, teams[id := team])
  {
    var teams' := teams[id := team];
    forall a, b | a in teams' && b in teams' && a != b && teams'[a].eventId == teams'[b].eventId
      ensures teams'[a].code != teams'[b].code && Lower(teams'[a].name) != Lower(teams'[b].name)
    {
      if a == id {
        assert teams[b].code in CodesIn(teams, team.eventId);
      } else if b == id {
        assert teams[a].code in CodesIn(teams, team.eventId);
      }
    }
  }

  /** A new team has no members, so the links still hold. */
  lemma AddTeamLinksOk(events: map<EventId, Event>, regs: map<RegId, Registration>,
                       teams: map<TeamId, Team>, links: map<RegId, TeamId>, id: TeamId, team: Team)
    requires EventsOk(events) && LinksOk(events, regs, teams, links)
    requires id !in teams && team.eventId in events
    ensures LinksOk(events, regs, teams[id := team], links)
    ensures MemberCount(links, id) == 0
  {
    var teams' := teams[id := team];
    assert Members(links, id) == {};
    forall u | u in teams' && teams'[u].eventId in events
      ensures MemberCount(links, u) <= events[teams'[u].eventId].maxTeamSize
    {
      if u == id {
        assert 0 < events[team.eventId].maxTeamSize;
      }
    }
  }

  /** Linking a registration that has no team yet to a team of its own
      (team) event that still has room keeps the link invariants, and the
      team gains exactly that member. */
  lemma AddLinkKeeps(events: map<EventId, Event>, regs: map<RegId, Registration>,
                     teams: map<TeamId, Team>, links: map<RegId, TeamId>, r: RegId, t: TeamId)
    requires LinksOk(events, regs, teams, links)
    requires r in regs && r !in links && t in teams && teams[t].eventId in events
    requires regs[r].eventId == teams[t].eventId
    requires TeamLinkAllowed(events[teams[t].eventId].maxTeamSize)
    requires MemberCount(links, t) < events[teams[t].eventId].maxTeamSize
    ensures LinksOk(events, regs, teams, links[r := t])
    ensures MemberCount(links[r := t], t) == MemberCount(links, t) + 1
  {
    forall u | u in teams
      ensures MemberCount(links[r := t], u) == MemberCount(links, u) + (if u == t then 1 else 0)
    {
      AddLinkCounts(links, r, t, u);
    }
  }

  /** A registration under key `n`, a team under `n + 1` led by its student,
      and the link between the two keep the team and link invariants; the
      new team has exactly one member. */
  lemma AddTeamWithLeadKeeps(events: map<EventId, Event>, regs: map<RegId, Registration>,
                             teams: map<TeamId, Team>, links: map<RegId, TeamId>,
                             n: nat, reg: Registration, team: Team)
    requires EventsOk(events) && TeamsOk(events, regs, teams) && LinksOk(events, regs, teams, links)
    requires n !in regs && n !in links && n + 1 !in teams
    requires reg.eventId == team.eventId && reg.studentId == team.leadId && team.eventId in events
    requires TeamNameFits(team.name) && TeamLinkAllowed(events[team.eventId].maxTeamSize)
    requires team.code !in CodesIn(teams, team.eventId) && !NameTaken(teams, team.eventId, team.name)
    ensures TeamsOk(events, regs[n := reg], teams[n + 1 := team])
    ensures LinksOk(events, regs[n := reg], teams[n + 1 := team], links[n := n + 1])
    ensures MemberCount(links[n := n + 1], n + 1) == 1
  {
    var regs' := regs[n := reg];
    AddRegistrationTeamsOk(events, regs, teams, n, reg);
    AddRegistrationLinksOk(events, regs, teams, links, n, reg);
    assert RegisteredFor(regs', team.leadId, team.eventId) by {
      assert regs'[n] == reg;
    }
    AddTeamKeeps(events, regs', teams, n + 1, team);
    AddTeamLinksOk(events, regs', teams, links, n + 1, team);
    AddLinkKeeps(events, regs', teams[n + 1 := team], links, n, n + 1);
  }

  /** A registration under key `n` linked to an existing team of its event
      that has room keeps the team and link invariants; the team gains
      exactly that member. */
  lemma AddMemberKeeps(events: map<EventId, Event>, regs: map<RegId, Registration>,
                       teams: map<TeamId, Team>, links: map<RegId, TeamId>,
                       n: nat, reg: Registration, team: TeamId)
    requires TeamsOk(events, regs, teams) && LinksOk(events, regs, teams, links)
    requires n !in regs && n !in links
    requires team in teams && teams[team].eventId == reg.eventId && reg.eventId in events
    requires TeamLinkAllowed(events[reg.eventId].maxTeamSize)
    requires MemberCount(links, team) < events[reg.eventId].maxTeamSize
    ensures TeamsOk(events, regs[n := reg], teams)
    ensures LinksOk(events, regs[n := reg], teams, links[n := team])
  {
    AddRegistrationTeamsOk(events, regs, teams, n, reg);
    AddRegistrationLinksOk(events, regs, teams, links, n, reg);
    AddLinkKeeps(events, regs[n := reg], teams, links, n, team);
  }

  /** Rewriting one registration row without changing its student or its
      event (marking it paid, or present) keeps the registration, team and
      link invariants. */
  lemma RewriteRegistrationKeeps(users: map<UserId, User>, events: map<EventId, Event>,
                                 regs: map<RegId, Registration>, teams: map<TeamId, Team>,
                                 links: map<RegId, TeamId>, k: RegId, reg: Registration)
    requires RegistrationsOk(users, events, regs) && TeamsOk(events, regs, teams)
    requires LinksOk(events, regs, teams, links)
    requires k in regs && reg.studentId == regs[k].studentId && reg.eventId == regs[k].eventId
    ensures RegistrationsOk(users, events, regs[k := reg])
    ensures TeamsOk(events, regs[k := reg], teams)
    ensures LinksOk(events, regs[k := reg], teams, links)
  {
    var regs' := regs[k := reg];
    forall t | t in teams ensures RegisteredFor(regs', teams[t].leadId, teams[t].eventId) {
      var w :| w in regs && regs[w].studentId == teams[t].leadId && regs[w].eventId == teams[t].eventId;
      assert regs'[w].studentId == regs[w].studentId && regs'[w].eventId == regs[w].eventId;
    }
  }

  /** INSERT INTO registrations under the next key. */
  function AddRegistration(t: Tables, reg: Registration): Tables
  {
    Tables(t.users, t.registrations[t.nextId := reg], t.teams, t.teamRegistrations,
           t.payments, t.resetTokens, t.nextId + 1)
  }

  /** The three inserts that create a team: its lead's registration under
      the next key, the team under the one after, and the link between the
      two. */
  function AddTeamWithLead(t: Tables, reg: Registration, team: Team): Tables
  {
    Tables(t.users, t.registrations[t.nextId := reg], t.teams[t.nextId + 1 := team],
           t.teamRegistrations[t.nextId := t.nextId + 1], t.payments, t.resetTokens, t.nextId + 2)
  }

  /** The two inserts that join a team: the registration under the next key
      and its link to `team`. */
  function AddMember(t: Tables, reg: Registration, team: TeamId): Tables
  {
    Tables(t.users, t.registrations[t.nextId := reg], t.teams, t.teamRegistrations[t.nextId := team],
           t.payments, t.resetTokens, t.nextId + 1)
  }

  /** The invariants of tables given field by field. */
  lemma TablesOkIntro(users: map<UserId, User>, regs: map<RegId, Registration>, teams: map<TeamId, Team>,
                      links: map<RegId, TeamId>, payments: map<PaymentId, Payment>,
                      tokens: map<TokenId, ResetToken>, next: nat,
                      events: map<EventId, Event>, sign: string -> string)
    requires UsersOk(users) && EventsOk(events) && RegistrationsOk(users, events, regs)
    requires TeamsOk(events, regs, teams) && LinksOk(events, regs, teams, links)
    requires PaymentsOk(regs, payments, sign) && TokensOk(users, tokens)
    requires KeysBelow(regs, next) && KeysBelow(teams, next)
    requires KeysBelow(payments, next) && KeysBelow(tokens, next)
    ensures TablesOk(Tables(users, regs, teams, links, payments, tokens, next), events, sign)
  {
  }

  /** Empty tables keep every invariant over valid users and events. */
  lemma EmptyTablesOk(users: map<UserId, User>, events: map<EventId, Event>, sign: string -> string)
    requires UsersOk(users) && EventsOk(events)
    ensures TablesOk(Tables(users, map[], map[], map[], map[], map[], 0), events, sign)
  {
    assert Members(map[], 0) == {};
  }

  /** Equal tables keep the same invariants (used to pass from the tables
      written out field by field to the transition that builds them). */
  lemma SameTablesOk(a: Tables, b: Tables, events: map<EventId, Event>, sign: string -> string)
    requires TablesOk(b, events, sign) && a == b
    ensures TablesOk(a, events, sign)
  {
  }

  /** A new unpaid registration, under the next key, of an existing user
      for an existing event not yet registered for, keeps all invariants
      (the tables given field by field). */
  lemma RegistrationRowsOk(users: map<UserId, User>, regs: map<RegId, Registration>, teams: map<TeamId, Team>,
                           links: map<RegId, TeamId>, payments: map<PaymentId, Payment>,
                           tokens: map<TokenId, ResetToken>, n: nat,
                           events: map<EventId, Event>, sign: string -> string, reg: Registration)
    requires UsersOk(users) && EventsOk(events) && RegistrationsOk(users, events, regs)
    requires TeamsOk(events, regs, teams) && LinksOk(events, regs, teams, links)
    requires PaymentsOk(regs, payments, sign) && TokensOk(users, tokens)
    requires KeysBelow(regs, n) && KeysBelow(teams, n) && KeysBelow(payments, n) && KeysBelow(tokens, n)
    requires reg.studentId in users && reg.eventId in events && !reg.paid
    requires !RegisteredFor(regs, reg.studentId, reg.eventId)
    ensures TablesOk(Tables(users, regs[n := reg], teams, links, payments, tokens, n + 1), events, sign)
  {
    AddRegistrationKeeps(users, events, regs, teams, links, payments, sign, n, reg);
    TablesOkIntro(users, regs[n := reg], teams, links, payments, tokens, n + 1, events, sign);
  }

  lemma InsertRegistrationKeeps(t: Tables, events: map<EventId, Event>, sign: string -> string,
                                reg: Registration)
    requires TablesOk(t, events, sign)
    requires reg.studentId in t.users && reg.eventId in events && !reg.paid
    requires !RegisteredFor(t.registrations, reg.studentId, reg.eventId)
    ensures t.nextId !in t.registrations && t.nextId !in t.teamRegistrations
    ensures TablesOk(AddRegistration(t, reg), events, sign)
  {
    RegistrationRowsOk(t.users, t.registrations, t.teams, t.teamRegistrations, t.payments, t.resetTokens,
                       t.nextId, events, sign, reg);
    SameTablesOk(AddRegistration(t, reg), Tables(t.users, t.registrations[t.nextId := reg], t.teams,
                 t.teamRegistrations, t.payments, t.resetTokens, t.nextId + 1), events, sign);
  }

  /** Creating a team for a lead not yet registered for its event, with a
      name that fits and a code and name free in the event, keeps all
      invariants (the tables given field by field). */
  lemma TeamWithLeadRowsOk(users: map<UserId, User>, regs: map<RegId, Registration>, teams: map<TeamId, Team>,
                           links: map<RegId, TeamId>, payments: map<PaymentId, Payment>,
                           tokens: map<TokenId, ResetToken>, n: nat,
                           events: map<EventId, Event>, sign: string -> string, reg: Registration, team: Team)
    requires UsersOk(users) && EventsOk(events) && RegistrationsOk(users, events, regs)
    requires TeamsOk(events, regs, teams) && LinksOk(events, regs, teams, links)
    requires PaymentsOk(regs, payments, sign) && TokensOk(users, tokens)
    requires KeysBelow(regs, n) && KeysBelow(teams, n) && KeysBelow(payments, n) && KeysBelow(tokens, n)
    requires reg.studentId in users && reg.eventId in events && !reg.paid
    requires !RegisteredFor(regs, reg.studentId, reg.eventId)
    requires reg.eventId == team.eventId && reg.studentId == team.leadId
    requires TeamNameFits(team.name) && TeamLinkAllowed(events[team.eventId].maxTeamSize)
    requires team.code !in CodesIn(teams, team.eventId) && !NameTaken(teams, team.eventId, team.name)
    ensures TablesOk(Tables(users, regs[n := reg], teams[n + 1 := team], links[n := n + 1],
                            payments, tokens, n + 2), events, sign)
  {
    AddRegistrationRowOk(users, events, regs, n, reg);
    AddRegistrationPaymentsOk(regs, payments, sign, n, reg);
    AddTeamWithLeadKeeps(events, regs, teams, links, n, reg, team);
    TablesOkIntro(users, regs[n := reg], teams[n + 1 := team], links[n := n + 1], payments, tokens, n + 2,
                  events, sign);
  }

  lemma InsertTeamWithLeadKeeps(t: Tables, events: map<EventId, Event>, sign: string -> string,
                                reg: Registration, team: Team)
    requires TablesOk(t, events, sign)
    requires reg.studentId in t.users && reg.eventId in events && !reg.paid
    requires !RegisteredFor(t.registrations, reg.studentId, reg.eventId)
    requires reg.eventId == team.eventId && reg.studentId == team.leadId
    requires TeamNameFits(team.name) && TeamLinkAllowed(events[team.eventId].maxTeamSize)
    requires team.code !in CodesIn(t.teams, team.eventId) && !NameTaken(t.teams, team.eventId, team.name)
    ensures TablesOk(AddTeamWithLead(t, reg, team), events, sign)
  {
    TeamWithLeadRowsOk(t.users, t.registrations, t.teams, t.teamRegistrations, t.payments, t.resetTokens,
                       t.nextId, events, sign, reg, team);
    SameTablesOk(AddTeamWithLead(t, reg, team), Tables(t.users, t.registrations[t.nextId := reg],
                 t.teams[t.nextId + 1 := team], t.teamRegistrations[t.nextId := t.nextId + 1], t.payments,
                 t.resetTokens, t.nextId + 2), events, sign);
  }

  /** Joining a team of the registration's event that still has room, for a
      user not yet registered for the event, keeps all invariants (the
      tables given field by field). */
  lemma MemberRowsOk(users: map<UserId, User>, regs: map<RegId, Registration>, teams: map<TeamId, Team>,
                     links: map<RegId, TeamId>, payments: map<PaymentId, Payment>,
                     tokens: map<TokenId, ResetToken>, n: nat,
                     events: map<EventId, Event>, sign: string -> string, reg: Registration, team: TeamId)
    requires UsersOk(users) && EventsOk(events) && RegistrationsOk(users, events, regs)
    requires TeamsOk(events, regs, teams) && LinksOk(events, regs, teams, links)
    requires PaymentsOk(regs, payments, sign) && TokensOk(users, tokens)
    requires KeysBelow(regs, n) && KeysBelow(teams, n) && KeysBelow(payments, n) && KeysBelow(tokens, n)
    requires reg.studentId in users && reg.eventId in events && !reg.paid
    requires !RegisteredFor(regs, reg.studentId, reg.eventId)
    requires team in teams && teams[team].eventId == reg.eventId
    requires TeamLinkAllowed(events[reg.eventId].maxTeamSize)
    requires MemberCount(links, team) < events[reg.eventId].maxTeamSize
    ensures TablesOk(Tables(users, regs[n := reg], teams, links[n := team], payments, tokens, n + 1), events, sign)
  {
    AddRegistrationRowOk(users, events, regs, n, reg);
    AddRegistrationPaymentsOk(regs, payments, sign, n, reg);
    AddMemberKeeps(events, regs, teams, links, n, reg, team);
    TablesOkIntro(users, regs[n := reg], teams, links[n := team], payments, tokens, n + 1, events, sign);
  }

  lemma InsertMemberKeeps(t: Tables, events: map<EventId, Event>, sign: string -> string,
                          reg: Registration, team: TeamId)
    requires TablesOk(t, events, sign)
    requires reg.studentId in t.users && reg.eventId in events && !reg.paid
    requires !RegisteredFor(t.registrations, reg.studentId, reg.eventId)
    requires team in t.teams && t.teams[team].eventId == reg.eventId
    requires TeamLinkAllowed(events[reg.eventId].maxTeamSize)
    requires MemberCount(t.teamRegistrations, team) < events[reg.eventId].maxTeamSize
    ensures TablesOk(AddMember(t, reg, team), events, sign)
  {
    MemberRowsOk(t.users, t.registrations, t.teams, t.teamRegistrations, t.payments, t.resetTokens,
                 t.nextId, events, sign, reg, team);
    SameTablesOk(AddMember(t, reg, team), Tables(t.users, t.registrations[t.nextId := reg], t.teams,
                 t.teamRegistrations[t.nextId := team], t.payments, t.resetTokens, t.nextId + 1),
                 events, sign);
  }

  // ---------------------------------------------------------------------

  class Store {
    var users: map<UserId, User>
    /** `events` is only read by the handlers modelled here. */
    const events: map<EventId, Event>
    var registrations: map<RegId, Registration>
    var teams: map<TeamId, Team>
    /** `team_registrations`, keyed by its primary key `registration_id`. */
    var teamRegistrations: map<RegId, TeamId>
    var payments: map<PaymentId, Payment>
    var resetTokens: map<TokenId, ResetToken>
    /** The next fresh key (`uuid_generate_v4()` never repeats). */
    var nextId: nat
    /** Hex HMAC-SHA256 under the server's gateway key secret. */
    const sign: string -> string
    /** The `accommodations` lookup table. */
    const accommodations: map<int, string>

    /** The tables as they stand. */
    function Snapshot(): (t: Tables)
      reads this
      ensures t.users == users && t.registrations == registrations && t.teams == teams
      ensures t.teamRegistrations == teamRegistrations && t.payments == payments
      ensures t.resetTokens == resetTokens && t.nextId == nextId
    {
      Tables(users, registrations, teams, teamRegistrations, payments, resetTokens, nextId)
    }

    ghost predicate Valid()
      reads this
    {
      TablesOk(Snapshot(), events, sign)
    }

    /** COMMIT: the transaction's copy of the tables becomes the store's.
        Only a state that keeps every invariant can be committed. */
    method Commit(t: Tables)
      requires TablesOk(t, events, sign)
      modifies this
      ensures Snapshot() == t
      ensures Valid()
    {
      users, registrations, teams, teamRegistrations := t.users, t.registrations, t.teams, t.teamRegistrations;
      payments, resetTokens, nextId := t.payments, t.resetTokens, t.nextId;
      assert Snapshot() == t;
    }

    /** A freshly initialised database holding the given users and events. */
    constructor (sign: string -> string, users: map<UserId, User>, events: map<EventId, Event>,
                 accommodations: map<int, string>)
      requires UsersOk(users) && EventsOk(events)
      ensures Valid()
      ensures this.sign == sign && this.users == users && this.events == events
      ensures this.accommodations == accommodations
      ensures registrations == map[] && teams == map[] && teamRegistrations == map[]
      ensures payments == map[] && resetTokens == map[]
    {
      this.sign := sign;
      this.events := events;
      this.accommodations := accommodations;
      new;
      EmptyTablesOk(users, events, sign);
      Commit(Tables(users, map[], map[], map[], map[], map[], 0));
    }
  }
}
