/** `src/controllers/app/app.controller.ts`: the check-in desk's two
    handlers. One reads a registration with its student, department, team,
    food preference and event; the other marks a registration present. */
module AppController {
  import opened Http
  import opened Schema
  import opened Db

  /** The response of `getAttendanceDetails` (41-51). Every column the
      LEFT JOINs can leave NULL is an `Option`. */
  datatype AttendanceView = AttendanceView(
    id: Option<UserId>,
    name: Option<string>,
    team: Option<string>,
    food: Option<string>,
    event: Option<string>,
    email: Option<string>,
    phone: Option<string>,
    department: Option<string>,
    present: bool)

  /** The team a registration is linked to, through `team_registrations`
      and `teams` (26-27), if both rows are there. */
  function TeamNameOf(t: Tables, k: RegId): (name: Option<string>)
    ensures name.Some? <==> k in t.teamRegistrations && t.teamRegistrations[k] in t.teams
    ensures name.Some? ==> name.value == t.teams[t.teamRegistrations[k]].name
  {
    if k in t.teamRegistrations && t.teamRegistrations[k] in t.teams then
      Some(t.teams[t.teamRegistrations[k]].name)
    else None
  }

  /** The one row of the query (12-31) for registration `k`, mapped to the
      response (41-51): the user's columns are NULL when its join finds no
      user, team and event likewise, and `present` holds exactly when the
      attendance is 'present'. */
  function DetailsOf(t: Tables, events: map<EventId, Event>, k: RegId): (v: AttendanceView)
    requires k in t.registrations
    ensures var reg := t.registrations[k];
            && (v.present <==> reg.attendance == Present)
            && v.food == reg.foodPreference
            && (v.id.Some? <==> reg.studentId in t.users)
            && (v.id.Some? ==> v.id.value == reg.studentId)
            && (reg.studentId in t.users ==>
                  var u := t.users[reg.studentId];
                  v.name == Some(u.name) && v.email == Some(u.email)
                  && v.phone == u.phone && v.department == u.department)
            && (reg.studentId !in t.users ==>
                  v.name.None? && v.email.None? && v.phone.None? && v.department.None?)
            && (v.event.Some? <==> reg.eventId in events)
            && (v.event.Some? ==> v.event.value == events[reg.eventId].name)
            && (v.team.Some? <==> k in t.teamRegistrations && t.teamRegistrations[k] in t.teams)
            && (v.team.Some? ==> v.team.value == t.teams[t.teamRegistrations[k]].name)
  {
    var reg := t.registrations[k];
    var event := if reg.eventId in events then Some(events[reg.eventId].name) else None;
    var present := reg.attendance == Present;
    if reg.studentId in t.users then
      var u := t.users[reg.studentId];
      AttendanceView(Some(reg.studentId), Some(u.name), TeamNameOf(t, k), reg.foodPreference, event,
                     Some(u.email), u.phone, u.department, present)
    else
      AttendanceView(None, None, TeamNameOf(t, k), reg.foodPreference, event, None, None, None, present)
  }

  /** In a store that keeps its invariants the student and event joins
      always find their rows, and a registration has a team exactly when
      it has a `team_registrations` row. */
  lemma DetailsOfValidStore(t: Tables, events: map<EventId, Event>, sign: string -> string, k: RegId)
    requires TablesOk(t, events, sign) && k in t.registrations
    ensures var v := DetailsOf(t, events, k); var reg := t.registrations[k];
            && v.id == Some(reg.studentId) && v.name == Some(t.users[reg.studentId].name)
            && v.event == Some(events[reg.eventId].name)
            && (v.team.Some? <==> k in t.teamRegistrations)
  {
    assert t.registrations[k].studentId in t.users && t.registrations[k].eventId in events;
  }

  /** `getAttendanceDetails` (4-58): no `regId` is a 400 before any query;
      a registration the query does not find is a 404; otherwise its
      details. Reads only. */
  method GetAttendanceDetails(db: Store, regId: Option<RegId>) returns (r: Reply<AttendanceView>)
    ensures r == Fail(RegIdRequired) <==> regId.None?
    ensures r == Fail(UserNotFound) <==> regId.Some? && regId.value !in db.registrations
    ensures r.Fail? ==> r.reason in {RegIdRequired, UserNotFound}
    ensures r.Ok? ==> regId.Some? && regId.value in db.registrations
                      && r.value == DetailsOf(db.Snapshot(), db.events, regId.value)
  {
    if regId.None? {
      return Fail(RegIdRequired);
    }
    var k := regId.value;
    if k !in db.registrations {
      return Fail(UserNotFound);
    }
    r := Ok(DetailsOf(db.Snapshot(), db.events, k));
  }

  /** `UPDATE registrations SET attendance_status = 'present' WHERE
      registration_id = $1` (68-73). */
  function MarkPresent(t: Tables, k: RegId): (t': Tables)
    requires k in t.registrations
    ensures t'.registrations.Keys == t.registrations.Keys
    ensures t'.registrations[k] == t.registrations[k].(attendance := Present)
    ensures forall j :: j in t.registrations && j != k ==> t'.registrations[j] == t.registrations[j]
    ensures t'.(registrations := t.registrations) == t
  {
    t.(registrations := t.registrations[k := t.registrations[k].(attendance := Present)])
  }

  /** Marking a registration present changes only its attendance: the
      paid flag is untouched, so the payment invariants still hold. */
  lemma MarkPresentPaymentsOk(regs: map<RegId, Registration>, payments: map<PaymentId, Payment>,
                              sign: string -> string, k: RegId)
    requires PaymentsOk(regs, payments, sign) && k in regs
    ensures PaymentsOk(regs[k := regs[k].(attendance := Present)], payments, sign)
  {
    var regs' := regs[k := regs[k].(attendance := Present)];
    forall r | r in regs' ensures regs'[r].paid <==> HasCompletedPayment(payments, r) {
      assert regs'[r].paid == regs[r].paid;
    }
  }

  /** The update keeps every invariant of the store. */
  lemma MarkPresentKeeps(t: Tables, events: map<EventId, Event>, sign: string -> string, k: RegId)
    requires TablesOk(t, events, sign) && k in t.registrations
    ensures TablesOk(MarkPresent(t, k), events, sign)
  {
    var reg := t.registrations[k].(attendance := Present);
    RewriteRegistrationKeeps(t.users, events, t.registrations, t.teams, t.teamRegistrations, k, reg);
    MarkPresentPaymentsOk(t.registrations, t.payments, sign, k);
    TablesOkIntro(t.users, t.registrations[k := reg], t.teams, t.teamRegistrations, t.payments,
                  t.resetTokens, t.nextId, events, sign);
  }

  /** Marking twice is marking once. */
  lemma MarkPresentIdempotent(t: Tables, k: RegId)
    requires k in t.registrations
    ensures MarkPresent(MarkPresent(t, k), k) == MarkPresent(t, k)
  {
    var once := MarkPresent(t, k);
    assert once.registrations[k := once.registrations[k].(attendance := Present)] == once.registrations;
  }

  /** After the update the details report the registration present, and
      everything else they report is as before. */
  lemma MarkedShowsPresent(t: Tables, events: map<EventId, Event>, k: RegId)
    requires k in t.registrations
    ensures DetailsOf(MarkPresent(t, k), events, k) == DetailsOf(t, events, k).(present := true)
  {
  }

  /** `markAttendancePresent` (60-85): no `regId` is a 400 and an update
      that touches no row is a 404, both leaving the store as it was;
      otherwise the one registration is marked present and `success` is
      reported. */
  method MarkAttendancePresent(db: Store, regId: Option<RegId>) returns (r: Reply<bool>)
    requires db.Valid()
    modifies db
    ensures db.Valid()
    ensures r == Fail(RegIdRequired) <==> regId.None?
    ensures r == Fail(RegistrationNotFound) <==> regId.Some? && regId.value !in old(db.registrations)
    ensures r.Fail? ==> r.reason in {RegIdRequired, RegistrationNotFound} && unchanged(db)
    ensures r.Ok? ==> r.value && regId.Some? && regId.value in old(db.registrations)
                      && db.Snapshot() == MarkPresent(old(db.Snapshot()), regId.value)
  {
    if regId.None? {
      return Fail(RegIdRequired);
    }
    var k := regId.value;
    var t := db.Snapshot();
    if k !in t.registrations {
      return Fail(RegistrationNotFound);
    }
    MarkPresentKeeps(t, db.events, db.sign, k);
    db.Commit(MarkPresent(t, k));
    r := Ok(true);
  }
}
