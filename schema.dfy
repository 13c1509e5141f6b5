/** The relational schema of `src/database/init.ts`: the rows of the tables
    the core reads and writes, their CHECK constraints and column defaults,
    and the triggers (the solo-event rule, team-code assignment, the
    solo-event guard on team links). UUID keys are natural numbers,
    timestamps are milliseconds, and fees and amounts are integer paise. */
module Schema {
  import opened Http
  import opened Text

  type UserId = nat
  type EventId = nat
  type RegId = nat
  type TeamId = nat
  type PaymentId = nat
  type TokenId = nat

  datatype EventStatus = Active | Inactive

  /** A row of `events`. A NULL timestamp or cap is `None`. */
  datatype Event = Event(
    name: string,
    minTeamSize: int,
    maxTeamSize: int,
    status: EventStatus,
    regStart: Option<int>,
    regEnd: Option<int>,
    eventStart: Option<int>,
    eventEnd: Option<int>,
    feePaise: int,
    maxRegistrations: Option<int>,
    teamNameRequired: bool)

  datatype Attendance = Present | Absent

  /** A row of `registrations`. */
  datatype Registration = Registration(
    studentId: UserId,
    eventId: EventId,
    timestamp: int,
    attendance: Attendance,
    paid: bool,
    foodPreference: Option<string>,
    accommodationId: Option<int>)

  /** A row of `teams`. */
  datatype Team = Team(code: string, name: string, leadId: UserId, eventId: EventId)

  datatype PaymentStatus = Pending | Completed | Failed | Refunded

  /** A row of `payments`: the gateway's order id, and once verified the
      gateway's payment id and signature. */
  datatype Payment = Payment(
    registrationId: RegId,
    orderId: string,
    gatewayPaymentId: Option<string>,
    signature: Option<string>,
    amountPaise: int,
    status: PaymentStatus)

  /** A row of `users`, with the department name its join supplies. */
  datatype User = User(
    name: string,
    email: string,
    passwordHash: string,
    phone: Option<string>,
    department: Option<string>)

  /** A row of `password_reset_tokens`: only the hash of the token is kept. */
  datatype ResetToken = ResetToken(userId: UserId, tokenHash: string, expiresAt: int, used: bool)

  /** Bounds that are both present must be strictly ordered. */
  predicate StrictlyOrdered(lo: Option<int>, hi: Option<int>) {
    lo.None? || hi.None? || lo.value < hi.value
  }

  /** The CHECK constraints on `events` (init.ts:70-73). */
  predicate EventRowOk(e: Event) {
    && 0 < e.minTeamSize && 0 < e.maxTeamSize && e.minTeamSize <= e.maxTeamSize
    && StrictlyOrdered(e.regStart, e.regEnd)
    && StrictlyOrdered(e.eventStart, e.eventEnd)
    && !(e.maxTeamSize == 1 && e.teamNameRequired)
  }

  /** The `ensure_solo_event_logic` trigger, run before every insert or
      update of an event: a solo event never requires a team name, and
      nothing else about the row changes. */
  function SoloEventLogic(e: Event): (r: Event)
    ensures !(r.maxTeamSize == 1 && r.teamNameRequired)
    ensures r.(teamNameRequired := e.teamNameRequired) == e
    ensures e.maxTeamSize != 1 ==> r == e
  {
    if e.maxTeamSize == 1 then e.(teamNameRequired := false) else e
  }

  /** After the trigger, only the team-size and time constraints can
      still reject an event row. */
  lemma SoloEventLogicMeetsNameCheck(e: Event)
    requires 0 < e.minTeamSize <= e.maxTeamSize
    requires StrictlyOrdered(e.regStart, e.regEnd) && StrictlyOrdered(e.eventStart, e.eventEnd)
    ensures EventRowOk(SoloEventLogic(e))
  {
  }

  /** The column defaults of a new `registrations` row (init.ts:198-205):
      attendance 'absent', unpaid; the handlers supply the rest. */
  function NewRegistration(student: UserId, event: EventId, now: int,
                           food: string, accommodation: Option<int>): (r: Registration)
    ensures r.attendance == Absent && !r.paid && r.timestamp == now
    ensures r.studentId == student && r.eventId == event
    ensures r.foodPreference == Some(food) && r.accommodationId == accommodation
  {
    Registration(student, event, now, Absent, false, Some(food), accommodation)
  }

  /** The default food preference (init.ts:204). */
  const NoFood: string := "No food"

  /** `check_team_name_length` (init.ts:174). */
  predicate TeamNameFits(name: string) {
    1 <= |PgTrim(name)| <= 100
  }

  /** `validate_team_registration` (init.ts:236-271): a team link is
      refused when the team's event is a solo event. */
  predicate TeamLinkAllowed(eventMaxTeamSize: int) {
    eventMaxTeamSize != 1
  }

  /** The characters `generate_team_code` draws from. */
  const CodeAlphabet: string := "ABCDEFGHIJKLMNOPQRSTUVWXYZ0123456789"

  predicate IsCodeChar(c: char) { 'A' <= c <= 'Z' || '0' <= c <= '9' }

  /** What `^[A-Z0-9]{6}$` accepts. */
  predicate IsTeamCode(s: string) {
    |s| == 6 && forall i :: 0 <= i < 6 ==> IsCodeChar(s[i])
  }

  /** One roll per character: `floor(random() * 36)`, an index into the
      alphabet. */
  predicate ValidRolls(rolls: seq<nat>) {
    forall i :: 0 <= i < |rolls| ==> rolls[i] < |CodeAlphabet|
  }

  /** The code the given rolls spell. */
  function CodeFromRolls(rolls: seq<nat>): (code: string)
    requires ValidRolls(rolls)
    ensures |code| == |rolls|
    ensures forall i :: 0 <= i < |code| ==> IsCodeChar(code[i]) && code[i] == CodeAlphabet[rolls[i]]
  {
    seq(|rolls|, i requires 0 <= i < |rolls| => CodeAlphabet[rolls[i]])
  }

  /** `generate_team_code(length)`: appends one drawn character per
      iteration of its FOR loop. The random draws are the `rolls`. */
  method GenerateTeamCode(length: nat, rolls: seq<nat>) returns (code: string)
    requires |rolls| == length && ValidRolls(rolls)
    ensures code == CodeFromRolls(rolls)
    ensures length == 6 ==> IsTeamCode(code)
  {
    code := "";
    var i := 0;
    while i < length
      invariant 0 <= i <= length
      invariant code == CodeFromRolls(rolls[..i])
    {
      code := code + [CodeAlphabet[rolls[i]]];
      i := i + 1;
    }
    assert rolls[..i] == rolls;
  }

  /** `max_attempts` in `assign_team_code`. */
  const MaxCodeAttempts: nat := 10

  /** The draws available to the trigger: one roll sequence per attempt. */
  predicate ValidDraws(draws: seq<seq<nat>>) {
    && |draws| >= MaxCodeAttempts
    && forall k :: 0 <= k < |draws| ==> |draws[k]| == 6 && ValidRolls(draws[k])
  }

  /** `assign_team_code` (init.ts:136-162), fired only for a new team whose
      code is NULL (init.ts:178-191): draws a code per attempt, takes the
      first one not used in the event, and gives up (the trigger raises)
      after `MaxCodeAttempts` used codes. `taken` is the event's codes. */
  method AssignTeamCode(taken: set<string>, draws: seq<seq<nat>>) returns (r: Option<string>)
    requires ValidDraws(draws)
    ensures r.Some? ==> IsTeamCode(r.value) && r.value !in taken
    ensures r.Some? ==> exists k :: 0 <= k < MaxCodeAttempts && r.value == CodeFromRolls(draws[k])
                                    && forall j :: 0 <= j < k ==> CodeFromRolls(draws[j]) in taken
    ensures r.None? <==> forall k :: 0 <= k < MaxCodeAttempts ==> CodeFromRolls(draws[k]) in taken
  {
    var attempts := 0;
    while true
      invariant 0 <= attempts < MaxCodeAttempts
      invariant forall j :: 0 <= j < attempts ==> CodeFromRolls(draws[j]) in taken
      decreases MaxCodeAttempts - attempts
    {
      attempts := attempts + 1;
      var code := GenerateTeamCode(6, draws[attempts - 1]);
      if code !in taken {
        return Some(code);
      }
      if attempts >= MaxCodeAttempts {
        return None;
      }
    }
  }
}
