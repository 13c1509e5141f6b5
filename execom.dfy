/** `src/controllers/execom/execom.controller.ts`, `getExecomByYear`: the
    executive committee of one academic year, grouped by the team named in
    each member's position title (`"Team-Role"`). The rows are the query's
    result in its order (`ORDER BY p.title, e.name`). */
module ExecomController {
  import opened Http
  import opened Text

  /** One row of the query: an `execom` member joined with its position. */
  datatype ExecomRow = ExecomRow(
    name: string,
    batch: Option<string>,
    uploadImage: Option<string>,
    socialLink: Option<string>,
    academicYear: Option<int>,
    position: Option<string>)

  /** One member as sent: the row without `position` and `academic_year`,
      with the role taken from the position title. */
  datatype Member = Member(
    name: string,
    batch: Option<string>,
    uploadImage: Option<string>,
    socialLink: Option<string>,
    role: string)

  predicate NoDash(s: string) {
    forall i :: 0 <= i < |s| ==> s[i] != '-'
  }

  /** The index of the first `-`, if there is one. */
  function DashAt(s: string): (k: Option<nat>)
    ensures k.Some? ==> k.value < |s| && s[k.value] == '-' && NoDash(s[..k.value])
    ensures k.None? <==> NoDash(s)
  {
    if s == [] then None
    else if s[0] == '-' then Some(0)
    else match DashAt(s[1..]) {
      case None => None
      case Some(k) =>
        assert s[..k + 1] == [s[0]] + s[1..][..k];
        Some(k + 1)
    }
  }

  /** `s.split("-", 2)`: the text before the first `-` and, when there is
      one, the text between it and the next `-` (or the end). */
  function SplitAtDash(s: string): (parts: seq<string>)
    ensures 1 <= |parts| <= 2
    ensures forall j :: 0 <= j < |parts| ==> NoDash(parts[j])
    ensures |parts| == 1 <==> NoDash(s)
    ensures |parts| == 1 ==> parts[0] == s
  {
    match DashAt(s) {
      case None => [s]
      case Some(i) =>
        var tail := s[i + 1..];
        match DashAt(tail) {
          case None => [s[..i], tail]
          case Some(j) => [s[..i], tail[..j]]
        }
    }
  }

  /** The two parts are where `split` found them: the first, a `-`, the
      second, and then the end or another `-`. */
  lemma SplitAtDashParts(s: string)
    requires |SplitAtDash(s)| == 2
    ensures var parts := SplitAtDash(s);
            var n := |parts[0]| + 1 + |parts[1]|;
            n <= |s| && s[..n] == parts[0] + "-" + parts[1] && (n == |s| || s[n] == '-')
  {
    var i := DashAt(s).value;
    var tail := s[i + 1..];
    match DashAt(tail) {
      case None =>
        assert SplitAtDash(s) == [s[..i], tail];
        assert s == s[..i] + "-" + tail;
      case Some(j) =>
        assert SplitAtDash(s) == [s[..i], tail[..j]];
        assert s[..i + 1 + j] == s[..i] + "-" + tail[..j];
        assert s[i + 1 + j] == tail[j];
    }
  }

  /** With at most one `-`, joining the parts back with `-` gives the
      title; a second `-` and what follows it are dropped. */
  lemma SplitRejoins(s: string)
    requires |SplitAtDash(s)| == 2
    ensures var parts := SplitAtDash(s);
            NoDash(s[|parts[0]| + 1..]) ==> parts[0] + "-" + parts[1] == s
    ensures var parts := SplitAtDash(s);
            !NoDash(s[|parts[0]| + 1..]) ==> s[|parts[0]| + 1 + |parts[1]|] == '-'
  {
    var parts := SplitAtDash(s);
    SplitAtDashParts(s);
    var n := |parts[0]| + 1 + |parts[1]|;
    var rest := s[|parts[0]| + 1..];
    assert rest[..|parts[1]|] == parts[1];
    if n == |s| {
      assert s == s[..n];
      assert NoDash(rest);
    } else {
      assert rest[|parts[1]|] == '-';
    }
  }

  /** `member.position || "Unknown-Unknown"`: a NULL or empty title reads as
      unknown team and role. */
  function PositionOf(position: Option<string>): (p: string)
    ensures Given(position) ==> p == position.value
    ensures !Given(position) ==> p == "Unknown-Unknown"
  {
    if Given(position) then position.value else "Unknown-Unknown"
  }

  /** The team: the first part, trimmed. */
  function TeamOf(position: Option<string>): (team: string)
    ensures var parts := SplitAtDash(PositionOf(position)); team == Trim(parts[0])
  {
    Trim(SplitAtDash(PositionOf(position))[0])
  }

  /** The role: the second part trimmed, or `"Unknown"` without one. */
  function RoleOf(position: Option<string>): (role: string)
    ensures var parts := SplitAtDash(PositionOf(position));
            role == Trim(if |parts| == 2 then parts[1] else "Unknown")
  {
    var parts := SplitAtDash(PositionOf(position));
    Trim(if |parts| == 2 then parts[1] else "Unknown")
  }

  /** The first `-` is found wherever it is. */
  lemma {:induction false} DashAtFirst(s: string, k: nat)
    requires k < |s| && s[k] == '-' && NoDash(s[..k])
    ensures DashAt(s) == Some(k)
  {
    if k > 0 {
      assert s[1..][..k - 1] == s[1..k];
      DashAtFirst(s[1..], k - 1);
    }
  }

  /** Splitting a title made of two dash-free parts gives the parts back. */
  lemma SplitJoined(a: string, b: string)
    requires NoDash(a) && NoDash(b)
    ensures SplitAtDash(a + "-" + b) == [a, b]
  {
    var s := a + "-" + b;
    assert s[..|a|] == a && s[|a| + 1..] == b;
    DashAtFirst(s, |a|);
  }

  const Unknown := "Unknown"

  /** `"Unknown"` has no white space to trim. */
  lemma UnknownTrimmed()
    ensures Trim(Unknown) == Unknown
  {
    TrimOfUnpadded(Unknown);
  }

  /** A member without a title is filed under team `Unknown` with role
      `Unknown`. */
  lemma MissingPositionIsUnknown(position: Option<string>)
    requires !Given(position)
    ensures TeamOf(position) == Unknown && RoleOf(position) == Unknown
  {
    assert PositionOf(position) == Unknown + "-" + Unknown;
    assert NoDash(Unknown);
    SplitJoined(Unknown, Unknown);
    UnknownTrimmed();
  }

  /** A title without `-` names the team and leaves the role unknown. */
  lemma UndashedPositionIsTeam(position: Option<string>)
    requires Given(position) && NoDash(position.value)
    ensures TeamOf(position) == Trim(position.value) && RoleOf(position) == Unknown
  {
    UnknownTrimmed();
  }

  /** `role.charAt(0).toUpperCase() + role.slice(1).toLowerCase()`. */
  function Capitalize(role: string): (r: string)
    ensures |r| == |role|
    ensures role != [] ==> r[0] == UpperChar(role[0]) && r[1..] == Lower(role[1..])
  {
    if role == [] then [] else Upper(role[..1]) + Lower(role[1..])
  }

  /** Capitalising a capitalised role changes nothing. */
  lemma CapitalizeIdempotent(role: string)
    ensures Capitalize(Capitalize(role)) == Capitalize(role)
  {
    if role != [] {
      var r := Capitalize(role);
      LowerIdempotent(role[1..]);
      assert r[1..] == Lower(role[1..]);
      assert Capitalize(r)[1..] == r[1..];
      assert Capitalize(r)[0] == r[0];
    }
  }

  /** Capitalising changes only the case of letters: ignoring case, the
      role is the one in the title. */
  lemma CapitalizeKeepsLetters(role: string)
    ensures Lower(Capitalize(role)) == Lower(role)
  {
    if role != [] {
      var r := Capitalize(role);
      forall i | 0 <= i < |role| ensures Lower(r)[i] == Lower(role)[i] {
        if i > 0 {
          assert r[i] == r[1..][i - 1] == Lower(role[1..])[i - 1];
        }
      }
    }
  }

  /** The entry a row is pushed as (61-66). */
  function MemberOf(row: ExecomRow): (m: Member)
    ensures m.name == row.name && m.batch == row.batch
    ensures m.uploadImage == row.uploadImage && m.socialLink == row.socialLink
    ensures m.role == Capitalize(RoleOf(row.position))
  {
    Member(row.name, row.batch, row.uploadImage, row.socialLink, Capitalize(RoleOf(row.position)))
  }

  /** The team each row is filed under, in row order. */
  function TeamKeys(rows: seq<ExecomRow>): (keys: seq<string>)
    ensures |keys| == |rows| && forall i :: 0 <= i < |rows| ==> keys[i] == TeamOf(rows[i].position)
  {
    seq(|rows|, i requires 0 <= i < |rows| => TeamOf(rows[i].position))
  }

  /** The member each row is pushed as, in row order. */
  function Entries(rows: seq<ExecomRow>): (ms: seq<Member>)
    ensures |ms| == |rows| && forall i :: 0 <= i < |rows| ==> ms[i] == MemberOf(rows[i])
  {
    seq(|rows|, i requires 0 <= i < |rows| => MemberOf(rows[i]))
  }

  /** The positions, in order, of `team` among the first `n` keys. */
  function KeyIndices(keys: seq<string>, team: string, n: nat): (ix: seq<nat>)
    requires n <= |keys|
    ensures forall j :: 0 <= j < |ix| ==> ix[j] < n && keys[ix[j]] == team
    ensures forall j, k :: 0 <= j < k < |ix| ==> ix[j] < ix[k]
  {
    if n == 0 then []
    else KeyIndices(keys, team, n - 1) + (if keys[n - 1] == team then [n - 1] else [])
  }

  /** Every position of `team` among the first `n` keys is listed. */
  lemma {:induction false} KeyIndicesComplete(keys: seq<string>, team: string, n: nat, i: nat)
    requires i < n <= |keys| && keys[i] == team
    ensures i in KeyIndices(keys, team, n)
  {
    if i < n - 1 {
      KeyIndicesComplete(keys, team, n - 1, i);
    }
  }

  /** A team none of the first `n` keys names has no positions there. */
  lemma {:induction false} KeyIndicesAbsent(keys: seq<string>, team: string, n: nat)
    requires n <= |keys| && forall i :: 0 <= i < n ==> keys[i] != team
    ensures KeyIndices(keys, team, n) == []
  {
    if n > 0 {
      KeyIndicesAbsent(keys, team, n - 1);
    }
  }

  /** Each row lands under its own team and no other, once, and the rows of
      a team keep their order (the listed indices increase). */
  lemma RowFiledOnce(rows: seq<ExecomRow>, i: nat, team: string)
    requires i < |rows|
    ensures i in KeyIndices(TeamKeys(rows), team, |rows|) <==> team == TeamOf(rows[i].position)
  {
    if team == TeamOf(rows[i].position) {
      KeyIndicesComplete(TeamKeys(rows), team, |rows|, i);
    }
  }

  /** The values at the positions of `team` among the first `n` keys. */
  function Picked(keys: seq<string>, vals: seq<Member>, team: string, n: nat): (ms: seq<Member>)
    requires n <= |keys| == |vals|
    ensures |ms| == |KeyIndices(keys, team, n)|
    ensures forall j :: 0 <= j < |ms| ==> ms[j] == vals[KeyIndices(keys, team, n)[j]]
  {
    var ix := KeyIndices(keys, team, n);
    seq(|ix|, j requires 0 <= j < |ix| => vals[ix[j]])
  }

  /** One more key extends its own team's list and no other. */
  lemma PickedStep(keys: seq<string>, vals: seq<Member>, team: string, n: nat)
    requires n < |keys| == |vals|
    ensures Picked(keys, vals, team, n + 1)
            == Picked(keys, vals, team, n) + (if keys[n] == team then [vals[n]] else [])
  {
    var ix := KeyIndices(keys, team, n);
    assert KeyIndices(keys, team, n + 1) == ix + (if keys[n] == team then [n] else []);
  }

  /** The members of `team`, in row order. */
  function MembersOf(rows: seq<ExecomRow>, team: string): seq<Member> {
    Picked(TeamKeys(rows), Entries(rows), team, |rows|)
  }

  /** The grouping after the first `n` rows: a list for each team seen,
      holding that team's members in row order. */
  ghost predicate GroupedUpTo(keys: seq<string>, vals: seq<Member>, grouped: map<string, seq<Member>>, n: nat)
    requires n <= |keys| == |vals|
  {
    && (forall team :: team in grouped <==> team in keys[..n])
    && (forall team :: team in grouped ==> grouped[team] == Picked(keys, vals, team, n))
  }

  /** Pushing row `n` onto its team's list, created if missing, keeps the
      grouping right for one more row. */
  lemma GroupedStep(keys: seq<string>, vals: seq<Member>, grouped: map<string, seq<Member>>, n: nat)
    requires n < |keys| == |vals| && GroupedUpTo(keys, vals, grouped, n)
    ensures GroupedUpTo(keys, vals, grouped[keys[n] := (if keys[n] in grouped then grouped[keys[n]] else [])
                                                        + [vals[n]]], n + 1)
  {
    var team := keys[n];
    var list := if team in grouped then grouped[team] else [];
    var grouped' := grouped[team := list + [vals[n]]];
    assert forall other :: other in grouped' <==> other in keys[..n + 1] by {
      assert keys[..n + 1] == keys[..n] + [team];
    }
    assert list == Picked(keys, vals, team, n) by {
      if team !in grouped {
        forall i | 0 <= i < n ensures keys[i] != team {
          assert keys[..n][i] == keys[i];
        }
        KeyIndicesAbsent(keys, team, n);
      }
    }
    assert forall other :: other in grouped' ==> grouped'[other] == Picked(keys, vals, other, n + 1) by {
      forall other | other in grouped'
        ensures grouped'[other] == Picked(keys, vals, other, n + 1)
      {
        PickedStep(keys, vals, other, n);
      }
    }
  }

  /** The loop of `rows.forEach` (54-67), given each row's team and
      member: each member is pushed onto the list of its team, the list
      being created on the team's first row. */
  method Group(keys: seq<string>, vals: seq<Member>) returns (grouped: map<string, seq<Member>>)
    requires |keys| == |vals|
    ensures forall team :: team in grouped <==> team in keys
    ensures forall team :: team in grouped ==> grouped[team] == Picked(keys, vals, team, |keys|)
  {
    grouped := map[];
    var n := 0;
    while n < |keys|
      invariant n <= |keys|
      invariant GroupedUpTo(keys, vals, grouped, n)
    {
      var team, entry := keys[n], vals[n];
      GroupedStep(keys, vals, grouped, n);
      // `if (!grouped[team]) grouped[team] = []` then `push`
      var list := if team in grouped then grouped[team] else [];
      grouped := grouped[team := list + [entry]];
      n := n + 1;
    }
    assert keys[..n] == keys;
  }

  /** `getExecomByYear`'s grouping (54-67): the team and the member of each
      row (55-66), grouped by team in row order. */
  method GroupByTeam(rows: seq<ExecomRow>) returns (grouped: map<string, seq<Member>>)
    ensures forall team :: team in grouped <==> team in TeamKeys(rows)
    ensures forall team :: team in grouped ==> grouped[team] == MembersOf(rows, team)
  {
    grouped := Group(TeamKeys(rows), Entries(rows));
  }

  /** The key the requested year is sent under. */
  const YearKey := "academic_year"

  /** A value of the response object: the year, or a team's members. */
  datatype Field = YearField(year: string) | TeamField(members: seq<Member>)

  /** `{ academic_year: year, ...grouped }` (69): a team whose name is
      `academic_year` overwrites the year. */
  function Body(year: string, grouped: map<string, seq<Member>>): (body: map<string, Field>)
    ensures body.Keys == grouped.Keys + {YearKey}
    ensures forall team :: team in grouped ==> body[team] == TeamField(grouped[team])
    ensures YearKey !in grouped ==> body[YearKey] == YearField(year)
  {
    map k | k in grouped.Keys + {YearKey} :: if k in grouped then TeamField(grouped[k]) else YearField(year)
  }

  /** `getExecomByYear` (27-78): 404 without rows; otherwise the year and
      every team with its members in row order. */
  method GetExecomByYear(year: string, rows: seq<ExecomRow>) returns (r: Reply<map<string, Field>>)
    ensures r.Fail? <==> rows == []
    ensures r.Fail? ==> r.reason == NoExecomMembers
    ensures r.Ok? ==> YearKey in r.value
    ensures r.Ok? ==> forall team :: team != YearKey ==> (team in r.value <==> team in TeamKeys(rows))
    ensures r.Ok? ==> forall team :: team in r.value && team != YearKey ==>
              r.value[team] == TeamField(MembersOf(rows, team))
    ensures r.Ok? ==> (r.value[YearKey] == YearField(year) <==> YearKey !in TeamKeys(rows))
  {
    if |rows| == 0 {
      return Fail(NoExecomMembers);
    }
    var grouped := GroupByTeam(rows);
    r := Ok(Body(year, grouped));
  }
}
