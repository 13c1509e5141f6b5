/** `src/controllers/leaderboard/leaderboard.controller.ts`: the LeetCode
    leaderboard. Each registered user's solved count is fetched from
    LeetCode (the fetch is a parameter), the users are sorted by it, highest
    first, and the first fifteen are ranked 1, 2, ... */
module LeaderboardController {
  import opened Http

  /** One `{ difficulty, count }` of `acSubmissionNum`. */
  datatype SubmissionCount = SubmissionCount(difficulty: string, count: int)

  /** What `getStats` gets for a username: the `acSubmissionNum` list, if
      the response carries one, or the error that rejected the request. */
  datatype Fetch = Fetched(counts: Option<seq<SubmissionCount>>) | FetchFailed(message: string)

  /** A row of `SELECT name, username FROM leetcode_users`. */
  datatype LeetcodeUser = LeetcodeUser(name: string, username: string)

  /** `{ dbName, username, totalSolved }`. */
  datatype Stat = Stat(dbName: string, username: string, totalSolved: int)

  /** `{ rank, name, points }`. */
  datatype Entry = Entry(rank: nat, name: string, points: int)

  /** `stats.reduce((acc, cur) => acc + cur.count, 0)`. */
  function SumCounts(cs: seq<SubmissionCount>): (n: int)
    ensures (forall i :: 0 <= i < |cs| ==> cs[i].count >= 0) ==> n >= 0
  {
    if cs == [] then 0 else SumCounts(cs[..|cs| - 1]) + cs[|cs| - 1].count
  }

  /** Summing a list in two pieces adds the pieces' sums. */
  lemma {:induction false} SumCountsAppend(a: seq<SubmissionCount>, b: seq<SubmissionCount>)
    ensures SumCounts(a + b) == SumCounts(a) + SumCounts(b)
  {
    if b == [] {
      assert a + b == a;
    } else {
      assert (a + b)[..|a + b| - 1] == a + b[..|b| - 1];
      SumCountsAppend(a, b[..|b| - 1]);
    }
  }

  /** `totalSolved` (30-35): the sum of the counts, 0 without a list. */
  function TotalSolved(counts: Option<seq<SubmissionCount>>): (n: int)
    ensures counts.None? ==> n == 0
    ensures counts.Some? ==> n == SumCounts(counts.value)
  {
    if counts.None? then 0 else SumCounts(counts.value)
  }

  /** Some user's fetch was rejected. */
  predicate AnyFailed(users: seq<LeetcodeUser>, fetch: string -> Fetch) {
    exists i :: 0 <= i < |users| && fetch(users[i].username).FetchFailed?
  }

  /** The stats `Promise.all` resolves to (43-51), in the users' order. */
  function Stats(users: seq<LeetcodeUser>, fetch: string -> Fetch): (stats: seq<Stat>)
    requires !AnyFailed(users, fetch)
    ensures |stats| == |users|
    ensures forall i :: 0 <= i < |users| ==>
              stats[i] == Stat(users[i].name, users[i].username, TotalSolved(fetch(users[i].username).counts))
  {
    seq(|users|, i requires 0 <= i < |users| =>
      Stat(users[i].name, users[i].username, TotalSolved(fetch(users[i].username).counts)))
  }

  /** Highest `totalSolved` first. */
  predicate SortedDesc(s: seq<Stat>) {
    forall i, j :: 0 <= i < j < |s| ==> s[i].totalSolved >= s[j].totalSolved
  }

  /** `x` placed after every entry solving at least as many. */
  function Insert(s: seq<Stat>, x: Stat): (r: seq<Stat>)
    ensures |r| == |s| + 1
  {
    if s == [] || s[|s| - 1].totalSolved >= x.totalSolved then s + [x]
    else Insert(s[..|s| - 1], x) + [s[|s| - 1]]
  }

  /** The stable descending order of `s`, by insertion. */
  function StableSort(s: seq<Stat>): (r: seq<Stat>)
    ensures |r| == |s|
  {
    if s == [] then [] else Insert(StableSort(s[..|s| - 1]), s[|s| - 1])
  }

  lemma {:induction false} InsertSorted(s: seq<Stat>, x: Stat)
    requires SortedDesc(s)
    ensures SortedDesc(Insert(s, x))
  {
    if s != [] && s[|s| - 1].totalSolved < x.totalSolved {
      var init, last := s[..|s| - 1], s[|s| - 1];
      InsertSorted(init, x);
      var r := Insert(init, x);
      assert forall i :: 0 <= i < |r| ==> r[i] == x || r[i] in init by {
        InsertPerm(init, x);
        forall i | 0 <= i < |r| ensures r[i] == x || r[i] in init {
          assert r[i] in multiset(r);
        }
      }
      forall i | 0 <= i < |r| ensures r[i].totalSolved >= last.totalSolved {
        if r[i] != x {
          var k :| 0 <= k < |init| && init[k] == r[i];
        }
      }
    }
  }

  lemma {:induction false} InsertPerm(s: seq<Stat>, x: Stat)
    ensures multiset(Insert(s, x)) == multiset(s) + multiset{x}
  {
    if s != [] && s[|s| - 1].totalSolved < x.totalSolved {
      var init, last := s[..|s| - 1], s[|s| - 1];
      InsertPerm(init, x);
      assert s == init + [last];
    }
  }

  /** The sort orders by `totalSolved`, highest first (53). */
  lemma {:induction false} StableSortSorted(s: seq<Stat>)
    ensures SortedDesc(StableSort(s))
  {
    if s != [] {
      StableSortSorted(s[..|s| - 1]);
      InsertSorted(StableSort(s[..|s| - 1]), s[|s| - 1]);
    }
  }

  /** The sort only reorders. */
  lemma {:induction false} StableSortPerm(s: seq<Stat>)
    ensures multiset(StableSort(s)) == multiset(s)
  {
    if s != [] {
      var init, last := s[..|s| - 1], s[|s| - 1];
      StableSortPerm(init);
      InsertPerm(StableSort(init), last);
      assert s == init + [last];
    }
  }

  /** The entries solving exactly `k`, in order. */
  function Tied(s: seq<Stat>, k: int): (r: seq<Stat>)
    ensures forall i :: 0 <= i < |r| ==> r[i].totalSolved == k && r[i] in s
  {
    if s == [] then []
    else Tied(s[..|s| - 1], k) + (if s[|s| - 1].totalSolved == k then [s[|s| - 1]] else [])
  }

  lemma TiedSnoc(s: seq<Stat>, x: Stat, k: int)
    ensures Tied(s + [x], k) == Tied(s, k) + (if x.totalSolved == k then [x] else [])
  {
    assert (s + [x])[..|s|] == s;
  }

  lemma {:induction false} InsertKeepsTies(s: seq<Stat>, x: Stat, k: int)
    ensures Tied(Insert(s, x), k) == Tied(s, k) + (if x.totalSolved == k then [x] else [])
  {
    if s == [] || s[|s| - 1].totalSolved >= x.totalSolved {
      TiedSnoc(s, x, k);
    } else {
      var init, last := s[..|s| - 1], s[|s| - 1];
      InsertKeepsTies(init, x, k);
      TiedSnoc(Insert(init, x), last, k);
    }
  }

  /** The sort is stable: users with the same count keep the order they
      had. */
  lemma {:induction false} StableSortKeepsTies(s: seq<Stat>, k: int)
    ensures Tied(StableSort(s), k) == Tied(s, k)
  {
    if s != [] {
      var init, last := s[..|s| - 1], s[|s| - 1];
      StableSortKeepsTies(init, k);
      InsertKeepsTies(StableSort(init), last, k);
    }
  }

  /** The last entry is the last of its tie. */
  lemma TiedHasLast(t: seq<Stat>)
    requires t != []
    ensures var ts := Tied(t, t[|t| - 1].totalSolved); ts != [] && ts[|ts| - 1] == t[|t| - 1]
  {
  }

  /** Dropping the same last entry from two sequences with the same tie
      for `k` leaves them with the same tie for `k`. */
  lemma TiesOfInit(t1: seq<Stat>, t2: seq<Stat>, k: int)
    requires t1 != [] && t2 != [] && t1[|t1| - 1] == t2[|t2| - 1]
    requires Tied(t1, k) == Tied(t2, k)
    ensures Tied(t1[..|t1| - 1], k) == Tied(t2[..|t2| - 1], k)
  {
    var i1, i2, x := t1[..|t1| - 1], t2[..|t2| - 1], t1[|t1| - 1];
    var a, b := Tied(i1, k), Tied(i2, k);
    var tail := if x.totalSolved == k then [x] else [];
    assert Tied(t1, k) == a + tail;
    assert Tied(t2, k) == b + tail;
    assert a == (a + tail)[..|a|];
    assert b == (b + tail)[..|b|];
  }

  /** Sorted highest first with every tie in the same order fixes the
      sequence: any stable sort by this comparator gives `StableSort`. */
  lemma {:induction false} StableOrderIsUnique(t1: seq<Stat>, t2: seq<Stat>)
    requires SortedDesc(t1) && SortedDesc(t2)
    requires forall k :: Tied(t1, k) == Tied(t2, k)
    ensures t1 == t2
    decreases |t1| + |t2|
  {
    if t1 == [] && t2 != [] {
      TiedHasLast(t2);
      assert false;
    } else if t1 != [] && t2 == [] {
      TiedHasLast(t1);
      assert false;
    } else if t1 != [] {
      var init1, x := t1[..|t1| - 1], t1[|t1| - 1];
      var init2, y := t2[..|t2| - 1], t2[|t2| - 1];
      var m := x.totalSolved;
      assert m == y.totalSolved by {
        TiedHasLast(t1);
        TiedHasLast(t2);
        assert Tied(t1, y.totalSolved) == Tied(t2, y.totalSolved);
        assert Tied(t1, m) == Tied(t2, m);
        var i :| 0 <= i < |t1| && t1[i] == y;
        var j :| 0 <= j < |t2| && t2[j] == x;
      }
      assert x == y by {
        TiedHasLast(t1);
        TiedHasLast(t2);
        assert Tied(t1, m) == Tied(t2, m);
      }
      forall k ensures Tied(init1, k) == Tied(init2, k) {
        TiesOfInit(t1, t2, k);
      }
      StableOrderIsUnique(init1, init2);
      assert t1 == init1 + [x] && t2 == init2 + [y];
    }
  }

  /** `stats.sort((a, b) => b.totalSolved - a.totalSolved)` (53), in place,
      by insertion. */
  method SortStats(a: array<Stat>)
    modifies a
    ensures a[..] == StableSort(old(a[..]))
  {
    ghost var input := a[..];
    var i := 0;
    while i < a.Length
      invariant 0 <= i <= a.Length
      invariant a[..i] == StableSort(input[..i])
      invariant forall k :: i <= k < a.Length ==> a[k] == input[k]
    {
      InsertInto(a, i);
      SortStep(input, i);
      i := i + 1;
    }
    assert a[..] == a[..a.Length] && input[..a.Length] == input;
  }

  /** One pass of the sort: `a[i]` moves left past every entry solving
      fewer, into the sorted prefix `a[..i]`. */
  method InsertInto(a: array<Stat>, i: nat)
    requires i < a.Length
    modifies a
    ensures a[..i + 1] == Insert(old(a[..i]), old(a[i]))
    ensures forall k :: i < k < a.Length ==> a[k] == old(a[k])
  {
    ghost var s := a[..i];
    var x := a[i];
    var j := i;
    while j > 0 && a[j - 1].totalSolved < x.totalSolved
      invariant 0 <= j <= i
      invariant forall k :: 0 <= k < j ==> a[k] == s[k]
      invariant forall k :: j < k <= i ==> a[k] == s[k - 1]
      invariant forall k :: i < k < a.Length ==> a[k] == old(a[k])
      invariant forall k :: j <= k < i ==> s[k].totalSolved < x.totalSolved
    {
      a[j] := a[j - 1];
      j := j - 1;
    }
    a[j] := x;
    assert a[..i + 1] == Insert(s, x) by {
      InsertAt(s, x, j);
      Placed(a[..i + 1], s, x, j);
    }
  }

  /** After the shifts, the first `i + 1` slots hold the sorted prefix with
      `x` in the gap. */
  lemma Placed(b: seq<Stat>, s: seq<Stat>, x: Stat, j: nat)
    requires |b| == |s| + 1 && j <= |s|
    requires forall k :: 0 <= k < j ==> b[k] == s[k]
    requires b[j] == x
    requires forall k :: j < k < |b| ==> b[k] == s[k - 1]
    ensures b == s[..j] + [x] + s[j..]
  {
  }

  /** `Insert` puts `x` after the last entry solving at least as many:
      past every entry from `j` on, which all solve fewer. */
  lemma {:induction false} InsertAt(s: seq<Stat>, x: Stat, j: nat)
    requires j <= |s| && (j == 0 || s[j - 1].totalSolved >= x.totalSolved)
    requires forall k :: j <= k < |s| ==> s[k].totalSolved < x.totalSolved
    ensures Insert(s, x) == s[..j] + [x] + s[j..]
  {
    if j < |s| {
      var init := s[..|s| - 1];
      InsertAt(init, x, j);
      assert init[..j] == s[..j];
      assert s[j..] == init[j..] + [s[|s| - 1]];
    }
  }

  /** Sorting one more input element inserts it into the sorted prefix. */
  lemma SortStep(input: seq<Stat>, i: nat)
    requires i < |input|
    ensures StableSort(input[..i + 1]) == Insert(StableSort(input[..i]), input[i])
  {
    assert input[..i + 1][..i] == input[..i];
  }

  /** `map((u, i) => ({ rank: i + 1, name: u.dbName, points: u.totalSolved }))`. */
  function Ranked(s: seq<Stat>): (es: seq<Entry>)
    ensures |es| == |s|
    ensures forall i :: 0 <= i < |s| ==> es[i].rank == i + 1 && es[i].name == s[i].dbName
                                         && es[i].points == s[i].totalSolved
  {
    seq(|s|, i requires 0 <= i < |s| => Entry(i + 1, s[i].dbName, s[i].totalSolved))
  }

  /** Ranked from sorted stats, points never rise down the list. */
  lemma RankedPointsDescend(s: seq<Stat>)
    requires SortedDesc(s)
    ensures var es := Ranked(s); forall i, j :: 0 <= i < j < |es| ==> es[i].points >= es[j].points
  {
  }

  const TopCount := 15

  /** `stats.slice(0, 15)` (54). */
  function Top(s: seq<Stat>): (t: seq<Stat>)
    ensures |t| == (if |s| < TopCount then |s| else TopCount)
    ensures t == s[..|t|]
  {
    if |s| < TopCount then s else s[..TopCount]
  }

  /** Of sorted stats, everyone shown solved at least as many as anyone
      left out. */
  lemma TopDominates(s: seq<Stat>)
    requires SortedDesc(s)
    ensures forall i, j :: 0 <= i < |Top(s)| <= j < |s| ==> Top(s)[i].totalSolved >= s[j].totalSolved
  {
  }

  /** `getLeaderboard` (38-69): 500 with the message of a rejected fetch;
      otherwise the fifteen highest, ranked. */
  method GetLeaderboard(users: seq<LeetcodeUser>, fetch: string -> Fetch) returns (r: Reply<seq<Entry>>)
    ensures r.Fail? <==> AnyFailed(users, fetch)
    ensures r.Fail? ==> exists i :: 0 <= i < |users| && fetch(users[i].username).FetchFailed?
                                  && r.reason == LeaderboardFailed(fetch(users[i].username).message)
    ensures r.Ok? ==> !AnyFailed(users, fetch) && r.value == Ranked(Top(StableSort(Stats(users, fetch))))
  {
    if i :| 0 <= i < |users| && fetch(users[i].username).FetchFailed? {
      return Fail(LeaderboardFailed(fetch(users[i].username).message));
    }
    var stats := Stats(users, fetch);
    var a := new Stat[|stats|](k requires 0 <= k < |stats| => stats[k]);
    assert a[..] == stats;
    SortStats(a);
    var n := if a.Length < TopCount then a.Length else TopCount;
    r := Ok(Ranked(a[..n]));
  }

  /** Every entry shown is a registered user with that user's count, and
      each user at most once. */
  lemma ShownAreUsers(users: seq<LeetcodeUser>, fetch: string -> Fetch)
    requires !AnyFailed(users, fetch)
    ensures var shown := Top(StableSort(Stats(users, fetch)));
            multiset(shown) <= multiset(Stats(users, fetch))
  {
    var sorted := StableSort(Stats(users, fetch));
    StableSortPerm(Stats(users, fetch));
    var t := Top(sorted);
    assert sorted == t + sorted[|t|..];
  }
}

/** `src/routes/leaderboard.ts`: the same leaderboard served from the route
    module, listing every user rather than the first fifteen. */
module LeaderboardRoute {
  import opened Http
  import L = LeaderboardController

  /** The route handler (41-88): 500 with the message of a rejected fetch;
      otherwise every user, sorted and ranked. */
  method GetLeaderboard(users: seq<L.LeetcodeUser>, fetch: string -> L.Fetch) returns (r: Reply<seq<L.Entry>>)
    ensures r.Fail? <==> L.AnyFailed(users, fetch)
    ensures r.Fail? ==> exists i :: 0 <= i < |users| && fetch(users[i].username).FetchFailed?
                                  && r.reason == LeaderboardFailed(fetch(users[i].username).message)
    ensures r.Ok? ==> !L.AnyFailed(users, fetch)
                      && r.value == L.Ranked(L.StableSort(L.Stats(users, fetch)))
  {
    if i :| 0 <= i < |users| && fetch(users[i].username).FetchFailed? {
      return Fail(LeaderboardFailed(fetch(users[i].username).message));
    }
    var stats := L.Stats(users, fetch);
    var a := new L.Stat[|stats|](k requires 0 <= k < |stats| => stats[k]);
    assert a[..] == stats;
    L.SortStats(a);
    r := Ok(L.Ranked(a[..]));
  }

  /** The controller's leaderboard is the first fifteen entries of the
      route's, with the same ranks. */
  lemma ControllerIsPrefix(s: seq<L.Stat>)
    ensures var full := L.Ranked(s); var top := L.Ranked(L.Top(s));
            |top| <= |full| && top == full[..|top|]
  {
  }
}
