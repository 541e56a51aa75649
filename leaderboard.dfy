/** The leaderboard endpoint (views.py): the ten fastest completed boards
    with their completion time written out in days, hours and minutes, and
    the ten users with the most completed boards. */
module Leaderboard {
  import opened Wrappers
  import Decimal
  import Sorting

  /** A board row as the leaderboard query sees it; times are in seconds. */
  datatype BoardRecord = BoardRecord(
    owner: nat, ownerName: string, templateTitle: string,
    isCompleted: bool, createdAt: int, completedAt: Option<int>)

  datatype UserRecord = UserRecord(id: nat, username: string)

  datatype FastestEntry = FastestEntry(
    rank: nat, username: string, templateTitle: string, completionTime: string, completedAt: int)

  datatype CountEntry = CountEntry(rank: nat, username: string, completedCount: nat)

  /** A completion time split into whole days, hours and minutes. */
  datatype Duration = Duration(days: int, hours: nat, minutes: nat)

  // ---------------------------------------------------------------------
  // Duration formatting

  /** Floor division and remainder as Python computes them for a positive
      divisor: quotient and remainder are determined by the bounds. */
  lemma DivModUnique(s: int, m: int, q: int, r: int)
    requires m > 0 && s == q * m + r && 0 <= r < m
    ensures s / m == q && s % m == r
  {
    var q', r' := s / m, s % m;
    assert s == q' * m + r';
    assert (q' - q) * m == r - r';
    if q' != q {
      MultipleBound(q' - q, m);
      assert false;
    }
  }

  /** A non-zero multiple of m is at least m away from zero. */
  lemma {:induction false} MultipleBound(k: int, m: int)
    requires k != 0 && m > 0
    ensures k > 0 ==> k * m >= m
    ensures k < 0 ==> k * m <= -m
    decreases if k > 0 then k else -k
  {
    if k > 1 {
      MultipleBound(k - 1, m);
      assert k * m == (k - 1) * m + m;
    } else if k < -1 {
      MultipleBound(k + 1, m);
      assert k * m == (k + 1) * m - m;
    }
  }

  /** The day, hour and minute parts of a duration of `totalSeconds`
      seconds: the hours of the last day and the minutes of the last hour,
      with at most 59 seconds left over. */
  function Split(totalSeconds: int): (d: Duration)
    ensures d.hours <= 23 && d.minutes <= 59
    ensures d.days * 86400 + d.hours * 3600 + d.minutes * 60 <= totalSeconds
    ensures totalSeconds < d.days * 86400 + d.hours * 3600 + d.minutes * 60 + 60
    ensures totalSeconds >= 0 ==> d.days >= 0
  {
    var days := totalSeconds / 86400;
    var hours := (totalSeconds % 86400) / 3600;
    var minutes := (totalSeconds % 3600) / 60;
    SplitBounds(totalSeconds, days, hours, minutes);
    Duration(days, hours, minutes)
  }

  lemma SplitBounds(s: int, days: int, hours: int, minutes: int)
    requires days == s / 86400 && hours == (s % 86400) / 3600 && minutes == (s % 3600) / 60
    ensures 0 <= hours <= 23 && 0 <= minutes <= 59
    ensures days * 86400 + hours * 3600 + minutes * 60 <= s < days * 86400 + hours * 3600 + minutes * 60 + 60
    ensures s >= 0 ==> days >= 0
  {
    var r := s % 86400;
    var r2 := r % 3600;
    assert r == hours * 3600 + r2;
    DivModUnique(s, 3600, days * 24 + hours, r2);
    assert s % 3600 == r2;
    assert r2 == minutes * 60 + r2 % 60;
  }

  /** The completion time as the leaderboard shows it: days and hours from
      one day on, hours and minutes from one hour on, minutes otherwise. */
  function FormatDuration(totalSeconds: int): (t: string)
    ensures '일' in t <==> Split(totalSeconds).days > 0
    ensures '시' in t <==> Split(totalSeconds).days > 0 || Split(totalSeconds).hours > 0
    ensures '분' in t <==> Split(totalSeconds).days <= 0
  {
    var d := Split(totalSeconds);
    NumeralHasNoUnit(d.days);
    NumeralHasNoUnit(d.hours);
    NumeralHasNoUnit(d.minutes);
    if d.days > 0 then
      Decimal.NatToString(d.days) + "일 " + Decimal.NatToString(d.hours) + "시간"
    else if d.hours > 0 then
      Decimal.NatToString(d.hours) + "시간 " + Decimal.NatToString(d.minutes) + "분"
    else
      Decimal.NatToString(d.minutes) + "분"
  }

  /** A numeral holds none of the unit characters. */
  lemma NumeralHasNoUnit(n: int)
    ensures n >= 0 ==> ('일' !in Decimal.NatToString(n) && '시' !in Decimal.NatToString(n)
                     && '간' !in Decimal.NatToString(n) && '분' !in Decimal.NatToString(n))
  {
    if n >= 0 {
      var s := Decimal.NatToString(n);
      forall c | c in s ensures Decimal.IsDigit(c) {
        var i :| 0 <= i < |s| && s[i] == c;
      }
    }
  }

  /** The index of the first non-digit character of t, or |t|. */
  function FirstNonDigit(t: string): (k: nat)
    ensures k <= |t|
  {
    if t == [] || !Decimal.IsDigit(t[0]) then 0 else 1 + FirstNonDigit(t[1..])
  }

  /** Behind a run of digits, the first non-digit is where the run ends. */
  lemma {:induction false} FirstNonDigitAfterDigits(x: string, rest: string)
    requires forall i :: 0 <= i < |x| ==> Decimal.IsDigit(x[i])
    requires rest != [] && !Decimal.IsDigit(rest[0])
    ensures FirstNonDigit(x + rest) == |x|
  {
    if x != [] {
      assert (x + rest)[1..] == x[1..] + rest;
      FirstNonDigitAfterDigits(x[1..], rest);
    }
  }

  /** A decimal numeral followed by a text that starts with a non-digit
      can be read back: the number and the text are determined. */
  lemma LeadingNumber(n: nat, rest: string, n': nat, rest': string)
    requires Decimal.NatToString(n) + rest == Decimal.NatToString(n') + rest'
    requires rest != [] && rest' != []
    requires !Decimal.IsDigit(rest[0]) && !Decimal.IsDigit(rest'[0])
    ensures n == n' && rest == rest'
  {
    var x, x' := Decimal.NatToString(n), Decimal.NatToString(n');
    var t := x + rest;
    FirstNonDigitAfterDigits(x, rest);
    FirstNonDigitAfterDigits(x', rest');
    assert x == t[..|x|] == x';
    assert rest == t[|x|..] == rest';
    Decimal.ParseNatToString(n);
    Decimal.ParseNatToString(n');
  }

  /** The text shows a board's completion time unambiguously: two
      non-negative durations with the same text have the same days and
      hours, and when under a day the same minutes. */
  lemma FormatDeterminesShownUnits(s: int, s': int)
    requires s >= 0 && s' >= 0
    requires FormatDuration(s) == FormatDuration(s')
    ensures Split(s).days == Split(s').days
    ensures Split(s).hours == Split(s').hours
    ensures Split(s).days == 0 ==> Split(s).minutes == Split(s').minutes
  {
    var d, d' := Split(s), Split(s');
    var lead, tail := LeadAndTail(s);
    var lead', tail' := LeadAndTail(s');
    LeadingNumber(lead, tail, lead', tail');
    if d.days > 0 {
      SameDayTail(d.hours, d'.hours, tail, tail');
    } else if d.hours > 0 {
      SameHourTail(d.minutes, d'.minutes, tail, tail');
    }
  }

  lemma SameDayTail(h: nat, h': nat, tail: string, tail': string)
    requires tail == tail'
    requires tail == "일 " + Decimal.NatToString(h) + "시간"
    requires tail' == "일 " + Decimal.NatToString(h') + "시간"
    ensures h == h'
  {
    assert tail[2..] == Decimal.NatToString(h) + "시간";
    assert tail'[2..] == Decimal.NatToString(h') + "시간";
    LeadingNumber(h, "시간", h', "시간");
  }

  lemma SameHourTail(m: nat, m': nat, tail: string, tail': string)
    requires tail == tail'
    requires tail == "시간 " + Decimal.NatToString(m) + "분"
    requires tail' == "시간 " + Decimal.NatToString(m') + "분"
    ensures m == m'
  {
    assert tail[3..] == Decimal.NatToString(m) + "분";
    assert tail'[3..] == Decimal.NatToString(m') + "분";
    LeadingNumber(m, "분", m', "분");
  }

  /** A formatted duration is its leading number followed by a text that
      starts with the unit: 일 (days), 시 (hours) or 분 (minutes). */
  lemma LeadAndTail(s: int) returns (lead: nat, tail: string)
    requires s >= 0
    ensures FormatDuration(s) == Decimal.NatToString(lead) + tail
    ensures tail != [] && !Decimal.IsDigit(tail[0])
    ensures Split(s).days > 0 ==> lead == Split(s).days && tail == "일 " + Decimal.NatToString(Split(s).hours) + "시간"
    ensures Split(s).days == 0 && Split(s).hours > 0 ==>
      lead == Split(s).hours && tail == "시간 " + Decimal.NatToString(Split(s).minutes) + "분"
    ensures Split(s).days == 0 && Split(s).hours == 0 ==> lead == Split(s).minutes && tail == "분"
  {
    var d := Split(s);
    if d.days > 0 {
      lead, tail := d.days, "일 " + Decimal.NatToString(d.hours) + "시간";
    } else if d.hours > 0 {
      lead, tail := d.hours, "시간 " + Decimal.NatToString(d.minutes) + "분";
    } else {
      lead, tail := d.minutes, "분";
    }
  }

  // ---------------------------------------------------------------------
  // Fastest completions

  /** What the fastest-completion query keeps: completed boards with a
      completion time. */
  predicate Finished(b: BoardRecord) {
    b.isCompleted && b.completedAt.Some?
  }

  /** Seconds from a board's creation to its completion. */
  function Elapsed(b: BoardRecord): int {
    if b.completedAt.Some? then b.completedAt.value - b.createdAt else 0
  }

  function FinishedBoards(boards: seq<BoardRecord>): (r: seq<BoardRecord>)
    ensures forall b :: b in r <==> b in boards && Finished(b)
    ensures multiset(r) <= multiset(boards)
    ensures |r| <= |boards|
  {
    if boards == [] then []
    else
      var rest := FinishedBoards(boards[1..]);
      assert boards == [boards[0]] + boards[1..];
      assert forall b :: b in boards <==> b == boards[0] || b in boards[1..];
      if Finished(boards[0]) then [boards[0]] + rest else rest
  }

  /** The fastest-completion query: finished boards by ascending completion
      time, the first ten, each taken at most as often as it is finished;
      any finished board left out is no faster than all ten shown. */
  function FastestBoards(boards: seq<BoardRecord>): (r: seq<BoardRecord>)
    ensures |r| == if |FinishedBoards(boards)| < 10 then |FinishedBoards(boards)| else 10
    ensures multiset(r) <= multiset(FinishedBoards(boards))
    ensures forall b :: b in r ==> b in boards && Finished(b)
    ensures forall i, j :: 0 <= i < j < |r| ==> Elapsed(r[i]) <= Elapsed(r[j])
    ensures forall b :: b in boards && Finished(b) && b !in r ==>
      |r| == 10 && forall x :: x in r ==> Elapsed(x) <= Elapsed(b)
  {
    var finished := FinishedBoards(boards);
    var sorted := Sorting.SortBy(finished, Elapsed);
    var r := Sorting.Take(sorted, 10);
    forall b | b in r ensures b in boards && Finished(b) {
      var i :| 0 <= i < |r| && r[i] == b;
      assert b in multiset(sorted);
    }
    forall b | b in boards && Finished(b) && b !in r
      ensures |r| == 10 && forall x :: x in r ==> Elapsed(x) <= Elapsed(b)
    {
      assert b in multiset(finished);
      Sorting.TakeOfSorted(sorted, Elapsed, 10, b);
    }
    r
  }

  /** Distinct board records give distinct entries of the query. */
  lemma FastestBoardsDistinct(boards: seq<BoardRecord>)
    requires forall i, j :: 0 <= i < j < |boards| ==> boards[i] != boards[j]
    ensures forall i, j :: 0 <= i < j < |FastestBoards(boards)| ==> FastestBoards(boards)[i] != FastestBoards(boards)[j]
  {
    Sorting.DistinctSubMultiset(FinishedBoards(boards), boards);
    Sorting.DistinctSubMultiset(FastestBoards(boards), FinishedBoards(boards));
  }

  /** The entry of a finished board at a given rank. */
  function EntryFor(rank: nat, b: BoardRecord): FastestEntry
    requires b.completedAt.Some?
  {
    FastestEntry(rank, b.ownerName, b.templateTitle, FormatDuration(Elapsed(b)), b.completedAt.value)
  }

  /** The fastest_list loop: each board in query order becomes an entry
      whose rank is one more than the entries before it. */
  method FastestList(ordered: seq<BoardRecord>) returns (list: seq<FastestEntry>)
    requires forall i :: 0 <= i < |ordered| ==> ordered[i].isCompleted && ordered[i].completedAt.Some?
    ensures |list| == |ordered|
    ensures forall i :: 0 <= i < |list| ==> list[i].rank == i + 1
    ensures forall i :: 0 <= i < |list| ==>
      list[i] == FastestEntry(i + 1, ordered[i].ownerName, ordered[i].templateTitle,
                              FormatDuration(Elapsed(ordered[i])), ordered[i].completedAt.value)
  {
    list := [];
    var i := 0;
    while i < |ordered|
      invariant 0 <= i <= |ordered|
      invariant |list| == i
      invariant forall k :: 0 <= k < i ==> list[k] == EntryFor(k + 1, ordered[k])
    {
      var board := ordered[i];
      var entry := FastestEntry(|list| + 1, board.ownerName, board.templateTitle,
                                FormatDuration(board.completedAt.value - board.createdAt), board.completedAt.value);
      assert entry == EntryFor(i + 1, board);
      list := list + [entry];
      i := i + 1;
    }
  }

  // ---------------------------------------------------------------------
  // Most completions

  /** A user's name with the number of boards they have completed. */
  datatype UserCount = UserCount(username: string, count: nat)

  /** The number of completed boards owned by `user`. */
  function CompletedCount(boards: seq<BoardRecord>, user: nat): (n: nat)
    ensures n <= |boards|
  {
    if boards == [] then 0
    else (if boards[0].owner == user && boards[0].isCompleted then 1 else 0) + CompletedCount(boards[1..], user)
  }

  function Annotate(users: seq<UserRecord>, boards: seq<BoardRecord>): (r: seq<UserCount>)
    ensures |r| == |users|
    ensures forall i :: 0 <= i < |r| ==> r[i] == UserCount(users[i].username, CompletedCount(boards, users[i].id))
  {
    seq(|users|, i requires 0 <= i < |users| => UserCount(users[i].username, CompletedCount(boards, users[i].id)))
  }

  function PositiveCounts(s: seq<UserCount>): (r: seq<UserCount>)
    ensures forall u :: u in r <==> u in s && u.count > 0
    ensures multiset(r) <= multiset(s)
  {
    if s == [] then []
    else
      var rest := PositiveCounts(s[1..]);
      assert s == [s[0]] + s[1..];
      assert forall u :: u in s <==> u == s[0] || u in s[1..];
      if s[0].count > 0 then [s[0]] + rest else rest
  }

  function DescendingCount(u: UserCount): int { -(u.count as int) }

  /** most_completions: users with at least one completed board, by
      descending count, the first ten, ranked 1.. in list order. A user
      left out has no more completions than every user shown. */
  function MostCompletions(users: seq<UserRecord>, boards: seq<BoardRecord>): (r: seq<CountEntry>)
    ensures |r| == if |PositiveCounts(Annotate(users, boards))| < 10 then |PositiveCounts(Annotate(users, boards))| else 10
    ensures multiset(Unranked(r)) <= multiset(PositiveCounts(Annotate(users, boards)))
    ensures forall i :: 0 <= i < |r| ==> r[i].rank == i + 1 && r[i].completedCount > 0
    ensures forall i, j :: 0 <= i < j < |r| ==> r[i].completedCount >= r[j].completedCount
    ensures forall i :: 0 <= i < |r| ==> exists u :: (u in users &&
      u.username == r[i].username && CompletedCount(boards, u.id) == r[i].completedCount)
    ensures forall u :: u in users && CompletedCount(boards, u.id) > 0 ==>
      (exists i :: 0 <= i < |r| && r[i].username == u.username && r[i].completedCount == CompletedCount(boards, u.id))
      || (|r| == 10 && forall i :: 0 <= i < |r| ==> r[i].completedCount >= CompletedCount(boards, u.id))
  {
    var annotated := Annotate(users, boards);
    var positive := PositiveCounts(annotated);
    var sorted := Sorting.SortBy(positive, DescendingCount);
    var top := Sorting.Take(sorted, 10);
    var r := Ranked(top);
    RankedTopIsPart(positive, sorted, top, r);
    TopComesFromUsers(users, boards, positive, sorted, top);
    TopDescending(sorted, top, r);
    LeftOutRankLower(users, boards, sorted, top, r);
    r
  }

  /** The user counts behind the entries, without their ranks. */
  function Unranked(r: seq<CountEntry>): (s: seq<UserCount>)
    ensures |s| == |r|
    ensures forall i :: 0 <= i < |r| ==> s[i] == UserCount(r[i].username, r[i].completedCount)
  {
    seq(|r|, i requires 0 <= i < |r| => UserCount(r[i].username, r[i].completedCount))
  }

  /** The ranked first ten are as many as ten or all the users with
      completions, and are taken from those users' counts. */
  lemma RankedTopIsPart(positive: seq<UserCount>, sorted: seq<UserCount>, top: seq<UserCount>, r: seq<CountEntry>)
    requires |sorted| == |positive| && multiset(sorted) == multiset(positive)
    requires top == Sorting.Take(sorted, 10)
    requires r == Ranked(top)
    ensures |r| == if |positive| < 10 then |positive| else 10
    ensures multiset(Unranked(r)) <= multiset(positive)
  {
    assert Unranked(r) == top;
  }

  /** With unique usernames, as the user table has, no user is listed twice. */
  lemma MostCompletionsDistinctUsers(users: seq<UserRecord>, boards: seq<BoardRecord>)
    requires forall i, j :: 0 <= i < j < |users| ==> users[i].username != users[j].username
    ensures forall i, j :: 0 <= i < j < |MostCompletions(users, boards)| ==>
      MostCompletions(users, boards)[i].username != MostCompletions(users, boards)[j].username
  {
    var annotated := Annotate(users, boards);
    var positive := PositiveCounts(annotated);
    var r := MostCompletions(users, boards);
    var top := Unranked(r);
    Sorting.DistinctSubMultiset(positive, annotated);
    Sorting.DistinctSubMultiset(top, positive);
    forall i, j | 0 <= i < j < |r| ensures r[i].username != r[j].username {
      assert top[i] in multiset(top) && top[j] in multiset(top);
      assert top[i] in positive && top[j] in positive;
      var x :| 0 <= x < |annotated| && annotated[x] == top[i];
      var y :| 0 <= y < |annotated| && annotated[y] == top[j];
      assert x != y;
      assert annotated[x].username == users[x].username;
      assert annotated[y].username == users[y].username;
      if x < y {
        assert users[x].username != users[y].username;
      } else {
        assert users[y].username != users[x].username;
      }
    }
  }

  lemma TopDescending(sorted: seq<UserCount>, top: seq<UserCount>, r: seq<CountEntry>)
    requires Sorting.SortedBy(sorted, DescendingCount)
    requires top == Sorting.Take(sorted, 10)
    requires |r| == |top|
    requires forall i :: 0 <= i < |top| ==> r[i] == CountEntry(i + 1, top[i].username, top[i].count)
    ensures forall i, j :: 0 <= i < j < |r| ==> r[i].completedCount >= r[j].completedCount
  {
    forall i, j | 0 <= i < j < |r| ensures r[i].completedCount >= r[j].completedCount {
      assert DescendingCount(sorted[i]) <= DescendingCount(sorted[j]);
    }
  }

  /** The entries of the ranking, ranked 1.. in list order. */
  function Ranked(top: seq<UserCount>): (r: seq<CountEntry>)
    ensures |r| == |top|
    ensures forall i :: 0 <= i < |top| ==> r[i] == CountEntry(i + 1, top[i].username, top[i].count)
  {
    seq(|top|, i requires 0 <= i < |top| => CountEntry(i + 1, top[i].username, top[i].count))
  }

  /** A user with completions who is not among the entries has no more
      completions than any of the ten entries. */
  lemma LeftOutRankLower(users: seq<UserRecord>, boards: seq<BoardRecord>, sorted: seq<UserCount>,
                         top: seq<UserCount>, r: seq<CountEntry>)
    requires Sorting.SortedBy(sorted, DescendingCount)
    requires multiset(sorted) == multiset(PositiveCounts(Annotate(users, boards)))
    requires top == Sorting.Take(sorted, 10)
    requires |r| == |top|
    requires forall i :: 0 <= i < |top| ==> r[i] == CountEntry(i + 1, top[i].username, top[i].count)
    ensures forall u :: u in users && CompletedCount(boards, u.id) > 0 ==>
      (exists i :: 0 <= i < |r| && r[i].username == u.username && r[i].completedCount == CompletedCount(boards, u.id))
      || (|r| == 10 && forall i :: 0 <= i < |r| ==> r[i].completedCount >= CompletedCount(boards, u.id))
  {
    var annotated := Annotate(users, boards);
    forall u | u in users && CompletedCount(boards, u.id) > 0
      ensures (exists i :: 0 <= i < |r| && r[i].username == u.username && r[i].completedCount == CompletedCount(boards, u.id))
           || (|r| == 10 && forall i :: 0 <= i < |r| ==> r[i].completedCount >= CompletedCount(boards, u.id))
    {
      var k :| 0 <= k < |users| && users[k] == u;
      var uc := annotated[k];
      assert uc in multiset(sorted);
      Sorting.TakeOfSorted(sorted, DescendingCount, 10, uc);
      if uc in top {
        var i :| 0 <= i < |top| && top[i] == uc;
        assert r[i].username == u.username;
      } else {
        forall i | 0 <= i < |r| ensures r[i].completedCount >= uc.count {
          assert top[i] in top;
        }
      }
    }
  }

  /** Every user count among the first ten is a user's own count. */
  lemma TopComesFromUsers(users: seq<UserRecord>, boards: seq<BoardRecord>, positive: seq<UserCount>,
                          sorted: seq<UserCount>, top: seq<UserCount>)
    requires positive == PositiveCounts(Annotate(users, boards))
    requires multiset(sorted) == multiset(positive)
    requires |top| <= |sorted|
    requires forall i :: 0 <= i < |top| ==> top[i] == sorted[i]
    ensures forall i :: 0 <= i < |top| ==> top[i].count > 0 && exists u :: (u in users &&
      u.username == top[i].username && CompletedCount(boards, u.id) == top[i].count)
  {
    forall i | 0 <= i < |top| ensures top[i].count > 0 && exists u :: (u in users &&
      u.username == top[i].username && CompletedCount(boards, u.id) == top[i].count)
    {
      assert top[i] in multiset(positive);
      var annotated := Annotate(users, boards);
      var k :| 0 <= k < |annotated| && annotated[k] == top[i];
      assert users[k] in users;
    }
  }
}
