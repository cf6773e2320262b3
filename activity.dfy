/**
  The page-visit log and the daily activity report built from it. Visits are
  appended to one JSON file; every failure to read that file reads as "no
  visits". The report picks the visits of one day (or of the last seven
  days), groups them by email and orders the per-user statistics by the
  latest visit.
*/
module Activity {
  import opened Util
  import opened StoreFile
  import opened Ordering
  import opened Clock

  datatype UserVisit = UserVisit(userEmail: string, timestamp: nat, pageUrl: string)

  datatype UserActivityStat = UserActivityStat(userEmail: string, visitCount: nat, lastSeen: nat)

  /** The report's caption: a calendar day (shown with ToShortDateString) or a fixed text. */
  datatype DisplayDate = ShortDate(day: int) | Caption(text: string)

  datatype DailyActivityReport = DailyActivityReport(
    displayDate: DisplayDate,
    totalUniqueUsers: nat,
    totalVisits: nat,
    userStats: seq<UserActivityStat>)

  /** GetAllVisits: no file, a blank file, a `null` document or one that does not parse all read as no visits. */
  function LoadVisits(f: FileContent<UserVisit>): (r: seq<UserVisit>)
    ensures f.Records? ==> r == f.items
    ensures !f.Records? ==> r == []
  {
    if f.Records? then f.items else []
  }

  /**
    The visits a report keeps, for `today` the current day: "Yesterday" keeps
    the day before, "Last7Days" the seven days ending today, and anything
    else the day of `date`, or today when no date is given.
  */
  function InRange(rangeType: string, date: Option<nat>, today: int): UserVisit -> bool
  {
    (v: UserVisit) =>
      var d := DayOf(v.timestamp) as int;
      if rangeType == "Yesterday" then d == today - 1
      else if rangeType == "Last7Days" then today - 6 <= d <= today
      else d == (if date.Some? then DayOf(date.value) as int else today)
  }

  function DisplayFor(rangeType: string, date: Option<nat>, today: int): (r: DisplayDate)
    ensures r.Caption? <==> rangeType == "Last7Days"
  {
    if rangeType == "Yesterday" then ShortDate(today - 1)
    else if rangeType == "Last7Days" then Caption("Last 7 Days")
    else ShortDate(if date.Some? then DayOf(date.value) as int else today)
  }

  /** The number of visits by one user (LINQ's Count over the user's group). */
  function VisitsBy(vs: seq<UserVisit>, email: string): nat
  {
    if |vs| == 0 then 0 else (if vs[0].userEmail == email then 1 else 0) + VisitsBy(vs[1..], email)
  }

  /** Some visit is by this user. */
  predicate Visited(vs: seq<UserVisit>, email: string)
  {
    exists i :: 0 <= i < |vs| && vs[i].userEmail == email
  }

  /** The emails of the visits, each once, in order of first appearance (the order of LINQ's groups). */
  function Emails(vs: seq<UserVisit>): (es: seq<string>)
    ensures Distinct(es)
    ensures forall i :: 0 <= i < |vs| ==> vs[i].userEmail in es
    ensures forall e :: e in es ==> Visited(vs, e)
  {
    if |vs| == 0 then []
    else
      var init := vs[..|vs| - 1];
      var rest := Emails(init);
      var e := vs[|vs| - 1].userEmail;
      assert forall i :: 0 <= i < |init| ==> init[i] == vs[i];
      if e in rest then rest else rest + [e]
  }

  /** The latest visit time of a user who visited (LINQ's Max over the user's group). */
  function Latest(vs: seq<UserVisit>, email: string): (m: nat)
    requires Visited(vs, email)
    ensures exists i :: 0 <= i < |vs| && vs[i].userEmail == email && vs[i].timestamp == m
    ensures forall i :: 0 <= i < |vs| && vs[i].userEmail == email ==> vs[i].timestamp <= m
  {
    var rest := vs[1..];
    assert forall i :: 0 < i < |vs| ==> vs[i] == rest[i - 1];
    if !Visited(rest, email) then
      assert vs[0].userEmail == email;
      vs[0].timestamp
    else
      var m := Latest(rest, email);
      if vs[0].userEmail == email && vs[0].timestamp > m then vs[0].timestamp else m
  }

  /** One group of the report: how often the user visited, and the latest of their visit times. */
  function StatFor(vs: seq<UserVisit>, email: string): (s: UserActivityStat)
    requires Visited(vs, email)
    ensures s.userEmail == email
    ensures s.visitCount == VisitsBy(vs, email) && s.visitCount > 0
    ensures s.lastSeen == Latest(vs, email)
  {
    VisitedIsCounted(vs, email);
    UserActivityStat(email, VisitsBy(vs, email), Latest(vs, email))
  }

  lemma {:induction false} VisitedIsCounted(vs: seq<UserVisit>, email: string)
    requires Visited(vs, email)
    ensures VisitsBy(vs, email) > 0
  {
    if vs[0].userEmail != email {
      var i :| 0 <= i < |vs| && vs[i].userEmail == email;
      assert vs[1..][i - 1] == vs[i];
      VisitedIsCounted(vs[1..], email);
    }
  }

  function StatsFor(es: seq<string>, vs: seq<UserVisit>): (r: seq<UserActivityStat>)
    requires forall e :: e in es ==> Visited(vs, e)
    ensures |r| == |es|
    ensures forall k :: 0 <= k < |es| ==> r[k] == StatFor(vs, es[k])
  {
    if |es| == 0 then [] else [StatFor(vs, es[0])] + StatsFor(es[1..], vs)
  }

  function LastSeenOf(s: UserActivityStat): int
  {
    s.lastSeen
  }

  /**
    The per-user statistics of the kept visits: one per user, ordered by the
    latest visit, latest first (ties keep the order of first appearance).
  */
  function UserStats(kept: seq<UserVisit>): (stats: seq<UserActivityStat>)
    ensures forall i, j :: 0 <= i < j < |stats| ==> stats[i].lastSeen >= stats[j].lastSeen
  {
    var stats := SortDesc(StatsFor(Emails(kept), kept), LastSeenOf);
    assert forall i, j :: 0 <= i < j < |stats| ==> LastSeenOf(stats[i]) >= LastSeenOf(stats[j]);
    stats
  }

  /** Statistics with the same last-seen time keep the order of the groups, the order of first appearance. */
  lemma UserStatsTies(kept: seq<UserVisit>, t: int)
    ensures Filter(UserStats(kept), KeyIs(LastSeenOf, t)) == Filter(StatsFor(Emails(kept), kept), KeyIs(LastSeenOf, t))
  {
    SortDescStable(StatsFor(Emails(kept), kept), LastSeenOf, t);
  }

  /** Each statistic describes one user of the kept visits: their number of visits and their latest visit. */
  lemma StatMeaning(kept: seq<UserVisit>, s: UserActivityStat)
    requires s in UserStats(kept)
    ensures s.visitCount == VisitsBy(kept, s.userEmail) && s.visitCount > 0
    ensures exists i :: 0 <= i < |kept| && kept[i].userEmail == s.userEmail && kept[i].timestamp == s.lastSeen
    ensures forall i :: 0 <= i < |kept| && kept[i].userEmail == s.userEmail ==> kept[i].timestamp <= s.lastSeen
  {
    StatIsGroup(kept, s);
  }

  lemma StatIsGroup(kept: seq<UserVisit>, s: UserActivityStat)
    requires s in UserStats(kept)
    ensures Visited(kept, s.userEmail) && s == StatFor(kept, s.userEmail)
  {
    var es := Emails(kept);
    var grouped := StatsFor(es, kept);
    assert s in multiset(grouped);
    var k :| 0 <= k < |grouped| && grouped[k] == s;
    assert s == StatFor(kept, es[k]);
  }

  /** Every user of the kept visits has a statistic. */
  lemma EveryUserListed(kept: seq<UserVisit>, i: nat)
    requires i < |kept|
    ensures exists j :: 0 <= j < |UserStats(kept)| && UserStats(kept)[j].userEmail == kept[i].userEmail
  {
    var es := Emails(kept);
    var grouped := StatsFor(es, kept);
    var k :| 0 <= k < |es| && es[k] == kept[i].userEmail;
    assert grouped[k] in multiset(UserStats(kept));
  }

  /** There are as many statistics as distinct emails among the kept visits. */
  lemma UsersAreDistinctEmails(kept: seq<UserVisit>)
    ensures |UserStats(kept)| == |set v | v in kept :: v.userEmail|
  {
    var es := Emails(kept);
    DistinctCard(es);
    assert (set e | e in es) == (set v | v in kept :: v.userEmail) by {
      forall e | e in es ensures e in (set v | v in kept :: v.userEmail) {
        assert Visited(kept, e);
        var i :| 0 <= i < |kept| && kept[i].userEmail == e;
      }
      forall v | v in kept ensures v.userEmail in es {
        var i :| 0 <= i < |kept| && kept[i] == v;
      }
    }
  }

  // ---------------------------------------------------------------------
  // The visit counts of a report add up to its number of visits
  // ---------------------------------------------------------------------

  function SumVisits(stats: seq<UserActivityStat>): int
  {
    if |stats| == 0 then 0 else stats[0].visitCount + SumVisits(stats[1..])
  }

  lemma {:induction false} SumVisitsAppend(a: seq<UserActivityStat>, b: seq<UserActivityStat>)
    ensures SumVisits(a + b) == SumVisits(a) + SumVisits(b)
  {
    if |a| == 0 {
      assert a + b == b;
    } else {
      assert (a + b)[1..] == a[1..] + b;
      SumVisitsAppend(a[1..], b);
    }
  }

  /** Reordering the statistics does not change their total. */
  lemma {:induction false} SumVisitsPermutation(a: seq<UserActivityStat>, b: seq<UserActivityStat>)
    requires multiset(a) == multiset(b)
    ensures SumVisits(a) == SumVisits(b)
    decreases |a|
  {
    if |a| > 0 {
      var x := a[0];
      assert x in multiset(b);
      var k :| 0 <= k < |b| && b[k] == x;
      var b' := b[..k] + b[k + 1..];
      assert b == b[..k] + [x] + b[k + 1..];
      assert a == [x] + a[1..];
      assert multiset(b') == multiset(b) - multiset{x};
      SumVisitsPermutation(a[1..], b');
      SumVisitsAppend(b[..k] + [x], b[k + 1..]);
      SumVisitsAppend(b[..k], [x]);
      SumVisitsAppend(b[..k], b[k + 1..]);
    }
  }

  /** How many visits the listed emails account for, an email listed twice counted twice. */
  function CountsFor(es: seq<string>, vs: seq<UserVisit>): nat
  {
    if |es| == 0 then 0 else VisitsBy(vs, es[0]) + CountsFor(es[1..], vs)
  }

  function Occurrences(es: seq<string>, e: string): nat
  {
    if |es| == 0 then 0 else (if es[0] == e then 1 else 0) + Occurrences(es[1..], e)
  }

  lemma {:induction false} OccurrencesOfDistinct(es: seq<string>, e: string)
    requires Distinct(es)
    ensures Occurrences(es, e) == if e in es then 1 else 0
  {
    if |es| > 0 {
      assert Distinct(es[1..]);
      OccurrencesOfDistinct(es[1..], e);
      assert es == [es[0]] + es[1..];
    }
  }

  lemma {:induction false} SumVisitsOfStats(es: seq<string>, vs: seq<UserVisit>)
    requires forall e :: e in es ==> Visited(vs, e)
    ensures SumVisits(StatsFor(es, vs)) == CountsFor(es, vs)
  {
    if |es| > 0 {
      SumVisitsOfStats(es[1..], vs);
      assert StatsFor(es, vs)[1..] == StatsFor(es[1..], vs);
    }
  }

  /** One more visit in front adds one to the count of every listed copy of its email. */
  lemma {:induction false} CountsForCons(es: seq<string>, v: UserVisit, vs: seq<UserVisit>)
    ensures CountsFor(es, [v] + vs) == Occurrences(es, v.userEmail) + CountsFor(es, vs)
  {
    if |es| > 0 {
      CountsForCons(es[1..], v, vs);
      assert ([v] + vs)[1..] == vs;
    }
  }

  /** A duplicate-free list of emails covering every visit accounts for each visit exactly once. */
  lemma {:induction false} CountsForCovering(es: seq<string>, vs: seq<UserVisit>)
    requires Distinct(es)
    requires forall i :: 0 <= i < |vs| ==> vs[i].userEmail in es
    ensures CountsFor(es, vs) == |vs|
  {
    if |vs| == 0 {
      if |es| > 0 {
        CountsForCovering(es[1..], vs);
      }
    } else {
      assert vs == [vs[0]] + vs[1..];
      CountsForCons(es, vs[0], vs[1..]);
      OccurrencesOfDistinct(es, vs[0].userEmail);
      CountsForCovering(es, vs[1..]);
    }
  }

  /** The visit counts of the statistics add up to the number of kept visits. */
  lemma CountsAddUp(kept: seq<UserVisit>)
    ensures SumVisits(UserStats(kept)) == |kept|
  {
    var es := Emails(kept);
    var grouped := StatsFor(es, kept);
    SumVisitsPermutation(UserStats(kept), grouped);
    SumVisitsOfStats(es, kept);
    CountsForCovering(es, kept);
  }

  /**
    GetReport on the loaded visits, with `today` the current day: the kept
    visits, their number, and the per-user statistics and their number.
  */
  function Report(visits: seq<UserVisit>, rangeType: string, date: Option<nat>, today: int): (r: DailyActivityReport)
    ensures r.displayDate == DisplayFor(rangeType, date, today)
    ensures r.totalVisits == CountWhere(visits, InRange(rangeType, date, today))
    ensures r.totalUniqueUsers == |r.userStats|
  {
    var kept := Filter(visits, InRange(rangeType, date, today));
    var stats := UserStats(kept);
    DailyActivityReport(DisplayFor(rangeType, date, today), |stats|, |kept|, stats)
  }

  /**
    A report's figures agree with each other: the users are the distinct
    emails of the kept visits, each with their visit count and latest
    visit, and the counts add up to the number of visits.
  */
  lemma ReportIsConsistent(visits: seq<UserVisit>, rangeType: string, date: Option<nat>, today: int)
    ensures var r := Report(visits, rangeType, date, today);
      var kept := Filter(visits, InRange(rangeType, date, today));
      && r.userStats == UserStats(kept)
      && r.totalUniqueUsers == |set v | v in kept :: v.userEmail|
      && SumVisits(r.userStats) == r.totalVisits
  {
    var kept := Filter(visits, InRange(rangeType, date, today));
    UsersAreDistinctEmails(kept);
    CountsAddUp(kept);
  }

  // ---------------------------------------------------------------------
  // Windows and the visit log
  // ---------------------------------------------------------------------

  lemma {:induction false} CountDisjoint(vs: seq<UserVisit>, p: UserVisit -> bool, q: UserVisit -> bool,
                                         both: UserVisit -> bool)
    requires forall v :: !(p(v) && q(v))
    requires forall v :: p(v) || q(v) ==> both(v)
    ensures CountWhere(vs, p) + CountWhere(vs, q) <= CountWhere(vs, both)
  {
    if |vs| > 0 {
      CountDisjoint(vs[1..], p, q, both);
    }
  }

  /** The last seven days include today and yesterday, so that report counts at least their visits together. */
  lemma Last7DaysCoversTodayAndYesterday(visits: seq<UserVisit>, today: int)
    ensures Report(visits, "Today", None, today).totalVisits + Report(visits, "Yesterday", None, today).totalVisits
      <= Report(visits, "Last7Days", None, today).totalVisits
  {
    CountDisjoint(visits, InRange("Today", None, today), InRange("Yesterday", None, today),
                  InRange("Last7Days", None, today));
  }

  /** LogVisit on the loaded visits: the earlier visits, then the new one stamped with the clock reading. */
  function LogVisitOn(visits: seq<UserVisit>, email: string, url: string, now: nat): (r: seq<UserVisit>)
    ensures |r| == |visits| + 1 && r[..|visits|] == visits
    ensures r[|visits|].userEmail == email && r[|visits|].pageUrl == url && r[|visits|].timestamp == now
  {
    visits + [UserVisit(email, now, url)]
  }

  /** A visit just logged shows in today's report: one more visit, and its user is listed. */
  lemma LoggedVisitIsReported(visits: seq<UserVisit>, email: string, url: string, now: nat)
    ensures var before := Report(visits, "Today", None, DayOf(now));
      var after := Report(LogVisitOn(visits, email, url, now), "Today", None, DayOf(now));
      && after.totalVisits == before.totalVisits + 1
      && exists i :: 0 <= i < |after.userStats| && after.userStats[i].userEmail == email
  {
    var v := UserVisit(email, now, url);
    var p := InRange("Today", None, DayOf(now));
    var kept := Filter(visits, p);
    FilterAppend(visits, [v], p);
    assert p(v);
    assert Filter([v], p) == [v];
    var kept' := Filter(visits + [v], p);
    assert kept' == kept + [v];
    assert LogVisitOn(visits, email, url, now) == visits + [v];
    EveryUserListed(kept', |kept|);
  }

  /** UserActivityService over its visit file. */
  class ActivityService {
    var file: FileContent<UserVisit>

    constructor (f: FileContent<UserVisit>)
      ensures file == f
    {
      file := f;
    }

    /** LogVisit: the file is rewritten with the loaded visits plus the new one. */
    method LogVisit(email: string, url: string, now: nat)
      modifies this
      ensures file == Records(LogVisitOn(old(LoadVisits(file)), email, url, now))
    {
      var visits := LoadVisits(file);
      visits := visits + [UserVisit(email, now, url)];
      file := Records(visits);
    }

    /** GetReport, with the clock reading `now` for DateTime.Today. */
    function GetReport(rangeType: string, date: Option<nat>, now: nat): (r: DailyActivityReport)
      reads this
      ensures r.totalVisits <= |LoadVisits(file)|
      ensures r.displayDate.Caption? <==> rangeType == "Last7Days"
    {
      Report(LoadVisits(file), rangeType, date, DayOf(now))
    }
  }
}
