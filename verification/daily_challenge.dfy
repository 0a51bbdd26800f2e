/**
 * The daily-challenge page: which of the three challenges is today's, the
 * time left until midnight broken into hours, minutes and seconds, the badge
 * a streak earns, and where the start button leads. The clock, the storage
 * that holds the streak and completion flags, and the one-second interval
 * are not modelled: the day of the week and the milliseconds left are
 * parameters.
 */
module DailyChallenge {
  import opened Wrappers
  import opened Text

  // ---------------------------------------------------------------------------
  // Today's challenge

  /** The ids of the three mock daily challenges, in declaration order. */
  const ChallengeIds: seq<string> := ["daily-001", "daily-002", "daily-003"]

  /** `getDay()` is 0 (Sunday) to 6 (Saturday); the list is cycled by it. */
  function TodaysChallengeIndex(day: int): (r: nat)
    requires 0 <= day < 7
    ensures r < |ChallengeIds|
    ensures (r + |ChallengeIds| - day) % |ChallengeIds| == 0
  {
    day % |ChallengeIds|
  }

  /** Every challenge is today's on some day of every week, and never on two consecutive days. */
  lemma EveryChallengeEachWeek(i: nat)
    requires i < |ChallengeIds|
    ensures exists day :: 0 <= day < 7 && TodaysChallengeIndex(day) == i
    ensures forall day :: 0 <= day < 6 ==> TodaysChallengeIndex(day) != TodaysChallengeIndex(day + 1)
  {
    assert TodaysChallengeIndex(i) == i;
  }

  /** Sunday, Wednesday and Saturday all give the first challenge: the cycle of three does not divide a week. */
  lemma SaturdayRepeatsSunday()
    ensures ChallengeIds[TodaysChallengeIndex(6)] == ChallengeIds[TodaysChallengeIndex(0)] == "daily-001"
    ensures ChallengeIds[TodaysChallengeIndex(3)] == "daily-001"
  {
  }

  // ---------------------------------------------------------------------------
  // The countdown to midnight

  const MsPerSecond := 1000
  const MsPerMinute := 60 * MsPerSecond
  const MsPerHour := 60 * MsPerMinute

  /** Whole hours, minutes and seconds that `diff` milliseconds decompose into. */
  datatype Clock = Clock(hours: nat, minutes: nat, seconds: nat)
  {
    /** The milliseconds the clock stands for. */
    function Millis(): nat
    {
      hours * MsPerHour + minutes * MsPerMinute + seconds * MsPerSecond
    }

    /** Minutes and seconds are below 60. */
    predicate Normal()
    {
      minutes < 60 && seconds < 60
    }
  }

  /**
   * `updateCountdown`: the floors of `diff` over an hour, of the remainder
   * over a minute, and of the remainder over a second. `diff` is the
   * distance to the next midnight, never negative, so JavaScript's
   * truncating `%` agrees with Dafny's.
   */
  function Countdown(diff: nat): (r: Clock)
    ensures r.Normal()
    ensures r.Millis() <= diff < r.Millis() + MsPerSecond
    ensures diff <= 24 * MsPerHour ==> r.hours <= 24
  {
    var h := diff / MsPerHour;
    var m := (diff % MsPerHour) / MsPerMinute;
    var s := (diff % MsPerMinute) / MsPerSecond;
    DivisionSplit(diff);
    Clock(h, m, s)
  }

  /** The arithmetic behind `Countdown`: an hour is sixty whole minutes, a minute sixty whole seconds. */
  lemma DivisionSplit(diff: nat)
    ensures (diff % MsPerHour) / MsPerMinute < 60
    ensures (diff % MsPerMinute) / MsPerSecond < 60
    ensures diff == diff / MsPerHour * MsPerHour + (diff % MsPerHour) / MsPerMinute * MsPerMinute + diff % MsPerMinute
    ensures diff % MsPerMinute == (diff % MsPerMinute) / MsPerSecond * MsPerSecond + diff % MsPerSecond
  {
    var q := diff / MsPerHour;
    var rest := diff % MsPerHour;
    DivModOf(diff, q, rest, MsPerHour);
    var m := rest / MsPerMinute;
    var e := rest % MsPerMinute;
    DivModOf(rest, m, e, MsPerMinute);
    DivModOf(diff, q * 60 + m, e, MsPerMinute);
    DivModOf(e, e / MsPerSecond, e % MsPerSecond, MsPerSecond);
    DivModOf(diff, (q * 60 + m) * 60 + e / MsPerSecond, e % MsPerSecond, MsPerSecond);
  }

  /** For a second, a minute or an hour, quotient and remainder are fixed by any split of `x` into whole units and a remainder below one. */
  lemma DivModOf(x: nat, q: nat, rem: nat, d: nat)
    requires d == MsPerSecond || d == MsPerMinute || d == MsPerHour
    requires rem < d
    requires x == q * d + rem
    ensures x / d == q && x % d == rem
  {
  }

  /** The decomposition is the only normal clock within a second below `diff`. */
  lemma CountdownUnique(diff: nat, c: Clock)
    requires c.Normal()
    requires c.Millis() <= diff < c.Millis() + MsPerSecond
    ensures c == Countdown(diff)
  {
    var extra := diff - c.Millis();
    var belowMinute := c.seconds * MsPerSecond + extra;
    var belowHour := c.minutes * MsPerMinute + belowMinute;
    DivModOf(diff, c.hours, belowHour, MsPerHour);
    DivModOf(belowHour, c.minutes, belowMinute, MsPerMinute);
    DivModOf(diff, c.hours * 60 + c.minutes, belowMinute, MsPerMinute);
    DivModOf(belowMinute, c.seconds, extra, MsPerSecond);
  }

  /** The text shown: `{h}h {m}m {s}s`, without padding. */
  function CountdownText(diff: nat): (r: string)
    ensures
      var c := Countdown(diff);
      var h := NatToString(c.hours);
      var m := NatToString(c.minutes);
      var sec := NatToString(c.seconds);
      && |r| == |h| + |m| + |sec| + 5
      && r[..|h|] == h && r[|h|..|h| + 2] == "h "
      && r[|h| + 2..|h| + 2 + |m|] == m && r[|h| + 2 + |m|..|h| + 4 + |m|] == "m "
      && r[|h| + 4 + |m|..|r| - 1] == sec && r[|r| - 1] == 's'
  {
    var c := Countdown(diff);
    var h := NatToString(c.hours);
    var m := NatToString(c.minutes);
    var sec := NatToString(c.seconds);
    FiveParts(h, "h ", m, "m ", sec, "s");
    h + "h " + m + "m " + sec + "s"
  }

  /** Where each part of a five-part concatenation sits, before a closing part. */
  lemma FiveParts(a: string, b: string, c: string, d: string, e: string, f: string)
    ensures
      var r := a + b + c + d + e + f;
      && |r| == |a| + |b| + |c| + |d| + |e| + |f|
      && r[..|a|] == a
      && r[|a|..|a| + |b|] == b
      && r[|a| + |b|..|a| + |b| + |c|] == c
      && r[|a| + |b| + |c|..|a| + |b| + |c| + |d|] == d
      && r[|a| + |b| + |c| + |d|..|r| - |f|] == e
      && r[|r| - |f|..] == f
  {
    var r := a + b + c + d + e + f;
    var ab := a + b;
    var abc := ab + c;
    var abcd := abc + d;
    var abcde := abcd + e;
    assert r == abcde + f;
    assert r[..|abcde|] == abcde;
    assert abcde[..|abcd|] == abcd;
    assert abcd[..|abc|] == abc;
    assert abc[..|ab|] == ab;
  }

  /** The three numbers read back from the text are the countdown's hours, minutes and seconds. */
  lemma CountdownTextReadsBack(diff: nat)
    ensures
      var c := Countdown(diff);
      var r := CountdownText(diff);
      var h := |NatToString(c.hours)|;
      var m := |NatToString(c.minutes)|;
      && DigitsValue(r[..h]) == c.hours
      && DigitsValue(r[h + 2..h + 2 + m]) == c.minutes
      && DigitsValue(r[h + 4 + m..|r| - 1]) == c.seconds
  {
  }

  /** One minute and one and a half seconds before midnight the page shows `0h 1m 1s`. */
  lemma CountdownTextExample()
    ensures CountdownText(61_500) == "0h 1m 1s"
  {
    CountdownExample();
    assert NatToString(0) == "0" && NatToString(1) == "1";
  }

  /** One minute and one and a half seconds before midnight. */
  lemma CountdownExample()
    ensures Countdown(61_500) == Clock(0, 1, 1)
  {
    CountdownUnique(61_500, Clock(0, 1, 1));
  }

  // ---------------------------------------------------------------------------
  // Streak badges

  datatype Badge = Bronze | Silver | Gold | Diamond

  /** `getStreakBadge`: the highest threshold the streak reaches, none below three days. */
  function StreakBadge(streak: int): (r: Option<Badge>)
    ensures r == None <==> streak < 3
    ensures r == Some(Diamond) <==> streak >= 30
  {
    if streak >= 30 then Some(Diamond)
    else if streak >= 14 then Some(Gold)
    else if streak >= 7 then Some(Silver)
    else if streak >= 3 then Some(Bronze)
    else None
  }

  /** The order of badges, no badge lowest. */
  function Rank(b: Option<Badge>): (r: nat)
    ensures r == 0 <==> b == None
    ensures r <= 4
  {
    match b
    case None => 0
    case Some(Bronze) => 1
    case Some(Silver) => 2
    case Some(Gold) => 3
    case Some(Diamond) => 4
  }

  /** The smallest streak that earns each badge. */
  function Threshold(b: Badge): (r: nat)
    ensures r >= 3
  {
    match b
    case Bronze => 3
    case Silver => 7
    case Gold => 14
    case Diamond => 30
  }

  /** A streak earns a badge of at least rank `b` exactly when it reaches `b`'s threshold. */
  lemma BadgeThresholds(streak: int, b: Badge)
    ensures Rank(StreakBadge(streak)) >= Rank(Some(b)) <==> streak >= Threshold(b)
  {
  }

  /** A longer streak never earns a lower badge. */
  lemma BadgeMonotone(a: int, b: int)
    requires a <= b
    ensures Rank(StreakBadge(a)) <= Rank(StreakBadge(b))
  {
  }

  // ---------------------------------------------------------------------------
  // The start button

  datatype StartAction = GoHome | StayPut | OpenEditor(path: string)

  const EditorPathPrefix := "/learn/c?challenge=daily&challengeId="

  /** `handleStart`: signed-out users go home; with no challenge loaded nothing happens; otherwise the editor opens on the challenge. */
  function Start(user: Option<string>, challengeId: Option<string>): (r: StartAction)
    ensures user == None <==> r == GoHome
    ensures r.OpenEditor? <==> user != None && challengeId != None
    ensures r.OpenEditor? ==>
              && |r.path| == |EditorPathPrefix| + |challengeId.value|
              && r.path[..|EditorPathPrefix|] == EditorPathPrefix
              && r.path[|EditorPathPrefix|..] == challengeId.value
  {
    if user == None then GoHome
    else if challengeId == None then StayPut
    else OpenEditor(EditorPathPrefix + challengeId.value)
  }

  /** Two different challenges open different editor pages. */
  lemma StartDistinguishesChallenges(user: string, a: string, b: string)
    requires a != b
    ensures Start(Some(user), Some(a)) != Start(Some(user), Some(b))
  {
    var pa := Start(Some(user), Some(a)).path;
    var pb := Start(Some(user), Some(b)).path;
    assert pa[|EditorPathPrefix|..] == a;
    assert pb[|EditorPathPrefix|..] == b;
  }
}
