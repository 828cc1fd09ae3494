/**
 * The active-flag copy of the championship aggregation, src/services/seasonService.js:
 * `getChampionshipStats`, `getChampionshipTiers` and `getDraftLocations`. Teams are
 * keyed by name and only active teams are counted. Title counts are in half-titles.
 * The rows the database returns are the inputs; `currentYear` is a parameter.
 */
module SeasonService {
  import opened Common
  import Sorting
  import Summary
  import Tiering

  /** The joined `teams` row of a season role: `{ id, name, is_active }`. */
  datatype TeamRef = TeamRef(id: int, name: string, isActive: bool)

  /** A season row with its three joined roles; an absent role is `None`. */
  datatype Season = Season(year: int, champion: Option<TeamRef>, coChampion: Option<TeamRef>, runnerUp: Option<TeamRef>)

  /** `role && role.is_active`. */
  predicate ActiveRole(r: Option<TeamRef>) {
    r.Some? && r.value.isActive
  }

  /** The three dictionaries the loop fills. */
  datatype Tally = Tally(champ: Dict<string, int>, apps: Dict<string, int>, lastWin: Dict<string, int>)

  /** The body of `seasons.forEach(season => ...)` applied to the dictionaries so far. */
  function Step(t: Tally, s: Season): Tally {
    var t1 :=
      if ActiveRole(s.champion) then
        var name := s.champion.value.name;
        Tally(Bump(t.champ, name, if s.coChampion.Some? then 1 else 2), Bump(t.apps, name, 1), BumpMax(t.lastWin, name, s.year))
      else t;
    var t2 :=
      if ActiveRole(s.coChampion) then
        var name := s.coChampion.value.name;
        Tally(Bump(t1.champ, name, 1), Bump(t1.apps, name, 1), BumpMax(t1.lastWin, name, s.year))
      else t1;
    if ActiveRole(s.runnerUp) then Tally(t2.champ, Bump(t2.apps, s.runnerUp.value.name, 1), t2.lastWin) else t2
  }

  /** The dictionaries after the loop has visited `ss`. */
  function TallyOf(ss: seq<Season>): Tally {
    if ss == [] then Tally(EmptyDict(), EmptyDict(), EmptyDict())
    else Step(TallyOf(ss[..|ss| - 1]), ss[|ss| - 1])
  }

  /** The counting loop shared by `getChampionshipStats` (158-192) and `getChampionshipTiers` (262-291). */
  method CountSeasons(seasons: seq<Season>) returns (champ: Dict<string, int>, apps: Dict<string, int>, lastWin: Dict<string, int>)
    ensures Tally(champ, apps, lastWin) == TallyOf(seasons)
  {
    champ, apps, lastWin := EmptyDict(), EmptyDict(), EmptyDict();
    var i := 0;
    while i < |seasons|
      invariant 0 <= i <= |seasons|
      invariant Tally(champ, apps, lastWin) == TallyOf(seasons[..i])
    {
      var season := seasons[i];
      assert seasons[..i + 1][..i] == seasons[..i];
      if season.champion.Some? && season.champion.value.isActive {
        var name := season.champion.value.name;
        if season.coChampion.Some? {
          champ := Bump(champ, name, 1);
        } else {
          champ := Bump(champ, name, 2);
        }
        apps := Bump(apps, name, 1);
        lastWin := BumpMax(lastWin, name, season.year);
      }
      if season.coChampion.Some? && season.coChampion.value.isActive {
        var name := season.coChampion.value.name;
        champ := Bump(champ, name, 1);
        apps := Bump(apps, name, 1);
        lastWin := BumpMax(lastWin, name, season.year);
      }
      if season.runnerUp.Some? && season.runnerUp.value.isActive {
        apps := Bump(apps, season.runnerUp.value.name, 1);
      }
      i := i + 1;
    }
    assert seasons[..i] == seasons;
  }

  // ---------------------------------------------------------------------------
  // The per-name meaning of the three dictionaries

  /** `name` won season `s` as an active champion or co-champion. */
  predicate WonIn(s: Season, name: string) {
    (ActiveRole(s.champion) && s.champion.value.name == name) || (ActiveRole(s.coChampion) && s.coChampion.value.name == name)
  }

  /** `name` took part in season `s` in an active role. */
  predicate AppearedIn(s: Season, name: string) {
    WonIn(s, name) || (ActiveRole(s.runnerUp) && s.runnerUp.value.name == name)
  }

  /**
   * Half-titles season `s` credits to `name`: 1 for a champion when a co-champion row is
   * present at all (active or not), 2 for a sole champion, 1 for an active co-champion.
   */
  function HalvesIn(s: Season, name: string): (h: int)
    ensures 0 <= h <= 2
    ensures h > 0 <==> WonIn(s, name)
  {
    (if ActiveRole(s.champion) && s.champion.value.name == name then (if s.coChampion.Some? then 1 else 2) else 0)
    + (if ActiveRole(s.coChampion) && s.coChampion.value.name == name then 1 else 0)
  }

  /** Appearances season `s` credits to `name`: one per active role it holds. */
  function AppearancesIn(s: Season, name: string): (a: int)
    ensures 0 <= a <= 3
    ensures a > 0 <==> AppearedIn(s, name)
  {
    (if ActiveRole(s.champion) && s.champion.value.name == name then 1 else 0)
    + (if ActiveRole(s.coChampion) && s.coChampion.value.name == name then 1 else 0)
    + (if ActiveRole(s.runnerUp) && s.runnerUp.value.name == name then 1 else 0)
  }

  function TotalHalves(ss: seq<Season>, name: string): int {
    if ss == [] then 0 else TotalHalves(ss[..|ss| - 1], name) + HalvesIn(ss[|ss| - 1], name)
  }

  function TotalAppearances(ss: seq<Season>, name: string): int {
    if ss == [] then 0 else TotalAppearances(ss[..|ss| - 1], name) + AppearancesIn(ss[|ss| - 1], name)
  }

  ghost predicate Won(ss: seq<Season>, name: string) {
    exists i :: 0 <= i < |ss| && WonIn(ss[i], name)
  }

  ghost predicate Appeared(ss: seq<Season>, name: string) {
    exists i :: 0 <= i < |ss| && AppearedIn(ss[i], name)
  }

  /** One more season: the existential predicates split into the prefix and the last season. */
  lemma {:induction false} WonSnoc(ss: seq<Season>, name: string)
    requires ss != []
    ensures Won(ss, name) <==> Won(ss[..|ss| - 1], name) || WonIn(ss[|ss| - 1], name)
    ensures Appeared(ss, name) <==> Appeared(ss[..|ss| - 1], name) || AppearedIn(ss[|ss| - 1], name)
  {
    var n := |ss| - 1;
    assert forall i :: 0 <= i < n ==> ss[..n][i] == ss[i];
  }

  /** Every dictionary the loop builds is a well-formed object. */
  lemma {:induction false} TallyValid(ss: seq<Season>)
    ensures TallyOf(ss).champ.Valid() && TallyOf(ss).apps.Valid() && TallyOf(ss).lastWin.Valid()
  {
    if ss != [] {
      TallyValid(ss[..|ss| - 1]);
    }
  }

  /**
   * `champCounts[name]` is the sum of the half-titles every season credits to `name`, and
   * `name` is a key exactly when it won some season as an active team.
   */
  lemma {:induction false} ChampClosedForm(ss: seq<Season>, name: string)
    ensures Get(TallyOf(ss).champ, name, 0) == TotalHalves(ss, name)
    ensures name in TallyOf(ss).champ.vals <==> Won(ss, name)
  {
    if ss != [] {
      ChampClosedForm(ss[..|ss| - 1], name);
      WonSnoc(ss, name);
    }
  }

  /**
   * `appearances[name]` is the number of active roles `name` held, and `name` is a key
   * exactly when it held one.
   */
  lemma {:induction false} AppsClosedForm(ss: seq<Season>, name: string)
    ensures Get(TallyOf(ss).apps, name, 0) == TotalAppearances(ss, name)
    ensures name in TallyOf(ss).apps.vals <==> Appeared(ss, name)
  {
    if ss != [] {
      AppsClosedForm(ss[..|ss| - 1], name);
      WonSnoc(ss, name);
    }
  }

  /**
   * `lastWinYear[name]` is recorded exactly for the winners and holds the latest year
   * `name` won, floored at 0.
   */
  lemma {:induction false} LastWinClosedForm(ss: seq<Season>, name: string)
    ensures name in TallyOf(ss).lastWin.vals <==> Won(ss, name)
    ensures Get(TallyOf(ss).lastWin, name, 0) == LastWin(ss, name)
  {
    if ss != [] {
      LastWinClosedForm(ss[..|ss| - 1], name);
      WonSnoc(ss, name);
    }
  }

  /** The latest win year is one of the years `name` won, unless it is the starting 0. */
  lemma {:induction false} LastWinAttained(ss: seq<Season>, name: string)
    ensures LastWin(ss, name) == 0 || exists i :: 0 <= i < |ss| && WonIn(ss[i], name) && ss[i].year == LastWin(ss, name)
  {
    if ss != [] {
      var n := |ss| - 1;
      LastWinAttained(ss[..n], name);
      if LastWin(ss, name) != 0 && LastWin(ss, name) == LastWin(ss[..n], name) {
        var i :| 0 <= i < n && WonIn(ss[..n][i], name) && ss[..n][i].year == LastWin(ss, name);
        assert ss[i] == ss[..n][i];
      }
    }
  }

  /** A team never has more titles than appearances: each credit of at most one title comes with an appearance. */
  lemma {:induction false} HalvesBelowAppearances(ss: seq<Season>, name: string)
    ensures TotalHalves(ss, name) <= 2 * TotalAppearances(ss, name)
  {
    if ss != [] {
      HalvesBelowAppearances(ss[..|ss| - 1], name);
    }
  }

  /**
   * The facts about the tally the summaries need: valid objects, positive title counts,
   * and every titled team also a key of `appearances`.
   */
  lemma TallyFacts(ss: seq<Season>)
    ensures var t := TallyOf(ss);
      && t.champ.Valid() && t.apps.Valid() && t.lastWin.Valid()
      && Positive(t.champ)
      && (forall name :: name in t.champ.vals ==> name in t.apps.vals)
      && (forall name :: name in t.champ.vals <==> name in t.lastWin.vals)
  {
    var t := TallyOf(ss);
    TallyValid(ss);
    forall name | name in t.champ.vals ensures t.champ.vals[name] > 0 && name in t.apps.vals {
      ChampClosedForm(ss, name);
      AppsClosedForm(ss, name);
      TotalHalvesPositive(ss, name);
    }
    forall name ensures name in t.champ.vals <==> name in t.lastWin.vals {
      ChampClosedForm(ss, name);
      LastWinClosedForm(ss, name);
    }
  }

  /** A team has a positive title count exactly when it won some season. */
  lemma {:induction false} TotalHalvesPositive(ss: seq<Season>, name: string)
    ensures TotalHalves(ss, name) >= 0
    ensures TotalHalves(ss, name) > 0 <==> Won(ss, name)
  {
    if ss != [] {
      TotalHalvesPositive(ss[..|ss| - 1], name);
      WonSnoc(ss, name);
    }
  }

  // ---------------------------------------------------------------------------
  // getChampionshipStats

  datatype Leaders = Leaders(teams: seq<string>, count: int)
  datatype Titleless = Titleless(count: int, teams: seq<string>)
  datatype Stats = Stats(
    totalSeasons: int,
    uniqueChampions: int,
    mostTitles: Leaders,
    longestDrought: Option<Summary.Drought>,
    noTitles: Titleless)

  /** The returned object built from the tallies (193-228). */
  function Summarize(t: Tally, totalSeasons: int, currentYear: int): Stats {
    var maxCount := Summary.MaxOrZero(Summary.Values(t.champ));
    var none := Summary.NoTitles(t.apps, t.champ);
    Stats(
      totalSeasons,
      |t.champ.keys|,
      Leaders(Summary.TeamsWith(t.champ, maxCount), maxCount),
      Summary.LongestDrought(t.lastWin, currentYear),
      Titleless(|none|, none))
  }

  /** `getChampionshipStats` once the query has returned `seasons`. */
  method GetChampionshipStats(seasons: seq<Season>, currentYear: int) returns (stats: Stats)
    ensures stats == Summarize(TallyOf(seasons), |seasons|, currentYear)
  {
    var champ, apps, lastWin := CountSeasons(seasons);
    stats := Summarize(Tally(champ, apps, lastWin), |seasons|, currentYear);
  }

  /** The names that won some season as active teams, each once. */
  function Winners(ss: seq<Season>): set<string> {
    (set i | 0 <= i < |ss| && ActiveRole(ss[i].champion) :: ss[i].champion.value.name)
    + (set i | 0 <= i < |ss| && ActiveRole(ss[i].coChampion) :: ss[i].coChampion.value.name)
  }

  lemma WinnersAreWon(ss: seq<Season>, name: string)
    ensures name in Winners(ss) <==> Won(ss, name)
  {
    if Won(ss, name) {
      var i :| 0 <= i < |ss| && WonIn(ss[i], name);
      if ActiveRole(ss[i].champion) && ss[i].champion.value.name == name {
        assert name in (set i | 0 <= i < |ss| && ActiveRole(ss[i].champion) :: ss[i].champion.value.name);
      } else {
        assert name in (set i | 0 <= i < |ss| && ActiveRole(ss[i].coChampion) :: ss[i].coChampion.value.name);
      }
    }
  }

  /** `uniqueChampions` is the number of distinct names that won some season as active teams. */
  lemma UniqueChampionsSpec(ss: seq<Season>)
    ensures |TallyOf(ss).champ.keys| == |Winners(ss)|
  {
    var t := TallyOf(ss);
    TallyValid(ss);
    forall name ensures name in t.champ.keys <==> name in Winners(ss) {
      ChampClosedForm(ss, name);
      WinnersAreWon(ss, name);
    }
    DistinctCard(t.champ.keys);
    assert (set x | x in t.champ.keys) == Winners(ss);
  }

  /**
   * `mostTitles`: the count bounds every team's half-title total, and the teams listed are
   * exactly the winners whose total equals it.
   */
  lemma LeadersSpec(ss: seq<Season>, currentYear: int)
    ensures var r := Summarize(TallyOf(ss), |ss|, currentYear).mostTitles;
      && r.count >= 0
      && (forall name :: TotalHalves(ss, name) <= r.count)
      && (r.count == 0 <==> forall name :: !Won(ss, name))
      && (r.count > 0 ==> exists name :: Won(ss, name) && TotalHalves(ss, name) == r.count)
      && (forall name :: name in r.teams <==> Won(ss, name) && TotalHalves(ss, name) == r.count)
  {
    LeadersBound(ss);
    LeadersAttained(ss);
  }

  /** `Math.max(...values, 0)` bounds every total, and the teams at it are the winners with that total. */
  lemma LeadersBound(ss: seq<Season>)
    ensures var t := TallyOf(ss); var m := Summary.MaxOrZero(Summary.Values(t.champ));
      forall name :: TotalHalves(ss, name) <= m
        && (name in Summary.TeamsWith(t.champ, m) <==> Won(ss, name) && TotalHalves(ss, name) == m)
  {
    var t := TallyOf(ss);
    var vs := Summary.Values(t.champ);
    var m := Summary.MaxOrZero(vs);
    TallyValid(ss);
    Summary.TeamsWithExact(t.champ, m);
    forall name ensures TotalHalves(ss, name) <= m
      && (name in Summary.TeamsWith(t.champ, m) <==> Won(ss, name) && TotalHalves(ss, name) == m)
    {
      ChampClosedForm(ss, name);
      TotalHalvesPositive(ss, name);
      if name in t.champ.vals {
        var k :| 0 <= k < |t.champ.keys| && t.champ.keys[k] == name;
        assert vs[k] == TotalHalves(ss, name);
      }
    }
  }

  /** The maximum is 0 exactly when nobody won, and otherwise some winner's total. */
  lemma LeadersAttained(ss: seq<Season>)
    ensures var m := Summary.MaxOrZero(Summary.Values(TallyOf(ss).champ));
      && (m == 0 <==> forall name :: !Won(ss, name))
      && (m > 0 ==> exists name :: Won(ss, name) && TotalHalves(ss, name) == m)
  {
    var t := TallyOf(ss);
    var vs := Summary.Values(t.champ);
    var m := Summary.MaxOrZero(vs);
    TallyValid(ss);
    if m > 0 {
      var k :| 0 <= k < |vs| && vs[k] == m;
      var name := t.champ.keys[k];
      ChampClosedForm(ss, name);
      TotalHalvesPositive(ss, name);
      assert Won(ss, name) && TotalHalves(ss, name) == m;
    } else {
      LeadersBound(ss);
      forall name ensures !Won(ss, name) {
        TotalHalvesPositive(ss, name);
      }
    }
  }

  /** `noTitles`: exactly the active participants that never won, each listed once, with their number. */
  lemma TitlelessSpec(ss: seq<Season>, currentYear: int)
    ensures var r := Summarize(TallyOf(ss), |ss|, currentYear).noTitles;
      && (forall name :: name in r.teams <==> Appeared(ss, name) && !Won(ss, name))
      && Distinct(r.teams) && r.count == |r.teams|
  {
    var t := TallyOf(ss);
    TallyValid(ss);
    forall name ensures name in Summary.NoTitles(t.apps, t.champ) <==> Appeared(ss, name) && !Won(ss, name) {
      ChampClosedForm(ss, name);
      AppsClosedForm(ss, name);
      TotalHalvesPositive(ss, name);
      if Won(ss, name) {
        var i :| 0 <= i < |ss| && WonIn(ss[i], name);
        assert AppearedIn(ss[i], name);
      }
    }
    FilterDistinct(t.apps.keys, k => Get(t.champ, k, 0) == 0);
  }

  /**
   * `longestDrought`: absent exactly when no active win lies strictly before `currentYear`;
   * otherwise a winner whose latest win is furthest back, with the gap in years.
   */
  lemma DroughtSpec(ss: seq<Season>, currentYear: int)
    ensures var r := Summarize(TallyOf(ss), |ss|, currentYear).longestDrought;
      && (r.None? <==> forall name :: Won(ss, name) ==> LastWin(ss, name) >= currentYear)
      && (r.Some? ==>
            && Won(ss, r.value.team)
            && r.value.years == currentYear - LastWin(ss, r.value.team) > 0
            && forall name :: Won(ss, name) ==> currentYear - LastWin(ss, name) <= r.value.years)
  {
    var lw := TallyOf(ss).lastWin;
    TallyValid(ss);
    Summary.LongestDroughtSpec(lw, currentYear);
    forall name ensures (name in lw.keys <==> Won(ss, name)) && Get(lw, name, 0) == LastWin(ss, name) {
      LastWinClosedForm(ss, name);
    }
  }

  /** The year of `name`'s latest active win, or 0 when it has none, as `Math.max(lastWinYear[name] || 0, year)` accumulates it. */
  function LastWin(ss: seq<Season>, name: string): (y: int)
    ensures y >= 0
    ensures forall i :: 0 <= i < |ss| && WonIn(ss[i], name) ==> ss[i].year <= y
  {
    if ss == [] then 0
    else
      var y := LastWin(ss[..|ss| - 1], name);
      assert forall i :: 0 <= i < |ss| - 1 ==> ss[..|ss| - 1][i] == ss[i];
      if WonIn(ss[|ss| - 1], name) && ss[|ss| - 1].year > y then ss[|ss| - 1].year else y
  }

  // ---------------------------------------------------------------------------
  // getChampionshipTiers

  /** `getChampionshipTiers` once the query has returned `seasons`: the counting loop, then the grouping. */
  method GetChampionshipTiers(seasons: seq<Season>) returns (tiers: seq<Tiering.Tier>)
    ensures tiers == SeasonTiers(seasons)
  {
    var champ, apps, _ := CountSeasons(seasons);
    tiers := Tiering.GroupTiers(champ, apps);
  }

  /** The tier array for the tallies of `ss`. */
  function SeasonTiers(ss: seq<Season>): seq<Tiering.Tier> {
    Tiering.Tiers(TallyOf(ss).champ, TallyOf(ss).apps)
  }

  /**
   * The tiers partition the active participants: each sits, once, in the tier of its
   * half-title total with its number of appearances; counts ascend and each tier lists
   * its teams by appearances, most first.
   */
  lemma SeasonTiersSpec(ss: seq<Season>)
    ensures var ts := SeasonTiers(ss);
      && (forall i, j :: 0 <= i < j < |ts| ==> ts[i].count < ts[j].count)
      && (forall i :: 0 <= i < |ts| ==> ts[i].teams != [] && Sorting.SortedDesc(ts[i].teams, Tiering.ByAppearances()))
      && (forall i, t :: 0 <= i < |ts| && t in ts[i].teams ==>
            Appeared(ss, t.name) && ts[i].count == TotalHalves(ss, t.name) && t.appearances == TotalAppearances(ss, t.name))
      && (forall name :: Appeared(ss, name) ==>
            exists i :: 0 <= i < |ts| && Tiering.TierTeam(name, TotalAppearances(ss, name)) in ts[i].teams)
      && (forall i, j, a, b :: (0 <= i < |ts| && 0 <= j < |ts| && 0 <= a < |ts[i].teams| && 0 <= b < |ts[j].teams|
            && ts[i].teams[a].name == ts[j].teams[b].name) ==> i == j && a == b)
  {
    var t := TallyOf(ss);
    TallyFacts(ss);
    Tiering.TiersSpec(t.champ, t.apps);
    Tiering.TiersDistinct(t.champ, t.apps);
    SeasonTiersMembers(ss);
    SeasonTiersCover(ss);
  }

  lemma SeasonTiersMembers(ss: seq<Season>)
    ensures var ts := SeasonTiers(ss);
      forall i, t :: 0 <= i < |ts| && t in ts[i].teams ==>
        Appeared(ss, t.name) && ts[i].count == TotalHalves(ss, t.name) && t.appearances == TotalAppearances(ss, t.name)
  {
    var t := TallyOf(ss);
    var ts := SeasonTiers(ss);
    forall i, tt | 0 <= i < |ts| && tt in ts[i].teams
      ensures Appeared(ss, tt.name) && ts[i].count == TotalHalves(ss, tt.name) && tt.appearances == TotalAppearances(ss, tt.name)
    {
      Tiering.TierTeamsAreGroup(t.champ, t.apps, i, tt);
      GroupRowMeaning(ss, ts[i].count, tt);
    }
  }

  /** A row grouped under count `c` is an active participant whose half-title total is `c`. */
  lemma GroupRowMeaning(ss: seq<Season>, c: int, tt: Tiering.TierTeam)
    requires tt in Tiering.Group(TallyOf(ss).champ, TallyOf(ss).apps, c)
    ensures Appeared(ss, tt.name) && c == TotalHalves(ss, tt.name) && tt.appearances == TotalAppearances(ss, tt.name)
  {
    var t := TallyOf(ss);
    Tiering.GroupMember(t.champ, t.apps, c, tt);
    ChampClosedForm(ss, tt.name);
    AppsClosedForm(ss, tt.name);
    TiersMemberAppeared(ss, tt.name);
  }

  lemma SeasonTiersCover(ss: seq<Season>)
    ensures var ts := SeasonTiers(ss);
      forall name :: Appeared(ss, name) ==>
        exists i :: 0 <= i < |ts| && Tiering.TierTeam(name, TotalAppearances(ss, name)) in ts[i].teams
  {
    var t := TallyOf(ss);
    var ts := SeasonTiers(ss);
    TallyValid(ss);
    forall name | Appeared(ss, name)
      ensures exists i :: 0 <= i < |ts| && Tiering.TierTeam(name, TotalAppearances(ss, name)) in ts[i].teams
    {
      AppsClosedForm(ss, name);
      assert name in t.apps.keys;
      Tiering.TierOfName(t.champ, t.apps, name);
      var i :| 0 <= i < |ts| && ts[i].count == Get(t.champ, name, 0) && Tiering.Row(t.apps, name) in ts[i].teams;
      assert Tiering.Row(t.apps, name) == Tiering.TierTeam(name, TotalAppearances(ss, name));
    }
  }

  /** A name holding a tier row either won (and so appeared) or is a key of `appearances`. */
  lemma TiersMemberAppeared(ss: seq<Season>, name: string)
    requires name in TallyOf(ss).champ.keys || name in TallyOf(ss).apps.keys
    ensures Appeared(ss, name)
  {
    TallyValid(ss);
    ChampClosedForm(ss, name);
    AppsClosedForm(ss, name);
    if name in TallyOf(ss).champ.keys {
      var i :| 0 <= i < |ss| && WonIn(ss[i], name);
      assert AppearedIn(ss[i], name);
    }
  }

  // ---------------------------------------------------------------------------
  // getDraftLocations

  datatype DraftLocation = DraftLocation(id: int, city: string)

  /** A season row as the locations query selects it: `year, draft_location_id`. */
  datatype SeasonLocation = SeasonLocation(year: int, draftLocationId: Option<int>)

  /** `{ ...loc, years }`. */
  datatype LocationYears = LocationYears(location: DraftLocation, years: seq<int>)

  /** `seasons.filter(s => s.draft_location_id === id).map(s => s.year)`. */
  function YearsAt(seasons: seq<SeasonLocation>, id: int): (ys: seq<int>)
    ensures |ys| <= |seasons|
    ensures forall y :: y in ys <==> exists i :: 0 <= i < |seasons| && seasons[i].draftLocationId == Some(id) && seasons[i].year == y
  {
    if seasons == [] then []
    else
      var rest := YearsAt(seasons[1..], id);
      assert forall i :: 0 < i < |seasons| ==> seasons[1..][i - 1] == seasons[i];
      (if seasons[0].draftLocationId == Some(id) then [seasons[0].year] else []) + rest
  }

  /** `getDraftLocations` once both queries have returned: the locations used by some season, each with its years. */
  function GetDraftLocations(locations: seq<DraftLocation>, seasons: seq<SeasonLocation>): seq<LocationYears> {
    var withYears := seq(|locations|, i requires 0 <= i < |locations| => LocationYears(locations[i], YearsAt(seasons, locations[i].id)));
    Filter(withYears, HasYears)
  }

  /** `loc.years.length > 0`. */
  predicate HasYears(l: LocationYears) {
    |l.years| > 0
  }

  /**
   * Every listed location is an input location with the years of the seasons drafted
   * there, at least one; every input location with such a season is listed; none is
   * invented.
   */
  lemma DraftLocationsSpec(locations: seq<DraftLocation>, seasons: seq<SeasonLocation>)
    ensures var r := GetDraftLocations(locations, seasons);
      && |r| <= |locations|
      && (forall x :: x in r ==> x.location in locations && x.years == YearsAt(seasons, x.location.id) && x.years != [])
      && (forall loc :: loc in locations && (exists i :: 0 <= i < |seasons| && seasons[i].draftLocationId == Some(loc.id)) ==>
            LocationYears(loc, YearsAt(seasons, loc.id)) in r)
  {
    var withYears := seq(|locations|, i requires 0 <= i < |locations| => LocationYears(locations[i], YearsAt(seasons, locations[i].id)));
    forall x | x in withYears ensures x.location in locations && x.years == YearsAt(seasons, x.location.id) {
      var i :| 0 <= i < |withYears| && withYears[i] == x;
    }
    forall loc | loc in locations && (exists i :: 0 <= i < |seasons| && seasons[i].draftLocationId == Some(loc.id))
      ensures LocationYears(loc, YearsAt(seasons, loc.id)) in withYears && HasYears(LocationYears(loc, YearsAt(seasons, loc.id)))
    {
      var k :| 0 <= k < |locations| && locations[k] == loc;
      assert withYears[k] == LocationYears(loc, YearsAt(seasons, loc.id));
      var i :| 0 <= i < |seasons| && seasons[i].draftLocationId == Some(loc.id);
      assert seasons[i].year in YearsAt(seasons, loc.id);
    }
  }
}
