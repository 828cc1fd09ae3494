/**
 * The draft-position computeds (src/composables/useDraftPositionData.js): the list of
 * draft years, the distinct teams, the team-by-year grid and the per-team pick counts,
 * over the rows `getDraftPositions` returned.
 */
module DraftPositionData {
  import opened Common
  import Sorting

  type TeamId = int

  datatype DraftTeam = DraftTeam(id: TeamId, name: string)
  datatype DraftSeason = DraftSeason(year: int)

  /** A row of `positions`: its joined team and season, either of which may be missing. */
  datatype DraftRow = DraftRow(team: Option<DraftTeam>, season: Option<DraftSeason>, position: int)

  // ---------------------------------------------------------------------------
  // years (32-35)

  /** `p.season?.year` for every row whose season is present, in row order. */
  function SeasonYears(ps: seq<DraftRow>): (ys: seq<int>)
    ensures forall y :: y in ys <==> exists k :: 0 <= k < |ps| && ps[k].season == Some(DraftSeason(y))
  {
    if ps == [] then []
    else
      var rest := SeasonYears(ps[1..]);
      assert forall k :: 0 <= k < |ps[1..]| ==> ps[1..][k] == ps[k + 1];
      (if ps[0].season.Some? then [ps[0].season.value.year] else []) + rest
  }

  /** `.filter(Boolean)` on years: the year 0 is falsy and dropped. */
  predicate Truthy(y: int) { y != 0 }

  /** `[...new Set(years.filter(Boolean))].sort((a, b) => a - b)`. */
  function Years(ps: seq<DraftRow>): seq<int> {
    Sorting.SortedDistinct(Filter(SeasonYears(ps), Truthy))
  }

  /** The years are strictly ascending, so free of duplicates, and are exactly the non-zero years of the rows. */
  lemma YearsSpec(ps: seq<DraftRow>)
    ensures var ys := Years(ps);
      && (forall i, j :: 0 <= i < j < |ys| ==> ys[i] < ys[j])
      && (forall y :: y in ys <==> y != 0 && exists k :: 0 <= k < |ps| && ps[k].season == Some(DraftSeason(y)))
  {
  }

  // ---------------------------------------------------------------------------
  // teams (38-46)

  /** `teamMap` after the rows `ps`: the first team object seen for each id, in first-seen order. */
  function TeamMap(ps: seq<DraftRow>): Dict<TeamId, DraftTeam> {
    if ps == [] then EmptyDict()
    else
      var m := TeamMap(ps[..|ps| - 1]);
      var p := ps[|ps| - 1];
      if p.team.Some? && p.team.value.id !in m.vals then Put(m, p.team.value.id, p.team.value) else m
  }

  /** `[...teamMap.values()]`, in insertion order. */
  function MapValues(m: Dict<TeamId, DraftTeam>): seq<DraftTeam> {
    seq(|m.keys|, i requires 0 <= i < |m.keys| => Get(m, m.keys[i], DraftTeam(0, "")))
  }

  method DistinctTeams(ps: seq<DraftRow>) returns (teams: seq<DraftTeam>)
    ensures teams == MapValues(TeamMap(ps))
  {
    var teamMap: Dict<TeamId, DraftTeam> := EmptyDict();
    var i := 0;
    while i < |ps|
      invariant 0 <= i <= |ps|
      invariant teamMap == TeamMap(ps[..i])
    {
      assert ps[..i + 1][..i] == ps[..i];
      var p := ps[i];
      if p.team.Some? && p.team.value.id !in teamMap.vals {
        teamMap := Put(teamMap, p.team.value.id, p.team.value);
      }
      i := i + 1;
    }
    assert ps[..i] == ps;
    teams := MapValues(teamMap);
  }

  /** Whether row `k` is the first row carrying a team with id `id`. */
  predicate FirstWithId(ps: seq<DraftRow>, k: int, id: TeamId)
    requires 0 <= k < |ps|
  {
    ps[k].team.Some? && ps[k].team.value.id == id
    && forall j :: 0 <= j < k ==> !(ps[j].team.Some? && ps[j].team.value.id == id)
  }

  /**
   * The map holds one entry per team id that occurs in a row, and the entry is the team
   * object of the first row with that id.
   */
  lemma {:induction false} TeamMapSpec(ps: seq<DraftRow>, id: TeamId)
    ensures TeamMap(ps).Valid()
    ensures id in TeamMap(ps).vals <==> exists k :: 0 <= k < |ps| && ps[k].team.Some? && ps[k].team.value.id == id
    ensures id in TeamMap(ps).vals ==> exists k :: 0 <= k < |ps| && FirstWithId(ps, k, id) && TeamMap(ps).vals[id] == ps[k].team.value
    ensures id in TeamMap(ps).vals ==> TeamMap(ps).vals[id].id == id
  {
    if ps != [] {
      var n := |ps| - 1;
      var init := ps[..n];
      TeamMapSpec(init, id);
      assert forall j :: 0 <= j < n ==> init[j] == ps[j];
      if id in TeamMap(init).vals {
        var k :| 0 <= k < n && FirstWithId(init, k, id) && TeamMap(init).vals[id] == init[k].team.value;
        assert FirstWithId(ps, k, id);
      } else if ps[n].team.Some? && ps[n].team.value.id == id {
        assert FirstWithId(ps, n, id);
      }
    }
  }

  /**
   * `teams` lists one team per distinct id found in the rows, each the team object of the
   * first row with that id.
   */
  lemma TeamsSpec(ps: seq<DraftRow>)
    ensures var ts := MapValues(TeamMap(ps));
      && (forall i, j :: 0 <= i < j < |ts| ==> ts[i].id != ts[j].id)
      && (forall i :: 0 <= i < |ts| ==> exists k :: 0 <= k < |ps| && FirstWithId(ps, k, ts[i].id) && ts[i] == ps[k].team.value)
      && (forall k :: 0 <= k < |ps| && ps[k].team.Some? ==> exists i :: 0 <= i < |ts| && ts[i].id == ps[k].team.value.id)
  {
    var m := TeamMap(ps);
    var ts := MapValues(m);
    TeamMapSpec(ps, 0);
    forall i | 0 <= i < |ts|
      ensures ts[i].id == m.keys[i]
      ensures exists k :: 0 <= k < |ps| && FirstWithId(ps, k, ts[i].id) && ts[i] == ps[k].team.value
    {
      assert m.keys[i] in m.vals;
      TeamMapSpec(ps, m.keys[i]);
    }
    forall k | 0 <= k < |ps| && ps[k].team.Some?
      ensures exists i :: 0 <= i < |ts| && ts[i].id == ps[k].team.value.id
    {
      var id := ps[k].team.value.id;
      TeamMapSpec(ps, id);
      assert id in m.keys;
      var i :| 0 <= i < |m.keys| && m.keys[i] == id;
      assert ts[i].id == m.keys[i];
    }
  }

  // ---------------------------------------------------------------------------
  // positionGrid (49-59)

  /** `{ team, positions }`: one team's draft position by year. */
  datatype GridRow = GridRow(team: DraftTeam, positions: map<int, int>)

  /** The grid after the rows `ps`. */
  function Grid(ps: seq<DraftRow>): map<TeamId, GridRow> {
    if ps == [] then map[]
    else
      var g := Grid(ps[..|ps| - 1]);
      var p := ps[|ps| - 1];
      if p.team.None? || p.season.None? then g
      else
        var id := p.team.value.id;
        var row := if id in g then g[id] else GridRow(p.team.value, map[]);
        g[id := row.(positions := row.positions[p.season.value.year := p.position])]
  }

  method PositionGrid(ps: seq<DraftRow>) returns (grid: map<TeamId, GridRow>)
    ensures grid == Grid(ps)
  {
    grid := map[];
    var i := 0;
    while i < |ps|
      invariant 0 <= i <= |ps|
      invariant grid == Grid(ps[..i])
    {
      assert ps[..i + 1][..i] == ps[..i];
      var p := ps[i];
      if p.team.Some? && p.season.Some? {
        var id := p.team.value.id;
        if id !in grid {
          grid := grid[id := GridRow(p.team.value, map[])];
        }
        grid := grid[id := grid[id].(positions := grid[id].positions[p.season.value.year := p.position])];
      }
      i := i + 1;
    }
    assert ps[..i] == ps;
  }

  /** Whether row `k` has both a team with id `id` and a season in year `y`. */
  predicate Places(p: DraftRow, id: TeamId, y: int) {
    p.team.Some? && p.team.value.id == id && p.season == Some(DraftSeason(y))
  }

  /**
   * A grid cell is filled exactly when some row with both a team and a season names that
   * team id and year, and it holds the position of the last such row.
   */
  lemma {:induction false} GridCell(ps: seq<DraftRow>, id: TeamId, y: int)
    ensures var g := Grid(ps);
      && (id in g && y in g[id].positions <==> exists k :: 0 <= k < |ps| && Places(ps[k], id, y))
      && (id in g && y in g[id].positions ==>
            exists k :: 0 <= k < |ps| && Places(ps[k], id, y) && g[id].positions[y] == ps[k].position
              && forall j :: k < j < |ps| ==> !Places(ps[j], id, y))
  {
    if ps != [] {
      var n := |ps| - 1;
      var init := ps[..n];
      var g := Grid(ps);
      var g0 := Grid(init);
      GridCell(init, id, y);
      GridStep(ps, id, y);
      if !Places(ps[n], id, y) {
        if id in g0 && y in g0[id].positions {
          var k :| 0 <= k < n && Places(init[k], id, y) && g0[id].positions[y] == init[k].position
            && forall j :: k < j < n ==> !Places(init[j], id, y);
          assert init[k] == ps[k];
          forall j | k < j < |ps| ensures !Places(ps[j], id, y) {
            if j < n {
              assert init[j] == ps[j];
            }
          }
        } else {
          forall k | 0 <= k < |ps| ensures !Places(ps[k], id, y) {
            if k < n {
              assert init[k] == ps[k];
            }
          }
        }
      }
    }
  }

  /** One row changes only its own cell, which then holds the row's position. */
  lemma GridStep(ps: seq<DraftRow>, id: TeamId, y: int)
    requires ps != []
    ensures var n := |ps| - 1; var g := Grid(ps); var g0 := Grid(ps[..n]);
      && (Places(ps[n], id, y) ==> id in g && y in g[id].positions && g[id].positions[y] == ps[n].position)
      && (!Places(ps[n], id, y) ==>
            && (id in g && y in g[id].positions <==> id in g0 && y in g0[id].positions)
            && (id in g0 && y in g0[id].positions ==> g[id].positions[y] == g0[id].positions[y]))
  {
    var p := ps[|ps| - 1];
    if p.team.Some? && p.season.Some? && p.team.value.id == id {
      assert !Places(p, id, y) ==> p.season.value.year != y;
    }
  }

  /** A team has a grid row exactly when it has a row with a season; rows without one are skipped. */
  lemma {:induction false} GridRows(ps: seq<DraftRow>, id: TeamId)
    ensures id in Grid(ps) <==> exists k :: 0 <= k < |ps| && ps[k].team.Some? && ps[k].team.value.id == id && ps[k].season.Some?
    ensures id in Grid(ps) ==> Grid(ps)[id].team.id == id
  {
    if ps != [] {
      var n := |ps| - 1;
      GridRows(ps[..n], id);
      assert forall j :: 0 <= j < n ==> ps[..n][j] == ps[j];
    }
  }

  // ---------------------------------------------------------------------------
  // teamStats (62-88)

  /** `{ team, firstPicks, lastPicks, top5Picks, totalDrafts }`; `avgPosition` is not modelled. */
  datatype PickStats = PickStats(team: DraftTeam, firstPicks: nat, lastPicks: nat, top5Picks: nat, totalDrafts: nat)

  /** `positions.filter(p => p.team?.id === id).map(p => p.draft_position)`, seasons or not. */
  function TeamPositions(ps: seq<DraftRow>, id: TeamId): (r: seq<int>)
    ensures |r| == 0 <==> forall k :: 0 <= k < |ps| ==> !(ps[k].team.Some? && ps[k].team.value.id == id)
  {
    if ps == [] then []
    else
      var rest := TeamPositions(ps[1..], id);
      assert forall k :: 0 <= k < |ps[1..]| ==> ps[1..][k] == ps[k + 1];
      (if ps[0].team.Some? && ps[0].team.value.id == id then [ps[0].position] else []) + rest
  }

  predicate IsFirst(p: int) { p == 1 }
  predicate IsLast(p: int) { p == 14 }
  predicate IsTop5(p: int) { p <= 5 }

  /** The record pushed for `team`, or nothing when it has no rows. */
  function PickStatsFor(ps: seq<DraftRow>, team: DraftTeam): Option<PickStats> {
    var tp := TeamPositions(ps, team.id);
    if |tp| == 0 then None
    else Some(PickStats(team, CountWhere(tp, IsFirst), CountWhere(tp, IsLast), CountWhere(tp, IsTop5), |tp|))
  }

  /** `stats` after the loop has visited `teams`. */
  function StatsOf(ps: seq<DraftRow>, teams: seq<DraftTeam>): seq<PickStats> {
    if teams == [] then []
    else
      var before := StatsOf(ps, teams[..|teams| - 1]);
      var s := PickStatsFor(ps, teams[|teams| - 1]);
      if s.Some? then before + [s.value] else before
  }

  method TeamStats(ps: seq<DraftRow>, teams: seq<DraftTeam>) returns (stats: seq<PickStats>)
    ensures stats == StatsOf(ps, teams)
  {
    stats := [];
    var i := 0;
    while i < |teams|
      invariant 0 <= i <= |teams|
      invariant stats == StatsOf(ps, teams[..i])
    {
      assert teams[..i + 1][..i] == teams[..i];
      var team := teams[i];
      var teamPositions := TeamPositions(ps, team.id);
      i := i + 1;
      if |teamPositions| == 0 {
        continue;
      }
      var firstPicks := CountWhere(teamPositions, IsFirst);
      var lastPicks := CountWhere(teamPositions, IsLast);
      var top5Picks := CountWhere(teamPositions, IsTop5);
      stats := stats + [PickStats(team, firstPicks, lastPicks, top5Picks, |teamPositions|)];
    }
    assert teams[..i] == teams;
  }

  /** First picks are top-5 picks, and no count exceeds the number of drafts. */
  lemma PickStatsBounds(ps: seq<DraftRow>, team: DraftTeam)
    requires PickStatsFor(ps, team).Some?
    ensures var s := PickStatsFor(ps, team).value;
      s.team == team && 1 <= s.totalDrafts
      && s.firstPicks <= s.top5Picks <= s.totalDrafts && s.lastPicks <= s.totalDrafts
      && s.firstPicks + s.lastPicks <= s.totalDrafts
  {
    var tp := TeamPositions(ps, team.id);
    CountWhereMonotone(tp, IsFirst, IsTop5);
    FirstAndLast(tp);
  }

  lemma {:induction false} FirstAndLast(tp: seq<int>)
    ensures CountWhere(tp, IsFirst) + CountWhere(tp, IsLast) <= |tp|
  {
    if tp != [] {
      FirstAndLast(tp[1..]);
    }
  }

  /** Whether some row carries a team with id `id`. */
  predicate HasRow(ps: seq<DraftRow>, id: TeamId) {
    exists k :: 0 <= k < |ps| && ps[k].team.Some? && ps[k].team.value.id == id
  }

  /**
   * Over the teams the rows themselves yield, every team gets a record, in the same order,
   * with at least one draft.
   */
  lemma {:induction false} StatsCoverTeams(ps: seq<DraftRow>, teams: seq<DraftTeam>)
    requires forall i :: 0 <= i < |teams| ==> HasRow(ps, teams[i].id)
    ensures var st := StatsOf(ps, teams);
      |st| == |teams| && forall i :: 0 <= i < |st| ==> st[i].team == teams[i] && st[i].totalDrafts >= 1
  {
    if teams != [] {
      var n := |teams| - 1;
      var init := teams[..n];
      forall i | 0 <= i < n ensures HasRow(ps, init[i].id) {
        assert init[i] == teams[i];
      }
      StatsCoverTeams(ps, init);
      var before := StatsOf(ps, init);
      PickStatsPresent(ps, teams[n]);
      var s := PickStatsFor(ps, teams[n]).value;
      var st := StatsOf(ps, teams);
      assert st == before + [s];
      forall i | 0 <= i < |st| ensures st[i].team == teams[i] && st[i].totalDrafts >= 1 {
        if i < n {
          assert st[i] == before[i];
          assert init[i] == teams[i];
        }
      }
    }
  }

  lemma PickStatsPresent(ps: seq<DraftRow>, team: DraftTeam)
    requires HasRow(ps, team.id)
    ensures PickStatsFor(ps, team).Some?
    ensures PickStatsFor(ps, team).value.team == team && PickStatsFor(ps, team).value.totalDrafts >= 1
  {
    var k :| 0 <= k < |ps| && ps[k].team.Some? && ps[k].team.value.id == team.id;
    assert |TeamPositions(ps, team.id)| != 0;
  }

  /** Composing `teams` and `teamStats`: one record per distinct team id of the rows. */
  lemma TeamStatsSpec(ps: seq<DraftRow>)
    ensures var ts := MapValues(TeamMap(ps)); var st := StatsOf(ps, ts);
      |st| == |ts| && forall i :: 0 <= i < |st| ==> st[i].team == ts[i] && st[i].totalDrafts >= 1
  {
    var ts := MapValues(TeamMap(ps));
    TeamsSpec(ps);
    forall i | 0 <= i < |ts|
      ensures HasRow(ps, ts[i].id)
    {
      var k :| 0 <= k < |ps| && FirstWithId(ps, k, ts[i].id) && ts[i] == ps[k].team.value;
    }
    StatsCoverTeams(ps, ts);
  }
}
