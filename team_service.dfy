/**
 * The lineage copy of the championship counting (src/services/teamService.js,
 * `getTeamsWithStats`): every active team is credited with its own seasons and with the
 * full record of each predecessor the lineage table names for it. Team ids are compared
 * for equality only, so they are modelled as integers; a missing id is `None`.
 * Championships are counted in half-titles.
 */
module TeamService {
  import opened Common
  import Sorting

  type TeamId = int

  /** A row of the `teams` table; the record returned for it keeps this row unchanged. */
  datatype Team = Team(id: TeamId, name: string, isActive: bool)

  /** A row of `seasons` as selected: `champion_id, co_champion_id, runner_up_id, year`. */
  datatype Season = Season(championId: Option<TeamId>, coChampionId: Option<TeamId>, runnerUpId: Option<TeamId>, year: int)

  /** A row of `team_lineage`. */
  datatype Link = Link(predecessorId: TeamId, successorId: TeamId)

  /** `{ ...team, championships, appearances, championshipYears }`. */
  datatype TeamStats = TeamStats(team: Team, championships: int, appearances: int, championshipYears: seq<int>)

  /** The result of one database query: its rows, or its error. */
  datatype Query<T> = Rows(rows: T) | Failed(error: string)

  /** `{ data, error }` as returned to the caller. */
  datatype Response = Response(data: Option<seq<TeamStats>>, error: Option<string>)

  // ---------------------------------------------------------------------------
  // The predecessor map (67-74)

  /** `predecessorMap` after the first `n` lineage rows. */
  function PredecessorMap(ls: seq<Link>): Dict<TeamId, seq<TeamId>> {
    if ls == [] then EmptyDict()
    else
      var l := ls[|ls| - 1];
      Append(PredecessorMap(ls[..|ls| - 1]), l.successorId, l.predecessorId)
  }

  method BuildPredecessorMap(ls: seq<Link>) returns (pm: Dict<TeamId, seq<TeamId>>)
    ensures pm == PredecessorMap(ls)
  {
    pm := EmptyDict();
    var i := 0;
    while i < |ls|
      invariant 0 <= i <= |ls|
      invariant pm == PredecessorMap(ls[..i])
    {
      assert ls[..i + 1][..i] == ls[..i];
      pm := Append(pm, ls[i].successorId, ls[i].predecessorId);
      i := i + 1;
    }
    assert ls[..i] == ls;
  }

  /**
   * The list kept for a successor holds each predecessor as many times as lineage rows
   * link the two, and the successors with a list are exactly those some row names.
   */
  lemma PredecessorMapSpec(ls: seq<Link>, s: TeamId)
    ensures PredecessorMap(ls).Valid()
    ensures forall p :: multiset(Get(PredecessorMap(ls), s, []))[p] == multiset(ls)[Link(p, s)]
    ensures s in PredecessorMap(ls).keys <==> exists p :: Link(p, s) in ls
  {
    PredecessorMapValid(ls);
    forall p ensures multiset(Get(PredecessorMap(ls), s, []))[p] == multiset(ls)[Link(p, s)] {
      PredecessorCount(ls, s, p);
    }
    PredecessorKeys(ls, s);
  }

  lemma {:induction false} PredecessorMapValid(ls: seq<Link>)
    ensures PredecessorMap(ls).Valid()
  {
    if ls != [] {
      PredecessorMapValid(ls[..|ls| - 1]);
    }
  }

  /** The list kept for `s` holds `p` once per row linking `p` to `s`. */
  lemma {:induction false} PredecessorCount(ls: seq<Link>, s: TeamId, p: TeamId)
    ensures multiset(Get(PredecessorMap(ls), s, []))[p] == multiset(ls)[Link(p, s)]
  {
    if ls != [] {
      var n := |ls| - 1;
      var init := ls[..n];
      var l := ls[n];
      PredecessorCount(init, s, p);
      assert ls == init + [l];
      assert multiset(ls)[Link(p, s)] == multiset(init)[Link(p, s)] + multiset{l}[Link(p, s)];
      var before := Get(PredecessorMap(init), s, []);
      if l.successorId == s {
        assert Get(PredecessorMap(ls), s, []) == before + [l.predecessorId];
        assert multiset(before + [l.predecessorId]) == multiset(before) + multiset{l.predecessorId};
      } else {
        assert Get(PredecessorMap(ls), s, []) == before;
      }
    }
  }

  /** A successor has a list exactly when some row names it. */
  lemma {:induction false} PredecessorKeys(ls: seq<Link>, s: TeamId)
    ensures s in PredecessorMap(ls).keys <==> exists p :: Link(p, s) in ls
  {
    PredecessorMapValid(ls);
    if ls != [] {
      var n := |ls| - 1;
      var init := ls[..n];
      var l := ls[n];
      PredecessorKeys(init, s);
      PredecessorMapValid(init);
      assert ls == init + [l];
      if l.successorId == s {
        assert Link(l.predecessorId, s) in ls;
      } else {
        forall p ensures Link(p, s) in ls <==> Link(p, s) in init {
          assert Link(p, s) != l;
        }
      }
    }
  }

  /** Whether some lineage row names `p` as a predecessor of `s`. */
  lemma PredecessorListed(ls: seq<Link>, s: TeamId, p: TeamId)
    ensures p in Get(PredecessorMap(ls), s, []) <==> Link(p, s) in ls
  {
    PredecessorMapSpec(ls, s);
    assert p in Get(PredecessorMap(ls), s, []) <==> multiset(Get(PredecessorMap(ls), s, []))[p] > 0;
  }

  // ---------------------------------------------------------------------------
  // Per-team accumulation (77-116)

  /** The three accumulators `championships`, `appearances` and `championshipYears`. */
  datatype Acc = Acc(halves: int, appearances: int, years: seq<int>)

  const Zero := Acc(0, 0, [])

  /** Whether `id` is the season's champion or co-champion: a year is pushed (98, 102). */
  predicate Titled(s: Season, id: TeamId) {
    s.championId == Some(id) || s.coChampionId == Some(id)
  }

  /**
   * What one season credits to one counted id, the roles tried in the order champion,
   * co-champion, runner-up (91-106): a champion gets a half-title when a co-champion id is
   * present and a whole title otherwise.
   */
  function Credit(s: Season, id: TeamId): Acc {
    if s.championId == Some(id) then Acc(if s.coChampionId.Some? then 1 else 2, 1, [s.year])
    else if s.coChampionId == Some(id) then Acc(1, 1, [s.year])
    else if s.runnerUpId == Some(id) then Acc(0, 1, [])
    else Zero
  }

  function Plus(a: Acc, b: Acc): Acc {
    Acc(a.halves + b.halves, a.appearances + b.appearances, a.years + b.years)
  }

  /** The inner `teamIds.forEach` over the ids `ids` for one season. */
  function IdsFold(acc: Acc, s: Season, ids: seq<TeamId>): Acc {
    if ids == [] then acc else Plus(IdsFold(acc, s, ids[..|ids| - 1]), Credit(s, ids[|ids| - 1]))
  }

  /** The accumulators after the outer `seasons.forEach` has visited `ss`. */
  function SeasonsFold(ss: seq<Season>, ids: seq<TeamId>): Acc {
    if ss == [] then Zero else IdsFold(SeasonsFold(ss[..|ss| - 1], ids), ss[|ss| - 1], ids)
  }

  /** `[team.id, ...(predecessorMap[team.id] || [])]`. */
  function CountedIds(team: Team, pm: Dict<TeamId, seq<TeamId>>): seq<TeamId> {
    [team.id] + Get(pm, team.id, [])
  }

  function Ascending(y: int): int { -y }

  /** The nested loops for one team, then the record with the years sorted ascending. */
  method TeamRecord(team: Team, seasons: seq<Season>, pm: Dict<TeamId, seq<TeamId>>) returns (r: TeamStats)
    ensures var acc := SeasonsFold(seasons, CountedIds(team, pm));
      r == TeamStats(team, acc.halves, acc.appearances, Sorting.SortDesc(acc.years, Ascending))
  {
    var championships := 0;
    var appearances := 0;
    var championshipYears: seq<int> := [];
    var teamIds := [team.id] + Get(pm, team.id, []);
    var i := 0;
    while i < |seasons|
      invariant 0 <= i <= |seasons|
      invariant Acc(championships, appearances, championshipYears) == SeasonsFold(seasons[..i], teamIds)
    {
      assert seasons[..i + 1][..i] == seasons[..i];
      ghost var before := Acc(championships, appearances, championshipYears);
      var season := seasons[i];
      var j := 0;
      while j < |teamIds|
        invariant 0 <= j <= |teamIds|
        invariant Acc(championships, appearances, championshipYears) == IdsFold(before, season, teamIds[..j])
      {
        assert teamIds[..j + 1][..j] == teamIds[..j];
        var teamId := teamIds[j];
        if season.championId == Some(teamId) {
          if season.coChampionId.Some? {
            championships := championships + 1;
          } else {
            championships := championships + 2;
          }
          championshipYears := championshipYears + [season.year];
          appearances := appearances + 1;
        } else if season.coChampionId == Some(teamId) {
          championships := championships + 1;
          championshipYears := championshipYears + [season.year];
          appearances := appearances + 1;
        } else if season.runnerUpId == Some(teamId) {
          appearances := appearances + 1;
        }
        j := j + 1;
      }
      assert teamIds[..j] == teamIds;
      i := i + 1;
    }
    assert seasons[..i] == seasons;
    r := TeamStats(team, championships, appearances, Sorting.SortDesc(championshipYears, Ascending));
  }

  /** The record computed for `team`. */
  function Record(team: Team, seasons: seq<Season>, pm: Dict<TeamId, seq<TeamId>>): TeamStats {
    var acc := SeasonsFold(seasons, CountedIds(team, pm));
    TeamStats(team, acc.halves, acc.appearances, Sorting.SortDesc(acc.years, Ascending))
  }

  /**
   * `getTeamsWithStats`: the first failing query decides the error; a `null` lineage list
   * means no predecessors; otherwise one record per team, in the order of `teams`.
   */
  method GetTeamsWithStats(teams: Query<seq<Team>>, seasons: Query<seq<Season>>, lineage: Query<Option<seq<Link>>>)
    returns (r: Response)
    ensures teams.Failed? ==> r == Response(None, Some(teams.error))
    ensures teams.Rows? && seasons.Failed? ==> r == Response(None, Some(seasons.error))
    ensures teams.Rows? && seasons.Rows? && lineage.Failed? ==> r == Response(None, Some(lineage.error))
    ensures teams.Rows? && seasons.Rows? && lineage.Rows? ==>
      && r.error.None? && r.data.Some?
      && var pm := PredecessorMap(lineage.rows.GetOr([]));
         |r.data.value| == |teams.rows|
         && forall i :: 0 <= i < |teams.rows| ==> r.data.value[i] == Record(teams.rows[i], seasons.rows, pm)
  {
    if teams.Failed? {
      return Response(None, Some(teams.error));
    }
    if seasons.Failed? {
      return Response(None, Some(seasons.error));
    }
    if lineage.Failed? {
      return Response(None, Some(lineage.error));
    }
    var pm := BuildPredecessorMap(lineage.rows.GetOr([]));
    var out: seq<TeamStats> := [];
    var i := 0;
    while i < |teams.rows|
      invariant 0 <= i <= |teams.rows|
      invariant |out| == i
      invariant forall k :: 0 <= k < i ==> out[k] == Record(teams.rows[k], seasons.rows, pm)
    {
      var rec := TeamRecord(teams.rows[i], seasons.rows, pm);
      out := out + [rec];
      i := i + 1;
    }
    r := Response(Some(out), None);
  }

  // ---------------------------------------------------------------------------
  // The record in terms of each counted id's own seasons

  /** What `id` alone collects over the seasons `ss`. */
  function Own(ss: seq<Season>, id: TeamId): Acc {
    if ss == [] then Zero else Plus(Own(ss[..|ss| - 1], id), Credit(ss[|ss| - 1], id))
  }

  /** The sum of the own records of `ids`, id by id. */
  function Lineage(ss: seq<Season>, ids: seq<TeamId>): Acc {
    if ids == [] then Zero else Plus(Lineage(ss, ids[..|ids| - 1]), Own(ss, ids[|ids| - 1]))
  }

  /** Equal counters and the same years, in any order. */
  predicate Same(a: Acc, b: Acc) {
    a.halves == b.halves && a.appearances == b.appearances && multiset(a.years) == multiset(b.years)
  }

  lemma {:induction false} IdsFoldShift(acc: Acc, s: Season, ids: seq<TeamId>)
    ensures Same(IdsFold(acc, s, ids), Plus(acc, IdsFold(Zero, s, ids)))
  {
    if ids != [] {
      IdsFoldShift(acc, s, ids[..|ids| - 1]);
    }
  }

  /** Summing one more season into the id-by-id totals adds that season's inner loop. */
  lemma {:induction false} LineageSnoc(ss: seq<Season>, ids: seq<TeamId>)
    requires ss != []
    ensures Same(Lineage(ss, ids), Plus(Lineage(ss[..|ss| - 1], ids), IdsFold(Zero, ss[|ss| - 1], ids)))
  {
    if ids != [] {
      LineageSnoc(ss, ids[..|ids| - 1]);
    }
  }

  /**
   * Visiting the seasons one by one and, in each, the counted ids one by one gives the
   * same totals as summing each id's own record: credit is never split between ids.
   */
  lemma {:induction false} SeasonsFoldIsLineage(ss: seq<Season>, ids: seq<TeamId>)
    ensures Same(SeasonsFold(ss, ids), Lineage(ss, ids))
  {
    if ss == [] {
      LineageEmpty(ids);
    } else {
      var n := |ss| - 1;
      SeasonsFoldIsLineage(ss[..n], ids);
      IdsFoldShift(SeasonsFold(ss[..n], ids), ss[n], ids);
      LineageSnoc(ss, ids);
    }
  }

  lemma {:induction false} LineageEmpty(ids: seq<TeamId>)
    ensures Same(Lineage([], ids), Zero)
  {
    if ids != [] {
      LineageEmpty(ids[..|ids| - 1]);
    }
  }

  /**
   * The accumulators agree with one another: at most one role per season and id, each
   * title credit at most a whole title and coming with an appearance and a year.
   */
  predicate Consistent(a: Acc) {
    |a.years| <= a.halves <= 2 * |a.years| && |a.years| <= a.appearances
  }

  lemma {:induction false} OwnConsistent(ss: seq<Season>, id: TeamId)
    ensures Consistent(Own(ss, id))
  {
    if ss != [] {
      OwnConsistent(ss[..|ss| - 1], id);
    }
  }

  lemma {:induction false} LineageConsistent(ss: seq<Season>, ids: seq<TeamId>)
    ensures Consistent(Lineage(ss, ids))
  {
    if ids != [] {
      LineageConsistent(ss, ids[..|ids| - 1]);
      OwnConsistent(ss, ids[|ids| - 1]);
    }
  }

  /** The years `id` collects are the years of the seasons in which it is champion or co-champion. */
  lemma {:induction false} OwnYears(ss: seq<Season>, id: TeamId)
    ensures forall y :: y in Own(ss, id).years <==> exists k :: 0 <= k < |ss| && Titled(ss[k], id) && ss[k].year == y
    ensures |Own(ss, id).years| == CountWhere(ss, (s: Season) => Titled(s, id))
  {
    if ss != [] {
      var n := |ss| - 1;
      OwnYears(ss[..n], id);
      FilterSnoc(ss, (s: Season) => Titled(s, id));
      forall y | (exists k :: 0 <= k < |ss| && Titled(ss[k], id) && ss[k].year == y)
        ensures y in Own(ss, id).years
      {
        var k :| 0 <= k < |ss| && Titled(ss[k], id) && ss[k].year == y;
        if k < n {
          assert ss[..n][k] == ss[k];
        }
      }
    }
  }

  /** `big` holds at least the counters of `small` and every one of its years. */
  predicate Covers(big: Acc, small: Acc) {
    big.halves >= small.halves && big.appearances >= small.appearances
    && multiset(small.years) <= multiset(big.years)
  }

  lemma CoversPlus(a: Acc, b: Acc, small: Acc)
    requires b.halves >= 0 && b.appearances >= 0
    requires Covers(a, small)
    ensures Covers(Plus(a, b), small)
  {
    assert multiset(Plus(a, b).years) == multiset(a.years) + multiset(b.years);
  }

  lemma CoversLast(a: Acc, b: Acc)
    requires a.halves >= 0 && a.appearances >= 0
    ensures Covers(Plus(a, b), b)
  {
    assert multiset(Plus(a, b).years) == multiset(a.years) + multiset(b.years);
  }

  /** Every id in the list contributes its whole own record. */
  lemma {:induction false} LineageIncludes(ss: seq<Season>, ids: seq<TeamId>, k: nat)
    requires k < |ids|
    ensures Covers(Lineage(ss, ids), Own(ss, ids[k]))
  {
    var m := |ids| - 1;
    var init := ids[..m];
    assert Lineage(ss, ids) == Plus(Lineage(ss, init), Own(ss, ids[m]));
    if k < m {
      assert init[k] == ids[k];
      LineageIncludes(ss, init, k);
      OwnConsistent(ss, ids[m]);
      CoversPlus(Lineage(ss, init), Own(ss, ids[m]), Own(ss, ids[k]));
      assert Covers(Lineage(ss, ids), Own(ss, ids[k]));
    } else {
      assert k == m;
      LineageNonNegative(ss, init);
      CoversLast(Lineage(ss, init), Own(ss, ids[m]));
      assert Covers(Lineage(ss, ids), Own(ss, ids[m]));
    }
  }

  lemma {:induction false} LineageNonNegative(ss: seq<Season>, ids: seq<TeamId>)
    ensures Lineage(ss, ids).halves >= 0 && Lineage(ss, ids).appearances >= 0
  {
    if ids != [] {
      LineageNonNegative(ss, ids[..|ids| - 1]);
      OwnConsistent(ss, ids[|ids| - 1]);
    }
  }

  /**
   * The record of `team`: its totals are the sums of the own records of the team and of
   * every predecessor the lineage names for it; championships never exceed appearances,
   * one year is listed per title credit, ascending.
   */
  lemma RecordSpec(team: Team, seasons: seq<Season>, ls: seq<Link>)
    ensures var r := Record(team, seasons, PredecessorMap(ls));
      var ids := CountedIds(team, PredecessorMap(ls));
      && r.team == team
      && r.championships == Lineage(seasons, ids).halves
      && r.appearances == Lineage(seasons, ids).appearances
      && multiset(r.championshipYears) == multiset(Lineage(seasons, ids).years)
      && (forall i, j :: 0 <= i < j < |r.championshipYears| ==> r.championshipYears[i] <= r.championshipYears[j])
      && |r.championshipYears| <= r.championships <= 2 * |r.championshipYears|
      && r.championships <= 2 * r.appearances
  {
    var ids := CountedIds(team, PredecessorMap(ls));
    SeasonsFoldIsLineage(seasons, ids);
    LineageConsistent(seasons, ids);
    var ys := Sorting.SortDesc(SeasonsFold(seasons, ids).years, Ascending);
    assert |ys| == |SeasonsFold(seasons, ids).years| == |Lineage(seasons, ids).years| by {
      assert |multiset(ys)| == |multiset(Lineage(seasons, ids).years)|;
    }
    forall i, j | 0 <= i < j < |ys| ensures ys[i] <= ys[j] {
      assert Ascending(ys[i]) >= Ascending(ys[j]);
    }
  }

  /**
   * A predecessor's seasons count in full toward every successor naming it: a defunct team
   * with two successors adds its whole record to each of them.
   */
  lemma FullCredit(team: Team, seasons: seq<Season>, ls: seq<Link>, p: TeamId)
    requires Link(p, team.id) in ls
    ensures var r := Record(team, seasons, PredecessorMap(ls));
      && r.championships >= Own(seasons, p).halves
      && r.appearances >= Own(seasons, p).appearances
      && multiset(Own(seasons, p).years) <= multiset(r.championshipYears)
  {
    var ids := CountedIds(team, PredecessorMap(ls));
    PredecessorListed(ls, team.id, p);
    assert p in ids;
    var k :| 0 <= k < |ids| && ids[k] == p;
    LineageIncludes(seasons, ids, k);
    RecordSpec(team, seasons, ls);
  }

  /** A team with no predecessor row is credited with exactly its own seasons. */
  lemma NoPredecessors(team: Team, seasons: seq<Season>, ls: seq<Link>)
    requires forall l :: l in ls ==> l.successorId != team.id
    ensures var r := Record(team, seasons, PredecessorMap(ls));
      r.championships == Own(seasons, team.id).halves && r.appearances == Own(seasons, team.id).appearances
      && multiset(r.championshipYears) == multiset(Own(seasons, team.id).years)
  {
    var ids := CountedIds(team, PredecessorMap(ls));
    PredecessorMapSpec(ls, team.id);
    assert team.id !in PredecessorMap(ls).keys;
    assert ids == [team.id];
    assert ids[..0] == [];
    RecordSpec(team, seasons, ls);
  }
}
