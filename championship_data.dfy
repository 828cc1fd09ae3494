/**
 * The hard-coded-name copy of the championship aggregation,
 * src/composables/useChampionshipData.js: seasons come from a JSON file with the champion
 * as a display string (two co-champions joined by `&`) and the runner-up as a string.
 * Historical names are mapped to current ones and defunct teams are skipped. Title
 * counts are in half-titles; `currentYear` is a parameter.
 */
module ChampionshipData {
  import opened Common
  import Text
  import Summary
  import Tiering
  import Sorting

  // ---------------------------------------------------------------------------
  // Names

  /** `teamNameMap`: historical name to current name. */
  const TeamNameMap: map<string, string> := map[
    "Real Stoutboogee" := "Stout",
    "SOULTRAIN FC" := "Stout",
    "AQUA BOOGEE" := "Stout",
    "PFUNK sir nose d void of funk" := "Stout",
    "I'm Sorry Bird!" := "Birrrdy",
    "Big Baad Birrrdy" := "Birrrdy",
    "Birrrdy's Revenge" := "Birrrdy",
    "Blank Again" := "Blank",
    "Blankland" := "Blank"
  ]

  /** `defunctTeams`. */
  const DefunctTeams: set<string> := {"Cornball Hustlers", "The Wedding Fund", "Stealth Bombers", "2 Deep"}

  /**
   * `normalizeTeamName`: `teamNameMap[name] || name`. Every mapped name is non-empty, so
   * the `||` falls back exactly for names without an own entry. Names inherited from
   * `Object.prototype` have no entry here. The result never has an entry itself, so
   * normalising twice changes nothing.
   */
  function Normalize(name: string): string {
    if name in TeamNameMap then TeamNameMap[name] else name
  }

  /** A mapped name goes to its entry, any other stays as it is, and the result has no entry of its own. */
  lemma NormalizeSpec(name: string)
    ensures name in TeamNameMap ==> Normalize(name) == TeamNameMap[name]
    ensures name !in TeamNameMap ==> Normalize(name) == name
    ensures Normalize(name) !in TeamNameMap
    ensures Normalize(name) in TeamNameMap.Values || Normalize(name) == name
    ensures Normalize(Normalize(name)) == Normalize(name)
  {
  }

  /** `isDefunct`: membership of `defunctTeams`. */
  predicate IsDefunct(name: string) {
    name in DefunctTeams
  }

  /**
   * Normalising never changes whether a name is defunct (no defunct name has an entry and
   * no current name is defunct), so testing the raw name, as the source does, is the same
   * as testing the normalised one.
   */
  lemma DefunctIgnoresNormalize(name: string)
    ensures IsDefunct(Normalize(name)) <==> IsDefunct(name)
    ensures IsDefunct(name) ==> Normalize(name) == name
  {
    if name in TeamNameMap {
      assert TeamNameMap[name] in {"Stout", "Birrrdy", "Blank"};
    }
  }

  /** The four aliases of Stout. */
  lemma StoutAliases()
    ensures Normalize("Real Stoutboogee") == "Stout" && Normalize("SOULTRAIN FC") == "Stout"
    ensures Normalize("AQUA BOOGEE") == "Stout" && Normalize("PFUNK sir nose d void of funk") == "Stout"
  {
  }

  /** The three aliases of Birrrdy and the two of Blank. */
  lemma BirrrdyAndBlankAliases()
    ensures Normalize("I'm Sorry Bird!") == "Birrrdy" && Normalize("Big Baad Birrrdy") == "Birrrdy"
    ensures Normalize("Birrrdy's Revenge") == "Birrrdy"
    ensures Normalize("Blank Again") == "Blank" && Normalize("Blankland") == "Blank"
  {
  }

  /** The aliases map onto exactly three current names. */
  lemma NormalizeTable()
    ensures TeamNameMap.Values == {"Stout", "Birrrdy", "Blank"}
  {
    assert TeamNameMap.Values == {"Stout", "Birrrdy", "Blank"} by {
      assert TeamNameMap["Real Stoutboogee"] == "Stout";
      assert TeamNameMap["I'm Sorry Bird!"] == "Birrrdy";
      assert TeamNameMap["Blankland"] == "Blank";
    }
  }

  // ---------------------------------------------------------------------------
  // Seasons and the counting step

  /** A season of the JSON file: `year`, `champion` string and an optional `runnerUp` string. */
  datatype ChampSeason = ChampSeason(year: int, champion: string, runnerUp: Option<string>)

  /** The two counters the loops fill. */
  datatype Counts = Counts(champ: Dict<string, int>, apps: Dict<string, int>)

  function NoCounts(): Counts {
    Counts(EmptyDict(), EmptyDict())
  }

  /** `s.champion.includes('&')`. */
  predicate Shared(s: ChampSeason) {
    Text.Contains(s.champion, '&')
  }

  /** The pieces of `s.champion.split('&')`. */
  function Parts(s: ChampSeason): seq<string> {
    Text.Split(s.champion, '&')
  }

  /** `s.runnerUp && s.runnerUp !== '------' && !isDefunct(s.runnerUp)`. */
  predicate RunnerCounts(s: ChampSeason) {
    s.runnerUp.Some? && s.runnerUp.value != "" && s.runnerUp.value != "------" && !IsDefunct(s.runnerUp.value)
  }

  /** One piece of a shared champion: skipped when its trimmed name is defunct, else half a title and an appearance. */
  function CreditPart(c: Counts, part: string): Counts {
    var original := Text.Trim(part);
    if IsDefunct(original) then c
    else
      var name := Normalize(original);
      Counts(Bump(c.champ, name, 1), Bump(c.apps, name, 1))
  }

  /** `s.champion.split('&').forEach(...)` over the pieces `parts`. */
  function CreditParts(c: Counts, parts: seq<string>): Counts {
    if parts == [] then c else CreditPart(CreditParts(c, parts[..|parts| - 1]), parts[|parts| - 1])
  }

  /** The runner-up's appearance. */
  function CreditRunner(c: Counts, s: ChampSeason): Counts {
    if RunnerCounts(s) then Counts(c.champ, Bump(c.apps, Normalize(s.runnerUp.value), 1)) else c
  }

  /** The champion's credit: the `&` pieces, or one title and an appearance for a sole champion that is not defunct. */
  function ChampionStep(c: Counts, s: ChampSeason): Counts {
    if Shared(s) then CreditParts(c, Parts(s))
    else if IsDefunct(s.champion) then c
    else Counts(Bump(c.champ, Normalize(s.champion), 2), Bump(c.apps, Normalize(s.champion), 1))
  }

  /** One pass of the `stats` loop (63-88): the champion's credit, then the runner-up's, always. */
  function StatsStep(c: Counts, s: ChampSeason): Counts {
    CreditRunner(ChampionStep(c, s), s)
  }

  /** One pass of the `championshipTiers` loop (148-170): a defunct sole champion ends the pass, runner-up included. */
  function TiersStep(c: Counts, s: ChampSeason): Counts {
    if !Shared(s) && IsDefunct(s.champion) then c
    else CreditRunner(ChampionStep(c, s), s)
  }

  function StatsCounts(ss: seq<ChampSeason>): Counts {
    if ss == [] then NoCounts() else StatsStep(StatsCounts(ss[..|ss| - 1]), ss[|ss| - 1])
  }

  function TiersCounts(ss: seq<ChampSeason>): Counts {
    if ss == [] then NoCounts() else TiersStep(TiersCounts(ss[..|ss| - 1]), ss[|ss| - 1])
  }

  /** `lastWinYear` after the pieces `parts` of a shared champion of `year`. */
  function LastWinParts(lw: Dict<string, int>, parts: seq<string>, year: int): Dict<string, int> {
    if parts == [] then lw
    else
      var prev := LastWinParts(lw, parts[..|parts| - 1], year);
      var original := Text.Trim(parts[|parts| - 1]);
      if IsDefunct(original) then prev else BumpMax(prev, Normalize(original), year)
  }

  /** One pass of the `lastWinYear` loop (101-115). */
  function LastWinStep(lw: Dict<string, int>, s: ChampSeason): Dict<string, int> {
    if Shared(s) then LastWinParts(lw, Parts(s), s.year)
    else if IsDefunct(s.champion) then lw
    else BumpMax(lw, Normalize(s.champion), s.year)
  }

  function LastWins(ss: seq<ChampSeason>): Dict<string, int> {
    if ss == [] then EmptyDict() else LastWinStep(LastWins(ss[..|ss| - 1]), ss[|ss| - 1])
  }

  // ---------------------------------------------------------------------------
  // The two computeds

  datatype Leaders = Leaders(teams: seq<string>, count: Option<int>)
  datatype Titleless = Titleless(count: int, teams: seq<string>)
  datatype ChampStats = ChampStats(
    totalSeasons: int,
    uniqueChampions: int,
    mostTitles: Leaders,
    longestDrought: Option<Summary.Drought>,
    noTitles: Titleless)

  /**
   * The returned object (90-138). `Math.max` over no values is `-Infinity`, here `None`,
   * and then no count equals it.
   */
  function Summarize(c: Counts, lw: Dict<string, int>, totalSeasons: int, currentYear: int): ChampStats {
    var maxCount := Summary.MaxOf(Summary.Values(c.champ));
    var most := if maxCount.Some? then Summary.TeamsWith(c.champ, maxCount.value) else [];
    var none := Summary.NoTitles(c.apps, c.champ);
    ChampStats(
      totalSeasons,
      |c.champ.keys|,
      Leaders(most, maxCount),
      Summary.LongestDrought(lw, currentYear),
      Titleless(|none|, none))
  }

  /** The champion's credit in the `stats` loop: a nested loop over the `&` pieces, or the whole string. */
  method CreditChampion(s: ChampSeason, champ0: Dict<string, int>, apps0: Dict<string, int>)
    returns (champ: Dict<string, int>, apps: Dict<string, int>)
    ensures Shared(s) ==> Counts(champ, apps) == CreditParts(Counts(champ0, apps0), Parts(s))
    ensures !Shared(s) && IsDefunct(s.champion) ==> champ == champ0 && apps == apps0
    ensures !Shared(s) && !IsDefunct(s.champion) ==>
      champ == Bump(champ0, Normalize(s.champion), 2) && apps == Bump(apps0, Normalize(s.champion), 1)
  {
    champ, apps := champ0, apps0;
    if '&' in s.champion {
      champ, apps := CreditPieces(Text.Split(s.champion, '&'), champ0, apps0);
    } else {
      var name := Normalize(s.champion);
      if !IsDefunct(s.champion) {
        champ := Bump(champ, name, 2);
        apps := Bump(apps, name, 1);
      }
    }
  }

  /** `s.champion.split('&').forEach(...)`: half a title and an appearance per piece that is not defunct. */
  method CreditPieces(parts: seq<string>, champ0: Dict<string, int>, apps0: Dict<string, int>)
    returns (champ: Dict<string, int>, apps: Dict<string, int>)
    ensures Counts(champ, apps) == CreditParts(Counts(champ0, apps0), parts)
  {
    champ, apps := champ0, apps0;
    var j := 0;
    while j < |parts|
      invariant 0 <= j <= |parts|
      invariant Counts(champ, apps) == CreditParts(Counts(champ0, apps0), parts[..j])
    {
      assert parts[..j + 1][..j] == parts[..j];
      assert CreditParts(Counts(champ0, apps0), parts[..j + 1]) == CreditPart(CreditParts(Counts(champ0, apps0), parts[..j]), parts[j]);
      var team := parts[j];
      var name := Normalize(Text.Trim(team));
      if !IsDefunct(Text.Trim(team)) {
        champ := Bump(champ, name, 1);
        apps := Bump(apps, name, 1);
      }
      j := j + 1;
    }
    assert parts[..j] == parts;
  }

  /** The `lastWinYear` credit of one season (101-115). */
  method CreditLastWin(s: ChampSeason, lw0: Dict<string, int>) returns (lw: Dict<string, int>)
    ensures lw == LastWinStep(lw0, s)
  {
    lw := lw0;
    if '&' in s.champion {
      lw := LastWinPieces(Text.Split(s.champion, '&'), s.year, lw0);
    } else {
      var name := Normalize(s.champion);
      if !IsDefunct(s.champion) {
        lw := BumpMax(lw, name, s.year);
      }
    }
  }

  /** The pieces' loop of the `lastWinYear` pass: each piece that is not defunct won in `year`. */
  method LastWinPieces(parts: seq<string>, year: int, lw0: Dict<string, int>) returns (lw: Dict<string, int>)
    ensures lw == LastWinParts(lw0, parts, year)
  {
    lw := lw0;
    var j := 0;
    while j < |parts|
      invariant 0 <= j <= |parts|
      invariant lw == LastWinParts(lw0, parts[..j], year)
    {
      assert parts[..j + 1][..j] == parts[..j];
      var team := parts[j];
      var name := Normalize(Text.Trim(team));
      if !IsDefunct(Text.Trim(team)) {
        lw := BumpMax(lw, name, year);
      }
      j := j + 1;
    }
    assert parts[..j] == parts;
  }

  /** The `stats` computed: `null` before the data has loaded. */
  method Stats(seasons: Option<seq<ChampSeason>>, currentYear: int) returns (r: Option<ChampStats>)
    ensures seasons.None? ==> r.None?
    ensures seasons.Some? ==>
      r == Some(Summarize(StatsCounts(seasons.value), LastWins(seasons.value), |seasons.value|, currentYear))
  {
    if seasons.None? {
      return None;
    }
    var champ, apps := CountStats(seasons.value);
    var lastWin := CountLastWins(seasons.value);
    r := Some(Summarize(Counts(champ, apps), lastWin, |seasons.value|, currentYear));
  }

  /** The counting loop of `stats` (63-88). */
  method CountStats(ss: seq<ChampSeason>) returns (champ: Dict<string, int>, apps: Dict<string, int>)
    ensures Counts(champ, apps) == StatsCounts(ss)
  {
    champ, apps := EmptyDict(), EmptyDict();
    var i := 0;
    while i < |ss|
      invariant 0 <= i <= |ss|
      invariant Counts(champ, apps) == StatsCounts(ss[..i])
    {
      assert ss[..i + 1][..i] == ss[..i];
      assert StatsCounts(ss[..i + 1]) == StatsStep(StatsCounts(ss[..i]), ss[i]);
      champ, apps := CountStatsSeason(ss[i], champ, apps);
      i := i + 1;
    }
    assert ss[..i] == ss;
  }

  /** The `forEach` callback of the stats loop: the champion's credit, then the runner-up's. */
  method CountStatsSeason(s: ChampSeason, champ0: Dict<string, int>, apps0: Dict<string, int>)
    returns (champ: Dict<string, int>, apps: Dict<string, int>)
    ensures Counts(champ, apps) == StatsStep(Counts(champ0, apps0), s)
  {
    champ, apps := CreditChampion(s, champ0, apps0);
    if s.runnerUp.Some? && s.runnerUp.value != "" && s.runnerUp.value != "------" {
      var name := Normalize(s.runnerUp.value);
      if !IsDefunct(s.runnerUp.value) {
        apps := Bump(apps, name, 1);
      }
    }
  }

  /** The `lastWinYear` loop of `stats` (100-115). */
  method CountLastWins(ss: seq<ChampSeason>) returns (lastWin: Dict<string, int>)
    ensures lastWin == LastWins(ss)
  {
    lastWin := EmptyDict();
    var i := 0;
    while i < |ss|
      invariant 0 <= i <= |ss|
      invariant lastWin == LastWins(ss[..i])
    {
      assert ss[..i + 1][..i] == ss[..i];
      assert LastWins(ss[..i + 1]) == LastWinStep(LastWins(ss[..i]), ss[i]);
      lastWin := CreditLastWin(ss[i], lastWin);
      i := i + 1;
    }
    assert ss[..i] == ss;
  }

  /** The `championshipTiers` computed: `[]` before the data has loaded. */
  method ChampionshipTiers(seasons: Option<seq<ChampSeason>>) returns (tiers: seq<Tiering.Tier>)
    ensures seasons.None? ==> tiers == []
    ensures seasons.Some? ==> tiers == Tiering.Tiers(TiersCounts(seasons.value).champ, TiersCounts(seasons.value).apps)
  {
    if seasons.None? {
      return [];
    }
    var champ, apps := CountTiers(seasons.value);
    tiers := Tiering.GroupTiers(champ, apps);
  }

  /** The counting loop of `championshipTiers` (148-170). */
  method CountTiers(ss: seq<ChampSeason>) returns (champ: Dict<string, int>, apps: Dict<string, int>)
    ensures Counts(champ, apps) == TiersCounts(ss)
  {
    champ, apps := EmptyDict(), EmptyDict();
    var i := 0;
    while i < |ss|
      invariant 0 <= i <= |ss|
      invariant Counts(champ, apps) == TiersCounts(ss[..i])
    {
      assert ss[..i + 1][..i] == ss[..i];
      assert TiersCounts(ss[..i + 1]) == TiersStep(TiersCounts(ss[..i]), ss[i]);
      champ, apps := CountTierSeason(ss[i], champ, apps);
      i := i + 1;
    }
    assert ss[..i] == ss;
  }

  /** The `forEach` callback of the tiers loop, whose `return` on a defunct sole champion ends the pass. */
  method CountTierSeason(s: ChampSeason, champ0: Dict<string, int>, apps0: Dict<string, int>)
    returns (champ: Dict<string, int>, apps: Dict<string, int>)
    ensures Counts(champ, apps) == TiersStep(Counts(champ0, apps0), s)
  {
    if !('&' in s.champion) && IsDefunct(s.champion) {
      return champ0, apps0;
    }
    champ, apps := CreditChampion(s, champ0, apps0);
    if s.runnerUp.Some? && s.runnerUp.value != "" && s.runnerUp.value != "------" && !IsDefunct(s.runnerUp.value) {
      var name := Normalize(s.runnerUp.value);
      apps := Bump(apps, name, 1);
    }
  }

  // ---------------------------------------------------------------------------
  // The per-name meaning of the counters

  /** Whether piece `part` of a shared champion credits `name`. */
  predicate PartCredits(part: string, name: string) {
    !IsDefunct(Text.Trim(part)) && Normalize(Text.Trim(part)) == name
  }

  /** Number of pieces in `parts` that credit `name`. */
  function PartHits(parts: seq<string>, name: string): nat {
    if parts == [] then 0 else PartHits(parts[..|parts| - 1], name) + (if PartCredits(parts[|parts| - 1], name) then 1 else 0)
  }

  /** Half-titles (and champion appearances) season `s` credits to `name` as champion. */
  function ChampionHits(s: ChampSeason, name: string): nat {
    if Shared(s) then PartHits(Parts(s), name)
    else if !IsDefunct(s.champion) && Normalize(s.champion) == name then 1
    else 0
  }

  /** Half-titles season `s` credits to `name`: one per crediting piece, or two for a sole champion. */
  function HalvesFor(s: ChampSeason, name: string): nat {
    if Shared(s) then ChampionHits(s, name) else 2 * ChampionHits(s, name)
  }

  /** Appearances season `s` credits to `name` in the `stats` loop. */
  function AppearancesFor(s: ChampSeason, name: string): nat {
    ChampionHits(s, name) + (if RunnerCounts(s) && Normalize(s.runnerUp.value) == name then 1 else 0)
  }

  function TotalHalves(ss: seq<ChampSeason>, name: string): nat {
    if ss == [] then 0 else TotalHalves(ss[..|ss| - 1], name) + HalvesFor(ss[|ss| - 1], name)
  }

  function TotalAppearances(ss: seq<ChampSeason>, name: string): nat {
    if ss == [] then 0 else TotalAppearances(ss[..|ss| - 1], name) + AppearancesFor(ss[|ss| - 1], name)
  }

  /** The `&` loop adds one half-title and one appearance per crediting piece, to `name` and to no other key. */
  lemma {:induction false} CreditPartsClosedForm(c: Counts, parts: seq<string>, name: string)
    requires c.champ.Valid() && c.apps.Valid()
    ensures var r := CreditParts(c, parts);
      && r.champ.Valid() && r.apps.Valid()
      && Get(r.champ, name, 0) == Get(c.champ, name, 0) + PartHits(parts, name)
      && Get(r.apps, name, 0) == Get(c.apps, name, 0) + PartHits(parts, name)
      && (name in r.champ.vals <==> name in c.champ.vals || PartHits(parts, name) > 0)
      && (name in r.apps.vals <==> name in c.apps.vals || PartHits(parts, name) > 0)
  {
    if parts != [] {
      CreditPartsClosedForm(c, parts[..|parts| - 1], name);
    }
  }

  /**
   * `champCounts[name]` and `appearances[name]` of the `stats` loop are the sums of the
   * per-season credits, and `name` is a key exactly when its sum is positive.
   */
  lemma {:induction false} StatsClosedForm(ss: seq<ChampSeason>, name: string)
    ensures var c := StatsCounts(ss);
      && c.champ.Valid() && c.apps.Valid()
      && Get(c.champ, name, 0) == TotalHalves(ss, name)
      && Get(c.apps, name, 0) == TotalAppearances(ss, name)
      && (name in c.champ.vals <==> TotalHalves(ss, name) > 0)
      && (name in c.apps.vals <==> TotalAppearances(ss, name) > 0)
  {
    if ss != [] {
      var n := |ss| - 1;
      StatsClosedForm(ss[..n], name);
      StatsStepCredits(StatsCounts(ss[..n]), ss[n], name);
    }
  }

  /** One pass of the `stats` loop adds the season's credits to `name`. */
  lemma StatsStepCredits(c: Counts, s: ChampSeason, name: string)
    requires c.champ.Valid() && c.apps.Valid()
    ensures var r := StatsStep(c, s);
      && r.champ.Valid() && r.apps.Valid()
      && Get(r.champ, name, 0) == Get(c.champ, name, 0) + HalvesFor(s, name)
      && Get(r.apps, name, 0) == Get(c.apps, name, 0) + AppearancesFor(s, name)
      && (name in r.champ.vals <==> name in c.champ.vals || HalvesFor(s, name) > 0)
      && (name in r.apps.vals <==> name in c.apps.vals || AppearancesFor(s, name) > 0)
  {
    ChampionStepCredits(c, s, name);
  }

  lemma ChampionStepCredits(c: Counts, s: ChampSeason, name: string)
    requires c.champ.Valid() && c.apps.Valid()
    ensures var r := ChampionStep(c, s);
      && r.champ.Valid() && r.apps.Valid()
      && Get(r.champ, name, 0) == Get(c.champ, name, 0) + HalvesFor(s, name)
      && Get(r.apps, name, 0) == Get(c.apps, name, 0) + ChampionHits(s, name)
      && (name in r.champ.vals <==> name in c.champ.vals || HalvesFor(s, name) > 0)
      && (name in r.apps.vals <==> name in c.apps.vals || ChampionHits(s, name) > 0)
  {
    if Shared(s) {
      CreditPartsClosedForm(c, Parts(s), name);
    }
  }

  /** The `stats` loop keeps every key valid for every name at once. */
  lemma StatsValid(ss: seq<ChampSeason>)
    ensures StatsCounts(ss).champ.Valid() && StatsCounts(ss).apps.Valid()
  {
    StatsClosedForm(ss, "");
  }

  /** A season the tiers loop counts at all: one whose champion is shared or not defunct. */
  predicate TiersCounted(s: ChampSeason) {
    Shared(s) || !IsDefunct(s.champion)
  }

  /**
   * The tiers loop counts exactly like the stats loop run on the seasons whose sole
   * champion is not defunct: such a season contributes nothing, runner-up included.
   */
  lemma {:induction false} TiersCountsFiltered(ss: seq<ChampSeason>)
    ensures TiersCounts(ss) == StatsCounts(Filter(ss, TiersCounted))
  {
    if ss != [] {
      var n := |ss| - 1;
      var last := ss[n];
      TiersCountsFiltered(ss[..n]);
      var f := Filter(ss[..n], TiersCounted);
      var prev := StatsCounts(f);
      assert TiersCounts(ss) == TiersStep(prev, last);
      FilterSnoc(ss, TiersCounted);
      if TiersCounted(last) {
        assert Filter(ss, TiersCounted) == f + [last];
        StatsCountsSnoc(f, last);
      } else {
        assert Filter(ss, TiersCounted) == f;
      }
    }
  }

  lemma StatsCountsSnoc(ss: seq<ChampSeason>, s: ChampSeason)
    ensures StatsCounts(ss + [s]) == StatsStep(StatsCounts(ss), s)
  {
    assert (ss + [s])[..|ss|] == ss;
  }

  /** A season whose sole champion is defunct leaves the tier counters as they were, runner-up included. */
  lemma DefunctSoleSkipped(ss: seq<ChampSeason>, s: ChampSeason)
    requires !Shared(s) && IsDefunct(s.champion)
    ensures TiersCounts(ss + [s]) == TiersCounts(ss)
    ensures StatsCounts(ss + [s]) == CreditRunner(StatsCounts(ss), s)
  {
    assert (ss + [s])[..|ss|] == ss;
  }

  // ---------------------------------------------------------------------------
  // Last win years

  /** The latest year `name` was credited as champion, floored at the 0 `lastWinYear[name] || 0` starts from. */
  function LastWinOf(ss: seq<ChampSeason>, name: string): int {
    if ss == [] then 0
    else
      var y := LastWinOf(ss[..|ss| - 1], name);
      var s := ss[|ss| - 1];
      if ChampionHits(s, name) > 0 && s.year > y then s.year else y
  }

  lemma {:induction false} LastWinPartsClosedForm(lw: Dict<string, int>, parts: seq<string>, year: int, name: string)
    requires lw.Valid()
    ensures var r := LastWinParts(lw, parts, year);
      && r.Valid()
      && Get(r, name, 0) == (if PartHits(parts, name) > 0 && year > Get(lw, name, 0) then year else Get(lw, name, 0))
      && (name in r.vals <==> name in lw.vals || PartHits(parts, name) > 0)
  {
    if parts != [] {
      LastWinPartsClosedForm(lw, parts[..|parts| - 1], year, name);
    }
  }

  /**
   * `lastWinYear[name]` is the latest year `name` was credited as champion, and `name` is
   * a key exactly when it was credited at all.
   */
  lemma {:induction false} LastWinsClosedForm(ss: seq<ChampSeason>, name: string)
    ensures LastWins(ss).Valid()
    ensures Get(LastWins(ss), name, 0) == LastWinOf(ss, name)
    ensures name in LastWins(ss).vals <==> TotalHalves(ss, name) > 0
  {
    if ss != [] {
      var n := |ss| - 1;
      LastWinsClosedForm(ss[..n], name);
      if Shared(ss[n]) {
        LastWinPartsClosedForm(LastWins(ss[..n]), Parts(ss[n]), ss[n].year, name);
      }
    }
  }

  // ---------------------------------------------------------------------------
  // The statistics in terms of the seasons

  /** The names some season credits as champion. */
  function Champions(ss: seq<ChampSeason>): set<string> {
    (set i, p | 0 <= i < |ss| && Shared(ss[i]) && p in Parts(ss[i]) && !IsDefunct(Text.Trim(p)) :: Normalize(Text.Trim(p)))
    + (set i | 0 <= i < |ss| && !Shared(ss[i]) && !IsDefunct(ss[i].champion) :: Normalize(ss[i].champion))
  }

  /** A crediting piece makes the piece count positive. */
  lemma {:induction false} PartHitsFrom(parts: seq<string>, name: string, k: int)
    requires 0 <= k < |parts| && PartCredits(parts[k], name)
    ensures PartHits(parts, name) > 0
  {
    var n := |parts| - 1;
    var init := parts[..n];
    assert PartHits(parts, name) == PartHits(init, name) + (if PartCredits(parts[n], name) then 1 else 0);
    if k < n {
      assert init[k] == parts[k];
      PartHitsFrom(init, name, k);
    }
  }

  /** A positive piece count has a crediting piece. */
  lemma {:induction false} PartHitsPick(parts: seq<string>, name: string) returns (k: int)
    requires PartHits(parts, name) > 0
    ensures 0 <= k < |parts| && PartCredits(parts[k], name)
  {
    var n := |parts| - 1;
    if PartCredits(parts[n], name) {
      k := n;
    } else {
      k := PartHitsPick(parts[..n], name);
    }
  }

  /** A season crediting `name` makes its half-title total positive. */
  lemma {:induction false} TotalHalvesFrom(ss: seq<ChampSeason>, name: string, i: int)
    requires 0 <= i < |ss| && HalvesFor(ss[i], name) > 0
    ensures TotalHalves(ss, name) > 0
  {
    var n := |ss| - 1;
    var init := ss[..n];
    var h := HalvesFor(ss[i], name);
    assert TotalHalves(ss, name) == TotalHalves(init, name) + HalvesFor(ss[n], name);
    if i < n {
      assert init[i] == ss[i];
      assert HalvesFor(init[i], name) == h;
      TotalHalvesFrom(init, name, i);
    }
  }

  /** A positive half-title total has a season crediting `name`. */
  lemma {:induction false} TotalHalvesPick(ss: seq<ChampSeason>, name: string) returns (i: int)
    requires TotalHalves(ss, name) > 0
    ensures 0 <= i < |ss| && ChampionHits(ss[i], name) > 0
  {
    var n := |ss| - 1;
    if HalvesFor(ss[n], name) > 0 {
      i := n;
    } else {
      i := TotalHalvesPick(ss[..n], name);
    }
  }

  /** A name is among the champions exactly when its half-title total is positive. */
  lemma ChampionsArePositive(ss: seq<ChampSeason>, name: string)
    ensures name in Champions(ss) <==> TotalHalves(ss, name) > 0
  {
    if TotalHalves(ss, name) > 0 {
      PositiveIsChampion(ss, name);
    }
    if name in Champions(ss) {
      ChampionIsPositive(ss, name);
    }
  }

  lemma PositiveIsChampion(ss: seq<ChampSeason>, name: string)
    requires TotalHalves(ss, name) > 0
    ensures name in Champions(ss)
  {
    var i := TotalHalvesPick(ss, name);
    if Shared(ss[i]) {
      var k := PartHitsPick(Parts(ss[i]), name);
      var p := Parts(ss[i])[k];
      assert name == Normalize(Text.Trim(p));
    }
  }

  lemma ChampionIsPositive(ss: seq<ChampSeason>, name: string)
    requires name in Champions(ss)
    ensures TotalHalves(ss, name) > 0
  {
    var i: int;
    if exists i, p :: 0 <= i < |ss| && Shared(ss[i]) && p in Parts(ss[i]) && !IsDefunct(Text.Trim(p)) && name == Normalize(Text.Trim(p)) {
      var p;
      i, p :| 0 <= i < |ss| && Shared(ss[i]) && p in Parts(ss[i]) && !IsDefunct(Text.Trim(p)) && name == Normalize(Text.Trim(p));
      var k :| 0 <= k < |Parts(ss[i])| && Parts(ss[i])[k] == p;
      PartHitsFrom(Parts(ss[i]), name, k);
    } else {
      i :| 0 <= i < |ss| && !Shared(ss[i]) && !IsDefunct(ss[i].champion) && name == Normalize(ss[i].champion);
    }
    assert HalvesFor(ss[i], name) > 0;
    TotalHalvesFrom(ss, name, i);
  }

  /** `uniqueChampions` is the number of distinct credited champion names. */
  lemma UniqueChampionsSpec(ss: seq<ChampSeason>, currentYear: int)
    ensures Summarize(StatsCounts(ss), LastWins(ss), |ss|, currentYear).uniqueChampions == |Champions(ss)|
  {
    ChampKeysAreChampions(ss);
  }

  /** The keys of `champCounts` are the credited champions, each once. */
  lemma ChampKeysAreChampions(ss: seq<ChampSeason>)
    ensures |StatsCounts(ss).champ.keys| == |Champions(ss)|
  {
    var c := StatsCounts(ss);
    StatsValid(ss);
    forall name ensures name in c.champ.keys <==> name in Champions(ss) {
      StatsClosedForm(ss, name);
      ChampionsArePositive(ss, name);
    }
    DistinctCard(c.champ.keys);
    assert (set x | x in c.champ.keys) == Champions(ss);
  }

  /**
   * `mostTitles`: without any credited champion the count is `-Infinity` (`None`) and no
   * team is listed; otherwise the count bounds every total and the listed teams are
   * exactly those whose total equals it.
   */
  lemma LeadersSpec(ss: seq<ChampSeason>, currentYear: int)
    ensures var r := Summarize(StatsCounts(ss), LastWins(ss), |ss|, currentYear).mostTitles;
      && (r.count.None? <==> forall name :: TotalHalves(ss, name) == 0)
      && (r.count.None? ==> r.teams == [])
      && (r.count.Some? ==>
            && r.count.value > 0
            && (forall name :: TotalHalves(ss, name) <= r.count.value)
            && (exists name :: TotalHalves(ss, name) == r.count.value)
            && (forall name :: name in r.teams <==> TotalHalves(ss, name) == r.count.value))
  {
    var c := StatsCounts(ss);
    var m := Summary.MaxOf(Summary.Values(c.champ));
    if m.Some? {
      MaxTitlesAttained(ss);
      MaxTitlesBound(ss);
      MaxTitlesTeams(ss);
    } else {
      NoMaxNoTitles(ss);
    }
  }

  /** Without any value there is no credited title at all. */
  lemma NoMaxNoTitles(ss: seq<ChampSeason>)
    requires Summary.MaxOf(Summary.Values(StatsCounts(ss).champ)).None?
    ensures forall name :: TotalHalves(ss, name) == 0
  {
    forall name ensures TotalHalves(ss, name) == 0 {
      StatsClosedForm(ss, name);
    }
  }

  /** The largest value is some name's positive title total. */
  lemma MaxTitlesAttained(ss: seq<ChampSeason>)
    requires Summary.MaxOf(Summary.Values(StatsCounts(ss).champ)).Some?
    ensures var m := Summary.MaxOf(Summary.Values(StatsCounts(ss).champ)).value;
      m > 0 && exists name :: TotalHalves(ss, name) == m
  {
    var c := StatsCounts(ss);
    var vs := Summary.Values(c.champ);
    var m := Summary.MaxOf(vs).value;
    StatsValid(ss);
    var k :| 0 <= k < |vs| && vs[k] == m;
    var name := c.champ.keys[k];
    StatsClosedForm(ss, name);
    assert TotalHalves(ss, name) == m;
  }

  /** The largest value bounds every title total. */
  lemma MaxTitlesBound(ss: seq<ChampSeason>)
    requires Summary.MaxOf(Summary.Values(StatsCounts(ss).champ)).Some?
    ensures forall name :: TotalHalves(ss, name) <= Summary.MaxOf(Summary.Values(StatsCounts(ss).champ)).value
  {
    forall name ensures TotalHalves(ss, name) <= Summary.MaxOf(Summary.Values(StatsCounts(ss).champ)).value {
      MaxTitlesBoundFor(ss, name);
    }
  }

  lemma MaxTitlesBoundFor(ss: seq<ChampSeason>, name: string)
    requires Summary.MaxOf(Summary.Values(StatsCounts(ss).champ)).Some?
    ensures TotalHalves(ss, name) <= Summary.MaxOf(Summary.Values(StatsCounts(ss).champ)).value
  {
    var c := StatsCounts(ss);
    var vs := Summary.Values(c.champ);
    MaxTitlesAttained(ss);
    StatsValid(ss);
    StatsClosedForm(ss, name);
    if TotalHalves(ss, name) > 0 {
      assert name in c.champ.keys;
      var k :| 0 <= k < |c.champ.keys| && c.champ.keys[k] == name;
      assert vs[k] == Get(c.champ, name, 0);
    }
  }

  /** The listed teams are exactly the names whose total is the largest value. */
  lemma MaxTitlesTeams(ss: seq<ChampSeason>)
    requires Summary.MaxOf(Summary.Values(StatsCounts(ss).champ)).Some?
    ensures var m := Summary.MaxOf(Summary.Values(StatsCounts(ss).champ)).value;
      m > 0 && forall name :: name in Summary.TeamsWith(StatsCounts(ss).champ, m) <==> TotalHalves(ss, name) == m
  {
    var c := StatsCounts(ss);
    var m := Summary.MaxOf(Summary.Values(c.champ)).value;
    StatsValid(ss);
    MaxTitlesAttained(ss);
    Summary.TeamsWithExact(c.champ, m);
    forall name ensures name in Summary.TeamsWith(c.champ, m) <==> TotalHalves(ss, name) == m {
      StatsClosedForm(ss, name);
    }
  }

  /** `noTitles`: exactly the names with an appearance and no credited title, each listed once, with their number. */
  lemma TitlelessSpec(ss: seq<ChampSeason>, currentYear: int)
    ensures var r := Summarize(StatsCounts(ss), LastWins(ss), |ss|, currentYear).noTitles;
      && (forall name :: name in r.teams <==> TotalAppearances(ss, name) > 0 && TotalHalves(ss, name) == 0)
      && Distinct(r.teams) && r.count == |r.teams|
  {
    var c := StatsCounts(ss);
    StatsValid(ss);
    forall name ensures name in Summary.NoTitles(c.apps, c.champ) <==> TotalAppearances(ss, name) > 0 && TotalHalves(ss, name) == 0 {
      StatsClosedForm(ss, name);
    }
    FilterDistinct(c.apps.keys, k => Get(c.champ, k, 0) == 0);
  }

  /**
   * `longestDrought`: absent exactly when no credited champion's latest win lies strictly
   * before `currentYear`; otherwise a credited champion whose latest win is furthest back.
   */
  lemma DroughtSpec(ss: seq<ChampSeason>, currentYear: int)
    ensures var r := Summarize(StatsCounts(ss), LastWins(ss), |ss|, currentYear).longestDrought;
      && (r.None? <==> forall name :: TotalHalves(ss, name) > 0 ==> LastWinOf(ss, name) >= currentYear)
      && (r.Some? ==>
            && TotalHalves(ss, r.value.team) > 0
            && r.value.years == currentYear - LastWinOf(ss, r.value.team) > 0
            && forall name :: TotalHalves(ss, name) > 0 ==> currentYear - LastWinOf(ss, name) <= r.value.years)
  {
    LastWinsAll(ss);
    Summary.LongestDroughtSpec(LastWins(ss), currentYear);
  }

  lemma LastWinsAll(ss: seq<ChampSeason>)
    ensures LastWins(ss).Valid()
    ensures forall name :: (name in LastWins(ss).keys <==> TotalHalves(ss, name) > 0) && Get(LastWins(ss), name, 0) == LastWinOf(ss, name)
  {
    forall name ensures (name in LastWins(ss).keys <==> TotalHalves(ss, name) > 0) && Get(LastWins(ss), name, 0) == LastWinOf(ss, name) {
      LastWinsClosedForm(ss, name);
    }
    LastWinsClosedForm(ss, "");
  }

  // ---------------------------------------------------------------------------
  // The tiers in terms of the seasons

  /** The tier array for the seasons `ss`. */
  function ChampTiers(ss: seq<ChampSeason>): seq<Tiering.Tier> {
    Tiering.Tiers(TiersCounts(ss).champ, TiersCounts(ss).apps)
  }

  /**
   * Each tier row is a name credited in a season the tiers loop counts, in the tier of
   * its half-title total over those seasons and with its appearances over them; every such
   * name has a row; no name has two.
   */
  lemma ChampTiersSpec(ss: seq<ChampSeason>)
    ensures var ts := ChampTiers(ss); var kept := Filter(ss, TiersCounted);
      && (forall i, j :: 0 <= i < j < |ts| ==> ts[i].count < ts[j].count)
      && (forall i :: 0 <= i < |ts| ==> ts[i].teams != [] && Sorting.SortedDesc(ts[i].teams, Tiering.ByAppearances()))
      && (forall i, t :: 0 <= i < |ts| && t in ts[i].teams ==>
            ts[i].count == TotalHalves(kept, t.name) && t.appearances == TotalAppearances(kept, t.name)
            && TotalAppearances(kept, t.name) > 0)
      && (forall name :: TotalAppearances(kept, name) > 0 ==>
            exists i :: 0 <= i < |ts| && Tiering.TierTeam(name, TotalAppearances(kept, name)) in ts[i].teams)
      && (forall i, j, a, b :: (0 <= i < |ts| && 0 <= j < |ts| && 0 <= a < |ts[i].teams| && 0 <= b < |ts[j].teams|
            && ts[i].teams[a].name == ts[j].teams[b].name) ==> i == j && a == b)
  {
    var kept := Filter(ss, TiersCounted);
    TiersCountsFiltered(ss);
    var c := StatsCounts(kept);
    StatsValid(kept);
    assert Positive(c.champ) by {
      forall name | name in c.champ.vals ensures c.champ.vals[name] > 0 {
        StatsClosedForm(kept, name);
      }
    }
    Tiering.TiersSpec(c.champ, c.apps);
    Tiering.TiersDistinct(c.champ, c.apps);
    ChampTiersMembers(ss);
    ChampTiersCover(ss);
  }

  lemma ChampTiersMembers(ss: seq<ChampSeason>)
    ensures var ts := ChampTiers(ss); var kept := Filter(ss, TiersCounted);
      forall i, t :: 0 <= i < |ts| && t in ts[i].teams ==>
        ts[i].count == TotalHalves(kept, t.name) && t.appearances == TotalAppearances(kept, t.name)
        && TotalAppearances(kept, t.name) > 0
  {
    var kept := Filter(ss, TiersCounted);
    var ts := ChampTiers(ss);
    TiersCountsFiltered(ss);
    var c := StatsCounts(kept);
    forall i, t | 0 <= i < |ts| && t in ts[i].teams
      ensures ts[i].count == TotalHalves(kept, t.name) && t.appearances == TotalAppearances(kept, t.name)
        && TotalAppearances(kept, t.name) > 0
    {
      Tiering.TierTeamsAreGroup(c.champ, c.apps, i, t);
      Tiering.GroupMember(c.champ, c.apps, ts[i].count, t);
      StatsClosedForm(kept, t.name);
      HalvesWithinAppearances(kept, t.name);
    }
  }

  lemma ChampTiersCover(ss: seq<ChampSeason>)
    ensures var ts := ChampTiers(ss); var kept := Filter(ss, TiersCounted);
      forall name :: TotalAppearances(kept, name) > 0 ==>
        exists i :: 0 <= i < |ts| && Tiering.TierTeam(name, TotalAppearances(kept, name)) in ts[i].teams
  {
    var kept := Filter(ss, TiersCounted);
    var ts := ChampTiers(ss);
    TiersCountsFiltered(ss);
    var c := StatsCounts(kept);
    StatsValid(kept);
    forall name | TotalAppearances(kept, name) > 0
      ensures exists i :: 0 <= i < |ts| && Tiering.TierTeam(name, TotalAppearances(kept, name)) in ts[i].teams
    {
      StatsClosedForm(kept, name);
      assert name in c.apps.keys;
      Tiering.TierOfName(c.champ, c.apps, name);
      var i :| 0 <= i < |ts| && ts[i].count == Get(c.champ, name, 0) && Tiering.Row(c.apps, name) in ts[i].teams;
    }
  }

  /** Every credited half-title comes with an appearance, so a titled name has appeared. */
  lemma {:induction false} HalvesWithinAppearances(ss: seq<ChampSeason>, name: string)
    ensures TotalHalves(ss, name) <= 2 * TotalAppearances(ss, name)
  {
    if ss != [] {
      HalvesWithinAppearances(ss[..|ss| - 1], name);
    }
  }
}
