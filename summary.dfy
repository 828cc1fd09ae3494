/**
 * The summary computed from the tallies by both statistics copies
 * (src/services/seasonService.js and src/composables/useChampionshipData.js):
 * most titles, longest drought and teams without a title. Counts are in half-titles.
 */
module Summary {
  import opened Common
  import Sorting

  /** `Object.values(d)`, in key order. */
  function Values(d: Dict<string, int>): (vs: seq<int>)
    ensures |vs| == |d.keys|
    ensures forall i :: 0 <= i < |vs| ==> vs[i] == Get(d, d.keys[i], 0)
  {
    seq(|d.keys|, i requires 0 <= i < |d.keys| => Get(d, d.keys[i], 0))
  }

  /** `Math.max(...vs, 0)`. */
  function MaxOrZero(vs: seq<int>): (m: int)
    ensures m >= 0
    ensures forall i :: 0 <= i < |vs| ==> vs[i] <= m
    ensures m == 0 || m in vs
  {
    if vs == [] then 0
    else
      var m' := MaxOrZero(vs[1..]);
      assert m' in vs[1..] ==> m' in vs;
      if vs[0] > m' then vs[0] else m'
  }

  /** `Math.max(...vs)`, which is `-Infinity` (here `None`) for no values. */
  function MaxOf(vs: seq<int>): (m: Option<int>)
    ensures m.None? <==> vs == []
    ensures m.Some? ==> m.value in vs && forall i :: 0 <= i < |vs| ==> vs[i] <= m.value
  {
    if vs == [] then None
    else
      var m' := MaxOf(vs[1..]);
      if m'.None? || vs[0] >= m'.value then Some(vs[0]) else m'
  }

  /** `Object.entries(d).filter(([_, n]) => n === c).map(([k]) => k)`. */
  function TeamsWith(d: Dict<string, int>, c: int): seq<string> {
    Filter(d.keys, k => Get(d, k, 0) == c)
  }

  /** `mostTitles.teams` is exactly the keys holding the given count. */
  lemma TeamsWithExact(d: Dict<string, int>, c: int)
    requires d.Valid()
    ensures forall t :: t in TeamsWith(d, c) <==> t in d.vals && d.vals[t] == c
    ensures Distinct(TeamsWith(d, c))
  {
    FilterDistinct(d.keys, k => Get(d, k, 0) == c);
  }

  /** With no champion at all there is no team with the most titles, and the count is 0. */
  lemma NoChampionsNoLeader(d: Dict<string, int>)
    requires d.keys == []
    ensures MaxOrZero(Values(d)) == 0 && TeamsWith(d, MaxOrZero(Values(d))) == []
  {
  }

  /** Keys of `apps` that hold no title: `Object.keys(apps).filter(t => !champ[t])`. */
  function NoTitles(apps: Dict<string, int>, champ: Dict<string, int>): (r: seq<string>)
    ensures forall t :: t in r <==> t in apps.keys && Get(champ, t, 0) == 0
  {
    Filter(apps.keys, k => Get(champ, k, 0) == 0)
  }

  /**
   * A team with a title is never listed as having none, so `noTitles.teams` and
   * `mostTitles.teams` are disjoint.
   */
  lemma {:induction false} NoTitlesDisjointMost(apps: Dict<string, int>, champ: Dict<string, int>)
    requires champ.Valid() && Positive(champ)
    ensures forall t :: t in NoTitles(apps, champ) ==> t !in TeamsWith(champ, MaxOrZero(Values(champ)))
  {
    forall t | t in NoTitles(apps, champ)
      ensures t !in TeamsWith(champ, MaxOrZero(Values(champ)))
    {
      assert t !in champ.vals;
      assert t !in champ.keys;
    }
  }

  datatype Drought = Drought(team: string, years: int)

  /** `Object.entries(lastWin).map(([team, y]) => ({team, years: currentYear - y})).filter(d => d.years > 0)`. */
  function Droughts(lastWin: Dict<string, int>, currentYear: int): (ds: seq<Drought>)
    ensures forall x :: x in ds <==> x.team in lastWin.keys && x.years == currentYear - Get(lastWin, x.team, 0) && x.years > 0
  {
    Filter(DroughtEntries(lastWin.keys, lastWin, currentYear), (x: Drought) => x.years > 0)
  }

  function DroughtEntries(ks: seq<string>, lastWin: Dict<string, int>, currentYear: int): (ds: seq<Drought>)
    ensures |ds| == |ks|
    ensures forall x :: x in ds <==> x.team in ks && x.years == currentYear - Get(lastWin, x.team, 0)
  {
    if ks == [] then []
    else [Drought(ks[0], currentYear - Get(lastWin, ks[0], 0))] + DroughtEntries(ks[1..], lastWin, currentYear)
  }

  /** `droughts.sort((a, b) => b.years - a.years)[0] || null`. */
  function LongestDrought(lastWin: Dict<string, int>, currentYear: int): Option<Drought> {
    var ds := Droughts(lastWin, currentYear);
    if ds == [] then None else Some(Sorting.SortDesc(ds, (x: Drought) => x.years)[0])
  }

  /**
   * The longest drought is absent exactly when no recorded win is strictly before
   * `currentYear`; otherwise it is a team with the largest positive gap, and the first
   * such team in the entries' order.
   */
  lemma LongestDroughtSpec(lastWin: Dict<string, int>, currentYear: int)
    ensures var r := LongestDrought(lastWin, currentYear);
      && (r.None? <==> forall t :: t in lastWin.keys ==> currentYear - Get(lastWin, t, 0) <= 0)
      && (r.Some? ==>
            && r.value.team in lastWin.keys
            && r.value.years == currentYear - Get(lastWin, r.value.team, 0) > 0
            && (forall t :: t in lastWin.keys ==> currentYear - Get(lastWin, t, 0) <= r.value.years)
            && var ds := Droughts(lastWin, currentYear);
               exists j :: 0 <= j < |ds| && ds[j] == r.value && forall i :: 0 <= i < j ==> ds[i].years < r.value.years)
  {
    if Droughts(lastWin, currentYear) == [] {
      NoDroughts(lastWin, currentYear);
    } else {
      LongestIsFirstMax(lastWin, currentYear);
    }
  }

  lemma NoDroughts(lastWin: Dict<string, int>, currentYear: int)
    requires Droughts(lastWin, currentYear) == []
    ensures forall t :: t in lastWin.keys ==> currentYear - Get(lastWin, t, 0) <= 0
  {
    forall t | t in lastWin.keys ensures currentYear - Get(lastWin, t, 0) <= 0 {
      assert Drought(t, currentYear - Get(lastWin, t, 0)) !in Droughts(lastWin, currentYear);
    }
  }

  /** With some drought, the sorted head is the first entry with the largest gap, which bounds every team's. */
  lemma LongestIsFirstMax(lastWin: Dict<string, int>, currentYear: int)
    requires Droughts(lastWin, currentYear) != []
    ensures var ds := Droughts(lastWin, currentYear); var r := LongestDrought(lastWin, currentYear);
      && r.Some?
      && r.value.team in lastWin.keys
      && r.value.years == currentYear - Get(lastWin, r.value.team, 0) > 0
      && (forall t :: t in lastWin.keys ==> currentYear - Get(lastWin, t, 0) <= r.value.years)
      && exists j :: 0 <= j < |ds| && ds[j] == r.value && forall i :: 0 <= i < j ==> ds[i].years < r.value.years
  {
    var ds := Droughts(lastWin, currentYear);
    var key := (x: Drought) => x.years;
    Sorting.SortDescHead(ds, key);
    var j := Sorting.FirstMax(ds, key);
    var best := ds[j];
    assert LongestDrought(lastWin, currentYear) == Some(best);
    assert best in ds;
    forall t | t in lastWin.keys ensures currentYear - Get(lastWin, t, 0) <= best.years {
      var x := Drought(t, currentYear - Get(lastWin, t, 0));
      if x.years > 0 {
        assert x in ds;
        var k :| 0 <= k < |ds| && ds[k] == x;
        assert key(ds[k]) <= key(ds[j]);
      }
    }
  }
}
