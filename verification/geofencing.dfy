/** Geofence bookkeeping on the map screen (app/map.tsx): which fences the
    user is inside, which were entered or left since the previous check,
    and the alerts raised for them. The Haversine distance test
    `distance <= fence.radius` is abstracted as a predicate `inside`
    supplied by the caller. */
module Geofencing {
  import opened Wrappers
  import SeqUtil
  import Text

  datatype PointOfInterest = PointOfInterest(
    id: int,
    title: string,
    description: string,
    latitude: real,
    longitude: real,
    kind: string)

  datatype Fence = Fence(poi: PointOfInterest, radius: int)

  /** `MOCK_POINTS_OF_INTEREST`. */
  const PointsOfInterest: seq<PointOfInterest> := [
    PointOfInterest(1, "Spotify Headquarters", "Global music streaming hub", 37.7749, -122.4194, "headquarters"),
    PointOfInterest(2, "Live Music Venue", "Popular concert location", 37.7849, -122.4094, "venue"),
    PointOfInterest(3, "Recording Studio", "Professional music production", 37.7649, -122.4294, "studio"),
    PointOfInterest(4, "Music Festival Grounds", "Annual music event location", 37.7549, -122.4394, "festival")
  ]

  const FenceRadius: int := 100

  /** `GEOFENCE_REGIONS`: each point with a 100-metre radius. */
  function GeofenceRegions(): (fences: seq<Fence>)
    ensures |fences| == |PointsOfInterest|
    ensures forall i :: 0 <= i < |fences| ==> fences[i].poi == PointsOfInterest[i] && fences[i].radius == FenceRadius
  {
    seq(|PointsOfInterest|, i requires 0 <= i < |PointsOfInterest| => Fence(PointsOfInterest[i], FenceRadius))
  }

  /** Fence ids are pairwise distinct. */
  lemma RegionIdsDistinct()
    ensures forall i, j :: 0 <= i < j < |GeofenceRegions()| ==> GeofenceRegions()[i].poi.id != GeofenceRegions()[j].poi.id
  {
  }

  function FenceId(f: Fence): int {
    f.poi.id
  }

  function Ids(fences: seq<Fence>): (ids: seq<int>)
    ensures |ids| == |fences|
    ensures forall i :: 0 <= i < |fences| ==> ids[i] == fences[i].poi.id
  {
    SeqUtil.Map(fences, FenceId)
  }

  /** `newActiveGeofences`: the ids of the fences the user is inside, in
      the order of the fences. */
  function ActiveIds(fences: seq<Fence>, inside: Fence -> bool): (ids: seq<int>)
    ensures forall i :: 0 <= i < |fences| && inside(fences[i]) ==> fences[i].poi.id in ids
    ensures forall k :: 0 <= k < |ids| ==>
      exists i :: 0 <= i < |fences| && fences[i].poi.id == ids[k] && inside(fences[i])
    ensures SeqUtil.IsSubsequence(ids, Ids(fences))
    ensures SeqUtil.Distinct(Ids(fences)) ==> SeqUtil.Distinct(ids)
  {
    var within := SeqUtil.Filter(fences, inside);
    SeqUtil.MapKeepsSubsequence(within, fences, FenceId);
    assert SeqUtil.Distinct(Ids(fences)) ==> SeqUtil.Distinct(Ids(within)) by {
      if SeqUtil.Distinct(Ids(fences)) {
        SeqUtil.SubsequenceKeepsDistinct(Ids(within), Ids(fences));
      }
    }
    Ids(within)
  }

  datatype Alert = Entered(enteredTitle: string) | Left(leftTitle: string)
  {
    /** The title of the fence the alert is about. */
    function Title(): string {
      if Entered? then enteredTitle else leftTitle
    }
  }

  /** The message text of an alert: it names the fence, and entry and exit
      messages are told apart by their opening words. */
  function AlertMessage(a: Alert): (msg: string)
    ensures Text.Contains(msg, a.Title())
    ensures a.Entered? ==> "You entered the " <= msg
    ensures a.Left? ==> "You left the " <= msg
  {
    var prefix := if a.Entered? then "You entered the " else "You left the ";
    var msg := prefix + a.Title() + (if a.Entered? then " area! \U{1F3B5}" else " area");
    assert a.Title() <= msg[|prefix|..];
    Text.ContainsAtOffset(msg, a.Title());
    msg
  }

  datatype Update = Update(active: seq<int>, entered: seq<int>, exited: seq<int>, alerts: seq<Alert>)

  /** `GEOFENCE_REGIONS.find(f => f.id === id)`, over a list of fences. */
  function FenceById(fences: seq<Fence>, id: int): (r: Option<Fence>)
    ensures r.Some? ==> r.value in fences && r.value.poi.id == id
    ensures r.None? <==> forall k :: 0 <= k < |fences| ==> fences[k].poi.id != id
  {
    SeqUtil.Find(fences, (f: Fence) => f.poi.id == id)
  }

  /** The alert raised for a fence on entry or on exit. */
  function AlertOf(f: Fence, entering: bool): Alert {
    if entering then Entered(f.poi.title) else Left(f.poi.title)
  }

  /** Every id of `ids` names one of the fences. */
  predicate NameFences(fences: seq<Fence>, ids: seq<int>) {
    forall k :: 0 <= k < |ids| ==> FenceById(fences, ids[k]).Some?
  }

  /** One alert per id that names one of the fences, in the order of the
      ids, each carrying the title of the fence found for its id; an id
      that names none is skipped. */
  function AlertsFor(fences: seq<Fence>, ids: seq<int>, entering: bool): (alerts: seq<Alert>)
    ensures |alerts| <= |ids|
    ensures entering ==> forall k :: 0 <= k < |alerts| ==> alerts[k].Entered?
    ensures !entering ==> forall k :: 0 <= k < |alerts| ==> alerts[k].Left?
    ensures NameFences(fences, ids) ==>
      |alerts| == |ids| &&
      forall k :: 0 <= k < |ids| ==> alerts[k] == AlertOf(FenceById(fences, ids[k]).value, entering)
  {
    if |ids| == 0 then []
    else
      var rest := AlertsFor(fences, ids[1..], entering);
      AlertsStep(fences, ids, entering, rest);
      AlertThen(fences, ids[0], entering, rest)
  }

  /** The alert for `id`, if it names a fence, before `rest`. */
  function AlertThen(fences: seq<Fence>, id: int, entering: bool, rest: seq<Alert>): seq<Alert> {
    match FenceById(fences, id)
    case None => rest
    case Some(f) => [AlertOf(f, entering)] + rest
  }

  /** The step of `AlertsFor`'s proof: its facts about the alerts for the
      tail of `ids` carry over to the alerts for all of `ids`. */
  lemma AlertsStep(fences: seq<Fence>, ids: seq<int>, entering: bool, rest: seq<Alert>)
    requires |ids| > 0 && |rest| <= |ids| - 1
    requires entering ==> forall k :: 0 <= k < |rest| ==> rest[k].Entered?
    requires !entering ==> forall k :: 0 <= k < |rest| ==> rest[k].Left?
    requires NameFences(fences, ids[1..]) ==>
      |rest| == |ids| - 1 &&
      forall k :: 0 <= k < |ids| - 1 ==> rest[k] == AlertOf(FenceById(fences, ids[1..][k]).value, entering)
    ensures var alerts := AlertThen(fences, ids[0], entering, rest);
      |alerts| <= |ids| &&
      (entering ==> forall k :: 0 <= k < |alerts| ==> alerts[k].Entered?) &&
      (!entering ==> forall k :: 0 <= k < |alerts| ==> alerts[k].Left?) &&
      (NameFences(fences, ids) ==>
        |alerts| == |ids| &&
        forall k :: 0 <= k < |ids| ==> alerts[k] == AlertOf(FenceById(fences, ids[k]).value, entering))
  {
    var alerts := AlertThen(fences, ids[0], entering, rest);
    if NameFences(fences, ids) {
      assert NameFences(fences, ids[1..]) by {
        forall k | 0 <= k < |ids| - 1
          ensures FenceById(fences, ids[1..][k]).Some?
        {
          assert ids[1..][k] == ids[k + 1];
        }
      }
      forall k | 0 <= k < |ids|
        ensures alerts[k] == AlertOf(FenceById(fences, ids[k]).value, entering)
      {
        if k > 0 {
          assert ids[k] == ids[1..][k - 1];
        }
      }
    }
  }

  /** Every id of `r` occurs in `ids`. */
  predicate DrawnFrom(r: seq<int>, ids: seq<int>) {
    forall k :: 0 <= k < |r| ==> r[k] in ids
  }

  /** `r` holds exactly the ids of `now` that are absent from `before`,
      each as often as in `now`, in the order of `now`. */
  predicate MissingFrom(r: seq<int>, now: seq<int>, before: seq<int>) {
    DrawnFrom(r, now) &&
    (forall k :: 0 <= k < |r| ==> r[k] !in before) &&
    (forall k :: 0 <= k < |now| && now[k] !in before ==> now[k] in r) &&
    (forall k :: 0 <= k < |now| && now[k] !in before ==> multiset(r)[now[k]] == multiset(now)[now[k]]) &&
    SeqUtil.IsSubsequence(r, now)
  }

  /** The ids of `now` missing from `before`; used both for the entered ids
      and for the exited ones. */
  function Missing(now: seq<int>, before: seq<int>): (r: seq<int>)
    ensures MissingFrom(r, now, before)
    ensures SeqUtil.Distinct(now) ==> SeqUtil.Distinct(r)
  {
    var r := SeqUtil.Filter(now, (id: int) => id !in before);
    assert SeqUtil.Distinct(now) ==> SeqUtil.Distinct(r) by {
      if SeqUtil.Distinct(now) {
        SeqUtil.SubsequenceKeepsDistinct(r, now);
      }
    }
    r
  }

  /** `checkGeofences`: `previous` is the `activeGeofences` state and
      `fences` the list of regions, which on the screen is
      `GeofenceRegions()`. */
  function CheckGeofences(fences: seq<Fence>, previous: seq<int>, inside: Fence -> bool): (u: Update)
    ensures u.active == ActiveIds(fences, inside)
    ensures MissingFrom(u.entered, u.active, previous)
    ensures MissingFrom(u.exited, previous, u.active)
    ensures DrawnFrom(u.entered, u.active) && DrawnFrom(u.exited, previous)
    ensures u.alerts == AlertsFor(fences, u.entered, true) + AlertsFor(fences, u.exited, false)
  {
    var active := ActiveIds(fences, inside);
    var entered := Missing(active, previous);
    var exited := Missing(previous, active);
    Update(active, entered, exited, AlertsFor(fences, entered, true) + AlertsFor(fences, exited, false))
  }

  /** Entered and exited ids are disjoint, entered ids are new and exited
      ids were active before. */
  lemma EnteredExitedDisjoint(fences: seq<Fence>, previous: seq<int>, inside: Fence -> bool)
    ensures var u := CheckGeofences(fences, previous, inside);
      (forall k :: 0 <= k < |u.entered| ==> u.entered[k] !in u.exited && u.entered[k] !in previous) &&
      (forall k :: 0 <= k < |u.exited| ==> u.exited[k] in previous)
  {
  }

  /** With distinct fence ids and a previous list without repeats, the
      active, entered and exited lists have no repeats either. */
  lemma CheckKeepsDistinct(fences: seq<Fence>, previous: seq<int>, inside: Fence -> bool)
    requires SeqUtil.Distinct(Ids(fences)) && SeqUtil.Distinct(previous)
    ensures var u := CheckGeofences(fences, previous, inside);
      SeqUtil.Distinct(u.active) && SeqUtil.Distinct(u.entered) && SeqUtil.Distinct(u.exited)
  {
  }

  /** A second check with the same insideness reports nothing: the active
      set is stored, so nothing is entered or left and no alert is raised. */
  lemma SecondCheckQuiet(fences: seq<Fence>, previous: seq<int>, inside: Fence -> bool)
    ensures var u := CheckGeofences(fences, previous, inside);
      var v := CheckGeofences(fences, u.active, inside);
      v.active == u.active && v.entered == [] && v.exited == [] && v.alerts == []
  {
  }

  /** Every active id names one of the fences. */
  lemma ActiveIdsNameFences(fences: seq<Fence>, inside: Fence -> bool)
    ensures var ids := ActiveIds(fences, inside);
      NameFences(fences, ids)
  {
  }

  /** Every id of a subset of `ids` names a fence when every id of `ids`
      does. */
  lemma SubsetNamesFences(fences: seq<Fence>, sub: seq<int>, ids: seq<int>)
    requires DrawnFrom(sub, ids)
    requires NameFences(fences, ids)
    ensures NameFences(fences, sub)
  {
    forall k | 0 <= k < |sub|
      ensures FenceById(fences, sub[k]).Some?
    {
      var j :| 0 <= j < |ids| && ids[j] == sub[k];
    }
  }

  /** In entry alerts followed by exit alerts for ids that all name fences,
      the first part names the fences of the entry ids in order. */
  lemma EntriesFirst(fences: seq<Fence>, u: Update)
    requires u.alerts == AlertsFor(fences, u.entered, true) + AlertsFor(fences, u.exited, false)
    requires NameFences(fences, u.entered)
    ensures |u.alerts| >= |u.entered|
    ensures forall k :: 0 <= k < |u.entered| ==> u.alerts[k] == Entered(FenceById(fences, u.entered[k]).value.poi.title)
  {
  }

  /** ... and when the exit ids all name fences too, the rest names theirs,
      in order. */
  lemma ExitsLast(fences: seq<Fence>, u: Update)
    requires u.alerts == AlertsFor(fences, u.entered, true) + AlertsFor(fences, u.exited, false)
    requires NameFences(fences, u.entered)
    requires NameFences(fences, u.exited)
    ensures |u.alerts| == |u.entered| + |u.exited|
    ensures forall k :: 0 <= k < |u.exited| ==> u.alerts[|u.entered| + k] == Left(FenceById(fences, u.exited[k]).value.poi.title)
  {
    var entries := AlertsFor(fences, u.entered, true);
    var exits := AlertsFor(fences, u.exited, false);
    assert |entries| == |u.entered| && |exits| == |u.exited|;
    assert u.alerts[|u.entered|..] == exits;
    forall k | 0 <= k < |u.exited|
      ensures u.alerts[|u.entered| + k] == Left(FenceById(fences, u.exited[k]).value.poi.title)
    {
      assert u.alerts[|u.entered| + k] == u.alerts[|u.entered|..][k];
    }
  }

  /** The alerts open with one entry alert per entered id, in order,
      naming that id's fence. */
  lemma EveryEntryAlerted(fences: seq<Fence>, previous: seq<int>, inside: Fence -> bool)
    ensures var u := CheckGeofences(fences, previous, inside);
      |u.alerts| >= |u.entered| &&
      forall k :: 0 <= k < |u.entered| ==>
        FenceById(fences, u.entered[k]).Some? &&
        u.alerts[k] == Entered(FenceById(fences, u.entered[k]).value.poi.title)
  {
    var u := CheckGeofences(fences, previous, inside);
    ActiveIdsNameFences(fences, inside);
    SubsetNamesFences(fences, u.entered, u.active);
    EntriesFirst(fences, u);
  }

  /** After the entry alerts of `u` come exactly one exit alert per exited
      id, in order, each naming the fence of its id. */
  predicate ExitsAlerted(fences: seq<Fence>, u: Update) {
    |u.alerts| == |u.entered| + |u.exited| &&
    forall k :: 0 <= k < |u.exited| ==>
      FenceById(fences, u.exited[k]).Some? &&
      u.alerts[|u.entered| + k] == Left(FenceById(fences, u.exited[k]).value.poi.title)
  }

  /** When every previous id names a fence, one exit alert per exited id
      follows the entry alerts, in order, naming its fence, and nothing
      else. */
  lemma EveryExitAlerted(fences: seq<Fence>, previous: seq<int>, inside: Fence -> bool)
    requires NameFences(fences, previous)
    ensures ExitsAlerted(fences, CheckGeofences(fences, previous, inside))
  {
    var u := CheckGeofences(fences, previous, inside);
    ActiveIdsNameFences(fences, inside);
    ExitsOfCheck(fences, previous, u);
  }

  /** The exit half of `EveryExitAlerted` for any update whose entered and
      exited ids are drawn from lists of ids that all name fences. */
  lemma ExitsOfCheck(fences: seq<Fence>, previous: seq<int>, u: Update)
    requires DrawnFrom(u.entered, u.active) && DrawnFrom(u.exited, previous)
    requires NameFences(fences, u.active) && NameFences(fences, previous)
    requires u.alerts == AlertsFor(fences, u.entered, true) + AlertsFor(fences, u.exited, false)
    ensures ExitsAlerted(fences, u)
  {
    SubsetNamesFences(fences, u.entered, u.active);
    SubsetNamesFences(fences, u.exited, previous);
    ExitsLast(fences, u);
  }

  /** The toast shown for the `k`th entered fence opens with "You entered
      the" and names that fence. */
  lemma EntryMessageNamesFence(fences: seq<Fence>, previous: seq<int>, inside: Fence -> bool, k: nat)
    ensures var u := CheckGeofences(fences, previous, inside);
      k < |u.entered| ==>
      k < |u.alerts| && FenceById(fences, u.entered[k]).Some? &&
      "You entered the " <= AlertMessage(u.alerts[k]) &&
      Text.Contains(AlertMessage(u.alerts[k]), FenceById(fences, u.entered[k]).value.poi.title)
  {
    var u := CheckGeofences(fences, previous, inside);
    if k < |u.entered| {
      EveryEntryAlerted(fences, previous, inside);
      var t := FenceById(fences, u.entered[k]).value.poi.title;
      assert u.alerts[k] == Entered(t);
      EnteredMessageNames(t);
    }
  }

  /** An entry toast opens with "You entered the" and names its fence. */
  lemma EnteredMessageNames(t: string)
    ensures "You entered the " <= AlertMessage(Entered(t)) && Text.Contains(AlertMessage(Entered(t)), t)
  {
  }

  /** When every previous id names a fence, the toast shown for the `k`th
      exited fence opens with "You left the" and names that fence. */
  lemma ExitMessageNamesFence(fences: seq<Fence>, previous: seq<int>, inside: Fence -> bool, k: nat)
    requires NameFences(fences, previous)
    ensures var u := CheckGeofences(fences, previous, inside);
      k < |u.exited| ==>
      |u.entered| + k < |u.alerts| && FenceById(fences, u.exited[k]).Some? &&
      "You left the " <= AlertMessage(u.alerts[|u.entered| + k]) &&
      Text.Contains(AlertMessage(u.alerts[|u.entered| + k]), FenceById(fences, u.exited[k]).value.poi.title)
  {
    var u := CheckGeofences(fences, previous, inside);
    if k < |u.exited| {
      EveryExitAlerted(fences, previous, inside);
      var t := FenceById(fences, u.exited[k]).value.poi.title;
      assert u.alerts[|u.entered| + k] == Left(t);
      LeftMessageNames(t);
    }
  }

  /** An exit toast opens with "You left the" and names its fence. */
  lemma LeftMessageNames(t: string)
    ensures "You left the " <= AlertMessage(Left(t)) && Text.Contains(AlertMessage(Left(t)), t)
  {
  }

  /** The location watcher is installed once, so it always runs the check
      of the first render, whose `activeGeofences` is still the empty list:
      on that path every fence the user is inside counts as entered again
      and raises its entry alert again, and no exit is ever reported. */
  lemma WatchedCheckForgetsActive(fences: seq<Fence>, inside: Fence -> bool)
    ensures var u := CheckGeofences(fences, [], inside);
      u.entered == u.active && u.exited == [] &&
      u.alerts == AlertsFor(fences, u.active, true) && |u.alerts| == |u.active|
  {
    var u := CheckGeofences(fences, [], inside);
    ActiveIdsNameFences(fences, inside);
    assert u.entered == Missing(u.active, []);
    assert u.exited == Missing([], u.active);
  }

  /** `getMarkerColor`: the four known kinds get their colours, anything
      else the Spotify green. */
  function MarkerColor(kind: string): (c: string)
    ensures kind == "venue" ==> c == "#FF6B6B"
    ensures kind == "studio" ==> c == "#4ECDC4"
    ensures kind == "festival" ==> c == "#FFD93D"
    ensures kind !in {"venue", "studio", "festival"} ==> c == "#1DB954"
  {
    if kind == "headquarters" then "#1DB954"
    else if kind == "venue" then "#FF6B6B"
    else if kind == "studio" then "#4ECDC4"
    else if kind == "festival" then "#FFD93D"
    else "#1DB954"
  }
}
