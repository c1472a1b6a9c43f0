/** The "Create Playlist" screen's reducer (app/playlist/create.tsx). Unlike
    the builder in app/playlist.tsx it keeps one `history` list and a
    `currentIndex` into it. An edit truncates history after `currentIndex`,
    appends the pre-edit state and advances the index. UNDO and REDO spread
    a snapshot `history[currentIndex -/+ 1]`, which replaces BOTH `songs`
    and `history` with the snapshot's own, and then set the index. So from
    the initial state ADD, ADD, UNDO leaves the empty playlist and an empty
    history, after which REDO can do nothing. The model keeps that
    behaviour. */
module PlaylistEditor {
  import opened Wrappers
  import SeqUtil
  import Text

  datatype Song = Song(id: string, name: string, artist: string, duration: string)

  datatype PState = PState(songs: seq<Song>, history: seq<PState>, currentIndex: int)

  datatype Action =
    | AddSong(song: Song)
    | RemoveSong(songId: string)
    | ClearPlaylist
    | Undo
    | Redo
    | LoadState(payload: PState)
  {
    predicate IsEdit() {
      AddSong? || RemoveSong? || ClearPlaylist?
    }
  }

  /** `initialState`: no songs, no history, index -1. */
  function InitialState(): PState {
    PState([], [], -1)
  }

  /** `song.id !== id` as used by REMOVE_SONG's filter. */
  function WithoutId(songs: seq<Song>, id: string): (r: seq<Song>)
    ensures forall i :: 0 <= i < |r| ==> r[i].id != id && r[i] in songs
    ensures forall i :: 0 <= i < |songs| && songs[i].id != id ==> songs[i] in r
    ensures SeqUtil.IsSubsequence(r, songs)
    ensures forall i :: 0 <= i < |songs| && songs[i].id != id ==> multiset(r)[songs[i]] == multiset(songs)[songs[i]]
  {
    SeqUtil.Filter(songs, (s: Song) => s.id != id)
  }

  /** The history every edit records: `[...history.slice(0, currentIndex + 1), state]`. */
  function RecordEdit(s: PState): (h: seq<PState>)
    ensures |h| >= 1 && h[|h| - 1] == s
    ensures s.currentIndex >= -1 ==>
      |h| == 1 + (if s.currentIndex + 1 <= |s.history| then s.currentIndex + 1 else |s.history|) &&
      h[..|h| - 1] == s.history[..|h| - 1]
  {
    SeqUtil.JsSlice(s.history, 0, s.currentIndex + 1) + [s]
  }

  /** `playlistReducer`. `None` stands for the object JavaScript builds when
      UNDO or REDO read `history` outside its bounds: spreading `undefined`
      leaves only `currentIndex`, with `songs` and `history` undefined.
      That can only happen to a state that did not come from this reducer
      (see `StepPreservesWellFormed`). */
  function Step(s: PState, a: Action): (r: Option<PState>)
    ensures a.IsEdit() ==> r.Some? && r.value.currentIndex == s.currentIndex + 1 && r.value.history == RecordEdit(s)
    ensures a.Undo? && s.currentIndex <= 0 ==> r == Some(s)
    ensures a.Redo? && s.currentIndex >= |s.history| - 1 ==> r == Some(s)
    ensures a.Undo? && r.Some? && r != Some(s) ==> r.value.currentIndex == s.currentIndex - 1
    ensures a.Redo? && r.Some? && r != Some(s) ==> r.value.currentIndex == s.currentIndex + 1
  {
    match a
    case AddSong(song) => Some(PState(s.songs + [song], RecordEdit(s), s.currentIndex + 1))
    case RemoveSong(id) => Some(PState(WithoutId(s.songs, id), RecordEdit(s), s.currentIndex + 1))
    case ClearPlaylist => Some(PState([], RecordEdit(s), s.currentIndex + 1))
    case Undo =>
      if s.currentIndex > 0 then
        if s.currentIndex - 1 < |s.history| then
          var previous := s.history[s.currentIndex - 1];
          Some(PState(previous.songs, previous.history, s.currentIndex - 1))
        else None
      else Some(s)
    case Redo =>
      if s.currentIndex < |s.history| - 1 then
        if 0 <= s.currentIndex + 1 then
          var next := s.history[s.currentIndex + 1];
          Some(PState(next.songs, next.history, s.currentIndex + 1))
        else None
      else Some(s)
    case LoadState(payload) => Some(payload)
  }

  /** `canUndo` (line 242). */
  predicate CanUndo(s: PState) {
    s.currentIndex > 0
  }

  /** `canRedo` (line 243). */
  predicate CanRedo(s: PState) {
    s.currentIndex < |s.history| - 1
  }

  /** The buttons are enabled exactly when the action would change the
      state. */
  lemma CanUndoRedoIffEffective(s: PState)
    ensures CanUndo(s) <==> Step(s, Undo) != Some(s)
    ensures CanRedo(s) <==> Step(s, Redo) != Some(s)
  {
  }

  /** The states this reducer produces: the index lies in `[-1, |history|]`
      and the snapshot at position k has a history of at least k entries,
      recursively. Exactly the condition under which UNDO and REDO read
      inside `history`. */
  predicate WellFormed(s: PState)
    decreases s
  {
    -1 <= s.currentIndex <= |s.history| &&
    forall k :: 0 <= k < |s.history| ==>
      |s.history[k].history| >= k && WellFormed(s.history[k])
  }

  lemma InitialWellFormed()
    ensures WellFormed(InitialState())
  {
  }

  /** Every action on a well-formed state yields a well-formed state (and
      never the malformed object), given a well-formed LOAD_STATE payload. */
  lemma StepPreservesWellFormed(s: PState, a: Action)
    requires WellFormed(s)
    requires a.LoadState? ==> WellFormed(a.payload)
    ensures Step(s, a).Some? && WellFormed(Step(s, a).value)
  {
    if a.IsEdit() {
      var h := RecordEdit(s);
      forall k | 0 <= k < |h|
        ensures |h[k].history| >= k && WellFormed(h[k])
      {
        if k < |h| - 1 {
          assert h[k] == s.history[k];
        }
      }
    }
  }

  /** Folds actions through `Step`, stopping at a malformed object. */
  function Run(s: PState, actions: seq<Action>): Option<PState>
    decreases |actions|
  {
    if |actions| == 0 then Some(s)
    else match Step(s, actions[0])
      case None => None
      case Some(t) => Run(t, actions[1..])
  }

  /** No sequence of actions from the initial state (with well-formed
      LOAD_STATE payloads) reaches the malformed object. */
  lemma {:induction false} RunStaysWellFormed(s: PState, actions: seq<Action>)
    requires WellFormed(s)
    requires forall i :: 0 <= i < |actions| && actions[i].LoadState? ==> WellFormed(actions[i].payload)
    ensures Run(s, actions).Some? && WellFormed(Run(s, actions).value)
    decreases |actions|
  {
    if |actions| > 0 {
      StepPreservesWellFormed(s, actions[0]);
      RunStaysWellFormed(Step(s, actions[0]).value, actions[1..]);
    }
  }

  /** An edit on a state whose history ends at the index keeps that
      alignment: history length stays `currentIndex + 1`. */
  lemma EditKeepsAligned(s: PState, a: Action)
    requires a.IsEdit()
    requires |s.history| == s.currentIndex + 1
    ensures Step(s, a).Some?
    ensures |Step(s, a).value.history| == Step(s, a).value.currentIndex + 1
  {
  }

  /** From `initialState`, any sequence of ADD/REMOVE/CLEAR keeps
      `history.length == currentIndex + 1`, and the index counts the
      edits. */
  lemma {:induction false} EditsFromInitialAligned(s: PState, actions: seq<Action>)
    requires |s.history| == s.currentIndex + 1
    requires forall i :: 0 <= i < |actions| ==> actions[i].IsEdit()
    ensures Run(s, actions).Some?
    ensures |Run(s, actions).value.history| == Run(s, actions).value.currentIndex + 1
    ensures Run(s, actions).value.currentIndex == s.currentIndex + |actions|
    decreases |actions|
  {
    if |actions| > 0 {
      EditKeepsAligned(s, actions[0]);
      EditsFromInitialAligned(Step(s, actions[0]).value, actions[1..]);
    }
  }

  /** ADD_SONG appends the song and keeps the earlier ones in place. */
  lemma AddSongAppends(s: PState, song: Song)
    ensures var r := Step(s, AddSong(song)).value;
      |r.songs| == |s.songs| + 1 && r.songs[|s.songs|] == song &&
      r.songs[..|s.songs|] == s.songs
  {
  }

  /** REMOVE_SONG keeps exactly the songs with another id, in order, and
      CLEAR_PLAYLIST empties the list; both record history like ADD_SONG. */
  lemma RemoveAndClear(s: PState, id: string)
    ensures var r := Step(s, RemoveSong(id)).value;
      (forall i :: 0 <= i < |r.songs| ==> r.songs[i].id != id) &&
      (forall i :: 0 <= i < |s.songs| && s.songs[i].id != id ==> s.songs[i] in r.songs) &&
      SeqUtil.IsSubsequence(r.songs, s.songs) &&
      (forall i :: 0 <= i < |s.songs| && s.songs[i].id != id ==> multiset(r.songs)[s.songs[i]] == multiset(s.songs)[s.songs[i]])
    ensures Step(s, ClearPlaylist).value.songs == []
  {
  }

  /** An effective UNDO adopts the songs AND the history of the snapshot
      just before the index; an effective REDO those of the snapshot just
      after it. */
  lemma UndoRedoAdoptSnapshot(s: PState)
    requires WellFormed(s)
    ensures CanUndo(s) ==>
      Step(s, Undo) == Some(PState(s.history[s.currentIndex - 1].songs, s.history[s.currentIndex - 1].history, s.currentIndex - 1))
    ensures CanRedo(s) ==>
      Step(s, Redo) == Some(PState(s.history[s.currentIndex + 1].songs, s.history[s.currentIndex + 1].history, s.currentIndex + 1))
  {
  }

  /** LOAD_STATE returns its payload verbatim. */
  lemma LoadStateVerbatim(s: PState, payload: PState)
    ensures Step(s, LoadState(payload)) == Some(payload)
  {
  }

  /** The behaviour the header describes: ADD, ADD, UNDO from the initial
      state gives back the empty playlist with an empty history (the
      snapshot `history[0]` is the initial state itself), and REDO is then
      a no-op, so the second song cannot be redone. */
  lemma UndoLosesRedo(x: Song, y: Song)
    ensures var u := Run(InitialState(), [AddSong(x), AddSong(y), Undo]);
      u == Some(PState([], [], 0)) && Step(u.value, Redo) == u && !CanRedo(u.value)
  {
    var acts := [AddSong(x), AddSong(y), Undo];
    var s1 := Step(InitialState(), AddSong(x)).value;
    var s2 := Step(s1, AddSong(y)).value;
    assert s1.history == [InitialState()];
    assert s2.history == [InitialState(), s1];
    var s3 := Step(s2, Undo).value;
    assert s3 == PState([], [], 0);
    assert acts[1..][1..][1..] == [];
    assert Run(InitialState(), acts) == Run(s1, acts[1..]) == Run(s2, acts[1..][1..]) == Run(s3, []);
  }

  /** `addSong`'s validation and defaulting (lines 191-202): a name that is
      empty after trimming is refused; otherwise the fields are trimmed and
      a blank artist or duration gets "Unknown Artist" / "0:00". The id is
      `Date.now().toString()`, so the clock reading is a parameter. */
  function NewSong(now: nat, name: string, artist: string, duration: string): (r: Option<Song>)
    ensures r.None? <==> Text.AllWhitespace(name)
    ensures r.Some? ==> r.value.name == Text.Trim(name) && |r.value.name| > 0
    ensures r.Some? ==> r.value.id == Text.DecimalString(now)
    ensures r.Some? && Text.AllWhitespace(artist) ==> r.value.artist == "Unknown Artist"
    ensures r.Some? && !Text.AllWhitespace(artist) ==> r.value.artist == Text.Trim(artist)
    ensures r.Some? && Text.AllWhitespace(duration) ==> r.value.duration == "0:00"
    ensures r.Some? && !Text.AllWhitespace(duration) ==> r.value.duration == Text.Trim(duration)
  {
    var n := Text.Trim(name);
    if |n| == 0 then None
    else
      var a := Text.Trim(artist);
      var d := Text.Trim(duration);
      Some(Song(Text.DecimalString(now), n, if |a| == 0 then "Unknown Artist" else a, if |d| == 0 then "0:00" else d))
  }
}
