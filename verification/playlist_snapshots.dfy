/** The playlist builder's reducer (app/playlist.tsx): every edit pushes the
    whole pre-edit state onto `history` and empties `future`; UNDO pops the
    last history entry and pushes the current state on the front of
    `future`; REDO does the converse. A state's history holds states, so the
    datatype is recursive. */
module PlaylistSnapshots {
  import opened Wrappers
  import SeqUtil
  import Text

  datatype Song = Song(id: string, name: string)

  datatype State = State(playlist: seq<Song>, history: seq<State>, future: seq<State>)

  datatype Action =
    | AddSong(song: Song)
    | RemoveSong(songId: string)
    | ClearPlaylist
    | Undo
    | Redo
    | LoadState(payload: State)
  {
    /** ADD_SONG, REMOVE_SONG and CLEAR_PLAYLIST: the actions that record
        history and discard the redo branch. */
    predicate IsEdit() {
      AddSong? || RemoveSong? || ClearPlaylist?
    }
  }

  function InitialState(): State {
    State([], [], [])
  }

  /** `song.id !== id` as used by REMOVE_SONG's filter. */
  function WithoutId(songs: seq<Song>, id: string): (r: seq<Song>)
    ensures forall i :: 0 <= i < |r| ==> r[i].id != id && r[i] in songs
    ensures forall i :: 0 <= i < |songs| && songs[i].id != id ==> songs[i] in r
    ensures SeqUtil.IsSubsequence(r, songs)
    ensures forall i :: 0 <= i < |songs| && songs[i].id != id ==> multiset(r)[songs[i]] == multiset(songs)[songs[i]]
    ensures (forall i :: 0 <= i < |songs| ==> songs[i].id != id) ==> r == songs
  {
    SeqUtil.Filter(songs, (s: Song) => s.id != id)
  }

  /** `playlistReducer`. Only the playlist of the snapshot UNDO/REDO moves
      to survives the spread: its history and future are overwritten. */
  function Reduce(s: State, a: Action): (r: State)
    ensures a.IsEdit() ==> |r.history| == |s.history| + 1 && r.history[|s.history|] == s && r.future == []
    ensures a.IsEdit() ==> r.history[..|s.history|] == s.history
    ensures a.Undo? || a.Redo? ==> |r.history| + |r.future| == |s.history| + |s.future|
  {
    match a
    case AddSong(song) => State(s.playlist + [song], s.history + [s], [])
    case RemoveSong(id) => State(WithoutId(s.playlist, id), s.history + [s], [])
    case ClearPlaylist => State([], s.history + [s], [])
    case Undo =>
      if |s.history| == 0 then s
      else
        var previous := s.history[|s.history| - 1];
        State(previous.playlist, s.history[..|s.history| - 1], [s] + s.future)
    case Redo =>
      if |s.future| == 0 then s
      else
        var next := s.future[0];
        State(next.playlist, s.history + [s], s.future[1..])
    case LoadState(payload) => payload
  }

  /** Applies actions left to right, as the screen's dispatches do. */
  function Run(s: State, actions: seq<Action>): State
    decreases |actions|
  {
    if |actions| == 0 then s else Run(Reduce(s, actions[0]), actions[1..])
  }

  /** ADD_SONG appends the song at the end of the playlist; the songs
      already there keep their positions. */
  lemma AddSongAppends(s: State, song: Song)
    ensures var r := Reduce(s, AddSong(song));
      |r.playlist| == |s.playlist| + 1 && r.playlist[|s.playlist|] == song &&
      r.playlist[..|s.playlist|] == s.playlist
  {
  }

  /** REMOVE_SONG keeps exactly the songs with another id, in their order;
      an id that is not present still records history and drops the redo
      branch while leaving the playlist as it was. */
  lemma RemoveSongFilters(s: State, id: string)
    ensures var r := Reduce(s, RemoveSong(id));
      (forall i :: 0 <= i < |r.playlist| ==> r.playlist[i].id != id) &&
      (forall i :: 0 <= i < |s.playlist| && s.playlist[i].id != id ==> s.playlist[i] in r.playlist) &&
      SeqUtil.IsSubsequence(r.playlist, s.playlist) &&
      (forall i :: 0 <= i < |s.playlist| && s.playlist[i].id != id ==>
        multiset(r.playlist)[s.playlist[i]] == multiset(s.playlist)[s.playlist[i]]) &&
      r.history == s.history + [s] && r.future == []
    ensures (forall i :: 0 <= i < |s.playlist| ==> s.playlist[i].id != id) ==>
      Reduce(s, RemoveSong(id)).playlist == s.playlist
  {
  }

  /** CLEAR_PLAYLIST empties the playlist and is recorded like any edit. */
  lemma ClearEmpties(s: State)
    ensures var r := Reduce(s, ClearPlaylist);
      r.playlist == [] && r.history == s.history + [s] && r.future == []
  {
  }

  /** UNDO with nothing to undo and REDO with nothing to redo change
      nothing. */
  lemma NoOpsOnEmptyStacks(s: State)
    ensures |s.history| == 0 ==> Reduce(s, Undo) == s
    ensures |s.future| == 0 ==> Reduce(s, Redo) == s
  {
  }

  /** The Undo button is enabled when history is non-empty (line 170). */
  predicate UndoEnabled(s: State) {
    |s.history| != 0
  }

  /** The Redo button is enabled when future is non-empty (line 178). */
  predicate RedoEnabled(s: State) {
    |s.future| != 0
  }

  /** A button is disabled exactly when pressing it would change nothing. */
  lemma ButtonsDisabledIffNoOp(s: State)
    ensures !UndoEnabled(s) <==> Reduce(s, Undo) == s
    ensures !RedoEnabled(s) <==> Reduce(s, Redo) == s
  {
    if UndoEnabled(s) {
      assert |Reduce(s, Undo).future| == |s.future| + 1;
    }
    if RedoEnabled(s) {
      assert |Reduce(s, Redo).history| == |s.history| + 1;
    }
  }

  /** Undoing an edit restores the playlist and history the edit started
      from; the edited state becomes the only redo step. */
  lemma UndoAfterEdit(s: State, a: Action)
    requires a.IsEdit()
    ensures var t := Reduce(s, a);
      var u := Reduce(t, Undo);
      u.playlist == s.playlist && u.history == s.history && u.future == [t]
  {
    var t := Reduce(s, a);
    assert t.history[..|t.history| - 1] == s.history;
  }

  /** Redo after undo restores the playlist and the redo stack, and leaves
      history as long as before; its last entry is the intermediate undone
      state rather than the original snapshot. */
  lemma RedoAfterUndo(t: State)
    requires |t.history| > 0
    ensures var u := Reduce(t, Undo);
      var r := Reduce(u, Redo);
      r.playlist == t.playlist && r.future == t.future &&
      |r.history| == |t.history| && r.history[|t.history| - 1] == u
  {
  }

  /** Undoing an edit and then redoing it gives back the edited playlist
      with an empty redo stack. */
  lemma EditUndoRedo(s: State, a: Action)
    requires a.IsEdit()
    ensures var t := Reduce(s, a);
      var r := Reduce(Reduce(t, Undo), Redo);
      r.playlist == t.playlist && r.future == [] && |r.history| == |t.history|
  {
    RedoAfterUndo(Reduce(s, a));
  }

  /** LOAD_STATE adopts the stored state verbatim, so reloading a state
      reproduces it together with its history and future. */
  lemma LoadStateVerbatim(s: State, payload: State)
    ensures Reduce(s, LoadState(payload)) == payload
    ensures Reduce(payload, LoadState(payload)) == payload
  {
  }

  /** After any sequence of edits from a state, history has grown by the
      number of edits, keeps the old history as a prefix, and future is
      empty when at least one edit happened. */
  lemma {:induction false} EditsGrowHistory(s: State, actions: seq<Action>)
    requires forall i :: 0 <= i < |actions| ==> actions[i].IsEdit()
    ensures var r := Run(s, actions);
      |r.history| == |s.history| + |actions| &&
      r.history[..|s.history|] == s.history &&
      (|actions| > 0 ==> r.future == [])
    decreases |actions|
  {
    if |actions| > 0 {
      var t := Reduce(s, actions[0]);
      EditsGrowHistory(t, actions[1..]);
      var r := Run(t, actions[1..]);
      assert r.history[..|s.history|] == r.history[..|t.history|][..|s.history|];
    }
  }

  /** From the empty initial state, N edits leave exactly N history entries
      and nothing to redo. */
  lemma EditsFromInitial(actions: seq<Action>)
    requires forall i :: 0 <= i < |actions| ==> actions[i].IsEdit()
    ensures |Run(InitialState(), actions).history| == |actions|
    ensures Run(InitialState(), actions).future == []
  {
    EditsGrowHistory(InitialState(), actions);
  }

  /** UNDO and REDO only move states between the two stacks: over any
      sequence of them the combined size is unchanged. */
  lemma {:induction false} UndoRedoKeepTotal(s: State, actions: seq<Action>)
    requires forall i :: 0 <= i < |actions| ==> actions[i].Undo? || actions[i].Redo?
    ensures var r := Run(s, actions);
      |r.history| + |r.future| == |s.history| + |s.future|
    decreases |actions|
  {
    if |actions| > 0 {
      UndoRedoKeepTotal(Reduce(s, actions[0]), actions[1..]);
    }
  }

  /** `handleAddSong`: a name that is blank after trimming adds nothing;
      otherwise the song gets the trimmed name and the clock reading
      `Date.now()` as its decimal id. */
  function NewSong(now: nat, name: string): (r: Option<Song>)
    ensures r.None? <==> Text.AllWhitespace(name)
    ensures r.Some? ==> r.value.name == Text.Trim(name) && |r.value.name| > 0
    ensures r.Some? ==> r.value.id == Text.DecimalString(now)
  {
    var n := Text.Trim(name);
    if |n| == 0 then None else Some(Song(Text.DecimalString(now), n))
  }
}
