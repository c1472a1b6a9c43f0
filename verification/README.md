# A verified model of the music app's state logic

The app is a React Native music player with local accounts, a theme
switcher, a camera with a crop box, a photo store, a map with geofences,
a static catalogue of artists and playlists, and two playlist editors
with undo and redo. This project models the logic behind those screens
as pure Dafny functions over immutable datatypes, and proves what each
operation promises.

- `playlist_snapshots.dfy` (module `PlaylistSnapshots`) is the playlist
  builder of `app/playlist.tsx`. Its state holds a list of earlier states
  (`history`) and a list of undone ones (`future`), so the datatype is
  recursive.
- `playlist_editor.dfy` (module `PlaylistEditor`) is the "Create
  Playlist" reducer of `app/playlist/create.tsx`. It keeps one history
  list and an index into it. Its UNDO and REDO replace both the songs and
  the history with the snapshot's own. So ADD, ADD, UNDO from the empty
  playlist gives the empty playlist with an empty history, and REDO is
  then impossible. The model keeps that behaviour and proves it
  (`UndoLosesRedo`).
- `theme.dfy` holds two modules. `ThemeSlice` is the Redux slice for the
  theme mode and accent colour. `ThemeHook` is the hook that derives
  `isDarkMode` and the palette, chooses the theme at start-up, and
  dispatches.
- `settings.dfy` (module `Settings`) covers the settings screen's controls:
  the hex-colour check against section 5.2 of CSS Color Module Level 4,
  the preset swatches, and the three mode buttons.
- `profile_creation.dfy` (module `ProfileCreation`) holds the username and
  email validators and the submit rule.
- `auth.dfy` (module `Auth`) is the local account registry: login,
  signup, logout and profile update.
- `photo_storage.dfy` (module `PhotoStorage`) is the list kept by the photo
  store: at most 50 records, deletion and clearing.
- `geofencing.dfy` (module `Geofencing`) is the map screen's geofence
  check: the active fences, entries, exits and alerts. It also has the
  marker colours.
- `camera_crop.dfy` (module `CameraCrop`) is the edit state of the camera
  screen: its initial state, rotation, retake, crop presets, the crop
  box's touch dragging, and the decision taken on confirm. It also models
  the pan and resize handlers the component defines but never attaches.
- `catalogue.dfy` holds two modules, `Artists` and `Playlists`: the static
  tables with their lookups and the artist search.
- `text.dfy`, `seq_util.dfy` and `wrappers.dfy` give the JavaScript
  built-ins the modules use: `trim`, `toLowerCase`, `includes`, string
  `length`, number-to-string, `filter`, `find`, `findIndex`, `map` and
  `slice`. They also give `Option`.

Storage reads and writes become values. A stored entry is an `Option`
or an explicit "load failed" outcome. Clock readings (`Date.now()`, the
ISO creation time), the layout size of the photo container, the device's
colour scheme and the Haversine "inside the fence" test are all
parameters.

## Model

| member | source | states |
|---|---|---|
| PlaylistSnapshots.Reduce | app/playlist.tsx:32-80 | An edit appends exactly the pre-edit state to history, keeps the old history as a prefix and empties the redo stack. UNDO and REDO only move states between the two stacks, so their combined size is unchanged. |
| PlaylistSnapshots.WithoutId | app/playlist.tsx:41-47 | REMOVE_SONG's filter keeps exactly the songs with another id, each as often as before, in order. An absent id leaves the list unchanged. |
| PlaylistSnapshots.AddSongAppends | app/playlist.tsx:34-40 | ADD_SONG puts the song last and leaves the earlier songs where they were. |
| PlaylistSnapshots.RemoveSongFilters | app/playlist.tsx:41-47 | REMOVE_SONG drops every song with the id and keeps the rest in order, each as often as before. It still records history and clears the redo stack, even when no song had the id. |
| PlaylistSnapshots.ClearEmpties | app/playlist.tsx:48-54 | CLEAR_PLAYLIST empties the playlist and is recorded like any other edit. |
| PlaylistSnapshots.NoOpsOnEmptyStacks | app/playlist.tsx:55-74 | UNDO with an empty history, and REDO with an empty future, return the state unchanged. |
| PlaylistSnapshots.ButtonsDisabledIffNoOp | app/playlist.tsx:167-178 | The Undo and Redo buttons are disabled exactly when pressing them would change nothing. |
| PlaylistSnapshots.UndoAfterEdit | app/playlist.tsx:34-64 | Undoing an edit restores the playlist and history from before the edit. The edited state becomes the only redo step. |
| PlaylistSnapshots.RedoAfterUndo | app/playlist.tsx:55-74 | REDO after UNDO restores the playlist and the redo stack, and history has its old length again. Its last entry is the undone state, not the original snapshot. |
| PlaylistSnapshots.EditUndoRedo | app/playlist.tsx:34-74 | Edit, then undo, then redo gives back the edited playlist with nothing left to redo. |
| PlaylistSnapshots.LoadStateVerbatim | app/playlist.tsx:75-76 | LOAD_STATE adopts the stored state with its history and future. Loading the same state again is a fixed point. |
| PlaylistSnapshots.EditsGrowHistory | app/playlist.tsx:34-54 | Over any run of edits, history grows by the number of edits, keeps the old history as a prefix, and the redo stack is empty. |
| PlaylistSnapshots.EditsFromInitial | app/playlist.tsx:26-54 | From the empty initial state, any N edits, including none, leave exactly N history entries and nothing to redo. |
| PlaylistSnapshots.UndoRedoKeepTotal | app/playlist.tsx:55-74 | Over any run of UNDO and REDO, the history size plus the future size stays the same. |
| PlaylistSnapshots.NewSong | app/playlist.tsx:121-130 | A blank name (only whitespace) adds nothing. Otherwise the song gets the trimmed, non-empty name and the decimal clock reading as its id. |
| PlaylistEditor.WithoutId | app/playlist/create.tsx:69-76 | REMOVE_SONG keeps exactly the songs with another id, each as often as before, in order. |
| PlaylistEditor.RecordEdit | app/playlist/create.tsx:64 | The recorded history is the history up to the index, followed by the pre-edit state. Later entries, the discarded redo branch, are dropped. |
| PlaylistEditor.Step | app/playlist/create.tsx:58-113 | An edit advances the index by one and records history. UNDO at index 0 or below, and REDO at the last entry or beyond, are no-ops. An effective UNDO moves the index back by one; an effective REDO moves it forward by one. |
| PlaylistEditor.CanUndoRedoIffEffective | app/playlist/create.tsx:242-243 | `canUndo` and `canRedo` hold exactly when UNDO and REDO would change the state. |
| PlaylistEditor.InitialWellFormed | app/playlist/create.tsx:116-120 | The initial state meets the well-formedness condition under which UNDO and REDO read inside history. |
| PlaylistEditor.StepPreservesWellFormed | app/playlist/create.tsx:58-113 | On a well-formed state, every action yields a well-formed state and never the malformed object an out-of-range read would build. |
| PlaylistEditor.RunStaysWellFormed | app/playlist/create.tsx:58-113 | No run of actions from a well-formed state reaches the malformed object. |
| PlaylistEditor.EditKeepsAligned | app/playlist/create.tsx:60-86 | When history ends at the index, an edit keeps it so. |
| PlaylistEditor.EditsFromInitialAligned | app/playlist/create.tsx:60-86 | Over any run of edits, history stays as long as the index plus one, and the index counts the edits. |
| PlaylistEditor.AddSongAppends | app/playlist/create.tsx:60-67 | ADD_SONG puts the song last and leaves the earlier songs where they were. |
| PlaylistEditor.RemoveAndClear | app/playlist/create.tsx:69-86 | REMOVE_SONG keeps exactly the songs with another id, each as often as before, in order, and CLEAR_PLAYLIST empties the list. |
| PlaylistEditor.UndoRedoAdoptSnapshot | app/playlist/create.tsx:87-106 | An effective UNDO or REDO takes the songs AND the history of the neighbouring snapshot. |
| PlaylistEditor.LoadStateVerbatim | app/playlist/create.tsx:107-108 | LOAD_STATE returns its payload. |
| PlaylistEditor.UndoLosesRedo | app/playlist/create.tsx:58-105 | ADD x, ADD y, UNDO from the initial state gives the empty playlist with an empty history at index 0. REDO then does nothing, so y cannot be redone. |
| PlaylistEditor.NewSong | app/playlist/create.tsx:191-202 | A blank name is refused. Otherwise the fields are trimmed, and a blank artist or duration becomes "Unknown Artist" or "0:00". The id is the decimal clock reading. |
| ThemeSlice.InitialState | store/themeSlice.ts:8-11 | The app starts in dark mode with the Spotify green accent. |
| ThemeSlice.Reduce | store/themeSlice.ts:17-27 | `setThemeMode` changes only the mode. `setAccentColor` sets the colour and switches to custom mode. `setTheme` replaces both fields. |
| ThemeSlice.ReduceIdempotent | store/themeSlice.ts:17-27 | Dispatching the same action twice has the same effect as dispatching it once. |
| ThemeSlice.ReduceForgets | store/themeSlice.ts:20-27 | After `setTheme`, the previous state does not matter at all. After `setAccentColor`, the previous mode does not matter. |
| ThemeSlice.ModeAfterAccentKeepsAccent | store/themeSlice.ts:17-23 | Choosing a mode after choosing an accent keeps that accent. |
| ThemeHook.IsDarkMode | hooks/useTheme.ts:46 | The dark flag never holds in light mode. |
| ThemeHook.IsLightMode | hooks/useTheme.ts:47 | The light flag excludes the dark flag. |
| ThemeHook.FlagsByMode | hooks/useTheme.ts:46-47 | Dark mode is dark and not light. Light mode is light and not dark. Custom mode is never light, and it is dark exactly when the accent is `#000000`. |
| ThemeHook.Colors | hooks/useTheme.ts:46-57 | The primary colour is the accent, and the error colour is fixed. The background is black exactly when `isDarkMode` holds, and then the text is white. |
| ThemeHook.CustomNonBlackIsNeither | hooks/useTheme.ts:46-57 | The dark and light flags never both hold. In custom mode with an accent other than black, neither holds, and the palette equals light mode's apart from the accent. |
| ThemeHook.PaletteDependsOnDarkness | hooks/useTheme.ts:49-57 | Every palette entry except the primary colour depends only on `isDarkMode`. |
| ThemeHook.FallbackMode | hooks/useTheme.ts:23 | Without a stored theme the mode is light only when the system says light, and never custom. |
| ThemeHook.LoadTheme | hooks/useTheme.ts:14-32 | A stored theme is applied wholesale. When nothing is stored or loading fails, only the mode changes: to the system scheme, or to dark when there is none. |
| ThemeHook.LoadFailureLikeMissing | hooks/useTheme.ts:21-29 | A failed load has the same effect as a missing entry. |
| ThemeHook.ToggleThemeMode | hooks/useTheme.ts:59-61 | Only the mode changes; the accent stays. |
| ThemeHook.SetCustomAccentColor | hooks/useTheme.ts:63-65 | The theme switches to custom mode with the colour as accent and primary. The result is dark exactly when the colour is `#000000`. |
| Settings.PatternIsCssWithoutAlpha | app/settings.tsx:17 | The colour pattern accepts exactly the CSS hex colours with 3 or 6 digits, the forms without alpha. |
| Settings.CheckHexColor | app/settings.tsx:17 | A scan of the string accepts exactly what the pattern accepts. |
| Settings.ApplyCustomColor | app/settings.tsx:15-22 | An accepted colour becomes the accent in custom mode, without an alert. A rejected one raises the alert and leaves the theme unchanged. |
| Settings.PresetsAreValid | app/settings.tsx:6 | Each of the five preset colours also passes the custom-colour check. |
| Settings.PressPreset | app/settings.tsx:79-87 | A swatch sets exactly its colour and custom mode, and that colour is valid. |
| Settings.PressModeButton | app/settings.tsx:53-70 | A mode button sets its mode and keeps the accent. Afterwards that button, and no other, is highlighted. |
| ProfileCreation.ValidateUsername | app/profile-creation.tsx:62-75 | A name is accepted exactly when it has 3 to 20 UTF-16 units, all letters, digits or underscores. A wrong length gets the length message before the charset is checked. The other messages are untouched. |
| ProfileCreation.PatternImpliesRule | app/profile-creation.tsx:78 | Every string the email pattern matches has no whitespace and exactly one '@' with text before it. After the '@' comes a '.' that is neither first nor last. |
| ProfileCreation.RuleImpliesPattern | app/profile-creation.tsx:78 | Every string with that shape matches the pattern. |
| ProfileCreation.EmailPatternIsRule | app/profile-creation.tsx:78 | The pattern and the shape rule accept the same strings. |
| ProfileCreation.ValidateEmail | app/profile-creation.tsx:77-85 | The verdict is the shape rule. It clears or sets only the email message. |
| ProfileCreation.Submit | app/profile-creation.tsx:87-104 | Submit succeeds exactly when both validators and a chosen genre agree, and then the whole form resets. On failure each field's message reflects its own check, and an old genre message survives. |
| Auth.WithoutPassword | contexts/AuthContext.tsx:62 | The current user is the record with every field but the password. |
| Auth.FirstWithEmail | contexts/AuthContext.tsx:51 | Finds the first record with the email, or reports that none has it. |
| Auth.FirstWithId | contexts/AuthContext.tsx:130 | Finds the first record with the id, or -1 when none has it. |
| Auth.Login | contexts/AuthContext.tsx:44-70 | An unknown email fails with "User not found". A wrong password for the first matching record fails with "Invalid password". Failures change nothing. Success signs that record in without its password. The registry never changes. |
| Auth.NewRecord | contexts/AuthContext.tsx:84-91 | A new account has the decimal clock reading as its id, the given fields and no picture. |
| Auth.Signup | contexts/AuthContext.tsx:72-102 | A registered email fails with "User already exists" and changes nothing. Otherwise exactly one record is appended and becomes the current user, without its password. |
| Auth.SignupKeepsEmailsDistinct | contexts/AuthContext.tsx:79-95 | Registered emails stay pairwise distinct. |
| Auth.SignupThenLogin | contexts/AuthContext.tsx:43-102 | Right after a successful signup, logging in with the same credentials succeeds and leaves the state as it is. |
| Auth.Logout | contexts/AuthContext.tsx:108-111 | Nobody is signed in afterwards, and the registry is kept. |
| Auth.UpdateProfile | contexts/AuthContext.tsx:117-134 | With nobody signed in, nothing changes. Otherwise the name and picture change on the current user and on the first record with its id. No other record changes. |
| PhotoStorage.PhotoId | utils/photoStorage.ts:17 | The id is "photo_" followed by the decimal clock reading. |
| PhotoStorage.NewRecord | utils/photoStorage.ts:17-36 | The record's uri is the document directory, the id and ".jpg". The other fields are the given ones. |
| PhotoStorage.Append | utils/photoStorage.ts:38-42 | The new record is always last, and at most 50 records are kept. Below 50, nothing is dropped. At 50 or more, the store holds the 49 newest old records and the new one. |
| PhotoStorage.SavePhoto | utils/photoStorage.ts:15-46 | The list becomes the appended list, and the returned uri is the record's. |
| PhotoStorage.SaveToFullDropsOldest | utils/photoStorage.ts:38-42 | Saving into a full store drops exactly the oldest record. |
| PhotoStorage.SavesStayBounded | utils/photoStorage.ts:38-44 | Whatever the starting list, after one or more saves the store holds at most 50 records, and the newest record is last. |
| PhotoStorage.GetAllPhotos | utils/photoStorage.ts:53-61 | A missing entry reads as the empty list. |
| PhotoStorage.DeletePhoto | utils/photoStorage.ts:63-75 | An unknown id leaves the list unchanged. Otherwise every record with the id goes, and the rest stay, each as often as before, in their order. |
| PhotoStorage.DeleteIdempotent | utils/photoStorage.ts:63-75 | Deleting an id twice has the same effect as deleting it once. |
| PhotoStorage.ClearAllPhotos | utils/photoStorage.ts:82-92 | After clearing, the photo list reads as empty. |
| PhotoStorage.StorageCount | utils/photoStorage.ts:99-118 | The count is the number of stored records when the file-system query succeeds for every record; it is 0 when the query throws for any stored record (the catch branch) and 0 when nothing is stored. |
| Geofencing.GeofenceRegions | app/map.tsx:53-56 | There is one fence per point of interest, in order, each with a 100-metre radius. |
| Geofencing.RegionIdsDistinct | app/map.tsx:17-56 | Fence ids are pairwise distinct. |
| Geofencing.ActiveIds | app/map.tsx:356-369 | The active ids are exactly those of the fences the user is inside, in fence order. When fence ids are distinct, no active id repeats. |
| Geofencing.FenceById | app/map.tsx:381 | Finds a fence with the id, or none when no fence has it. |
| Geofencing.AlertMessage | app/map.tsx:383-398 | An entry message opens with "You entered the" and an exit message with "You left the". Each contains the title of the fence it is about. |
| Geofencing.AlertsFor | app/map.tsx:380-400 | At most one alert per id, all of the requested kind. When every id names a fence, there is exactly one alert per id, in id order, carrying the title of the fence found for that id. |
| Geofencing.Missing | app/map.tsx:372-377 | Returns exactly the ids of the first list that are absent from the second, each as often as in the first list, in order. A first list without repeats gives a result without repeats. |
| Geofencing.CheckGeofences | app/map.tsx:355-402 | Entered ids are exactly the active ids that were not active before. Exited ids are exactly the previous ids that are no longer active. Both keep order and multiplicity. Entry alerts come first, then exit alerts. |
| Geofencing.EnteredExitedDisjoint | app/map.tsx:372-377 | No id is both entered and exited. Entered ids are new, and exited ids were active. |
| Geofencing.CheckKeepsDistinct | app/map.tsx:356-377 | With distinct fence ids and a previous list without repeats, the active, entered and exited lists have no repeats. |
| Geofencing.SecondCheckQuiet | app/map.tsx:355-402 | A second check with the stored active set, at the same position, reports nothing. |
| Geofencing.ActiveIdsNameFences | app/map.tsx:356-369 | Every active id names one of the fences. |
| Geofencing.EntriesFirst | app/map.tsx:380-389 | When the entered ids all name fences, the alerts open with one entry alert per entered id, in order, carrying its fence's title. |
| Geofencing.ExitsLast | app/map.tsx:380-400 | When the exited ids name fences too, the exit alerts follow, one per exited id, in order, carrying its fence's title, and nothing else follows. |
| Geofencing.EveryEntryAlerted | app/map.tsx:380-389 | Every entered id names a fence, and the alerts open with one entry alert per entered id, in order, carrying the title of that id's fence. |
| Geofencing.ExitsOfCheck | app/map.tsx:372-400 | When the active and previous ids all name fences, the entry alerts are followed by one exit alert per exited id, in order, carrying that fence's title, and nothing else. |
| Geofencing.EveryExitAlerted | app/map.tsx:380-400 | When every previous id names a fence, the entry alerts are followed by one exit alert per exited id, in order, carrying that fence's title, and there are no other alerts. |
| Geofencing.EntryMessageNamesFence | app/map.tsx:380-389 | The message for the k-th entered fence opens with "You entered the" and contains that fence's title. |
| Geofencing.ExitMessageNamesFence | app/map.tsx:391-400 | When every previous id names a fence, the message for the k-th exited fence opens with "You left the" and contains that fence's title. |
| Geofencing.WatchedCheckForgetsActive | app/map.tsx:318-352 | The location watcher's check always compares against the empty list of the first render. So every fence the user is inside counts as entered and raises an entry alert on every update, and no exit is ever reported. |
| Geofencing.MarkerColor | app/map.tsx:460-473 | Venues, studios and festivals get their own colours. Every other kind gets the Spotify green. |
| CameraCrop.InitialEditor | components/CameraWithFilters.tsx:19-30 | The screen opens with no photo, no filter at intensity 1, rotation 0, crop mode off with the 20/20/60/60 box, no gesture in progress, and a 300 by 400 container. There is nothing to confirm. |
| CameraCrop.Rotate | components/CameraWithFilters.tsx:66-68 | A press turns by a quarter below 270 degrees and wraps at a full turn. Rotations stay below 360 and keep their remainder modulo 90. |
| CameraCrop.RotateTimesFormula | components/CameraWithFilters.tsx:66-68 | After n presses the rotation is the start plus n quarter turns, modulo 360. |
| CameraCrop.RotationsStayQuarterTurns | components/CameraWithFilters.tsx:66-68 | Starting from 0, the rotation is always 0, 90, 180 or 270. |
| CameraCrop.FourRotationsIdentity | components/CameraWithFilters.tsx:66-68 | Four presses bring any rotation below 360 back to itself. |
| CameraCrop.PressRotate | components/CameraWithFilters.tsx:66-68 | Only the rotation changes. |
| CameraCrop.Retake | components/CameraWithFilters.tsx:58-64 | The photo, the cropped photo, the rotation, crop mode and the box are reset. The filter, its intensity and the container are kept. |
| CameraCrop.ToggleCropMode | components/CameraWithFilters.tsx:70-94 | The mode flips and the box stays. A cropped photo is stored only when leaving crop mode with a photo and the pipeline succeeds. |
| CameraCrop.NearIndex | components/CameraWithFilters.tsx:108-110 | Finds the first preset within 5 of the box on both sides, or -1 when no preset is near. |
| CameraCrop.Centred | components/CameraWithFilters.tsx:115-120 | The box has the preset's size, with equal margins on both sides. |
| CameraCrop.NextCrop | components/CameraWithFilters.tsx:108-120 | The result is always a centred preset. A box near no preset becomes the first preset. |
| CameraCrop.AdjustCropSize | components/CameraWithFilters.tsx:96-124 | Outside crop mode nothing happens. Inside, only the box changes. |
| CameraCrop.NextAfterNearest | components/CameraWithFilters.tsx:108-120 | The first near preset decides: the box becomes the preset after it. |
| CameraCrop.PresetIsOwnNearest | components/CameraWithFilters.tsx:100-110 | A box of exactly a preset's size is near that preset and near no earlier one. |
| CameraCrop.NextFromPreset | components/CameraWithFilters.tsx:100-120 | From preset k, one press gives preset k+1 (cyclically), centred. |
| CameraCrop.FivePressesReturn | components/CameraWithFilters.tsx:96-124 | From a centred preset, five presses return the same editor. |
| CameraCrop.ClampPosition | components/CameraWithFilters.tsx:171-175 | The size is kept and the box stays inside the container. A requested position that already fits is taken unchanged. |
| CameraCrop.PanStart | components/CameraWithFilters.tsx:131-153 | Outside crop mode, or while resizing, nothing happens. Otherwise a drag starts, and the grab offset puts the box corner at its pixel position. |
| CameraCrop.PanMove | components/CameraWithFilters.tsx:155-178 | While dragging in crop mode, the box corner goes to the finger minus the grab offset, in percent, clamped. Otherwise nothing changes. |
| CameraCrop.PercentRoundTrip | components/CameraWithFilters.tsx:139-168 | Converting a percentage to pixels and back gives the same percentage. |
| CameraCrop.GrabWithoutMoving | components/CameraWithFilters.tsx:131-178 | Grabbing a box that lies inside the container and moving to the same point leaves the box where it was. |
| CameraCrop.TouchStart | components/CameraWithFilters.tsx:390-400 | A drag starts from the touch point without an offset, and the box is kept. |
| CameraCrop.TouchMove | components/CameraWithFilters.tsx:401-425 | The box moves by the finger's movement since the last event, clamped, and that event becomes the new reference. |
| CameraCrop.TouchMoveInPlace | components/CameraWithFilters.tsx:401-425 | A touch move that does not move leaves a box inside the container unchanged. |
| CameraCrop.PanEnd | components/CameraWithFilters.tsx:426-429 | Releasing the finger from the crop box ends the drag and keeps the box; `handleCropPanEnd` (lines 248-250 of the same file) does the same. |
| CameraCrop.ResizeStart | components/CameraWithFilters.tsx:180-191 | In crop mode a resize starts from the touch point at the given corner. Otherwise nothing changes. |
| CameraCrop.MoveNearEdge | components/CameraWithFilters.tsx:204-209 | Dragging a left or top edge puts it at the finger, and the far edge stays put. |
| CameraCrop.RawResize | components/CameraWithFilters.tsx:199-234 | Before clamping, the dragged corner's edges go to the finger and the opposite edges stay put. |
| CameraCrop.ClampSize | components/CameraWithFilters.tsx:237-238 | Both sides are at least 10. A box whose left or top edge is at most 90 ends inside the container. A size that fits is kept. |
| CameraCrop.ResizeMove | components/CameraWithFilters.tsx:193-241 | A resize in crop mode yields the clamped box, with each side at least 10. Otherwise nothing changes. |
| CameraCrop.BottomRightFollowsFinger | components/CameraWithFilters.tsx:228-238 | Dragging the bottom-right corner to a point in range makes that point the new corner. |
| CameraCrop.TopLeftKeepsFarEdges | components/CameraWithFilters.tsx:203-238 | Dragging the top-left corner within range keeps the right and bottom edges. |
| CameraCrop.ResizeEnd | components/CameraWithFilters.tsx:243-246 | The resize ends, the corner is cleared and the box is kept. |
| CameraCrop.Confirm | components/CameraWithFilters.tsx:252-266 | Without a photo there is nothing to do. Otherwise a cropped photo wins. Without one, the filter pipeline runs exactly when a filter or a rotation is set, and gets the box only in crop mode. |
| CameraCrop.RetakeLeavesNothingToConfirm | components/CameraWithFilters.tsx:58-64 | After a retake, confirming does nothing. |
| SeqUtil.Filter | app/playlist.tsx:44 | `filter` keeps exactly the elements that pass the test, each as often as in the input, in order. It keeps everything when all pass and nothing when none pass. |
| SeqUtil.SubsequenceKeepsDistinct | app/map.tsx:372-377 | A subsequence of a list without repeats has no repeats. |
| Artists.ArtistIdsDistinct | data/artists.ts:16-104 | The eight artists have pairwise distinct ids. |
| Artists.FindById | data/artists.ts:107-109 | Finds the first artist with the id, or none when no artist has it. |
| Artists.FindEachEntry | data/artists.ts:107-109 | With distinct ids, the lookup of an entry's id returns that entry. |
| Artists.LookupEachArtist | data/artists.ts:107-109 | `getArtistById` returns each artist of the table for its id. |
| Artists.GetAllArtists | data/artists.ts:111-113 | Returns the whole table in order. |
| Artists.SongsById | data/artists.ts:115-118 | Returns the songs of the first artist with the id, or no songs when none has it. |
| Artists.SongsOfEachArtist | data/artists.ts:115-118 | `getSongsByArtistId` returns each artist's own songs. |
| Artists.SearchIn | data/artists.ts:120-124 | Returns exactly the artists whose lower-cased name contains the lower-cased query, each as often as in the table, in table order. |
| Artists.EmptySearchIsEverything | data/artists.ts:120-124 | The empty query returns every artist. |
| Artists.SearchIgnoresQueryCase | data/artists.ts:120-124 | Lower-casing the query first does not change the result. |
| Playlists.PlaylistIdsDistinct | data/playlists.ts:18-84 | The five playlists have pairwise distinct ids. |
| Playlists.FindById | data/playlists.ts:86-87 | Finds the first playlist with the id, or none when no playlist has it. |
| Playlists.FindEachEntry | data/playlists.ts:86-87 | With distinct ids, the lookup of an entry's id returns that entry. |
| Playlists.LookupEachPlaylist | data/playlists.ts:86-87 | `getPlaylistById` returns each playlist of the table for its id. |
| Text.Trim | app/playlist/create.tsx:192-199 | `trim` is empty exactly for all-whitespace input. Otherwise it is the input without its leading and trailing whitespace. |
| Text.TrimIdempotent | app/playlist/create.tsx:192-199 | Trimming twice gives the same result as trimming once. |
| Text.Utf16Length | app/profile-creation.tsx:63 | `length` lies between the number of characters and twice that number, and equals it when every character is in the Basic Multilingual Plane. |
| Text.Utf16LengthOfChar | app/profile-creation.tsx:63 | One character counts one UTF-16 unit in the Basic Multilingual Plane and two outside it. |
| Text.Utf16LengthAppend | app/profile-creation.tsx:63 | The length of a concatenation is the sum of the lengths, so a string counts one unit per character in the plane and two per character outside it. |
| Text.DecimalRoundTrip | contexts/AuthContext.tsx:85 | Reading back the decimal rendering of a clock value gives that value. |
| Text.DecimalInjective | contexts/AuthContext.tsx:85 | Distinct clock readings give distinct ids. |
| Text.ContainsAtOffset | data/artists.ts:122 | `includes` holds exactly when the query starts at some offset of the name. |
| Text.LowerIdempotent | data/artists.ts:122 | Lower-casing twice gives the same result as lower-casing once. |

## Left out

- Storage and files: AsyncStorage, the FileSystem copy and delete calls, and JSON are left out. A stored entry is a value. The `catch` branches that only log, or only return "Login failed" or "Signup failed", are not modelled.
- Clocks: `Date.now()` and `new Date().toISOString()` are parameters. Two readings taken in the same call (photo id and timestamp) are separate parameters.
- Geofencing.CheckGeofences: the Haversine distance test is left out. The `inside` predicate passed in stands for `distance <= radius`, because the distance uses floating-point trigonometry.
- Geofencing.CheckGeofences: `previous` is the active set that the calling closure sees. The location watcher is registered once, by an effect with no dependencies (app/map.tsx:318-352). Its callback therefore always runs the first render's `checkGeofences`, whose `activeGeofences` is the initial empty list (app/map.tsx:266). On that path every update alerts every active fence as entered again and never reports an exit; `WatchedCheckForgetsActive` states this. `SecondCheckQuiet` describes only the "current location" path (app/map.tsx:311), which reads the state of the render it was called from.
- ActiveIds: multiplicity is stated only for distinct fence ids, where no id repeats. With repeated fence ids the source lists an id once per matching fence the user is inside, and the contract does not fix that count. The app's regions have distinct ids (`RegionIdsDistinct`).
- Location tracking, permissions, map zoom and region changes are left out, because they are device and view concerns.
- Alerts, shake animations and console output appear only as booleans or error strings, where they decide behaviour.
- CameraCrop: the container size is a positive real. Layout could report a zero size, for which the handlers divide by zero. Pixel and percent values are exact reals, not floating-point numbers.
- CameraCrop.Rotate: the rotation is a natural number. The state only ever holds the values 0, 90, 180 and 270.
- CameraCrop.Confirm: returns the plan only. The call to `savePhoto`, with its metadata object, and the image-filter pipeline are outside the model. The pipeline's result in crop mode is a parameter of `ToggleCropMode`.
- Taking the picture (`handleCapture`) and the camera permission flow are left out, because they call the device.
- The GL camera, the image-filter module, the playlist naming screen and all view code are not part of this model.
- PhotoStorage.StorageCount: `totalSize` needs file sizes from the file system and is left out. Whether `getInfoAsync` throws for a uri is a parameter, and only its effect on `count` is modelled.
- PhotoStorage.GetAllPhotos: a stored entry that is not valid JSON makes the source's read fail, which it also reads as the empty list. That case is folded into `None`.
- PlaylistEditor.Step: `None` stands for the malformed object that UNDO or REDO build when they index history out of range. `StepPreservesWellFormed` shows no run from the initial state reaches it.
- Text.Lower: case-folds ASCII letters only. JavaScript's `toLowerCase` also maps non-ASCII letters, and the search query is user input. Some of those map to ASCII: KELVIN SIGN (U+212A) lower-cases to "k". So `searchArtists("\u212A")` returns The Weeknd, The Kid LAROI and Drake in the app, while `Artists.SearchIn` returns no artist for that query.
- ThemeHook.ToggleThemeMode: takes any mode. The source types its argument as light or dark only, but the settings screen also passes custom, and the reducer accepts that.
- Artists.GetArtistById, Artists.GetSongsByArtistId, Artists.SearchArtists and Playlists.GetPlaylistById: these have no contract of their own. They apply the table-generic functions `FindById`, `SongsById` and `SearchIn` to the literal table, and `LookupEachArtist`, `SongsOfEachArtist` and `LookupEachPlaylist` state their behaviour on it.
- CameraCrop.PanStart, CameraCrop.PanMove, CameraCrop.ResizeStart, CameraCrop.ResizeMove and CameraCrop.ResizeEnd: the component defines these handlers (components/CameraWithFilters.tsx:131-247) but attaches none of them to a view. The crop box is moved only by the inline touch handlers (components/CameraWithFilters.tsx:390-429), which `TouchStart`, `TouchMove` and `PanEnd` model, and no corner handle resizes it. The five are modelled as written, but no screen behaviour follows from them.
- The "Create Playlist" reducer's UNDO and REDO replace the history as well as the songs, and the model does the same (see `UndoLosesRedo`).
