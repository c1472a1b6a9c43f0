/** The artist catalogue (data/artists.ts): a static table with lookup by
    id and a case-insensitive search by name. */
module Artists {
  import opened Wrappers
  import SeqUtil
  import Text

  datatype Song = Song(id: string, title: string, duration: string, album: Option<string>, year: Option<string>)

  datatype Artist = Artist(id: string, name: string, profileImage: string, songs: seq<Song>)

  function S(id: string, title: string, duration: string, album: string, year: string): Song {
    Song(id, title, duration, Some(album), Some(year))
  }

  /** `artists`. */
  const Table: seq<Artist> := [
    Artist("1", "The Weeknd", "Spotify/assets/artist/Weeknd.png", [
      S("song1", "Blinding Lights", "3:20", "After Hours", "2020"),
      S("song2", "Save Your Tears", "3:35", "After Hours", "2020"),
      S("song3", "Starboy", "3:50", "Starboy", "2016"),
      S("song4", "Can't Feel My Face", "3:34", "Beauty Behind the Madness", "2015")]),
    Artist("2", "Dua Lipa", "Spotify/assets/artist/Dua.png", [
      S("song5", "Levitating", "3:23", "Future Nostalgia", "2020"),
      S("song6", "Don't Start Now", "3:01", "Future Nostalgia", "2020"),
      S("song7", "Physical", "3:13", "Future Nostalgia", "2020"),
      S("song8", "New Rules", "3:29", "Dua Lipa", "2017")]),
    Artist("3", "Olivia Rodrigo", "Spotify/assets/artist/Olivia.jpg", [
      S("song9", "Good 4 U", "2:58", "SOUR", "2021"),
      S("song10", "drivers license", "4:02", "SOUR", "2021"),
      S("song11", "deja vu", "3:35", "SOUR", "2021"),
      S("song12", "brutal", "2:23", "SOUR", "2021")]),
    Artist("4", "The Kid LAROI", "Spotify/assets/artist/LAROI.jpg", [
      S("song13", "Stay", "2:21", "Stay", "2021"),
      S("song14", "WITHOUT YOU", "2:35", "F*CK LOVE 3", "2021"),
      S("song15", "SO DONE", "2:44", "F*CK LOVE 3", "2021")]),
    Artist("5", "Justin Bieber", "Spotify/assets/artist/Justin.jpeg", [
      S("song16", "Peaches", "3:18", "Justice", "2021"),
      S("song17", "Sorry", "3:20", "Purpose", "2015"),
      S("song18", "Love Yourself", "3:53", "Purpose", "2015"),
      S("song19", "What Do You Mean?", "3:26", "Purpose", "2015")]),
    Artist("6", "Taylor Swift", "Spotify/assets/artist/Taylor.jpg", [
      S("song20", "Anti-Hero", "3:20", "Midnights", "2022"),
      S("song21", "Shake It Off", "3:39", "1989", "2014"),
      S("song22", "Blank Space", "3:51", "1989", "2014"),
      S("song23", "Lavender Haze", "3:22", "Midnights", "2022")]),
    Artist("7", "Drake", "Spotify/assets/artist/Drake.jpg", [
      S("song24", "God's Plan", "3:18", "Scorpion", "2018"),
      S("song25", "Hotline Bling", "4:27", "Views", "2016"),
      S("song26", "One Dance", "2:54", "Views", "2016"),
      S("song27", "In My Feelings", "3:37", "Scorpion", "2018")]),
    Artist("8", "Billie Eilish", "Spotify/assets/artist/Billie.jpg", [
      S("song28", "bad guy", "3:14", "When We All Fall Asleep, Where Do We Go?", "2019"),
      S("song29", "everything i wanted", "4:03", "When We All Fall Asleep, Where Do We Go?", "2019"),
      S("song30", "ocean eyes", "3:20", "Don't Smile at Me", "2017"),
      S("song31", "lovely", "3:20", "lovely", "2018")])
  ]

  predicate IdsDistinct(table: seq<Artist>) {
    forall i, j :: 0 <= i < j < |table| ==> table[i].id != table[j].id
  }

  /** The artists' ids are pairwise distinct. */
  lemma ArtistIdsDistinct()
    ensures IdsDistinct(Table)
  {
  }

  /** `artists.find(artist => artist.id === id)` over a table. */
  function FindById(table: seq<Artist>, id: string): (r: Option<Artist>)
    ensures r.None? <==> forall k :: 0 <= k < |table| ==> table[k].id != id
    ensures r.Some? ==> r.value.id == id
    ensures r.Some? ==> exists k :: 0 <= k < |table| && table[k] == r.value && forall j :: 0 <= j < k ==> table[j].id != id
  {
    var r := SeqUtil.Find(table, (a: Artist) => a.id == id);
    if r.Some? then
      var k := SeqUtil.FindIndex(table, (a: Artist) => a.id == id);
      assert table[k] == r.value;
      r
    else r
  }

  /** With distinct ids, looking up the id of an entry gives that entry. */
  lemma FindEachEntry(table: seq<Artist>, k: nat)
    requires IdsDistinct(table) && k < |table|
    ensures FindById(table, table[k].id) == Some(table[k])
  {
  }

  /** `getArtistById`. */
  function GetArtistById(id: string): Option<Artist> {
    FindById(Table, id)
  }

  /** Looking up the id of any artist in the table gives that artist. */
  lemma LookupEachArtist(k: nat)
    requires k < |Table|
    ensures GetArtistById(Table[k].id) == Some(Table[k])
  {
    ArtistIdsDistinct();
    FindEachEntry(Table, k);
  }

  /** `getAllArtists`: the table itself, in table order. */
  function GetAllArtists(): (r: seq<Artist>)
    ensures r == Table
  {
    Table
  }

  /** The songs of the first artist with the id, or none when no artist
      has it. */
  function SongsById(table: seq<Artist>, id: string): (r: seq<Song>)
    ensures (forall k :: 0 <= k < |table| ==> table[k].id != id) ==> r == []
    ensures forall k :: 0 <= k < |table| && table[k].id == id && (forall j :: 0 <= j < k ==> table[j].id != id) ==>
      r == table[k].songs
  {
    match FindById(table, id)
    case None => []
    case Some(a) => a.songs
  }

  /** `getSongsByArtistId`. */
  function GetSongsByArtistId(id: string): seq<Song> {
    SongsById(Table, id)
  }

  /** In the table every id names one artist, whose songs are returned. */
  lemma SongsOfEachArtist(k: nat)
    requires k < |Table|
    ensures GetSongsByArtistId(Table[k].id) == Table[k].songs
  {
    ArtistIdsDistinct();
    FindEachEntry(Table, k);
  }

  /** The search test: the lower-cased name contains the lower-cased
      query. */
  predicate NameMatches(a: Artist, query: string) {
    Text.Contains(Text.Lower(a.name), Text.Lower(query))
  }

  /** `artists.filter(...)` with the search test, over a table: exactly the
      matching artists, in table order. */
  function SearchIn(table: seq<Artist>, query: string): (r: seq<Artist>)
    ensures forall k :: 0 <= k < |r| ==> r[k] in table && NameMatches(r[k], query)
    ensures forall k :: 0 <= k < |table| && NameMatches(table[k], query) ==> table[k] in r
    ensures SeqUtil.IsSubsequence(r, table)
    ensures forall k :: 0 <= k < |table| && NameMatches(table[k], query) ==> multiset(r)[table[k]] == multiset(table)[table[k]]
  {
    SeqUtil.Filter(table, (a: Artist) => NameMatches(a, query))
  }

  /** `searchArtists`. */
  function SearchArtists(query: string): seq<Artist> {
    SearchIn(Table, query)
  }

  /** The empty query matches every artist. */
  lemma {:induction false} EmptySearchIsEverything(table: seq<Artist>)
    ensures SearchIn(table, "") == table
  {
    forall k | 0 <= k < |table|
      ensures NameMatches(table[k], "")
    {
      Text.ContainsEmpty(Text.Lower(table[k].name));
    }
  }

  /** Search ignores the case of the query. */
  lemma SearchIgnoresQueryCase(table: seq<Artist>, query: string)
    ensures SearchIn(table, Text.Lower(query)) == SearchIn(table, query)
  {
    Text.LowerIdempotent(query);
    SeqUtil.FilterSameVerdicts(table, (a: Artist) => NameMatches(a, Text.Lower(query)), (a: Artist) => NameMatches(a, query));
  }
}

/** The featured playlists (data/playlists.ts): a static table with lookup
    by id. */
module Playlists {
  import opened Wrappers
  import SeqUtil

  datatype Track = Track(id: string, title: string, artist: string, duration: string)

  datatype Playlist = Playlist(
    id: string,
    title: string,
    description: string,
    artwork: string,
    followers: string,
    mood: string,
    tracks: seq<Track>)

  /** `playlists`. */
  const Table: seq<Playlist> := [
    Playlist("cosmic-vibes", "Cosmic Vibes", "Dreamy synths and downtempo beats for late-night focus sessions.",
      "https://images.unsplash.com/photo-1485579149621-3123dd979885?w=800", "543K", "Chillwave", [
      Track("cv-1", "Apex Orbit", "Nova", "3:48"),
      Track("cv-2", "Low Tide", "Sora", "4:12"),
      Track("cv-3", "Quartz", "Boheme", "2:59")]),
    Playlist("sunset-drive", "Sunset Drive", "Feel-good indie pop for long drives under pastel skies.",
      "https://images.unsplash.com/photo-1500530855697-b586d89ba3ee?w=800", "1.2M", "Indie Pop", [
      Track("sd-1", "Neon Coast", "Harbor", "3:05"),
      Track("sd-2", "Passenger Seat", "Lume", "3:58"),
      Track("sd-3", "Clementine", "Atlas Youth", "4:21")]),
    Playlist("pulse-room", "Pulse Room", "High-energy electronic cuts to keep the heartbeat racing.",
      "https://images.unsplash.com/photo-1506157786151-b8491531f063?w=800", "789K", "EDM", [
      Track("pr-1", "Voltage", "Skywave", "2:57"),
      Track("pr-2", "Ultralight", "Kasai", "3:36"),
      Track("pr-3", "Glasshouse", "Vanta", "4:05")]),
    Playlist("coffeehouse-corners", "Coffeehouse Corners", "Acoustic storytellers for cozy, rainy-day afternoons.",
      "https://images.unsplash.com/photo-1498050108023-c5249f4df085?w=800", "312K", "Acoustic", [
      Track("cc-1", "Tender Lines", "Maeve", "3:11"),
      Track("cc-2", "Chamomile", "Habitat", "4:19"),
      Track("cc-3", "Storybook", "Rivers", "3:55")]),
    Playlist("midnight-muse", "Midnight Muse", "Lo-fi textures and muted drums for study, sleep, or unwinding.",
      "https://images.unsplash.com/photo-1498050108023-c5249f4df085?w=600", "2.4M", "Lo-Fi", [
      Track("mm-1", "Lamplight", "Kana", "2:31"),
      Track("mm-2", "Ink & Paper", "Soft Focus", "3:02"),
      Track("mm-3", "Across The Hall", "Tapes", "2:48")])
  ]

  predicate IdsDistinct(table: seq<Playlist>) {
    forall i, j :: 0 <= i < j < |table| ==> table[i].id != table[j].id
  }

  /** The playlists' ids are pairwise distinct. */
  lemma PlaylistIdsDistinct()
    ensures IdsDistinct(Table)
  {
    // The third characters of the ids already differ.
    forall i, j | 0 <= i < j < |Table|
      ensures Table[i].id != Table[j].id
    {
      assert Table[i].id[2] != Table[j].id[2];
    }
  }

  /** `playlists.find((playlist) => playlist.id === playlistId)` over a
      table. */
  function FindById(table: seq<Playlist>, id: string): (r: Option<Playlist>)
    ensures r.None? <==> forall k :: 0 <= k < |table| ==> table[k].id != id
    ensures r.Some? ==> r.value.id == id
    ensures r.Some? ==> exists k :: 0 <= k < |table| && table[k] == r.value && forall j :: 0 <= j < k ==> table[j].id != id
  {
    var r := SeqUtil.Find(table, (p: Playlist) => p.id == id);
    if r.Some? then
      var k := SeqUtil.FindIndex(table, (p: Playlist) => p.id == id);
      assert table[k] == r.value;
      r
    else r
  }

  /** With distinct ids, looking up the id of an entry gives that entry. */
  lemma FindEachEntry(table: seq<Playlist>, k: nat)
    requires IdsDistinct(table) && k < |table|
    ensures FindById(table, table[k].id) == Some(table[k])
  {
  }

  /** `getPlaylistById`. */
  function GetPlaylistById(id: string): Option<Playlist> {
    FindById(Table, id)
  }

  /** Looking up the id of any playlist in the table gives that playlist. */
  lemma LookupEachPlaylist(k: nat)
    requires k < |Table|
    ensures GetPlaylistById(Table[k].id) == Some(Table[k])
  {
    PlaylistIdsDistinct();
    FindEachEntry(Table, k);
  }
}
