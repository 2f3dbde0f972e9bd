/** The player rules of the App component (App.tsx): moving through the
    playlist, the play/pause toggle, the choice of lyrics when the song
    changes, and seeking. The playlist and the LRC text of the demo song
    are parameters. */
module Player {
  import opened Types
  import opened Lrc
  import opened LyricsPanel

  /** The song whose lyrics are parsed from the bundled LRC text. */
  const CustomSongId: string := "custom-1"

  /** The text shown for every other song. */
  const PlaceholderText: string := "Lyrics not available for this track."

  /** `playlist.findIndex(s => s.id === id)`: the first position holding a
      song with that id, or -1 when there is none. */
  function FindIndex(playlist: seq<Song>, id: string): (i: int)
    ensures -1 <= i < |playlist|
    ensures i >= 0 ==> playlist[i].id == id
    ensures forall j :: 0 <= j < |playlist| && (i == -1 || j < i) ==> playlist[j].id != id
  {
    if playlist == [] then -1
    else if playlist[0].id == id then 0
    else
      var rest := FindIndex(playlist[1..], id);
      if rest == -1 then -1 else rest + 1
  }

  /** JavaScript's `a % n` for a positive `n`: the remainder of the
      division truncated toward zero, which takes the sign of `a` (unlike
      Dafny's `%`, whose remainder is never negative). Within one period
      either side of 0 it leaves `a` alone, and one period up it subtracts
      `n` once. */
  function JsRemainder(a: int, n: int): (r: int)
    requires n > 0
    ensures -n < r < n
    ensures a >= 0 ==> r >= 0
    ensures a <= 0 ==> r <= 0
    ensures -n < a < n ==> r == a
    ensures n <= a < 2 * n ==> r == a - n
  {
    if a >= 0 then
      if a < n then ModBelow(a, n); a % n
      else if a < 2 * n then ModWrap(a, n); a % n
      else a % n
    else
      if -a < n then ModBelow(-a, n); -((-a) % n)
      else -((-a) % n)
  }

  lemma ModBelow(a: int, n: int)
    requires 0 <= a < n
    ensures a % n == a
  {
  }

  lemma ModWrap(a: int, n: int)
    requires n <= a < 2 * n
    ensures a % n == a - n
  {
    ModBelow(a - n, n);
    assert (a - n) % n == a % n;
  }

  /** `(currentIndex + 1) % playlist.length`: one song on, wrapping from
      the last song to the first; a song that is not found (-1) moves to
      the first. */
  function NextIndex(current: int, n: int): (i: int)
    requires n > 0 && -1 <= current < n
    ensures 0 <= i < n
    ensures i == if current == n - 1 then 0 else current + 1
  {
    JsRemainder(current + 1, n)
  }

  /** `(currentIndex - 1 + playlist.length) % playlist.length`: one song
      back, wrapping from the first song to the last. A song that is not
      found (-1) moves to the one before the last; with one song the
      dividend is -1 and the remainder JavaScript's -0, which indexes the
      array like 0. */
  function PrevIndex(current: int, n: int): (i: int)
    requires n > 0 && -1 <= current < n
    ensures 0 <= i < n
    ensures current >= 0 ==> i == if current == 0 then n - 1 else current - 1
    ensures current == -1 ==> i == if n >= 2 then n - 2 else 0
  {
    JsRemainder(current - 1 + n, n)
  }

  /** Previous undoes next and next undoes previous on every found index. */
  lemma NextPrevInverse(current: int, n: int)
    requires n > 0 && 0 <= current < n
    ensures PrevIndex(NextIndex(current, n), n) == current
    ensures NextIndex(PrevIndex(current, n), n) == current
  {
  }

  /** `handleNext`: the song after the current one. */
  function NextSong(playlist: seq<Song>, current: Song): (next: Song)
    requires |playlist| > 0
    ensures next in playlist
    ensures FindIndex(playlist, current.id) == -1 ==> next == playlist[0]
    ensures FindIndex(playlist, current.id) == |playlist| - 1 ==> next == playlist[0]
    ensures var i := FindIndex(playlist, current.id);
      0 <= i < |playlist| - 1 ==> next == playlist[i + 1]
  {
    playlist[NextIndex(FindIndex(playlist, current.id), |playlist|)]
  }

  /** `handlePrev`: the song before the current one. */
  function PrevSong(playlist: seq<Song>, current: Song): (prev: Song)
    requires |playlist| > 0
    ensures prev in playlist
    ensures FindIndex(playlist, current.id) == 0 ==> prev == playlist[|playlist| - 1]
    ensures var i := FindIndex(playlist, current.id);
      0 < i ==> prev == playlist[i - 1]
    ensures FindIndex(playlist, current.id) == -1 ==>
      prev == playlist[if |playlist| >= 2 then |playlist| - 2 else 0]
  {
    playlist[PrevIndex(FindIndex(playlist, current.id), |playlist|)]
  }

  /** No two songs of the playlist share an id. */
  predicate DistinctIds(playlist: seq<Song>)
  {
    forall i, j :: 0 <= i < j < |playlist| ==> playlist[i].id != playlist[j].id
  }

  /** With distinct ids, a song is found at its own position. */
  lemma FindOwnIndex(playlist: seq<Song>, k: nat)
    requires DistinctIds(playlist) && k < |playlist|
    ensures FindIndex(playlist, playlist[k].id) == k
  {
  }

  /** With distinct ids, previous undoes next and next undoes previous on
      any song of the playlist. */
  lemma PrevAfterNext(playlist: seq<Song>, k: nat)
    requires DistinctIds(playlist) && k < |playlist|
    ensures PrevSong(playlist, NextSong(playlist, playlist[k])) == playlist[k]
    ensures NextSong(playlist, PrevSong(playlist, playlist[k])) == playlist[k]
  {
    var n := |playlist|;
    FindOwnIndex(playlist, k);
    FindOwnIndex(playlist, NextIndex(k, n));
    FindOwnIndex(playlist, PrevIndex(k, n));
    NextPrevInverse(k, n);
  }

  /** `handlePlayPause`: without an audio element nothing happens; a
      playing track pauses; a paused or loading one starts playing. */
  function PlayPause(state: PlayerState, hasAudio: bool): (next: PlayerState)
    ensures !hasAudio ==> next == state
    ensures hasAudio ==> next != Loading && (next == Playing <==> state != Playing)
  {
    if !hasAudio then state
    else if state == Playing then Paused
    else Playing
  }

  /** Pressing play/pause twice returns to the start, except from loading,
      which ends up paused. */
  lemma PlayPauseTwice(state: PlayerState)
    ensures PlayPause(PlayPause(state, true), true) == if state == Loading then Paused else state
  {
  }

  /** The lyrics set when the song changes: the parsed bundled text for
      the demo song, a single placeholder line at time 0 for any other. */
  function LyricsFor(song: Song, customLrc: string): (lyrics: LyricsState)
    ensures !lyrics.isLoading && lyrics.error.None?
    ensures song.id == CustomSongId ==> lyrics.lines == LrcTimeline(customLrc)
    ensures song.id != CustomSongId ==> lyrics.lines == [SyncedLine(0, PlaceholderText)]
  {
    if song.id == CustomSongId then LyricsState(LrcTimeline(customLrc), false, None)
    else LyricsState([SyncedLine(0, PlaceholderText)], false, None)
  }

  /** The lyrics branch of the song-change effect, which runs `parseLrc`
      on the bundled text for the demo song. */
  method LoadLyrics(song: Song, customLrc: string) returns (lyrics: LyricsState)
    ensures lyrics == LyricsFor(song, customLrc)
  {
    if song.id == CustomSongId {
      var parsed := ParseLrc(customLrc);
      lyrics := LyricsState(parsed, false, None);
    } else {
      lyrics := LyricsState([SyncedLine(0, PlaceholderText)], false, None);
    }
  }

  /** Whatever the song, the lyrics set are sorted by time, so the panel's
      active line is the last line whose time has passed. */
  lemma LyricsForSorted(song: Song, customLrc: string)
    ensures SortedByTime(LyricsFor(song, customLrc).lines)
  {
  }

  /** For a song without bundled lyrics the placeholder line is active
      from the start of playback on, and nothing is active before it. */
  lemma PlaceholderActive(song: Song, customLrc: string, t: real)
    requires song.id != CustomSongId
    ensures ActiveIndex(LyricsFor(song, customLrc).lines, t) == if t >= 0.0 then 0 else -1
  {
    var lines := LyricsFor(song, customLrc).lines;
    assert Seconds(lines[0]) == 0.0;
    assert lines[1..] == [];
  }

  /** The state of the App component that the modelled rules use. The
      playlist is never replaced, so it is fixed at construction. */
  class App {
    const playlist: seq<Song>
    const customLrc: string
    var currentSong: Song
    var playerState: PlayerState
    var currentTime: real
    var lyrics: LyricsState

    /** The first render: the first song, paused, at 0, with no lyrics. */
    constructor(playlist: seq<Song>, customLrc: string)
      requires |playlist| > 0
      ensures this.playlist == playlist && this.customLrc == customLrc
      ensures currentSong == playlist[0] && playerState == Paused && currentTime == 0.0
      ensures lyrics == LyricsState([], false, None)
    {
      this.playlist := playlist;
      this.customLrc := customLrc;
      currentSong := playlist[0];
      playerState := Paused;
      currentTime := 0.0;
      lyrics := LyricsState([], false, None);
    }

    /** The song-change effect, without the audio loading: the player
        shows loading, the time goes back to 0, and the lyrics are chosen
        for the new song (the bundled text is parsed). */
    method SongChanged()
      modifies this
      ensures playerState == Loading && currentTime == 0.0
      ensures lyrics == LyricsFor(currentSong, customLrc)
      ensures currentSong == old(currentSong)
    {
      playerState := Loading;
      currentTime := 0.0;
      lyrics := LoadLyrics(currentSong, customLrc);
    }

    /** The play/pause button. */
    method TogglePlay(hasAudio: bool)
      modifies this
      ensures playerState == PlayPause(old(playerState), hasAudio)
      ensures currentSong == old(currentSong) && currentTime == old(currentTime) && lyrics == old(lyrics)
    {
      if !hasAudio {
        return;
      }
      if playerState == Playing {
        playerState := Paused;
      } else {
        playerState := Playing;
      }
    }

    /** The next button, and the end of a track. */
    method Next()
      requires |playlist| > 0
      modifies this
      ensures currentSong == NextSong(playlist, old(currentSong))
      ensures playerState == old(playerState) && currentTime == old(currentTime) && lyrics == old(lyrics)
    {
      var currentIndex := FindIndex(playlist, currentSong.id);
      var nextIndex := JsRemainder(currentIndex + 1, |playlist|);
      currentSong := playlist[nextIndex];
    }

    /** The previous button. */
    method Prev()
      requires |playlist| > 0
      modifies this
      ensures currentSong == PrevSong(playlist, old(currentSong))
      ensures playerState == old(playerState) && currentTime == old(currentTime) && lyrics == old(lyrics)
    {
      var currentIndex := FindIndex(playlist, currentSong.id);
      var prevIndex := JsRemainder(currentIndex - 1 + |playlist|, |playlist|);
      currentSong := playlist[prevIndex];
    }

    /** `handleSeek`, also reached by clicking a lyric line: the time is
        set only when there is an audio element. */
    method Seek(time: real, hasAudio: bool)
      modifies this
      ensures currentTime == if hasAudio then time else old(currentTime)
      ensures currentSong == old(currentSong) && playerState == old(playerState) && lyrics == old(lyrics)
    {
      if hasAudio {
        currentTime := time;
      }
    }
  }
}
