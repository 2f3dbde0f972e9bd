/** The records of the player (types.ts), plus the small helpers every
    other module shares: an Option for TypeScript's `T | null`, the
    seconds a timeline entry stands for, and the sortedness of a timeline. */
module Types {

  datatype Option<T> = None | Some(value: T)

  /** A track of the playlist. Only `id` takes part in the modelled logic;
      the optional `duration` field is not part of this model. */
  datatype Song = Song(id: string, title: string, artist: string, coverUrl: string, audioUrl: string)

  /** The transport state shown by the controls. */
  datatype PlayerState = Paused | Playing | Loading

  /** One timed lyric line. `time` is kept in exact hundredths of a second:
      the parser only ever produces `MM*60 + SS + FF/100` seconds. */
  datatype SyncedLine = SyncedLine(time: nat, text: string)

  /** What the lyrics panel is given: the timeline, a loading flag and an
      optional error message. */
  datatype LyricsState = LyricsState(lines: seq<SyncedLine>, isLoading: bool, error: Option<string>)

  /** The playback second at which a line becomes active. */
  function Seconds(line: SyncedLine): real
  {
    line.time as real / 100.0
  }

  /** A timeline is sorted when times never decrease along it. */
  predicate SortedByTime(lines: seq<SyncedLine>)
  {
    forall i, j :: 0 <= i < j < |lines| ==> lines[i].time <= lines[j].time
  }
}
