/** The lyrics panel (components/LyricsPanel.tsx): which timeline line is
    active at the current playback time, the `activeLineIndex` state that
    remembers it, and when the panel scrolls the active line into view. */
module LyricsPanel {
  import opened Types

  /** Playback has reached `line` at time `t` (in seconds). */
  predicate Reached(line: SyncedLine, t: real)
  {
    Seconds(line) <= t
  }

  /** The active line: the last index of the leading run of lines that
      playback has reached, or -1 when it has not reached the first line
      (or the timeline is empty). Every line up to it is reached, and the
      line right after it, if any, is not. */
  function ActiveIndex(lines: seq<SyncedLine>, t: real): (i: int)
    ensures -1 <= i < |lines|
    ensures forall j :: 0 <= j <= i ==> Reached(lines[j], t)
    ensures i + 1 < |lines| ==> !Reached(lines[i + 1], t)
  {
    if lines == [] || !Reached(lines[0], t) then -1
    else 1 + ActiveIndex(lines[1..], t)
  }

  /** The two properties in ActiveIndex's contract single it out: no other
      index has both. */
  lemma ActiveIndexUnique(lines: seq<SyncedLine>, t: real, k: int)
    requires -1 <= k < |lines|
    requires forall j :: 0 <= j <= k ==> Reached(lines[j], t)
    requires k + 1 < |lines| ==> !Reached(lines[k + 1], t)
    ensures k == ActiveIndex(lines, t)
  {
  }

  /** Later lines of a sorted timeline start no earlier. */
  lemma SortedSeconds(lines: seq<SyncedLine>, i: nat, j: nat)
    requires SortedByTime(lines) && i <= j < |lines|
    ensures Seconds(lines[i]) <= Seconds(lines[j])
  {
    assert lines[i].time <= lines[j].time;
  }

  /** On a sorted timeline the early `break` loses nothing: the active
      index is -1 exactly when playback is before the first line, and
      otherwise the lines reached are exactly those up to it, so it is the
      greatest index of a line whose time has passed. */
  lemma ActiveIndexSorted(lines: seq<SyncedLine>, t: real)
    requires SortedByTime(lines) && lines != []
    ensures ActiveIndex(lines, t) == -1 <==> t < Seconds(lines[0])
    ensures forall j :: 0 <= j < |lines| ==> (Reached(lines[j], t) <==> j <= ActiveIndex(lines, t))
  {
    var i := ActiveIndex(lines, t);
    forall j | 0 <= j < |lines| && i < j
      ensures !Reached(lines[j], t)
    {
      SortedSeconds(lines, i + 1, j);
    }
  }

  /** The active index never moves back while time moves forward, whether
      or not the timeline is sorted. */
  lemma {:induction false} ActiveIndexMonotone(lines: seq<SyncedLine>, t1: real, t2: real)
    requires t1 <= t2
    ensures ActiveIndex(lines, t1) <= ActiveIndex(lines, t2)
  {
    if lines != [] && Reached(lines[0], t1) {
      ActiveIndexMonotone(lines[1..], t1, t2);
    }
  }

  /** Clicking line `k` seeks to its time; at that time the active line of
      a sorted timeline is `k` or a later line with the same time, namely
      the last one. */
  lemma SeekToLine(lines: seq<SyncedLine>, k: nat)
    requires SortedByTime(lines) && k < |lines|
    ensures var i := ActiveIndex(lines, Seconds(lines[k]));
      k <= i && lines[i].time == lines[k].time &&
      (i + 1 < |lines| ==> lines[i + 1].time > lines[k].time)
  {
    ActiveIndexSorted(lines, Seconds(lines[k]));
    var i := ActiveIndex(lines, Seconds(lines[k]));
    assert Reached(lines[k], Seconds(lines[k]));
    assert lines[k].time <= lines[i].time;
  }

  /** Between the start of line `k` and the start of a later line `k + 1`,
      line `k` is active on a sorted timeline. */
  lemma ActiveBetween(lines: seq<SyncedLine>, k: nat, t: real)
    requires SortedByTime(lines) && k < |lines|
    requires Seconds(lines[k]) <= t
    requires k + 1 < |lines| ==> t < Seconds(lines[k + 1])
    ensures ActiveIndex(lines, t) == k
  {
    forall j | 0 <= j <= k
      ensures Reached(lines[j], t)
    {
      SortedSeconds(lines, j, k);
    }
    ActiveIndexUnique(lines, t, k);
  }

  /** The `for` loop of the first effect: scan from the start, remember
      each reached line and stop at the first line not yet reached. */
  method ResolveActiveIndex(lines: seq<SyncedLine>, currentTime: real) returns (index: int)
    ensures index == ActiveIndex(lines, currentTime)
  {
    index := -1;
    var i := 0;
    while i < |lines|
      invariant 0 <= i <= |lines| && index == i - 1
      invariant forall j :: 0 <= j < i ==> Reached(lines[j], currentTime)
    {
      if Reached(lines[i], currentTime) {
        index := i;
      } else {
        break;
      }
      i := i + 1;
    }
    ActiveIndexUnique(lines, currentTime, index);
  }

  /** A JavaScript value of type `string | null` used as a condition: null
      and the empty string are falsy. */
  predicate Truthy(message: Option<string>)
  {
    message.Some? && message.value != []
  }

  /** The container of lines is on screen: the panel returns the loading
      message while loading and the error message when there is one, and
      only otherwise renders the lines. An empty message does not count. */
  function Rendered(state: LyricsState): (shown: bool)
    ensures state.isLoading ==> !shown
    ensures state.error.Some? && state.error.value != [] ==> !shown
    ensures !state.isLoading && (state.error.None? || state.error.value == []) ==> shown
  {
    if state.isLoading then false
    else if Truthy(state.error) then false
    else true
  }

  /** The panel's remembered active line. */
  class Panel {
    var activeLineIndex: int

    /** A new panel starts on line 0. */
    constructor()
      ensures activeLineIndex == 0
    {
      activeLineIndex := 0;
    }

    /** One run of the effects after the time or the timeline changed: an
        empty timeline leaves the remembered index alone; otherwise it
        becomes the active index. The scroll effect then fires when the
        index changed to a line (not -1) and the lines are on screen. */
    method Tick(state: LyricsState, currentTime: real) returns (scrolled: bool)
      modifies this
      ensures state.lines == [] ==> activeLineIndex == old(activeLineIndex)
      ensures state.lines != [] ==> activeLineIndex == ActiveIndex(state.lines, currentTime)
      ensures scrolled <==> activeLineIndex != old(activeLineIndex) && activeLineIndex >= 0 && Rendered(state)
    {
      var previous := activeLineIndex;
      if |state.lines| > 0 {
        activeLineIndex := ResolveActiveIndex(state.lines, currentTime);
      }
      scrolled := activeLineIndex != previous && activeLineIndex >= 0 && Rendered(state);
    }

    /** The effects on the panel's first render: the scroll effect runs
        once for the initial line 0 (the first child of the container,
        which is the "No Lyrics Available" note when the timeline is
        empty), then again if the first effect moved the index to a later
        line. Returns the children scrolled to, in order. */
    method Mount(state: LyricsState, currentTime: real) returns (scrolls: seq<nat>)
      requires activeLineIndex == 0
      modifies this
      ensures state.lines == [] ==> activeLineIndex == 0
      ensures state.lines != [] ==> activeLineIndex == ActiveIndex(state.lines, currentTime)
      ensures scrolls == if Rendered(state) then [0] + (if activeLineIndex > 0 then [activeLineIndex] else []) else []
    {
      scrolls := if Rendered(state) then [0] else [];
      var moved := Tick(state, currentTime);
      if moved {
        scrolls := scrolls + [activeLineIndex];
      }
    }
  }
}
