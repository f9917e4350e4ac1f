/**
 * The player store of the web client: the track list, the current track,
 * the play flag, the loop mode, the play history, the blob URL of the loaded
 * audio and the state of the `<audio>` element it drives.
 *
 * Fetching the audio and the element's `play()` are outside the store: each
 * operation that uses them is given the blob URL the fetch produced (or
 * `None` when it failed) and whether `play()` resolved. An `async` operation
 * is modelled as running to completion before the next one starts.
 */
module Player {
  import opened Base

  /** The fields of a track the store looks at. */
  datatype Track = Track(id: string, title: Option<string>)

  datatype LoopMode = NoLoop | LoopOne | LoopAll

  /** The order `toggleLoopMode` cycles through. */
  const Modes: seq<LoopMode> := [NoLoop, LoopOne, LoopAll]

  function ModeIndex(m: LoopMode): (i: int)
    ensures 0 <= i < |Modes| && Modes[i] == m
  {
    match m
    case NoLoop => 0
    case LoopOne => 1
    case LoopAll => 2
  }

  /** `modes[(modes.indexOf(mode) + 1) % modes.length]`. */
  function NextMode(m: LoopMode): LoopMode
  {
    Modes[(ModeIndex(m) + 1) % |Modes|]
  }

  /** The cycle is none, one, all, none: every mode is visited and three steps come back. */
  lemma LoopModeCycle(m: LoopMode)
    ensures NextMode(NoLoop) == LoopOne && NextMode(LoopOne) == LoopAll && NextMode(LoopAll) == NoLoop
    ensures NextMode(m) != m && NextMode(NextMode(NextMode(m))) == m
  {
  }

  // ---------------------------------------------------------------- list navigation

  /** `findIndex(m => m.id === id)`: the first position with that id, or -1. */
  function FindIndex(list: seq<Track>, id: string): (i: int)
    ensures -1 <= i < |list|
    ensures i >= 0 ==> list[i].id == id && forall j :: 0 <= j < i ==> list[j].id != id
    ensures i == -1 <==> forall j :: 0 <= j < |list| ==> list[j].id != id
  {
    if list == [] then -1
    else if list[0].id == id then 0
    else
      var k := FindIndex(list[1..], id);
      if k == -1 then -1 else k + 1
  }

  /** `(currentIndex + 1) % length`; `currentIndex` is never below -1. */
  function NextIndex(current: int, length: int): (i: int)
    requires -1 <= current < length && 0 < length
    ensures 0 <= i < length
    ensures current == -1 ==> i == 0
    ensures current == length - 1 ==> i == 0
    ensures 0 <= current < length - 1 ==> i == current + 1
  {
    (current + 1) % length
  }

  /** `currentIndex > 0 ? currentIndex - 1 : length - 1`. */
  function PrevIndex(current: int, length: int): (i: int)
    requires -1 <= current < length && 0 < length
    ensures 0 <= i < length
    ensures current <= 0 ==> i == length - 1
    ensures current > 0 ==> i == current - 1
  {
    if current > 0 then current - 1 else length - 1
  }

  /** Going to the next track and then to the previous one comes back, for a track that is in the list. */
  lemma NextThenPrev(current: int, length: int)
    requires 0 <= current < length
    ensures PrevIndex(NextIndex(current, length), length) == current
    ensures NextIndex(PrevIndex(current, length), length) == current
  {
  }

  // ---------------------------------------------------------------- history

  const HistoryLimit := 50

  predicate HasId(h: seq<Track>, id: string)
  {
    exists i :: 0 <= i < |h| && h[i].id == id
  }

  /** No two entries share an id. */
  predicate UniqueIds(h: seq<Track>)
  {
    forall i, j :: 0 <= i < j < |h| ==> h[i].id != h[j].id
  }

  /**
   * The history update of `loadMusic`: a track whose id is absent goes to the
   * front, and the list is cut back to its first 50 entries.
   */
  function AddToHistory(h: seq<Track>, m: Track): seq<Track>
  {
    if HasId(h, m.id) then h
    else
      var u := [m] + h;
      if |u| > HistoryLimit then u[..HistoryLimit] else u
  }

  /**
   * A track already in the history (by id) leaves it as it is; a new one is
   * put in front of the old entries, of which at most 49 stay. The track is
   * then in the history, the cap holds and ids stay unique.
   */
  lemma AddToHistoryKeeps(h: seq<Track>, m: Track)
    ensures HasId(h, m.id) ==> AddToHistory(h, m) == h
    ensures !HasId(h, m.id) ==>
      var r := AddToHistory(h, m);
      && |r| == (if |h| + 1 > HistoryLimit then HistoryLimit else |h| + 1)
      && r[0] == m && r[1..] <= h
    ensures HasId(AddToHistory(h, m), m.id)
    ensures |h| <= HistoryLimit ==> |AddToHistory(h, m)| <= HistoryLimit
    ensures UniqueIds(h) ==> UniqueIds(AddToHistory(h, m))
  {
    var r := AddToHistory(h, m);
    if !HasId(h, m.id) {
      assert r[0].id == m.id;
      assert r[1..] == h[..|r| - 1];
      if UniqueIds(h) {
        forall i, j | 0 <= i < j < |r| ensures r[i].id != r[j].id {
          assert r[j] == h[j - 1];
          if i > 0 {
            assert r[i] == h[i - 1];
          }
        }
      }
    }
  }

  // ---------------------------------------------------------------- the store as a value

  datatype State = State(
    musicList: seq<Track>,
    currentMusic: Option<Track>,
    isPlaying: bool,
    currentTime: real,
    loopMode: LoopMode,
    playHistory: seq<Track>,
    /** `audioElement.value` is set. */
    hasAudio: bool,
    audioReady: bool,
    /** `src`, `loop` and `currentTime` of the element. */
    elementSrc: string,
    elementLoop: bool,
    elementTime: real,
    blobUrl: string,
    /** The blob URLs handed to `URL.revokeObjectURL`, in order. */
    revoked: seq<string>,
    audioLoading: bool)

  /** The state of a fresh store. */
  const Initial := State([], None, false, 0.0, NoLoop, [], false, false, "", false, 0.0, "", [], false)

  /** The errors the store's operations throw. */
  datatype Failure = FetchFailed | PlayerNotReady | NotReady | PlayRejected

  /** The message of each error; a failed fetch or `play()` rethrows the browser's own error. */
  function Message(f: Failure): string
  {
    match f
    case FetchFailed => "fetch failed"
    case PlayerNotReady => "音频播放器未就绪"
    case NotReady => "播放器未就绪"
    case PlayRejected => "play() rejected"
  }

  /** What an operation leaves behind, and the error it threw, if any. */
  datatype Step = Step(state: State, thrown: Option<Failure>)

  /** `fetchMusicList`: the records of a successful answer, or an empty list. */
  function FetchList(s: State, records: Option<seq<Track>>): State
  {
    s.(musicList := if records.Some? then records.value else [])
  }

  /** `initAudioElement(audio)`. */
  function InitAudio(s: State): State
  {
    s.(hasAudio := true, audioReady := true)
  }

  /** `cleanupBlobUrl()`, also the first step of `loadMusic`: a held blob URL is revoked and forgotten. */
  function ReleaseBlob(s: State): State
  {
    if s.blobUrl != "" then s.(revoked := s.revoked + [s.blobUrl], blobUrl := "") else s
  }

  /** `loadMusic(music, autoPlay)`: loading starts, the old blob URL is released, then the new audio is attached. */
  function Load(s: State, music: Track, autoPlay: bool, blob: Option<string>, played: bool): Step
  {
    Attach(ReleaseBlob(s.(audioLoading := true)), music, autoPlay, blob, played)
  }

  /** The rest of `loadMusic`, from the fetch on: the new blob URL and track are taken up, then shown. */
  function Attach(s: State, music: Track, autoPlay: bool, blob: Option<string>, played: bool): Step
  {
    if blob.None? then Step(s.(isPlaying := false, audioLoading := false), Some(FetchFailed))
    else Show(s.(blobUrl := blob.value, currentMusic := Some(music)), music, autoPlay, played)
  }

  /**
   * The element part of `loadMusic`: without an element it fails; otherwise
   * the blob URL becomes the source, playback starts only when asked for, the
   * element is ready and `play()` resolved, and the track enters the history.
   */
  function Show(s: State, music: Track, autoPlay: bool, played: bool): Step
  {
    if !s.hasAudio then Step(s.(isPlaying := false, audioLoading := false), Some(PlayerNotReady))
    else
      Step(s.(elementSrc := s.blobUrl, isPlaying := autoPlay && s.audioReady && played,
              playHistory := AddToHistory(s.playHistory, music), audioLoading := false), None)
  }

  /** `pauseMusic()`. */
  function Pause(s: State): State
  {
    if s.hasAudio then s.(isPlaying := false) else s
  }

  /** `resumeMusic()`. */
  function Resume(s: State, played: bool): Step
  {
    if s.hasAudio && s.blobUrl != "" then
      if played then Step(s.(isPlaying := true), None) else Step(s.(isPlaying := false), Some(PlayRejected))
    else Step(s, Some(NotReady))
  }

  /** The current track is the one asked for and its audio is loaded into the element. */
  predicate IsLoaded(s: State, music: Track)
  {
    s.currentMusic.Some? && s.currentMusic.value.id == music.id && s.blobUrl != "" && s.hasAudio
  }

  /** `playMusic(music)`. */
  function Play(s: State, music: Track, blob: Option<string>, played: bool): Step
  {
    if IsLoaded(s, music) then
      if s.isPlaying then Step(Pause(s), None) else Resume(s, played)
    else Load(s, music, true, blob, played)
  }

  /** `togglePlay()`. */
  function TogglePlay(s: State, played: bool): Step
  {
    if s.currentMusic.None? || !s.audioReady then Step(s, None)
    else if s.isPlaying then Step(Pause(s), None)
    else Resume(s, played)
  }

  /** `toggleLoopMode()`. */
  function ToggleLoop(s: State): State
  {
    var m := NextMode(s.loopMode);
    s.(loopMode := m, elementLoop := if s.hasAudio then m == LoopOne else s.elementLoop)
  }

  /** The track `playNext` plays, if any. */
  function NextTarget(s: State): Option<Track>
  {
    if s.currentMusic.None? || |s.musicList| == 0 then None
    else Some(s.musicList[NextIndex(FindIndex(s.musicList, s.currentMusic.value.id), |s.musicList|)])
  }

  /** The track `playPrevious` plays, if any. */
  function PrevTarget(s: State): Option<Track>
  {
    if s.currentMusic.None? || |s.musicList| == 0 then None
    else Some(s.musicList[PrevIndex(FindIndex(s.musicList, s.currentMusic.value.id), |s.musicList|)])
  }

  /** `playNext()`; the promise of `playMusic` is not awaited, so a failure is lost. */
  function Next(s: State, blob: Option<string>, played: bool): State
  {
    var t := NextTarget(s);
    if t.None? then s else Play(s, t.value, blob, played).state
  }

  /** `playPrevious()`. */
  function Prev(s: State, blob: Option<string>, played: bool): State
  {
    var t := PrevTarget(s);
    if t.None? then s else Play(s, t.value, blob, played).state
  }

  /** `handlePlayEnd()`. */
  function PlayEnd(s: State, blob: Option<string>, played: bool): State
  {
    if s.loopMode == LoopOne then
      if s.hasAudio then s.(elementTime := 0.0) else s
    else if s.loopMode == LoopAll && |s.musicList| > 0 then Next(s, blob, played)
    else s.(isPlaying := false, currentTime := 0.0)
  }

  // ---------------------------------------------------------------- properties of the operations

  /** The history stays capped at 50 entries with distinct ids. */
  predicate HistoryOk(s: State)
  {
    |s.playHistory| <= HistoryLimit && UniqueIds(s.playHistory)
  }

  /** The history after `loadMusic`: the track added when the load succeeded, untouched otherwise. */
  lemma LoadHistory(s: State, music: Track, autoPlay: bool, blob: Option<string>, played: bool)
    ensures var r := Load(s, music, autoPlay, blob, played);
      r.state.playHistory == if r.thrown.None? then AddToHistory(s.playHistory, music) else s.playHistory
  {
    assert ReleaseBlob(s).playHistory == s.playHistory;
  }

  lemma LoadKeepsHistory(s: State, music: Track, autoPlay: bool, blob: Option<string>, played: bool)
    requires HistoryOk(s)
    ensures HistoryOk(Load(s, music, autoPlay, blob, played).state)
  {
    LoadHistory(s, music, autoPlay, blob, played);
    AddToHistoryKeeps(s.playHistory, music);
  }

  lemma PlayKeepsHistory(s: State, music: Track, blob: Option<string>, played: bool)
    requires HistoryOk(s)
    ensures HistoryOk(Play(s, music, blob, played).state)
  {
    if !IsLoaded(s, music) {
      LoadKeepsHistory(s, music, true, blob, played);
    }
  }

  lemma NavigationKeepsHistory(s: State, blob: Option<string>, played: bool)
    requires HistoryOk(s)
    ensures HistoryOk(Next(s, blob, played)) && HistoryOk(Prev(s, blob, played))
  {
    if NextTarget(s).Some? {
      PlayKeepsHistory(s, NextTarget(s).value, blob, played);
    }
    if PrevTarget(s).Some? {
      PlayKeepsHistory(s, PrevTarget(s).value, blob, played);
    }
  }

  lemma PlayEndKeepsHistory(s: State, blob: Option<string>, played: bool)
    requires HistoryOk(s)
    ensures HistoryOk(PlayEnd(s, blob, played))
  {
    if s.loopMode == LoopAll && |s.musicList| > 0 {
      NavigationKeepsHistory(s, blob, played);
    }
  }

  lemma ToggleKeepsHistory(s: State, played: bool)
    requires HistoryOk(s)
    ensures HistoryOk(TogglePlay(s, played).state)
  {
  }

  /** Every operation of the store keeps the history capped and duplicate-free. */
  lemma OperationsKeepHistory(s: State, music: Track, autoPlay: bool, blob: Option<string>, played: bool, records: Option<seq<Track>>)
    requires HistoryOk(s)
    ensures HistoryOk(Load(s, music, autoPlay, blob, played).state)
    ensures HistoryOk(Play(s, music, blob, played).state)
    ensures HistoryOk(TogglePlay(s, played).state)
    ensures HistoryOk(Next(s, blob, played)) && HistoryOk(Prev(s, blob, played))
    ensures HistoryOk(PlayEnd(s, blob, played))
    ensures HistoryOk(ToggleLoop(s)) && HistoryOk(Pause(s)) && HistoryOk(InitAudio(s)) && HistoryOk(FetchList(s, records))
  {
    LoadKeepsHistory(s, music, autoPlay, blob, played);
    PlayKeepsHistory(s, music, blob, played);
    NavigationKeepsHistory(s, blob, played);
    PlayEndKeepsHistory(s, blob, played);
    ToggleKeepsHistory(s, played);
  }

  /**
   * `loadMusic` revokes the old blob URL first. When it succeeds the track is
   * current, its audio is in the element, it is in the history (at the front
   * if it was not there before), and it plays exactly when auto-play was
   * asked, the element is ready and `play()` resolved. When it fails nothing
   * plays and loading is over.
   */
  lemma LoadSpec(s: State, music: Track, autoPlay: bool, blob: Option<string>, played: bool)
    ensures var r := Load(s, music, autoPlay, blob, played);
      && !r.state.audioLoading
      && r.state.revoked == s.revoked + (if s.blobUrl != "" then [s.blobUrl] else [])
      && (r.thrown.None? <==> blob.Some? && s.hasAudio)
      && (r.thrown.Some? ==> !r.state.isPlaying && r.state.playHistory == s.playHistory)
      && (r.thrown.None? ==>
            && r.state.currentMusic == Some(music) && r.state.blobUrl == blob.value && r.state.elementSrc == blob.value
            && HasId(r.state.playHistory, music.id)
            && (!HasId(s.playHistory, music.id) ==> r.state.playHistory[0] == music)
            && (r.state.isPlaying <==> autoPlay && s.audioReady && played))
  {
    var s1 := ReleaseBlob(s);
    assert s1.revoked == s.revoked + (if s.blobUrl != "" then [s.blobUrl] else []);
    assert s1.playHistory == s.playHistory && s1.hasAudio == s.hasAudio && s1.audioReady == s.audioReady;
    AddToHistoryKeeps(s.playHistory, music);
  }

  /** `playMusic` on the track already loaded toggles it instead of reloading, exactly as `togglePlay` does. */
  lemma PlayLoadedToggles(s: State, music: Track, blob: Option<string>, played: bool)
    requires IsLoaded(s, music) && s.audioReady
    ensures Play(s, music, blob, played) == TogglePlay(s, played)
    ensures Play(s, music, blob, played).state.playHistory == s.playHistory
    ensures s.isPlaying ==> !Play(s, music, blob, played).state.isPlaying
    ensures !s.isPlaying ==> (Play(s, music, blob, played).state.isPlaying <==> played)
  {
  }

  /** `togglePlay` does nothing without a current track or a ready element; otherwise it flips the play flag when `play()` resolves. */
  lemma TogglePlaySpec(s: State, played: bool)
    ensures s.currentMusic.None? || !s.audioReady ==> TogglePlay(s, played) == Step(s, None)
    ensures s.currentMusic.Some? && s.audioReady && s.hasAudio && s.blobUrl != "" && (s.isPlaying || played) ==>
      TogglePlay(s, played).state == s.(isPlaying := !s.isPlaying) && TogglePlay(s, played).thrown.None?
  {
  }

  /** After `toggleLoopMode` the element loops exactly when the mode is 'one'. */
  lemma ToggleLoopSpec(s: State)
    ensures ToggleLoop(s).loopMode == NextMode(s.loopMode)
    ensures s.hasAudio ==> (ToggleLoop(s).elementLoop <==> ToggleLoop(s).loopMode == LoopOne)
    ensures ToggleLoop(ToggleLoop(ToggleLoop(s))).loopMode == s.loopMode
  {
    LoopModeCycle(s.loopMode);
  }

  /**
   * `playNext` and `playPrevious` do nothing without a current track or with
   * an empty list; otherwise they play a track of the list: the following
   * (or preceding) one, wrapping around, and the first (or last) one when the
   * current track is not in the list.
   */
  lemma NavigationSpec(s: State, blob: Option<string>, played: bool)
    ensures s.currentMusic.None? || |s.musicList| == 0 ==> Next(s, blob, played) == s && Prev(s, blob, played) == s
    ensures NextTarget(s).Some? ==> NextTarget(s).value in s.musicList && Next(s, blob, played) == Play(s, NextTarget(s).value, blob, played).state
    ensures PrevTarget(s).Some? ==> PrevTarget(s).value in s.musicList && Prev(s, blob, played) == Play(s, PrevTarget(s).value, blob, played).state
    ensures s.currentMusic.Some? && |s.musicList| > 0 && !HasId(s.musicList, s.currentMusic.value.id) ==>
      NextTarget(s) == Some(s.musicList[0]) && PrevTarget(s) == Some(s.musicList[|s.musicList| - 1])
    ensures s.currentMusic.Some? && |s.musicList| > 0 ==>
      var i := FindIndex(s.musicList, s.currentMusic.value.id);
      i >= 0 ==> NextTarget(s) == Some(s.musicList[(i + 1) % |s.musicList|])
  {
  }

  /**
   * `handlePlayEnd`: in mode 'one' the element is rewound to 0 and nothing
   * else changes; in mode 'all' with tracks the next one is played;
   * otherwise playing stops at time 0.
   */
  lemma PlayEndSpec(s: State, blob: Option<string>, played: bool)
    ensures s.loopMode == LoopOne && s.hasAudio ==> PlayEnd(s, blob, played) == s.(elementTime := 0.0)
    ensures s.loopMode == LoopAll && |s.musicList| > 0 ==> PlayEnd(s, blob, played) == Next(s, blob, played)
    ensures s.loopMode == NoLoop || (s.loopMode == LoopAll && |s.musicList| == 0) ==>
      !PlayEnd(s, blob, played).isPlaying && PlayEnd(s, blob, played).currentTime == 0.0
      && PlayEnd(s, blob, played).playHistory == s.playHistory && PlayEnd(s, blob, played).currentMusic == s.currentMusic
  {
  }

  // ---------------------------------------------------------------- the store

  class PlayerStore {
    var musicList: seq<Track>
    var currentMusic: Option<Track>
    var isPlaying: bool
    var currentTime: real
    var loopMode: LoopMode
    var playHistory: seq<Track>
    var hasAudio: bool
    var audioReady: bool
    var elementSrc: string
    var elementLoop: bool
    var elementTime: real
    var blobUrl: string
    var revoked: seq<string>
    var audioLoading: bool

    function Snapshot(): State
      reads this
    {
      State(musicList, currentMusic, isPlaying, currentTime, loopMode, playHistory, hasAudio, audioReady,
            elementSrc, elementLoop, elementTime, blobUrl, revoked, audioLoading)
    }

    constructor ()
      ensures Snapshot() == Initial
    {
      musicList, currentMusic, isPlaying, currentTime, loopMode, playHistory := [], None, false, 0.0, NoLoop, [];
      hasAudio, audioReady, elementSrc, elementLoop, elementTime := false, false, "", false, 0.0;
      blobUrl, revoked, audioLoading := "", [], false;
    }

    method FetchMusicList(records: Option<seq<Track>>)
      modifies this
      ensures Snapshot() == FetchList(old(Snapshot()), records)
    {
      musicList := if records.Some? then records.value else [];
    }

    method InitAudioElement()
      modifies this
      ensures Snapshot() == InitAudio(old(Snapshot()))
    {
      hasAudio := true;
      audioReady := true;
    }

    method LoadMusic(music: Track, autoPlay: bool, blob: Option<string>, played: bool) returns (r: Option<Failure>)
      modifies this
      ensures Step(Snapshot(), r) == Load(old(Snapshot()), music, autoPlay, blob, played)
    {
      audioLoading := true;
      CleanupBlobUrl();
      r := AttachAudio(music, autoPlay, blob, played);
    }

    /** The part of `loadMusic` after the old blob URL was released. */
    method AttachAudio(music: Track, autoPlay: bool, blob: Option<string>, played: bool) returns (r: Option<Failure>)
      modifies this
      ensures Step(Snapshot(), r) == Attach(old(Snapshot()), music, autoPlay, blob, played)
    {
      if blob.None? {
        isPlaying, audioLoading := false, false;
        return Some(FetchFailed);
      }
      blobUrl, currentMusic := blob.value, Some(music);
      r := SetAudioSource(music, autoPlay, played);
    }

    /** The part of `loadMusic` that hands the blob URL to the element. */
    method SetAudioSource(music: Track, autoPlay: bool, played: bool) returns (r: Option<Failure>)
      modifies this
      ensures Step(Snapshot(), r) == Show(old(Snapshot()), music, autoPlay, played)
    {
      if !hasAudio {
        isPlaying, audioLoading := false, false;
        return Some(PlayerNotReady);
      }
      elementSrc := blobUrl;
      isPlaying := autoPlay && audioReady && played;
      playHistory, audioLoading := AddToHistory(playHistory, music), false;
      return None;
    }

    method CleanupBlobUrl()
      modifies this
      ensures Snapshot() == ReleaseBlob(old(Snapshot()))
    {
      if blobUrl != "" {
        revoked := revoked + [blobUrl];
        blobUrl := "";
      }
    }

    method PauseMusic()
      modifies this
      ensures Snapshot() == Pause(old(Snapshot()))
    {
      if hasAudio {
        isPlaying := false;
      }
    }

    method ResumeMusic(played: bool) returns (r: Option<Failure>)
      modifies this
      ensures Step(Snapshot(), r) == Resume(old(Snapshot()), played)
    {
      if hasAudio && blobUrl != "" {
        if played {
          isPlaying := true;
          return None;
        }
        isPlaying := false;
        return Some(PlayRejected);
      }
      return Some(NotReady);
    }

    method PlayMusic(music: Track, blob: Option<string>, played: bool) returns (r: Option<Failure>)
      modifies this
      ensures Step(Snapshot(), r) == Play(old(Snapshot()), music, blob, played)
    {
      if currentMusic.Some? && currentMusic.value.id == music.id && blobUrl != "" && hasAudio {
        if isPlaying {
          PauseMusic();
          r := None;
        } else {
          r := ResumeMusic(played);
        }
      } else {
        r := LoadMusic(music, true, blob, played);
      }
    }

    method TogglePlayback(played: bool) returns (r: Option<Failure>)
      modifies this
      ensures Step(Snapshot(), r) == TogglePlay(old(Snapshot()), played)
    {
      if currentMusic.None? || !audioReady {
        return None;
      }
      if isPlaying {
        PauseMusic();
        r := None;
      } else {
        r := ResumeMusic(played);
      }
    }

    method ToggleLoopMode()
      modifies this
      ensures Snapshot() == ToggleLoop(old(Snapshot()))
    {
      loopMode := NextMode(loopMode);
      if hasAudio {
        elementLoop := loopMode == LoopOne;
      }
    }

    method PlayNext(blob: Option<string>, played: bool)
      modifies this
      ensures Snapshot() == Next(old(Snapshot()), blob, played)
    {
      if currentMusic.None? || |musicList| == 0 {
        return;
      }
      var currentIndex := FindIndex(musicList, currentMusic.value.id);
      var nextIndex := NextIndex(currentIndex, |musicList|);
      var _ := PlayMusic(musicList[nextIndex], blob, played);
    }

    method PlayPrevious(blob: Option<string>, played: bool)
      modifies this
      ensures Snapshot() == Prev(old(Snapshot()), blob, played)
    {
      if currentMusic.None? || |musicList| == 0 {
        return;
      }
      var currentIndex := FindIndex(musicList, currentMusic.value.id);
      var prevIndex := PrevIndex(currentIndex, |musicList|);
      var _ := PlayMusic(musicList[prevIndex], blob, played);
    }

    method HandlePlayEnd(blob: Option<string>, played: bool)
      modifies this
      ensures Snapshot() == PlayEnd(old(Snapshot()), blob, played)
    {
      if loopMode == LoopOne {
        if hasAudio {
          elementTime := 0.0;
        }
      } else if loopMode == LoopAll && |musicList| > 0 {
        PlayNext(blob, played);
      } else {
        isPlaying := false;
        currentTime := 0.0;
      }
    }
  }

  // ---------------------------------------------------------------- formatTime

  /** JavaScript's `Math.trunc` on a finite number. */
  function Trunc(x: real): int
  {
    if x >= 0.0 then x.Floor else -((-x).Floor)
  }

  /** JavaScript's `%` on numbers: the remainder takes the sign of the dividend. */
  function JsRemainder(x: real, d: real): real
    requires d != 0.0
  {
    x - d * Trunc(x / d) as real
  }

  /** `padStart(2, '0')`. */
  function PadStart2(t: string): (r: string)
    ensures |t| >= 2 ==> r == t
    ensures |t| < 2 ==> |r| == 2 && r[2 - |t|..] == t && forall i :: 0 <= i < 2 - |t| ==> r[i] == '0'
  {
    if |t| >= 2 then t else if |t| == 1 then "0" + t else "00"
  }

  /** `formatTime(seconds)`: floored minutes, a colon, and the floored JavaScript remainder by 60 padded to two characters. */
  function FormatTime(seconds: real): string
  {
    IntToString((seconds / 60.0).Floor) + ":" + PadStart2(IntToString(JsRemainder(seconds, 60.0).Floor))
  }

  /**
   * For a non-negative time the text is the whole minutes, a colon and the
   * remaining whole seconds as two digits, and it reads back as the whole
   * number of seconds.
   */
  lemma FormatTimeClock(seconds: real)
    requires seconds >= 0.0
    ensures var n := seconds.Floor;
      FormatTime(seconds) == NatToString(n / 60) + ":" + Pad2(n % 60)
      && ParseClock(FormatTime(seconds)) == Some(n)
  {
    var n := seconds.Floor;
    MinutesAndSeconds(seconds);
    PaddedSeconds(n % 60);
    ClockText(n);
  }

  /** Below 100, `padStart(2, '0')` of the decimal text is the two-digit text. */
  lemma PaddedSeconds(k: nat)
    requires k < 100
    ensures PadStart2(IntToString(k)) == Pad2(k)
  {
  }

  /** Whole minutes, ':' and two-digit seconds read back as the whole seconds. */
  lemma ClockText(n: nat)
    ensures ParseClock(NatToString(n / 60) + ":" + Pad2(n % 60)) == Some(n)
  {
    var q, r := n / 60, n % 60;
    assert q * 60 + r == n;
    var minutes := NatToString(q);
    NatToStringRoundTrip(q);
    ClockRoundTrip(minutes, q, r);
  }

  /** For a non-negative time the floored quotient and the floored remainder by 60 are those of the whole seconds. */
  lemma MinutesAndSeconds(seconds: real)
    requires seconds >= 0.0
    ensures (seconds / 60.0).Floor == seconds.Floor / 60
    ensures JsRemainder(seconds, 60.0).Floor == seconds.Floor % 60
  {
    var n := seconds.Floor;
    var q, r := n / 60, n % 60;
    assert n == 60 * q + r;
    assert q as real <= seconds / 60.0 < (q + 1) as real;
    assert Trunc(seconds / 60.0) == q;
    var rem := JsRemainder(seconds, 60.0);
    assert rem == seconds - 60.0 * q as real;
    assert r as real <= rem < (r + 1) as real;
  }

  /** A negative time keeps JavaScript's signs: -5 seconds formats as "-1:-5". */
  lemma FormatTimeNegative()
    ensures FormatTime(-5.0) == "-1:-5"
  {
    assert (-5.0 / 60.0).Floor == -1;
    assert Trunc(-5.0 / 60.0) == 0;
    assert JsRemainder(-5.0, 60.0).Floor == -5;
    assert NatToString(1) == "1" && NatToString(5) == "5";
  }
}
