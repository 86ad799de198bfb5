/**
 * The episode player (src/components/VideoPlayer.tsx): which rendition it plays, how
 * the stream is attached, episode navigation, skipping, and the component's state
 * as a class whose methods are its handlers and the media element's events.
 * hls.js, the media element and the Fullscreen API are outside the model; their
 * outcomes arrive as parameters of the methods.
 */
module VideoPlayer {
  import opened Wrappers
  import opened JsBuiltins
  import opened Api

  // ---------------------------------------------------------------------------
  // getVideoUrl
  // ---------------------------------------------------------------------------

  /** A rendition the player prefers: 720p and marked as the default. */
  predicate IsPreferred(v: VideoPath) {
    v.quality == 720 && v.isDefault == 1
  }

  /** Any 720p rendition. */
  predicate Is720(v: VideoPath) {
    v.quality == 720
  }

  /** `episodes[currentIndex]`, undefined outside the array (including negative indices). */
  function CurrentEpisode(episodes: seq<Episode>, currentIndex: int): (r: Option<Episode>)
    ensures r.Some? <==> 0 <= currentIndex < |episodes|
    ensures r.Some? ==> r.value == episodes[currentIndex]
  {
    if 0 <= currentIndex < |episodes| then Some(episodes[currentIndex]) else None
  }

  /** `currentEpisode?.cdnList?.[0]?.videoPathList`: the only path list the player consults. */
  function PrimaryPathList(episodes: seq<Episode>, currentIndex: int): Option<seq<VideoPath>>
  {
    match CurrentEpisode(episodes, currentIndex)
    case None => None
    case Some(ep) =>
      match ep.cdnList
      case None => None
      case Some(cdns) => if |cdns| == 0 then None else cdns[0].videoPathList
  }

  /** `preferred || fallback || any`: the index of the chosen rendition, or -1 for an empty list. */
  function ChosenIndex(list: seq<VideoPath>): (r: int)
    ensures -1 <= r < |list| && (r == -1 <==> list == [])
    ensures (exists i :: 0 <= i < |list| && IsPreferred(list[i])) ==>
              IsPreferred(list[r]) && forall j :: 0 <= j < r ==> !IsPreferred(list[j])
    ensures (forall i :: 0 <= i < |list| ==> !IsPreferred(list[i])) && (exists i :: 0 <= i < |list| && Is720(list[i])) ==>
              Is720(list[r]) && forall j :: 0 <= j < r ==> !Is720(list[j])
    ensures (forall i :: 0 <= i < |list| ==> !Is720(list[i])) && list != [] ==> r == 0
  {
    var preferred := FindIndex(list, IsPreferred);
    var fallback := FindIndex(list, Is720);
    if preferred >= 0 then preferred
    else if fallback >= 0 then fallback
    else if |list| > 0 then 0
    else -1
  }

  /** `getVideoUrl()`: the chosen rendition's `videoPath`, or "". */
  function VideoUrl(episodes: seq<Episode>, currentIndex: int): (r: string)
    ensures r == "" || (PrimaryPathList(episodes, currentIndex).Some? &&
                        exists i :: 0 <= i < |PrimaryPathList(episodes, currentIndex).value| &&
                                    r == PrimaryPathList(episodes, currentIndex).value[i].videoPath)
  {
    match PrimaryPathList(episodes, currentIndex)
    case None => ""
    case Some(list) =>
      var k := ChosenIndex(list);
      if k == -1 then "" else list[k].videoPath
  }

  /**
   * The URL is "" when the index is outside the episode list, the episode has no first
   * CDN, or that CDN has no path list. Otherwise it is, in this order of preference, the
   * first 720p default rendition, the first 720p rendition, the first rendition, or ""
   * for an empty list; it is always some rendition's path or "".
   */
  lemma VideoUrlSelection(episodes: seq<Episode>, currentIndex: int)
    ensures !(0 <= currentIndex < |episodes|) ==> VideoUrl(episodes, currentIndex) == ""
    ensures 0 <= currentIndex < |episodes| ==>
              var cdns := episodes[currentIndex].cdnList;
              (cdns.None? || cdns.value == [] || cdns.value[0].videoPathList.None?) ==>
                VideoUrl(episodes, currentIndex) == ""
    ensures PrimaryPathList(episodes, currentIndex).Some? ==>
              var list := PrimaryPathList(episodes, currentIndex).value;
              var r := VideoUrl(episodes, currentIndex);
              && (list == [] ==> r == "")
              && (forall i :: 0 <= i < |list| && IsPreferred(list[i]) && (forall j :: 0 <= j < i ==> !IsPreferred(list[j]))
                    ==> r == list[i].videoPath)
              && ((forall j :: 0 <= j < |list| ==> !IsPreferred(list[j])) ==>
                    forall i :: 0 <= i < |list| && Is720(list[i]) && (forall j :: 0 <= j < i ==> !Is720(list[j]))
                      ==> r == list[i].videoPath)
              && ((forall j :: 0 <= j < |list| ==> !Is720(list[j])) && list != [] ==> r == list[0].videoPath)
  {
    match PrimaryPathList(episodes, currentIndex)
    case None =>
    case Some(list) =>
      var p := FindIndex(list, IsPreferred);
      var f := FindIndex(list, Is720);
      if p >= 0 {
        assert forall i :: 0 <= i < |list| && IsPreferred(list[i]) && (forall j :: 0 <= j < i ==> !IsPreferred(list[j])) ==> i == p;
      } else if f >= 0 {
        assert forall i :: 0 <= i < |list| && Is720(list[i]) && (forall j :: 0 <= j < i ==> !Is720(list[j])) ==> i == f;
      }
  }

  /** Only the first CDN is consulted: the CDNs after it never change the URL. */
  lemma VideoUrlIgnoresLaterCdns(episodes: seq<Episode>, currentIndex: int, first: Cdn, others: seq<Cdn>, others': seq<Cdn>)
    requires 0 <= currentIndex < |episodes|
    ensures var ep := episodes[currentIndex];
            VideoUrl(episodes[currentIndex := ep.(cdnList := Some([first] + others))], currentIndex)
            == VideoUrl(episodes[currentIndex := ep.(cdnList := Some([first] + others'))], currentIndex)
  {
  }

  // ---------------------------------------------------------------------------
  // Attaching the stream (the initialisation effect)
  // ---------------------------------------------------------------------------

  /**
   * What the initialisation effect does with a URL: nothing for "", hls.js for an HLS
   * playlist when hls.js is supported, else the element's native HLS when it can play
   * `application/vnd.apple.mpegurl`, else no source at all; any other URL is an MP4 source.
   */
  datatype StreamKind = NoUrl | HlsJs | NativeHls | Unplayable | Mp4

  function StreamFor(url: string, hlsSupported: bool, canPlayNativeHls: bool): (k: StreamKind)
    ensures k == NoUrl <==> url == ""
    ensures k == Mp4 <==> url != "" && !Includes(url, ".m3u8")
    ensures k == HlsJs <==> Includes(url, ".m3u8") && hlsSupported
    ensures k == NativeHls <==> Includes(url, ".m3u8") && !hlsSupported && canPlayNativeHls
    ensures k == Unplayable <==> Includes(url, ".m3u8") && !hlsSupported && !canPlayNativeHls
  {
    if url == "" then NoUrl
    else if Includes(url, ".m3u8") then
      if hlsSupported then HlsJs else if canPlayNativeHls then NativeHls else Unplayable
    else Mp4
  }

  // ---------------------------------------------------------------------------
  // Episode navigation and skipping
  // ---------------------------------------------------------------------------

  /** `goToNextEpisode` and `handleEnded`: the index requested from the page, if any. */
  function NextRequest(currentIndex: int, count: nat): Option<int>
  {
    if currentIndex < count - 1 then Some(currentIndex + 1) else None
  }

  /** `goToPrevEpisode`: the index requested from the page, if any. */
  function PrevRequest(currentIndex: int): Option<int>
  {
    if currentIndex > 0 then Some(currentIndex - 1) else None
  }

  /** `disabled={currentIndex === 0}` on the previous-episode button. */
  predicate PrevDisabled(currentIndex: int) {
    currentIndex == 0
  }

  /** `disabled={currentIndex >= episodes.length - 1}` on the next-episode button. */
  predicate NextDisabled(currentIndex: int, count: nat) {
    currentIndex >= count - 1
  }

  /**
   * Next requests `currentIndex + 1` only below the last index and previous requests
   * `currentIndex - 1` only above 0; from an index inside the list every request stays
   * inside it, and from a non-negative index no request is negative. Each button is
   * disabled exactly where its handler does nothing (for the previous button this needs
   * a non-negative index: at -1 it is enabled yet requests nothing).
   */
  lemma NavigationBounds(currentIndex: int, count: nat)
    ensures NextRequest(currentIndex, count).Some? ==> NextRequest(currentIndex, count).value == currentIndex + 1
    ensures PrevRequest(currentIndex).Some? ==> PrevRequest(currentIndex).value == currentIndex - 1
    ensures 0 <= currentIndex < count ==>
              (NextRequest(currentIndex, count).Some? ==> 0 <= NextRequest(currentIndex, count).value < count) &&
              (PrevRequest(currentIndex).Some? ==> 0 <= PrevRequest(currentIndex).value < count)
    ensures 0 <= currentIndex ==>
              (NextRequest(currentIndex, count).Some? ==> NextRequest(currentIndex, count).value >= 0) &&
              (PrevRequest(currentIndex).Some? ==> PrevRequest(currentIndex).value >= 0)
    ensures NextDisabled(currentIndex, count) <==> NextRequest(currentIndex, count).None?
    ensures 0 <= currentIndex ==> (PrevDisabled(currentIndex) <==> PrevRequest(currentIndex).None?)
    ensures !PrevDisabled(-1) && PrevRequest(-1).None?
  {
  }

  /** The skip step of both skip buttons, in seconds. */
  const SkipSeconds: real := 10.0

  /** `Math.min(currentTime + 10, duration)`. */
  function SkipForwardTime(t: real, duration: real): (r: real)
    ensures r <= duration && r <= t + SkipSeconds
    ensures r == duration || r == t + SkipSeconds
  {
    if t + SkipSeconds < duration then t + SkipSeconds else duration
  }

  /** `Math.max(currentTime - 10, 0)`. */
  function SkipBackwardTime(t: real): (r: real)
    ensures r >= 0.0 && r >= t - SkipSeconds
    ensures r == 0.0 || r == t - SkipSeconds
  {
    if t - SkipSeconds > 0.0 then t - SkipSeconds else 0.0
  }

  /**
   * Skips keep a position inside [0, duration] inside it: forward moves on but never
   * passes the duration, backward moves back but never goes below 0.
   */
  lemma SkipStaysInRange(t: real, duration: real)
    requires 0.0 <= t <= duration
    ensures 0.0 <= SkipForwardTime(t, duration) <= duration
    ensures 0.0 <= SkipBackwardTime(t) <= duration
    ensures t <= SkipForwardTime(t, duration) && SkipBackwardTime(t) <= t
  {
  }

  /** Before the element reports a duration (it starts at 0), skipping forward goes back to 0. */
  lemma SkipForwardWithoutDuration(t: real)
    requires t >= 0.0
    ensures SkipForwardTime(t, 0.0) == 0.0
  {
  }

  // ---------------------------------------------------------------------------
  // The component's state
  // ---------------------------------------------------------------------------

  /** What `togglePlay` asks of the media element; the element answers with a play or pause event. */
  datatype MediaCommand = Play | Pause

  /** What `toggleFullscreen` asks of the document. */
  datatype FullscreenRequest = Enter | Exit

  class Player {
    /** `Hls.isSupported()` and `video.canPlayType("application/vnd.apple.mpegurl")` in this browser. */
    const hlsSupported: bool
    const canPlayNativeHls: bool

    // Props
    var episodes: seq<Episode>
    var currentIndex: int

    // State
    var isPlaying: bool
    var isMuted: bool
    var isFullscreen: bool
    var showControls: bool
    var showEpisodeList: bool
    var currentTime: real
    var duration: real
    var isLoading: bool

    // The media element and the refs
    var mediaMuted: bool          // video.muted
    var mediaTime: real           // video.currentTime
    var src: string               // video.src
    var hls: Option<string>       // hlsRef: the source loaded into the live hls.js instance
    var hideTimerArmed: bool      // controlsTimeoutRef holds a pending hide timer

    /**
     * The component's invariant: a live hls.js instance only ever holds an HLS playlist in
     * a browser that supports hls.js; `isMuted` agrees with the element; a pending hide
     * timer implies the controls are shown; times are non-negative.
     */
    ghost predicate Valid()
      reads this
    {
      && (hls.Some? ==> hlsSupported && Includes(hls.value, ".m3u8"))
      && isMuted == mediaMuted
      && (hideTimerArmed ==> showControls)
      && 0.0 <= duration && 0.0 <= mediaTime && 0.0 <= currentTime
    }

    /** Mounting: the initial state, then the initialisation effect's first run. */
    constructor (episodes: seq<Episode>, currentIndex: int, hlsSupported: bool, canPlayNativeHls: bool)
      ensures Valid()
      ensures this.episodes == episodes && this.currentIndex == currentIndex
      ensures this.hlsSupported == hlsSupported && this.canPlayNativeHls == canPlayNativeHls
      ensures !isPlaying && !isMuted && !isFullscreen && showControls && !showEpisodeList
      ensures currentTime == 0.0 && duration == 0.0 && mediaTime == 0.0 && !hideTimerArmed
      ensures AttachedAs(StreamFor(VideoUrl(episodes, currentIndex), hlsSupported, canPlayNativeHls),
                         VideoUrl(episodes, currentIndex), "", true)
    {
      this.hlsSupported := hlsSupported;
      this.canPlayNativeHls := canPlayNativeHls;
      this.episodes := episodes;
      this.currentIndex := currentIndex;
      isPlaying, isMuted, isFullscreen := false, false, false;
      showControls, showEpisodeList := true, false;
      currentTime, duration, isLoading := 0.0, 0.0, true;
      mediaMuted, mediaTime, src, hls, hideTimerArmed := false, 0.0, "", None, false;
      new;
      AttachCurrentEpisode();
    }

    /**
     * The element and hls.js after the initialisation effect attached `url` as `kind`, with
     * the element previously holding `oldSrc` and the spinner previously `oldLoading`.
     * An earlier hls.js instance is always destroyed; without a URL nothing else happens,
     * so an earlier MP4 or native source stays on the element.
     */
    ghost predicate AttachedAs(kind: StreamKind, url: string, oldSrc: string, oldLoading: bool)
      reads this
    {
      && hls == (if kind == HlsJs then Some(url) else None)
      && src == (if kind == NativeHls || kind == Mp4 then url else oldSrc)
      && isLoading == (if kind == NoUrl then oldLoading else true)
    }

    /** The initialisation effect for the current episode, after the previous run's cleanup. */
    method AttachCurrentEpisode()
      requires hls.Some? ==> hlsSupported && Includes(hls.value, ".m3u8")
      modifies this`hls, this`src, this`isLoading
      ensures hls.Some? ==> hlsSupported && Includes(hls.value, ".m3u8")
      ensures AttachedAs(StreamFor(VideoUrl(episodes, currentIndex), hlsSupported, canPlayNativeHls),
                         VideoUrl(episodes, currentIndex), old(src), old(isLoading))
    {
      hls := None;
      var url := VideoUrl(episodes, currentIndex);
      if url == "" {
        return;
      }
      isLoading := true;
      var kind := StreamFor(url, hlsSupported, canPlayNativeHls);
      match kind {
        case HlsJs => hls := Some(url);
        case NativeHls => src := url;
        case Mp4 => src := url;
        case Unplayable =>
        case NoUrl =>
      }
    }

    /**
     * The page re-renders with new props. The initialisation effect runs again when the
     * current episode changed (compared by value here, by identity in React).
     */
    method ReceiveProps(newEpisodes: seq<Episode>, newIndex: int)
      requires Valid()
      modifies this
      ensures Valid()
      ensures episodes == newEpisodes && currentIndex == newIndex
      ensures var changed := CurrentEpisode(newEpisodes, newIndex) != CurrentEpisode(old(episodes), old(currentIndex));
              if changed then
                AttachedAs(StreamFor(VideoUrl(newEpisodes, newIndex), hlsSupported, canPlayNativeHls),
                           VideoUrl(newEpisodes, newIndex), old(src), old(isLoading))
              else hls == old(hls) && src == old(src) && isLoading == old(isLoading)
      ensures isPlaying == old(isPlaying) && isMuted == old(isMuted) && mediaMuted == old(mediaMuted)
      ensures isFullscreen == old(isFullscreen) && showControls == old(showControls)
      ensures showEpisodeList == old(showEpisodeList) && hideTimerArmed == old(hideTimerArmed)
      ensures currentTime == old(currentTime) && duration == old(duration) && mediaTime == old(mediaTime)
    {
      var changed := CurrentEpisode(newEpisodes, newIndex) != CurrentEpisode(episodes, currentIndex);
      episodes, currentIndex := newEpisodes, newIndex;
      if changed {
        AttachCurrentEpisode();
      }
    }

    /** The attached source is ready (hls.js MANIFEST_PARSED, loadedmetadata or loadeddata): the spinner goes and `play()` is called; a rejected `play()` clears `isPlaying`. */
    method OnSourceReady(playRejected: bool)
      requires Valid()
      modifies this`isLoading, this`isPlaying
      ensures Valid()
      ensures !isLoading
      ensures isPlaying == (if playRejected then false else old(isPlaying))
    {
      isLoading := false;
      if playRejected {
        isPlaying := false;
      }
    }

    /** The element's `play` event. */
    method OnPlay()
      requires Valid()
      modifies this`isPlaying
      ensures Valid() && isPlaying
    {
      isPlaying := true;
    }

    /** The element's `pause` event. */
    method OnPause()
      requires Valid()
      modifies this`isPlaying
      ensures Valid() && !isPlaying
    {
      isPlaying := false;
    }

    /** The element's `timeupdate` event, reporting its position `t`. */
    method OnTimeUpdate(t: real)
      requires Valid() && t >= 0.0
      modifies this`mediaTime, this`currentTime
      ensures Valid() && mediaTime == t && currentTime == t
    {
      mediaTime, currentTime := t, t;
    }

    /** The element's `durationchange` event. */
    method OnDurationChange(d: real)
      requires Valid() && d >= 0.0
      modifies this`duration
      ensures Valid() && duration == d
    {
      duration := d;
    }

    /** The element's `waiting` event. */
    method OnWaiting()
      requires Valid()
      modifies this`isLoading
      ensures Valid() && isLoading
    {
      isLoading := true;
    }

    /** The element's `canplay` event. */
    method OnCanPlay()
      requires Valid()
      modifies this`isLoading
      ensures Valid() && !isLoading
    {
      isLoading := false;
    }

    /** The element's `ended` event: the index requested from the page, if any. */
    method OnEnded() returns (request: Option<int>)
      ensures request == NextRequest(currentIndex, |episodes|)
      ensures request.Some? ==> request.value == currentIndex + 1 && currentIndex < |episodes| - 1
      ensures 0 <= currentIndex < |episodes| && request.Some? ==> request.value < |episodes|
    {
      request := if currentIndex < |episodes| - 1 then Some(currentIndex + 1) else None;
    }

    /** `goToNextEpisode`. */
    method GoToNextEpisode() returns (request: Option<int>)
      ensures request == NextRequest(currentIndex, |episodes|)
      ensures request.None? <==> NextDisabled(currentIndex, |episodes|)
    {
      request := OnEnded();
      NavigationBounds(currentIndex, |episodes|);
    }

    /** `goToPrevEpisode`. */
    method GoToPrevEpisode() returns (request: Option<int>)
      ensures request == PrevRequest(currentIndex)
      ensures request.Some? ==> request.value == currentIndex - 1 && request.value >= 0
      ensures currentIndex >= 0 ==> (request.None? <==> PrevDisabled(currentIndex))
    {
      request := if currentIndex > 0 then Some(currentIndex - 1) else None;
    }

    /** `resetControlsTimeout` on this render: cancel the pending timer, show the controls, and arm a new timer only while playing with the list closed. */
    method ResetControlsTimeout()
      requires Valid()
      modifies this`showControls, this`hideTimerArmed
      ensures Valid()
      ensures showControls
      ensures hideTimerArmed == (isPlaying && !showEpisodeList)
    {
      showControls := true;
      hideTimerArmed := isPlaying && !showEpisodeList;
    }

    /** The hide timer fires: the controls are hidden. Nothing happens without a pending timer. */
    method FireHideTimer()
      requires Valid()
      modifies this`showControls, this`hideTimerArmed
      ensures Valid()
      ensures !hideTimerArmed
      ensures showControls == (old(showControls) && !old(hideTimerArmed))
    {
      if hideTimerArmed {
        showControls := false;
        hideTimerArmed := false;
      }
    }

    /** `togglePlay`: asks the element to pause when playing, else to play. */
    method TogglePlay() returns (command: MediaCommand)
      ensures command == Pause <==> isPlaying
    {
      command := if isPlaying then Pause else Play;
    }

    /** `toggleMute`: the element's `muted` and `isMuted` both become the negation of `isMuted`. */
    method ToggleMute()
      requires Valid()
      modifies this`isMuted, this`mediaMuted
      ensures Valid()
      ensures isMuted == !old(isMuted) && mediaMuted == isMuted
    {
      mediaMuted := !isMuted;
      isMuted := !isMuted;
    }

    /**
     * `toggleFullscreen`: requests fullscreen when the document has no fullscreen element,
     * else asks to leave it. The outcome normally arrives as a `fullscreenchange` event;
     * when the request is rejected (a WebView), `isFullscreen` is flipped directly.
     */
    method ToggleFullscreen(documentHasFullscreen: bool, rejected: bool) returns (request: FullscreenRequest)
      requires Valid()
      modifies this`isFullscreen
      ensures Valid()
      ensures request == (if documentHasFullscreen then Exit else Enter)
      ensures isFullscreen == (if rejected then !old(isFullscreen) else old(isFullscreen))
    {
      request := if documentHasFullscreen then Exit else Enter;
      if rejected {
        isFullscreen := !isFullscreen;
      }
    }

    /** `fullscreenchange` / `webkitfullscreenchange`: whether the document now has a fullscreen element. */
    method OnFullscreenChange(documentHasFullscreen: bool)
      requires Valid()
      modifies this`isFullscreen
      ensures Valid() && isFullscreen == documentHasFullscreen
    {
      isFullscreen := documentHasFullscreen;
    }

    /** `handleSeek` with the range input's value in [0, 100]: position `percent` of the duration. */
    method Seek(percent: real)
      requires Valid() && 0.0 <= percent <= 100.0
      modifies this`mediaTime, this`currentTime
      ensures Valid()
      ensures mediaTime == percent / 100.0 * duration && currentTime == mediaTime
      ensures mediaTime <= duration
    {
      var t := percent / 100.0 * duration;
      assert t <= duration by {
        assert percent / 100.0 <= 1.0;
      }
      mediaTime, currentTime := t, t;
    }

    /** `skipForward`: the element's position moves 10 s on, but not past the duration. */
    method SkipForward()
      requires Valid()
      modifies this`mediaTime
      ensures Valid()
      ensures mediaTime == SkipForwardTime(old(mediaTime), duration)
      ensures mediaTime <= duration
    {
      mediaTime := SkipForwardTime(mediaTime, duration);
    }

    /** `skipBackward`: the element's position moves 10 s back, but not below 0. */
    method SkipBackward()
      requires Valid()
      modifies this`mediaTime
      ensures Valid()
      ensures mediaTime == SkipBackwardTime(old(mediaTime))
      ensures mediaTime <= old(mediaTime)
    {
      mediaTime := SkipBackwardTime(mediaTime);
    }

    /**
     * A tap on the episode-list button: the list opens or closes, and the tap bubbles to the
     * container's `resetControlsTimeout`, which still sees this render's values. So opening
     * the list during playback arms the hide timer, and closing it arms none.
     */
    method ToggleEpisodeList()
      requires Valid()
      modifies this`showEpisodeList, this`showControls, this`hideTimerArmed
      ensures Valid()
      ensures showEpisodeList == !old(showEpisodeList)
      ensures showControls && hideTimerArmed == (isPlaying && !old(showEpisodeList))
    {
      var wasOpen := showEpisodeList;
      showEpisodeList := !showEpisodeList;
      showControls := true;
      hideTimerArmed := isPlaying && !wasOpen;
    }

    /** A tap on the list's close button: the list closes; the bubbled reset sees it still open. */
    method CloseEpisodeList()
      requires Valid()
      modifies this`showEpisodeList, this`showControls, this`hideTimerArmed
      ensures Valid()
      ensures !showEpisodeList
      ensures showControls && hideTimerArmed == (isPlaying && !old(showEpisodeList))
    {
      var wasOpen := showEpisodeList;
      showEpisodeList := false;
      showControls := true;
      hideTimerArmed := isPlaying && !wasOpen;
    }

    /**
     * A tap on entry `idx` of the episode list: `onEpisodeChange(idx)` is requested and the
     * list closes; the bubbled reset sees this render's values.
     */
    method SelectEpisode(idx: int) returns (request: int)
      requires Valid() && 0 <= idx < |episodes|
      modifies this`showEpisodeList, this`showControls, this`hideTimerArmed
      ensures Valid()
      ensures request == idx && 0 <= request < |episodes|
      ensures !showEpisodeList
      ensures showControls && hideTimerArmed == (isPlaying && !old(showEpisodeList))
    {
      request := idx;
      var wasOpen := showEpisodeList;
      showEpisodeList := false;
      showControls := true;
      hideTimerArmed := isPlaying && !wasOpen;
    }

    /** Unmounting (the player is closed): the effect's cleanup destroys the hls.js instance. */
    method Unmount()
      requires Valid()
      modifies this`hls
      ensures Valid() && hls.None?
    {
      hls := None;
    }
  }

  /** Toggling mute twice restores both `isMuted` and the element's `muted`. */
  method ToggleMuteTwice(p: Player)
    requires p.Valid()
    modifies p
    ensures p.Valid()
    ensures p.isMuted == old(p.isMuted) && p.mediaMuted == old(p.mediaMuted)
  {
    p.ToggleMute();
    p.ToggleMute();
  }

  /** After a tap on the video surface, followed by the timer firing, the controls are hidden exactly when playback was on with the list closed. */
  method TapThenTimeout(p: Player)
    requires p.Valid()
    modifies p
    ensures p.Valid()
    ensures p.showControls == !(p.isPlaying && !p.showEpisodeList)
    ensures !p.hideTimerArmed
  {
    p.ResetControlsTimeout();
    p.FireHideTimer();
  }
}
