# A verified model of the drama-streaming web client's logic

The client is a mobile-styled single-page app for a drama catalog. This project models the
logic it keeps beside its rendering:

- **`Api`** (`api.dfy`): the catalog's data shapes and three display helpers. `CoverUrl` is
  the cover fallback chain, `FormatDuration` renders milliseconds as `m:ss`, and
  `FormatViewCount` abbreviates view counts.
- **`VideoPlayer`** (`video_player.dfy`): the player's selection rules, as pure functions.
  They cover the rendition chosen for an episode, how that URL attaches to the media
  element, episode navigation and 10-second skips. The component's state is the class
  `Player`: its methods are the handlers and the media element's events.
- **`DramaDetail`** (`drama_detail.dfy`): the detail page's view and its episode tiles. The
  class `DetailPage` holds the current episode, the player overlay, and the like and
  description toggles.
- **`Search`** (`search.dfy`): the search gate, the trending-chip label and the chip list.
  The class `SearchPage` holds the typed query, the debounced query and the pending debounce
  timer.
- **`JsBuiltins`** (`js_builtins.dfy`): the JavaScript built-ins these helpers use, with their
  own correctness lemmas. Examples: `Number.prototype.toString` reads back by a decimal
  decoder, and `split` followed by `join` gives the string back.
- **`Wrappers`** (`wrappers.dfy`): `Option`, standing for `undefined`.

Timers, the media element, hls.js and the Fullscreen API become explicit events and
parameters:

- The hide timer is `hideTimerArmed` plus the `FireHideTimer` event.
- The debounce timer is `pending` plus the `FireDebounce` event.
- `Hls.isSupported()` and `canPlayType(...)` are constructor parameters.
- A rejected `play()`, the document's fullscreen element and a rejected fullscreen request
  are method parameters.

A tap on any control inside the player also reaches the container's `onClick`, which is
`resetControlsTimeout`. That handler still sees the values of the render the tap happened
in. The list handlers are the only ones that change a value it reads (`showEpisodeList`), so
`ToggleEpisodeList`, `CloseEpisodeList` and `SelectEpisode` include the bubbled reset, on the
pre-tap values. So opening the episode list during playback arms the hide timer. For every
other control, the tap is the handler followed by `ResetControlsTimeout`. A pause tap during
playback therefore also arms the timer, because that render still has `isPlaying` true.

Other behaviours the contracts expose:

- The spinner stays on when an HLS URL meets a browser that has neither hls.js nor native
  HLS: `AttachedAs` with `Unplayable`.
- It also stays on when the first episode has no URL at all.
- Skipping forward before a duration is known goes to 0 (`SkipForwardWithoutDuration`).
- The detail page picks its index from the chapter list but the player indexes the episode
  list (`ChapterIndexBeyondEpisodes`).

Where the code and the interface types disagree, the model follows the code. `Episode.cdnList`
and `Cdn.videoPathList` are required in the interface but optional here, because the player
guards against both being missing.

## Model

| member | source | states |
|---|---|---|
| `JsBuiltins.NatToString` | src/lib/api.ts:185 | `toString` of a non-negative integer: non-empty, all digits, a leading zero only for 0, a single digit exactly below 10 |
| `JsBuiltins.NatToStringValue` | src/lib/api.ts:185 | the decimal decoder reads the rendering back as the same number |
| `JsBuiltins.NatToStringBelowHundred` | src/lib/api.ts:185 | a number below 100 renders in at most two digits |
| `JsBuiltins.IntToString` | src/lib/api.ts:194 | integer `toString`: a minus sign exactly for negatives, before the digits of the absolute value; the last character is a digit; the first digit is 0 only for 0 (no leading zeros) |
| `JsBuiltins.TruncRem` | src/lib/api.ts:184 | JavaScript `%`: the remainder has the sign of the dividend and is smaller in size than the divisor; on non-negative dividends it is the Euclidean remainder, on negative ones 0 or the Euclidean remainder minus the divisor |
| `JsBuiltins.PadStart` | src/lib/api.ts:185 | `padStart`: the result has the target width (or the input's), ends with the input and is filled on the left |
| `JsBuiltins.Includes` | src/components/VideoPlayer.tsx:72 | `includes` holds exactly when the needle occurs at some index |
| `JsBuiltins.Split` | src/pages/Search.tsx:122 | `split` gives at least one piece and no piece holds the separator |
| `JsBuiltins.JoinSplit` | src/pages/Search.tsx:122 | joining the pieces of a split with the same separator gives the string back |
| `JsBuiltins.SplitLength` | src/pages/Search.tsx:122 | a split has one piece more than the string has separators |
| `JsBuiltins.JoinCount` | src/pages/Search.tsx:122 | joining separator-free pieces puts exactly one separator between neighbours |
| `JsBuiltins.JoinTakePrefix` | src/pages/Search.tsx:122 | joining the first k pieces gives a prefix of joining all of them |
| `JsBuiltins.JoinAt` | src/pages/Search.tsx:122 | a join splits at any inner boundary into the join of the first k pieces, the separator and the join of the rest |
| `JsBuiltins.Join` | src/pages/Search.tsx:122 | `join` with a one-character separator: the pieces with one separator between neighbours; its properties are `JoinSplit`, `JoinCount` and `JoinTakePrefix` |
| `JsBuiltins.FindIndex` | src/pages/DramaDetail.tsx:50 | `findIndex`: the first index that satisfies the predicate, or -1 exactly when none does |
| `Api.FirstTruthy` | src/lib/api.ts:177 | an `a \|\| b \|\| ""` chain: "" exactly when no candidate is truthy, else the first truthy candidate |
| `Api.CoverUrl` | src/lib/api.ts:176-178 | `coverWap` if non-empty, else `cover`, else `bookCover`, else ""; "" exactly when all three are missing or empty |
| `Api.CoverUrlIsFirstTruthy` | src/lib/api.ts:177 | the cover is the first truthy of the three fields, in that order |
| `Api.TwoDigitField` | src/lib/api.ts:185 | a number below 100 padded to two characters is two digits that read back as the number |
| `Api.FormatDuration` | src/lib/api.ts:181-186 | `formatDuration`: whole seconds by `Math.floor(ms / 1000)`, then `FormatSeconds`; its properties are `FormatDurationFields`, `FormatDurationSubSecond` and `FormatDurationOneHour` |
| `Api.FormatSeconds` | src/lib/api.ts:183-185 | minutes by floor division, seconds by the truncating `%`, joined as `${mins}:${secs}` with the seconds padded to two; its property is `FormatSecondsFields` |
| `Api.FormatDurationFields` | src/lib/api.ts:181-186 | for ms ≥ 0 the text is `<minutes>:<ss>`; the seconds field has exactly two digits and a value below 60; the minutes start with 0 only when they are the single digit 0 (unpadded) and are uncapped; minutes × 60 + seconds = floor(ms / 1000) |
| `Api.FormatSecondsFields` | src/lib/api.ts:183-185 | the same shape, unpadded minutes and arithmetic for a whole number of seconds |
| `Api.MinutesSecondsOfJoin` | src/lib/api.ts:185 | joining a minutes decimal without leading zeros, ":" and a two-digit seconds field gives that shape |
| `Api.FormatDurationSubSecond` | src/lib/api.ts:182 | every input from 0 to 999.99… ms gives "0:00" (truncation, not rounding) |
| `Api.FormatDurationOneHour` | src/lib/api.ts:182-185 | 3600000 ms gives "60:00": there is no hours field |
| `Api.Tenths` | src/lib/api.ts:192-193 | the scaled count rounded half up to tenths: t / 10 lies in (n / unit - 0.05, n / unit + 0.05], so a tie rounds up |
| `Api.FixedOne` | src/lib/api.ts:192-193 | `toFixed(1)` shape `<whole>.<digit>`, whose value is n / unit rounded half up to tenths; the whole part has no leading zero (it starts with 0 only when it is 0) |
| `Api.FormatViewCount` | src/lib/api.ts:189-196 | `formatViewCount`: "0" when falsy, a string as it is, else the M, K or plain branch; its properties are `FormatViewCountTextCases` and `FormatViewCountSuffix` |
| `Api.FormatViewCountTextCases` | src/lib/api.ts:190-191 | undefined, "" and 0 give "0"; a non-empty string comes back unchanged |
| `Api.FormatViewCountSuffix` | src/lib/api.ts:192-194 | for a non-zero integer: ends in "M" exactly when n ≥ 1,000,000, in "K" exactly when 1,000 ≤ n < 1,000,000, else it is the plain decimal of n; the scaled number is n / unit rounded half up to tenths, with no leading zero in its whole part |
| `Api.ViewCountOf` | src/lib/api.ts:48-49 | an optional `viewCount` / `followCount` is undefined exactly when missing, else that integer |
| `Api.FormatOptionalCount` | src/pages/DramaDetail.tsx:149-153 | the detail page's view and follow counts show "0" exactly when missing or 0 |
| `VideoPlayer.CurrentEpisode` | src/components/VideoPlayer.tsx:49 | `episodes[currentIndex]` exists exactly for indices inside the list, negative ones excluded |
| `VideoPlayer.PrimaryPathList` | src/components/VideoPlayer.tsx:53-54 | `currentEpisode?.cdnList?.[0]?.videoPathList`: missing when any link of the chain is missing; its properties are in `VideoUrlSelection` |
| `VideoPlayer.ChosenIndex` | src/components/VideoPlayer.tsx:55-58 | -1 exactly for an empty list; else the first 720p default when there is one, else the first 720p when there is one, else 0 |
| `VideoPlayer.VideoUrl` | src/components/VideoPlayer.tsx:52-59 | `getVideoUrl()`: "" or the path of some entry of the first CDN's path list |
| `VideoPlayer.VideoUrlSelection` | src/components/VideoPlayer.tsx:52-59 | "" for an out-of-range index, a missing first CDN or a missing path list. Otherwise, in order: the first 720p default, the first 720p, the first entry, or "" for an empty list. Always some entry's path or "" |
| `VideoPlayer.VideoUrlIgnoresLaterCdns` | src/components/VideoPlayer.tsx:53-54 | CDNs after the first never change the URL |
| `VideoPlayer.StreamFor` | src/components/VideoPlayer.tsx:66-98 | nothing for ""; a URL containing ".m3u8" goes to hls.js when supported, else to native HLS when the element accepts it, else gets no source; every other URL is MP4 (each case an if-and-only-if) |
| `VideoPlayer.NextRequest` | src/components/VideoPlayer.tsx:222-226 | `goToNextEpisode` / `handleEnded`: the index asked of the page, if any; its properties are `NavigationBounds` |
| `VideoPlayer.PrevRequest` | src/components/VideoPlayer.tsx:228-232 | `goToPrevEpisode`: the index asked of the page, if any; its properties are `NavigationBounds` |
| `VideoPlayer.PrevDisabled` | src/components/VideoPlayer.tsx:301 | the previous button's `disabled`; tied to `PrevRequest` by `NavigationBounds` |
| `VideoPlayer.NextDisabled` | src/components/VideoPlayer.tsx:341 | the next button's `disabled`; tied to `NextRequest` by `NavigationBounds` |
| `VideoPlayer.NavigationBounds` | src/components/VideoPlayer.tsx:222-232 | next/ended request i+1 only below n-1 and previous requests i-1 only above 0; requests from an in-range index stay in [0, n) and are never negative from i ≥ 0; each button is disabled exactly where its handler does nothing (the previous button needs i ≥ 0: at -1 it is enabled yet does nothing) |
| `VideoPlayer.SkipForwardTime` | src/components/VideoPlayer.tsx:212-215 | the new position is at most the duration and at most t + 10, and equals one of them |
| `VideoPlayer.SkipBackwardTime` | src/components/VideoPlayer.tsx:217-220 | the new position is at least 0 and at least t - 10, and equals one of them |
| `VideoPlayer.SkipStaysInRange` | src/components/VideoPlayer.tsx:212-220 | a position inside [0, duration] stays inside it; forward never moves back and backward never moves on |
| `VideoPlayer.SkipForwardWithoutDuration` | src/components/VideoPlayer.tsx:214 | while the duration is still 0, skipping forward jumps to 0 |
| `VideoPlayer.Player.constructor` | src/components/VideoPlayer.tsx:39-47 | the initial state (paused, unmuted, controls shown, list closed, spinner on, no timer), then the first stream attachment |
| `VideoPlayer.Player.AttachCurrentEpisode` | src/components/VideoPlayer.tsx:62-106 | the old hls.js instance is destroyed. The URL's stream kind decides the result: hls.js holds an HLS URL, or the element's `src` is set for native HLS and MP4. The spinner turns on for any non-empty URL. Without a URL, an earlier `src` stays |
| `VideoPlayer.Player.ReceiveProps` | src/components/VideoPlayer.tsx:106 | new props; the stream is attached again exactly when the current episode changed, and nothing else moves |
| `VideoPlayer.Player.OnSourceReady` | src/components/VideoPlayer.tsx:80-97 | the spinner goes off; a rejected `play()` clears `isPlaying` |
| `VideoPlayer.Player.OnPlay` | src/components/VideoPlayer.tsx:113 | `isPlaying` becomes true |
| `VideoPlayer.Player.OnPause` | src/components/VideoPlayer.tsx:114 | `isPlaying` becomes false |
| `VideoPlayer.Player.OnTimeUpdate` | src/components/VideoPlayer.tsx:115-118 | the shown time follows the element's position |
| `VideoPlayer.Player.OnDurationChange` | src/components/VideoPlayer.tsx:119 | the duration follows the element's |
| `VideoPlayer.Player.OnWaiting` | src/components/VideoPlayer.tsx:120 | the spinner turns on |
| `VideoPlayer.Player.OnCanPlay` | src/components/VideoPlayer.tsx:121 | the spinner turns off |
| `VideoPlayer.Player.OnEnded` | src/components/VideoPlayer.tsx:122-126 | requests the next index only below the last one, and it stays in range |
| `VideoPlayer.Player.GoToNextEpisode` | src/components/VideoPlayer.tsx:222-226 | requests the next index; it requests nothing exactly when the next button is disabled |
| `VideoPlayer.Player.GoToPrevEpisode` | src/components/VideoPlayer.tsx:228-232 | requests i-1 only from i > 0, never a negative index; it requests nothing exactly when the previous button is disabled (i ≥ 0) |
| `VideoPlayer.Player.ResetControlsTimeout` | src/components/VideoPlayer.tsx:163-173 | the pending timer is cancelled and the controls are shown; a new timer is armed exactly when playing with the list closed |
| `VideoPlayer.Player.FireHideTimer` | src/components/VideoPlayer.tsx:169-171 | a pending timer hides the controls and is spent; without one nothing changes |
| `VideoPlayer.Player.TogglePlay` | src/components/VideoPlayer.tsx:175-182 | asks to pause exactly when playing, else to play |
| `VideoPlayer.Player.ToggleMute` | src/components/VideoPlayer.tsx:184-188 | `isMuted` flips and the element's `muted` equals the new value |
| `VideoPlayer.Player.ToggleFullscreen` | src/components/VideoPlayer.tsx:190-203 | asks to exit when the document is fullscreen, else to enter; a rejected request flips `isFullscreen` directly |
| `VideoPlayer.Player.OnFullscreenChange` | src/components/VideoPlayer.tsx:149-151 | `isFullscreen` follows the document's fullscreen element |
| `VideoPlayer.Player.Seek` | src/components/VideoPlayer.tsx:205-210 | the position becomes the given percentage of the duration, never past it |
| `VideoPlayer.Player.SkipForward` | src/components/VideoPlayer.tsx:212-215 | the element's position becomes min(t + 10, duration) |
| `VideoPlayer.Player.SkipBackward` | src/components/VideoPlayer.tsx:217-220 | the element's position becomes max(t - 10, 0) |
| `VideoPlayer.Player.ToggleEpisodeList` | src/components/VideoPlayer.tsx:290 | the list flips; the bubbled reset shows the controls and arms the timer exactly when playing with the list closed before the tap |
| `VideoPlayer.Player.CloseEpisodeList` | src/components/VideoPlayer.tsx:407 | the list closes; the bubbled reset uses the pre-tap values |
| `VideoPlayer.Player.SelectEpisode` | src/components/VideoPlayer.tsx:417-420 | requests the tapped in-range index and closes the list; the bubbled reset uses the pre-tap values |
| `VideoPlayer.Player.Unmount` | src/components/VideoPlayer.tsx:100-105 | the hls.js instance is destroyed |
| `VideoPlayer.ToggleMuteTwice` | src/components/VideoPlayer.tsx:184-188 | muting twice restores `isMuted` and the element's `muted` |
| `VideoPlayer.TapThenTimeout` | src/components/VideoPlayer.tsx:163-173 | after a tap and the timer firing, the controls are hidden exactly when playing with the list closed |
| `DramaDetail.PlayerVisible` | src/pages/DramaDetail.tsx:90 | the player overlay condition; `PageView` shows the player exactly when it holds |
| `DramaDetail.PageView` | src/pages/DramaDetail.tsx:66-90 | skeleton while loading; "not found" without a book; otherwise the player exactly when `isPlaying` holds and the episode list is present and non-empty |
| `DramaDetail.TileView` | src/pages/DramaDetail.tsx:264-290 | a lock exactly for a locked chapter, else its 1-based number in decimal without a leading zero; the VIP badge exactly for a price > 0; the ring exactly on the current index; dimmed exactly when locked |
| `DramaDetail.DescriptionView` | src/pages/DramaDetail.tsx:203-222 | clamped unless expanded; the expander exactly for an introduction longer than 100 characters, labelled by the current state |
| `DramaDetail.AutoSelectedIndex` | src/pages/DramaDetail.tsx:48-55 | the first unlocked chapter when there is one, else the index kept |
| `DramaDetail.ChapterIndexBeyondEpisodes` | src/pages/DramaDetail.tsx:97-99 | a chapter index past the end of the episode list gives the player no URL |
| `DramaDetail.DetailPage.constructor` | src/pages/DramaDetail.tsx:27-30 | index 0, not playing, description clamped, not liked |
| `DramaDetail.DetailPage.OnChapterListChanged` | src/pages/DramaDetail.tsx:48-55 | the index jumps to the first unlocked chapter when there is one and is otherwise unchanged |
| `DramaDetail.DetailPage.OnEpisodesLoaded` | src/pages/DramaDetail.tsx:38-42 | the episode list becomes available |
| `DramaDetail.DetailPage.PlayEpisode` | src/pages/DramaDetail.tsx:57-60 | the index is set and the player opens |
| `DramaDetail.DetailPage.ClickChapter` | src/pages/DramaDetail.tsx:259-263 | a locked chapter changes nothing; an unlocked one becomes current and opens the player |
| `DramaDetail.DetailPage.EpisodeChange` | src/pages/DramaDetail.tsx:62-64 | only the index changes; `isPlaying` stays |
| `DramaDetail.DetailPage.ClosePlayer` | src/pages/DramaDetail.tsx:101 | the player closes and the index is kept |
| `DramaDetail.DetailPage.ToggleLike` | src/pages/DramaDetail.tsx:184 | the like flag flips |
| `DramaDetail.DetailPage.ToggleDescription` | src/pages/DramaDetail.tsx:212 | the expanded flag flips |
| `DramaDetail.ToggleLikeTwice` | src/pages/DramaDetail.tsx:184 | liking twice restores the flag (an involution) |
| `DramaDetail.PlayThenClose` | src/pages/DramaDetail.tsx:259-263 | opening an unlocked chapter and closing the player keeps that chapter and hides the player |
| `Search.SearchEnabled` | src/pages/Search.tsx:24-37 | the query's `enabled` flag and `showResults`: a debounced query of at least 2 characters; used by `ClearSearch` and `TypeThenSettle` |
| `Search.ShowsClearButton` | src/pages/Search.tsx:52 | the clear button shows for a non-empty query; `ClearSearch` hides it |
| `Search.TrendingChips` | src/pages/Search.tsx:116 | at most 8 chips: a prefix of the trending list of length min(8, n), none before data arrives |
| `Search.FirstThree` | src/pages/Search.tsx:122 | `slice(0, 3)` keeps the first min(3, n) pieces |
| `Search.ChipLabel` | src/pages/Search.tsx:122 | `split(" ").slice(0, 3).join(" ")`; its properties are `ChipLabelProperties` and `ChipLabelExample` |
| `Search.ChipLabelProperties` | src/pages/Search.tsx:122 | the label is a prefix of the name with at most 2 spaces; it equals the name exactly when the name has at most 2 spaces, and otherwise has exactly 2 and ends just before the name's third space |
| `Search.ChipLabelExample` | src/pages/Search.tsx:122 | "a b c d" is labelled "a b c" |
| `Search.SearchPage.constructor` | src/pages/Search.tsx:10-19 | both queries empty; the first debounce run is pending with "" |
| `Search.SearchPage.SetQuery` | src/pages/Search.tsx:14-19 | the query is set; a changed value replaces the pending timer with one carrying the new value; an unchanged value re-arms nothing |
| `Search.SearchPage.FireDebounce` | src/pages/Search.tsx:15-17 | the debounced query becomes the latest query (the invariant: a pending timer carries the current query) |
| `Search.SearchPage.ClearSearch` | src/pages/Search.tsx:32-35 | both queries become "", so neither results nor the clear button show |
| `Search.SearchPage.ClickTrendingChip` | src/pages/Search.tsx:119 | the query becomes the title's full name, not the shortened label; a changed value re-arms the debounce timer with it, an unchanged one leaves the timer as it was |
| `Search.SearchPage.ClickGenreTag` | src/pages/Search.tsx:146 | the query becomes the tag; a changed value re-arms the debounce timer with it, an unchanged one leaves the timer as it was |
| `Search.TypeThenSettle` | src/pages/Search.tsx:14-37 | after two different keystrokes and a timer firing, the debounced query is the last one, and the search runs exactly when it is at least 2 long |

## Left out

- Api.FixedOne: rounds the exact quotient half up, and its contract states exactly that.
  JavaScript's `toFixed(1)` rounds the nearest double, which can differ at ties: 1150000
  renders "1.1M" and 1150 renders "1.1K" in JavaScript, where the model gives "1.2M" and
  "1.2K". The model does not capture that double-rounding behaviour.
- Api.FormatViewCount: counts are integers. Fractional and NaN counts are floating-point
  behaviour and are not modelled.
- Api.FormatDuration: NaN and infinite inputs are not modelled. Neither is the exponent
  notation `toString` uses from 10^21 on.
- JsBuiltins: JavaScript string lengths count UTF-16 code units, while Dafny's `string`
  counts Unicode scalar values. The 100-character description check, `Search.SearchEnabled`'s
  `debouncedQuery.length >= 2` and the `split` on " " are modelled on the latter. So a
  single astral character such as one emoji has length 2 in JavaScript and enables the
  search, while the model counts it as 1 and does not.
- The `fetch*` functions (src/lib/api.ts:127-173): network I/O. The react-query caching and
  loading flags they feed are library behaviour; the model receives their data as events
  (`OnChapterListChanged`, `OnEpisodesLoaded`) or as parameters.
- hls.js internals, the media element and the Fullscreen API are foreign code. Their
  outcomes are parameters: `hlsSupported`, `canPlayNativeHls`, `playRejected`,
  `documentHasFullscreen` and `rejected`.
- The load listeners added by each stream attachment are never removed in the source. The
  model treats a ready source as one `OnSourceReady` event.
- The rejection of the `play()` started by `togglePlay` is not caught in the source. The
  model only returns the requested command.
- The progress percentage (src/components/VideoPlayer.tsx:117) is not modelled: it divides
  by the duration and gives NaN or Infinity while the duration is 0.
- `Seek` and the skip methods use exact `real` arithmetic instead of doubles.
- Player.ReceiveProps compares the current episode by value, where React compares object
  identity. Two equal episode objects at different positions therefore do not re-attach in
  the model.
- The `if (!videoRef.current)` guards are not modelled. The `<video>` element is rendered
  unconditionally, so the ref is set before any effect or handler runs.
- Timer durations (500 ms, 3000 ms) become abstract pending timers. The hide timer is never
  cleared on unmount in the source; the model does not follow a timer past `Unmount`.
- Left to rendering: the episode title fallback `Episode ${currentIndex + 1}`, the
  "VIP"/"Gratis" label in the episode list, DramaCard, SkeletonCard, HorizontalScroll,
  AppHeader, BottomNavigation, Index, Trending, Vip and App (routing). These are markup,
  animation and library routing.
