/**
 * The title's detail page (src/pages/DramaDetail.tsx): which chapter is current,
 * whether the player overlay is open, the like and description toggles, and what
 * the page and each episode tile show.
 */
module DramaDetail {
  import opened Wrappers
  import opened JsBuiltins
  import opened Api
  import VideoPlayer

  // ---------------------------------------------------------------------------
  // What the page renders
  // ---------------------------------------------------------------------------

  /** `isPlaying && episodes && episodes.length > 0`: the player overlay replaces the page. */
  predicate PlayerVisible(isPlaying: bool, episodes: Option<seq<Episode>>) {
    isPlaying && episodes.Some? && |episodes.value| > 0
  }

  /** The four things the page can show. */
  datatype View = Skeleton | NotFound | PlayerOverlay | Info

  /** The early returns for loading and a missing book come before the player check. */
  function PageView(detailLoading: bool, bookPresent: bool, isPlaying: bool, episodes: Option<seq<Episode>>): (v: View)
    ensures v == Skeleton <==> detailLoading
    ensures v == NotFound <==> !detailLoading && !bookPresent
    ensures v == PlayerOverlay <==> !detailLoading && bookPresent && PlayerVisible(isPlaying, episodes)
  {
    if detailLoading then Skeleton
    else if !bookPresent then NotFound
    else if PlayerVisible(isPlaying, episodes) then PlayerOverlay
    else Info
  }

  /**
   * What tile `idx` of the episode grid shows: its 1-based number or a lock, the VIP badge,
   * the highlight ring of the current episode, and the dimming of locked chapters.
   */
  datatype Tile = Tile(number: Option<string>, locked: bool, vipBadge: bool, highlighted: bool, dimmed: bool)

  function TileView(ch: Chapter, idx: nat, currentEpisodeIndex: nat): (t: Tile)
    ensures t.locked <==> !ch.unlock
    ensures t.number.Some? <==> ch.unlock
    ensures t.number.Some? ==> AllDigits(t.number.value) && DecimalValue(t.number.value) == idx + 1
    ensures t.number.Some? ==> t.number.value[0] != '0'
    ensures t.vipBadge <==> ch.chapterPrice > 0
    ensures t.highlighted <==> idx == currentEpisodeIndex
    ensures t.dimmed == t.locked
  {
    Tile(if ch.unlock then Some(IntToString(idx + 1)) else None,
         !ch.unlock, ch.chapterPrice > 0, idx == currentEpisodeIndex, !ch.unlock)
  }

  /** The description: clamped to three lines unless expanded, and the expander with its label. */
  datatype Description = Description(clamped: bool, toggleLabel: Option<string>)

  function DescriptionView(introduction: string, showFullDescription: bool): (d: Description)
    ensures d.clamped <==> !showFullDescription
    ensures d.toggleLabel.Some? <==> |introduction| > 100
    ensures d.toggleLabel.Some? ==> d.toggleLabel.value == if showFullDescription then "Sembunyikan" else "Selengkapnya"
  {
    Description(!showFullDescription,
                if introduction != "" && |introduction| > 100 then
                  Some(if showFullDescription then "Sembunyikan" else "Selengkapnya")
                else None)
  }

  /** `(ch) => ch.unlock`. */
  predicate IsUnlocked(ch: Chapter) {
    ch.unlock
  }

  /**
   * The index the auto-select effect leaves: the first unlocked chapter when there is
   * one, else the index it had.
   */
  function AutoSelectedIndex(chapters: seq<Chapter>, current: nat): (r: nat)
    ensures (exists i :: 0 <= i < |chapters| && chapters[i].unlock) ==>
              r < |chapters| && chapters[r].unlock && forall j :: 0 <= j < r ==> !chapters[j].unlock
    ensures (forall i :: 0 <= i < |chapters| ==> !chapters[i].unlock) ==> r == current
  {
    if |chapters| > 0 then
      var firstUnlocked := FindIndex(chapters, IsUnlocked);
      if firstUnlocked != -1 then firstUnlocked else current
    else current
  }

  /**
   * The index comes from the chapter list but the player indexes the episode list, a
   * different response: when the chapter index is past the end of the episode list the
   * player has no URL to play.
   */
  lemma ChapterIndexBeyondEpisodes(chapters: seq<Chapter>, episodes: seq<Episode>, current: nat)
    requires AutoSelectedIndex(chapters, current) >= |episodes|
    ensures VideoPlayer.VideoUrl(episodes, AutoSelectedIndex(chapters, current)) == ""
  {
  }

  // ---------------------------------------------------------------------------
  // The page's state
  // ---------------------------------------------------------------------------

  class DetailPage {
    var chapterList: seq<Chapter>            // detailData?.data?.chapterList || []
    var episodes: Option<seq<Episode>>       // the episode query's data
    var currentEpisodeIndex: nat
    var isPlaying: bool
    var showFullDescription: bool
    var isLiked: bool

    constructor ()
      ensures chapterList == [] && episodes == None
      ensures currentEpisodeIndex == 0 && !isPlaying && !showFullDescription && !isLiked
    {
      chapterList, episodes := [], None;
      currentEpisodeIndex := 0;
      isPlaying, showFullDescription, isLiked := false, false, false;
    }

    /** A new chapter list arrives and the auto-select effect runs on it. */
    method OnChapterListChanged(list: seq<Chapter>)
      modifies this`chapterList, this`currentEpisodeIndex
      ensures chapterList == list
      ensures currentEpisodeIndex == AutoSelectedIndex(list, old(currentEpisodeIndex))
    {
      chapterList := list;
      if |chapterList| > 0 {
        var firstUnlocked := FindIndex(chapterList, IsUnlocked);
        if firstUnlocked != -1 {
          currentEpisodeIndex := firstUnlocked;
        }
      }
    }

    /** The episode query delivers its data. */
    method OnEpisodesLoaded(eps: seq<Episode>)
      modifies this`episodes
      ensures episodes == Some(eps)
    {
      episodes := Some(eps);
    }

    /** `handlePlayEpisode(index)`, also used by both play buttons with the current index. */
    method PlayEpisode(index: nat)
      modifies this`currentEpisodeIndex, this`isPlaying
      ensures currentEpisodeIndex == index && isPlaying
    {
      currentEpisodeIndex := index;
      isPlaying := true;
    }

    /** A tap on tile `idx` of the episode grid: locked chapters are ignored. */
    method ClickChapter(idx: nat)
      requires idx < |chapterList|
      modifies this`currentEpisodeIndex, this`isPlaying
      ensures chapterList[idx].unlock ==> currentEpisodeIndex == idx && isPlaying
      ensures !chapterList[idx].unlock ==> currentEpisodeIndex == old(currentEpisodeIndex) && isPlaying == old(isPlaying)
    {
      if chapterList[idx].unlock {
        PlayEpisode(idx);
      }
    }

    /** `handleEpisodeChange(index)`, the player's `onEpisodeChange`: only the index changes. */
    method EpisodeChange(index: nat)
      modifies this`currentEpisodeIndex
      ensures currentEpisodeIndex == index
    {
      currentEpisodeIndex := index;
    }

    /** The player's `onClose`: the overlay closes and the index is kept. */
    method ClosePlayer()
      modifies this`isPlaying
      ensures !isPlaying
    {
      isPlaying := false;
    }

    /** The like button. */
    method ToggleLike()
      modifies this`isLiked
      ensures isLiked == !old(isLiked)
    {
      isLiked := !isLiked;
    }

    /** The "Selengkapnya" / "Sembunyikan" button under the description. */
    method ToggleDescription()
      modifies this`showFullDescription
      ensures showFullDescription == !old(showFullDescription)
    {
      showFullDescription := !showFullDescription;
    }

    /** Whether the player overlay is rendered on this state. */
    function ShowsPlayer(): bool
      reads this
    {
      PlayerVisible(isPlaying, episodes)
    }
  }

  /** Liking twice restores the original state. */
  method ToggleLikeTwice(page: DetailPage)
    modifies page
    ensures page.isLiked == old(page.isLiked)
  {
    page.ToggleLike();
    page.ToggleLike();
  }

  /** Opening a chapter and closing the player leaves that chapter current and the page showing. */
  method PlayThenClose(page: DetailPage, idx: nat)
    requires idx < |page.chapterList| && page.chapterList[idx].unlock
    modifies page
    ensures page.currentEpisodeIndex == idx && !page.ShowsPlayer()
  {
    page.ClickChapter(idx);
    page.ClosePlayer();
  }
}
