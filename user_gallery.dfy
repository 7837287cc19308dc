/** The visitor gallery page: the carousel over the approved items, its
    keyboard control in full screen, and the upload form's request. */
module UserGallery {
  import opened Wrappers
  import GalleryController
  import opened Arith
  import opened Text

  // -------------------------------------------------------------- carousel

  /** JavaScript's `%`, which truncates toward zero. */
  function JsRem(a: int, n: int): (r: int)
    requires n > 0
    ensures a >= 0 ==> r == a % n
    ensures a < 0 ==> -n < r <= 0 && (a - r) % n == 0
    ensures -n < r < n
  {
    if a >= 0 then a % n
    else
      var r := -((-a) % n);
      DivModUnique(a - r, n, -((-a) / n), 0);
      r
  }

  /** `nextItem`: `(prev + 1) % n`. */
  function NextIndex(i: int, n: int): (r: int)
    requires n > 0
    ensures 0 <= i < n ==> 0 <= r < n && (if i == n - 1 then r == 0 else r == i + 1)
  {
    if 0 <= i < n then
      DivModUnique(i, n, 0, i);
      ModSuccessor(i, n);
      JsRem(i + 1, n)
    else JsRem(i + 1, n)
  }

  /** `prevItem`: `(prev - 1 + n) % n`. */
  function PrevIndex(i: int, n: int): (r: int)
    requires n > 0
    ensures 0 <= i < n ==> 0 <= r < n && (if i == 0 then r == n - 1 else r == i - 1)
  {
    JsRem(i - 1 + n, n)
  }

  /** Back undoes forward and forward undoes back. */
  lemma NextPrevInverse(i: int, n: int)
    requires 0 <= i < n
    ensures PrevIndex(NextIndex(i, n), n) == i
    ensures NextIndex(PrevIndex(i, n), n) == i
  {
  }

  /** The index after `k` forward steps. */
  function ForwardBy(i: int, n: int, k: nat): int
    requires n > 0
    decreases k
  {
    if k == 0 then i else NextIndex(ForwardBy(i, n, k - 1), n)
  }

  /** `k` forward steps add `k` modulo the number of items. */
  lemma {:induction false} ForwardByIsAddition(i: int, n: int, k: nat)
    requires 0 <= i < n
    ensures ForwardBy(i, n, k) == (i + k) % n
    decreases k
  {
    if k > 0 {
      ForwardByIsAddition(i, n, k - 1);
      ModSuccessor(i + k - 1, n);
    }
  }

  /** A full round of `n` forward steps comes back to the start. */
  lemma FullRound(i: int, n: int)
    requires 0 <= i < n
    ensures ForwardBy(i, n, n) == i
  {
    ForwardByIsAddition(i, n, n);
    DivModUnique(i + n, n, 1, i);
  }

  /** The carousel state: the number of loaded items, the current index and
      whether the full-screen view is open. */
  class Carousel {
    var count: int
    var currentIndex: int
    var isFullScreen: bool

    ghost predicate Valid()
      reads this
    {
      count >= 0
      && (count > 0 ==> 0 <= currentIndex < count)
      && (isFullScreen ==> count > 0)
    }

    /** The page after loading `count` approved items. */
    constructor (count: nat)
      ensures Valid()
      ensures this.count == count && currentIndex == 0 && !isFullScreen
    {
      this.count := count;
      currentIndex := 0;
      isFullScreen := false;
    }

    /** A click on the stage opens full screen only when there is something to show. */
    method OpenFullScreen()
      requires Valid()
      modifies this`isFullScreen
      ensures Valid()
      ensures isFullScreen == (old(isFullScreen) || count > 0)
    {
      if count > 0 {
        isFullScreen := true;
      }
    }

    /** A click on the full-screen backdrop closes it. */
    method CloseFullScreen()
      requires Valid()
      modifies this`isFullScreen
      ensures Valid() && !isFullScreen
    {
      isFullScreen := false;
    }

    /** A click on the thumbnail of item `index`. */
    method ShowItem(index: int)
      requires Valid() && 0 <= index < count
      modifies this`currentIndex
      ensures Valid() && currentIndex == index
    {
      currentIndex := index;
    }

    /** The arrow buttons, which are drawn only when there are items. */
    method NextItem()
      requires Valid() && count > 0
      modifies this`currentIndex
      ensures Valid() && currentIndex == NextIndex(old(currentIndex), count)
    {
      currentIndex := NextIndex(currentIndex, count);
    }

    method PrevItem()
      requires Valid() && count > 0
      modifies this`currentIndex
      ensures Valid() && currentIndex == PrevIndex(old(currentIndex), count)
    {
      currentIndex := PrevIndex(currentIndex, count);
    }

    /** `handleKeyDown`: outside full screen nothing happens; in it, Escape
        closes it and the arrow keys step the index. */
    method KeyDown(key: string)
      requires Valid()
      modifies this`isFullScreen, this`currentIndex
      ensures Valid()
      ensures !old(isFullScreen) ==> isFullScreen == old(isFullScreen) && currentIndex == old(currentIndex)
      ensures old(isFullScreen) ==>
        && isFullScreen == (key != "Escape")
        && currentIndex == (if key == "ArrowRight" then NextIndex(old(currentIndex), count)
                            else if key == "ArrowLeft" then PrevIndex(old(currentIndex), count)
                            else old(currentIndex))
    {
      if !isFullScreen {
        return;
      }
      if key == "Escape" {
        isFullScreen := false;
      }
      if key == "ArrowRight" {
        currentIndex := NextIndex(currentIndex, count);
      }
      if key == "ArrowLeft" {
        currentIndex := PrevIndex(currentIndex, count);
      }
    }
  }

  // -------------------------------------------------------------- upload form

  /** The body `UploadModal` sends. */
  datatype Submission = Submission(imageUrl: string, message: string, visitorName: Option<string>, visitorPhone: Option<string>)

  /** `UploadModal.handleSubmit`: without an image or a message nothing is
      sent; otherwise the request carries both, with an empty name or phone
      sent as `null`. The phone is not checked here. */
  function UploadRequest(previewImage: Option<string>, message: string, visitorName: string, visitorPhone: string): (r: Option<Submission>)
    ensures r == None <==> previewImage == None || previewImage == Some("") || message == ""
    ensures r.Some? ==>
      r.value == Submission(previewImage.value, message, NullIfEmpty(visitorName), NullIfEmpty(visitorPhone))
  {
    if previewImage == None || previewImage.value == "" || message == "" then None
    else Some(Submission(previewImage.value, message, NullIfEmpty(visitorName), NullIfEmpty(visitorPhone)))
  }

  /** A request the form sends is never refused by the server for a missing
      image or message; it is refused only for the phone, and never when no
      phone was typed. The server then stores the name and phone as sent. */
  lemma UploadMeetsServerChecks(previewImage: Option<string>, message: string, visitorName: string, visitorPhone: string)
    requires UploadRequest(previewImage, message, visitorName, visitorPhone).Some?
    ensures var s := UploadRequest(previewImage, message, visitorName, visitorPhone).value;
      var verdict := GalleryController.CheckSubmission(Some(s.imageUrl), Some(s.message), s.visitorPhone);
      && verdict != Some(GalleryController.MissingImageOrMessage)
      && (visitorPhone == "" ==> verdict == None)
      && GalleryController.OrNull(s.visitorName) == s.visitorName
      && GalleryController.OrNull(s.visitorPhone) == s.visitorPhone
  {
  }
}
