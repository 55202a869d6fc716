/** Image enrichment (image-handler.js): every event's linked image is
    downloaded, fitted into 600 x 600, re-encoded and embedded, and the link
    is removed. The HTTP client and the image library are parameters. */
module Images {
  import opened Wrappers
  import opened Events

  /** Largest width or height kept without rescaling (image-handler.js:4). */
  const MaxImageSize: int := 600

  /** JPEG quality handed to the encoder (image-handler.js:6, 46). */
  const Quality: int := 80

  /** The test that triggers `scaleToFit` (image-handler.js:42). */
  predicate NeedsResize(width: int, height: int)
  {
    width > MaxImageSize || height > MaxImageSize
  }

  /** `get(url)`: download the bytes, decode them, fit the image into the
      maximum size when it is larger, then encode it at quality 80 (JPEG,
      base64). A failing step rejects the whole call with that step's error,
      and only a successful download and decode can produce an image. */
  function GetImage<B, I>(
    url: Option<string>,
    download: Option<string> -> Result<B>,
    decode: B -> Result<I>,
    size: I -> (int, int),
    scaleToFit: I -> I,
    encode: (I, int) -> Result<string>): (r: Result<string>)
    ensures download(url).Failure? ==> r == Failure(download(url).error)
    ensures download(url).Success? && decode(download(url).value).Failure? ==>
              r == Failure(decode(download(url).value).error)
    ensures r.Success? ==> download(url).Success? && decode(download(url).value).Success?
  {
    match download(url)
    case Failure(e) => Failure(e)
    case Success(bytes) =>
      match decode(bytes)
      case Failure(e) => Failure(e)
      case Success(image) =>
        var (width, height) := size(image);
        encode(if NeedsResize(width, height) then scaleToFit(image) else image, Quality)
  }

  /** An image with both sides at most 600 is encoded as decoded, whatever
      `scaleToFit` would do; a larger one is encoded after `scaleToFit`; both
      at quality 80. */
  lemma GetImageRescalesOnlyLarge<B, I>(
    url: Option<string>,
    download: Option<string> -> Result<B>,
    decode: B -> Result<I>,
    size: I -> (int, int),
    scaleToFit: I -> I,
    otherScaleToFit: I -> I,
    encode: (I, int) -> Result<string>)
    ensures download(url).Success? && decode(download(url).value).Success? ==>
              var image := decode(download(url).value).value;
              && (size(image).0 <= MaxImageSize && size(image).1 <= MaxImageSize ==>
                    GetImage(url, download, decode, size, scaleToFit, encode) == encode(image, Quality) ==
                    GetImage(url, download, decode, size, otherScaleToFit, encode))
              && (size(image).0 > MaxImageSize || size(image).1 > MaxImageSize ==>
                    GetImage(url, download, decode, size, scaleToFit, encode) == encode(scaleToFit(image), Quality))
  {
  }

  /** The threshold at its boundary: a 600 x 600 image is encoded as decoded,
      while 601 x 1 and 1 x 601 images are encoded after `scaleToFit`. */
  lemma ResizeThreshold<B, I>(
    url: Option<string>,
    download: Option<string> -> Result<B>,
    decode: B -> Result<I>,
    size: I -> (int, int),
    scaleToFit: I -> I,
    encode: (I, int) -> Result<string>)
    ensures download(url).Success? && decode(download(url).value).Success? ==>
              var image := decode(download(url).value).value;
              && (size(image) == (600, 600) ==>
                    GetImage(url, download, decode, size, scaleToFit, encode) == encode(image, Quality))
              && (size(image) == (601, 1) || size(image) == (1, 601) ==>
                    GetImage(url, download, decode, size, scaleToFit, encode) == encode(scaleToFit(image), Quality))
  {
  }

  /** The event as `handleImage` leaves it: `image` set to the fetched
      encoding, `imageLink` deleted, every other property as before. */
  function WithImage(e: Event, image: string): Event
  {
    e.(image := Some(image), imageLink := None)
  }

  /** `handleImage(events)`: `Promise.all` over one `get` per event. It
      resolves with one enriched event per input event, in input order, when
      every `get` resolves, and rejects with a `get` error otherwise. */
  function HandleImage(events: seq<Event>, get: Option<string> -> Result<string>): (r: Result<seq<Event>>)
    ensures r.Success? <==> forall i :: 0 <= i < |events| ==> get(events[i].imageLink).Success?
    ensures r.Success? ==> |r.value| == |events|
    ensures r.Success? ==> forall i :: 0 <= i < |events| ==>
              r.value[i] == WithImage(events[i], get(events[i].imageLink).value)
    ensures r.Failure? ==> exists i :: 0 <= i < |events| && get(events[i].imageLink) == Failure(r.error)
    decreases |events|
  {
    if |events| == 0 then Success([])
    else
      match get(events[0].imageLink)
      case Failure(e) => Failure(e)
      case Success(image) =>
        match HandleImage(events[1..], get)
        case Failure(e) => Failure(e)
        case Success(rest) => Success([WithImage(events[0], image)] + rest)
  }

  /** After enrichment no event has both an `image` and an `imageLink`; each
      has an image, and its link, date, title, category and fetch date are
      those of the input event at the same position. */
  lemma HandleImageShape(events: seq<Event>, get: Option<string> -> Result<string>)
    requires HandleImage(events, get).Success?
    ensures forall i :: 0 <= i < |events| ==>
              var after := HandleImage(events, get).value[i];
              && after.imageLink.None? && after.image.Some?
              && after.link == events[i].link && after.date == events[i].date
              && after.title == events[i].title && after.category == events[i].category
              && after.fetchDate == events[i].fetchDate
  {
  }
}
