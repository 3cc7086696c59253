/** What the `readimc` readers hand back, as data: the model never decodes a file. Opening an
    MCD or txt file, and reading an acquisition's image, either succeeds or raises. */
module Readers {
  import opened Wrappers
  import opened Paths

  /** One channel plane of an image, left opaque. */
  type PlaneToken = nat

  /** An image of shape (channels, height, width): one plane per channel. */
  datatype Image = Image(planes: seq<PlaneToken>, height: nat, width: nat)

  /** `IOError` is what the recovery path catches; anything else is `OtherError`. */
  datatype ErrorKind = IOError | OtherError

  datatype ImageRead = ImageOk(image: Image) | ImageFailed(kind: ErrorKind)

  datatype Point = Point(x: real, y: real)

  /** The acquisition metadata the code reads. */
  datatype Acquisition = Acquisition(
    id: int,
    description: string,
    channelNames: seq<string>,
    channelLabels: seq<string>,
    roiPointsUm: seq<Point>,
    widthUm: real,
    heightUm: real)

  /** An acquisition of an opened MCD file, and what `read_acquisition` does with it. */
  datatype StoredAcquisition = StoredAcquisition(acquisition: Acquisition, read: ImageRead)

  /** Opening an MCD file: it raises, or it lists its acquisitions, slide after slide. */
  datatype McdOutcome = McdUnreadable | McdOpened(acquisitions: seq<StoredAcquisition>)

  /** Opening a txt export: it raises, or it gives the channel header and what
      `read_acquisition` does. */
  datatype TxtOutcome =
    | TxtUnreadable(kind: ErrorKind)
    | TxtOpened(channelNames: seq<string>, channelLabels: seq<string>, read: ImageRead)

  /** `img[channel_ind, :, :]`: the planes at the given positions, in that order; nothing
      where numpy raises `IndexError`. */
  function SelectChannels(img: Image, ind: seq<nat>): (r: Option<Image>)
    ensures r.Some? <==> forall k :: 0 <= k < |ind| ==> ind[k] < |img.planes|
    ensures r.Some? ==> r.value.height == img.height && r.value.width == img.width && |r.value.planes| == |ind|
    ensures r.Some? ==> forall k :: 0 <= k < |ind| ==> r.value.planes[k] == img.planes[ind[k]]
  {
    if forall k :: 0 <= k < |ind| ==> ind[k] < |img.planes| then
      Some(Image(seq(|ind|, k requires 0 <= k < |ind| => img.planes[ind[k]]), img.height, img.width))
    else None
  }
}
