/**
 * CameraImage, the raw frame a capture fills: its geometry, a freshness flag,
 * a timestamp and the byte buffer it owns.
 */
module Frame {
  import opened Common

  class CameraImage {
    var width: int
    var height: int
    var bytesPerPixel: int
    var imageSize: int
    var isNew: int
    var tvSec: int
    var tvUsec: int
    var image: array?<byte>

    /** An image whose buffer holds imageSize bytes. */
    constructor (width: int, height: int, bytesPerPixel: int, imageSize: nat)
      ensures this.width == width && this.height == height && this.bytesPerPixel == bytesPerPixel
      ensures this.imageSize == imageSize && isNew == 0 && tvSec == 0 && tvUsec == 0
      ensures image != null && fresh(image) && image.Length == imageSize
    {
      this.width, this.height, this.bytesPerPixel, this.imageSize := width, height, bytesPerPixel, imageSize;
      isNew, tvSec, tvUsec := 0, 0, 0;
      image := new byte[imageSize];
    }

    /** The buffer is there and holds imageSize bytes. */
    predicate Valid()
      reads this
    {
      image != null && 0 <= imageSize <= image.Length
    }

    /** ~CameraImage: the buffer is freed and the pointer cleared. */
    method Destroy()
      modifies this
      ensures image == null
      ensures width == old(width) && height == old(height) && imageSize == old(imageSize)
      ensures bytesPerPixel == old(bytesPerPixel) && isNew == old(isNew) && tvSec == old(tvSec) && tvUsec == old(tvUsec)
    {
      if image != null {
        image := null;
      }
    }
  }
}
