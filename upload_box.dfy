/**
 * `resizeImage` in src/UploadBox.tsx: decode the dropped file, size a canvas to the
 * square side, draw the source rectangle onto it and encode the canvas in the file's
 * media type. Decoding, obtaining a 2D context and encoding are browser facilities;
 * their outcomes are parameters of the model.
 */
module UploadBox {
  import opened Wrappers
  import opened Geometry

  /** The three rejection messages, one per failure exit. */
  const LoadError: string := "Could not load image"
  const ContextError: string := "Could not get canvas context"
  const BlobError: string := "Could not create blob"

  newtype byte = b: int | 0 <= b < 256

  /**
   * A dropped file, reduced to its media type (`file.type`): its bytes are only read by
   * the decoder, whose outcome is a parameter of `ResizeImage`.
   */
  datatype File = File(mimeType: string)

  /** An encoded image and the media type it was requested in. */
  datatype Blob = Blob(data: seq<byte>, mimeType: string)

  /** One `drawImage(img, sx, sy, sw, sh, dx, dy, dw, dh)` call: source rectangle, then destination. */
  datatype DrawCall = DrawCall(source: Rect, dx: nat, dy: nat, dw: nat, dh: nat)

  /**
   * What the promise resolves with (the blob), together with the canvas state that
   * was encoded: its dimensions and the draws made on it since it was last cleared.
   */
  datatype Thumbnail = Thumbnail(blob: Blob, canvas: Dims, draws: seq<DrawCall>)

  /** An off-screen canvas. Only its size and the draws on it are modelled, not its pixels. */
  class Canvas {
    var width: nat
    var height: nat
    var draws: seq<DrawCall>

    /** `document.createElement('canvas')`: a blank canvas of the default 300 x 150. */
    constructor ()
      ensures width == 300 && height == 150 && draws == []
    {
      width, height, draws := 300, 150, [];
    }

    /** Assigning `canvas.width` resizes the canvas and clears it. */
    method SetWidth(w: nat)
      modifies this
      ensures width == w && height == old(height) && draws == []
    {
      width, draws := w, [];
    }

    /** Assigning `canvas.height` resizes the canvas and clears it. */
    method SetHeight(h: nat)
      modifies this
      ensures height == h && width == old(width) && draws == []
    {
      height, draws := h, [];
    }

    /** `ctx.drawImage(...)` records the call; the size of the canvas does not change. */
    method DrawImage(call: DrawCall)
      modifies this
      ensures draws == old(draws) + [call]
      ensures width == old(width) && height == old(height)
    {
      draws := draws + [call];
    }
  }

  /**
   * `resizeImage(file)`. `decoded` is the natural size reported by `img.onload`, or
   * None when `img.onerror` fires; `hasContext` says whether `getContext('2d')` returned
   * a context; `encoded` is what `toBlob` would hand its callback for a non-empty canvas
   * (None for a null blob). A canvas with no pixels (side 0) always gets a null blob.
   */
  method ResizeImage(file: File, decoded: Option<Dims>, hasContext: bool, encoded: Option<seq<byte>>)
    returns (r: Result<Thumbnail>)
    ensures decoded.None? ==> r == Err(LoadError)
    ensures decoded.Some? && !hasContext ==> r == Err(ContextError)
    ensures decoded.Some? && hasContext && encoded.None? ==> r == Err(BlobError)
    ensures decoded.Some? && hasContext && ComputePlan(decoded.value).size == 0 ==> r == Err(BlobError)
    ensures r.Ok? <==> decoded.Some? && hasContext && encoded.Some? && ComputePlan(decoded.value).size > 0
    ensures r.Ok? ==>
      var p := ComputePlan(decoded.value);
      && r.value.blob == Blob(encoded.value, file.mimeType)
      && r.value.canvas == Dims(p.size, p.size)
      && r.value.draws == [DrawCall(DrawSourceRect(decoded.value), 0, 0, p.size, p.size)]
    ensures r.Ok? ==> 0 < r.value.canvas.width == r.value.canvas.height <= MaxSize
  {
    if decoded.None? {
      return Err(LoadError);
    }
    var canvas := new Canvas();
    var width := decoded.value.width;
    var height := decoded.value.height;

    if width > height {
      if width > MaxSize {
        height := RoundDiv(height * MaxSize, width);
        width := MaxSize;
      }
    } else {
      if height > MaxSize {
        width := RoundDiv(width * MaxSize, height);
        height := MaxSize;
      }
    }

    var size := Min(width, height);
    canvas.SetWidth(size);
    canvas.SetHeight(size);

    if !hasContext {
      return Err(ContextError);
    }

    var offsetX := (width - size) as real / 2.0;
    var offsetY := (height - size) as real / 2.0;
    canvas.DrawImage(DrawCall(Rect(offsetX, offsetY, size, size), 0, 0, size, size));

    if canvas.width == 0 || canvas.height == 0 {
      return Err(BlobError);
    }
    match encoded {
      case None => return Err(BlobError);
      case Some(data) =>
        return Ok(Thumbnail(Blob(data, file.mimeType), Dims(canvas.width, canvas.height), canvas.draws));
    }
  }
}
