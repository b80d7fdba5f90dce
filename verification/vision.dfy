/** The detector's output as the HUD code sees it, and the mapping from video
    pixels to screen pixels that both HUD variants use ("cover" scaling: the
    video is scaled until it covers the window, then centred). The detector
    itself is not part of this model: its predictions are inputs. */
module Vision {

  /** `bbox = [x, y, width, height]` in video pixels. */
  datatype BBox = BBox(x: real, y: real, w: real, h: real)

  /** One prediction: class label, confidence score and box. */
  datatype Prediction = Prediction(cls: string, score: real, bbox: BBox)

  /** Window size (`innerWidth`, `innerHeight`) and the video's intrinsic size. */
  datatype Viewport = Viewport(innerW: real, innerH: real, videoW: real, videoH: real)
  {
    /** A video that reports ready has a non-empty picture; a window has a size. */
    predicate Valid() {
      videoW > 0.0 && videoH > 0.0 && innerW > 0.0 && innerH > 0.0
    }

    /** `Math.max(innerWidth / videoWidth, innerHeight / videoHeight)`. */
    function Scale(): (s: real)
      requires Valid()
      ensures s > 0.0
      ensures videoW * s >= innerW && videoH * s >= innerH
      ensures videoW * s == innerW || videoH * s == innerH
    {
      var sx := innerW / videoW;
      var sy := innerH / videoH;
      if sx >= sy then sx else sy
    }

    function OffsetX(): real
      requires Valid()
    {
      (innerW - videoW * Scale()) / 2.0
    }

    function OffsetY(): real
      requires Valid()
    {
      (innerH - videoH * Scale()) / 2.0
    }

    /** The reticle: the centre of the window. */
    function CentreX(): real { innerW / 2.0 }
    function CentreY(): real { innerH / 2.0 }

    /** A video-pixel box in screen pixels. */
    function ToScreen(b: BBox): (r: BBox)
      requires Valid()
      ensures r.w == b.w * Scale() && r.h == b.h * Scale()
      ensures r.x + r.w / 2.0 - CentreX() == (b.x + b.w / 2.0 - videoW / 2.0) * Scale()
      ensures r.y + r.h / 2.0 - CentreY() == (b.y + b.h / 2.0 - videoH / 2.0) * Scale()
    {
      BBox(b.x * Scale() + OffsetX(), b.y * Scale() + OffsetY(), b.w * Scale(), b.h * Scale())
    }
  }
}
