/** The screen rectangles the scanners grab: `build_capture_region`
    (src/scanner/screen_capture.py) for the deed panel. The window lookup
    and the grab itself are I/O and stay outside; the client rectangle and
    its screen origin are inputs. */
module ScreenCapture {

  /** `win32gui.GetClientRect`: client coordinates of the window's inside. */
  datatype ClientRect = ClientRect(left: int, top: int, right: int, bottom: int)

  /** The `mss` grab region `{"left", "top", "width", "height"}`. */
  datatype Region = Region(left: int, top: int, width: int, height: int)

  /** `CROP_W`, `CROP_H`. */
  const CropW: int := 445
  const CropH: int := 445

  function Max(a: int, b: int): (r: int)
    ensures r >= a && r >= b && (r == a || r == b)
  {
    if a >= b then a else b
  }

  function Min(a: int, b: int): (r: int)
    ensures r <= a && r <= b && (r == a || r == b)
  {
    if a <= b then a else b
  }

  /** `build_capture_region`: the corner crop starts at the offset from the
      client's screen origin and is at most 445 by 445, shrinking to what
      is left of the client to the right of and below the offset. */
  function BuildCaptureRegion(client: ClientRect, screenX: int, screenY: int, offsetX: int, offsetY: int)
    : (r: Region)
    ensures r.left == screenX + offsetX && r.top == screenY + offsetY
    ensures 0 <= r.width <= CropW && 0 <= r.height <= CropH
    ensures r.width == CropW || r.width == Max(0, client.right - offsetX)
    ensures r.height == CropH || r.height == Max(0, client.bottom - offsetY)
    ensures client.right - offsetX >= CropW ==> r.width == CropW
    ensures client.bottom - offsetY >= CropH ==> r.height == CropH
  {
    Region(screenX + offsetX, screenY + offsetY,
           Min(CropW, Max(0, client.right - offsetX)),
           Min(CropH, Max(0, client.bottom - offsetY)))
  }

  /** The grab never reaches past the client's right or bottom edge (as a
      screen coordinate) unless the offset already does. */
  lemma CaptureInsideClient(client: ClientRect, screenX: int, screenY: int, offsetX: int, offsetY: int)
    requires offsetX <= client.right && offsetY <= client.bottom
    ensures var r := BuildCaptureRegion(client, screenX, screenY, offsetX, offsetY);
      && r.left + r.width <= screenX + client.right
      && r.top + r.height <= screenY + client.bottom
  {
  }
}
