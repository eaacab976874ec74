/** Fixed constants of the page: the drawing surface and the song length. */
module Stage {
  /** Recording resolution of the canvas, in pixels. */
  const Width: int := 1280
  const Height: int := 720

  /** Length of one session in seconds, intro and outro included. */
  const TotalDuration: real := 26.5
}
