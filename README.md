# tim, verified model of the pixel pipeline and the viewer state

`tim` shows a raster image in a character terminal. It uses the upper-half
block glyph so that each terminal cell holds two vertically stacked pixels,
and the user can pan and zoom with the keyboard. This Dafny project models
the integer core of that program and proves properties about it:

- `normalize.dfy`, module `Normalize` (`src/image.rs`). The per-encoding
  constructors `new_gray8` … `new_rgba32f` flatten a decoded raster into a
  row-major sequence of 8-bit RGB `Pixel`s. The model covers their channel
  helpers `apply_alpha`, `apply_alpha16`, `u16_to_u8` and `f32_to_u8`, and
  the dispatcher `Image::new`. Each constructor is a method whose loop
  pushes one pixel per input pixel, proved against a per-pixel conversion
  function. The casts `as u8` and `as u16` and the `u32` product are written
  out with their wrap-around, and the contracts prove that they never lose
  bits.
- `sampling.dfy`, module `Sampling` (`src/image.rs`). `Image::pixel` is a
  bounds-checked lookup that returns black off the image. The cell geometry
  of `Image::draw` is a function from a cell to `Blank | Half(upper, lower)`.
  `Draw` is the nested loop over the terminal grid. It produces the glyphs
  in the order `draw` queues them, and it is proved against that geometry.
  `Size` is `Image::size`, the image's extent at a zoom truncated to whole
  pixels.
- `navigation.dfy`, module `Navigation` (`src/main.rs`, `ui_loop`). The loop's
  mutable `pos`, `offset` and `zoom` are the fields of class `Viewer`. Its
  constructor is the session start and `HandleEvent` is the key if/else
  chain. `Recenter` is the re-centring done after every event. Each method
  is proved against a pure transition function (`Initial`, `KeyStep`,
  `Recentred`), and the lemmas about whole sessions (`Run`) are stated over
  those functions. Zoom is a `real`.

Three behaviours of `src/main.rs` are easy to misread:

- The 0.01 zoom floor is enforced only by the zoom-out key. The
  fit-to-window zoom chosen at session start and on space can be lower
  (`FitZoomCanUndercutFloor`). What holds in every state is
  `zoom >= min(0.01, fit)` (`RunKeepsZoomInRange`).
- The vertical centring divides by 4, not by 2. `offset.1` counts terminal
  rows, while `theight` and `iheight` count logical half-rows, so
  `(theight - iheight) / 4` terminal rows is half the spare height.
  `Recentred` proves that the bottom margin exceeds the top one by less
  than two terminal rows (at most three logical rows).
- Space fits the image to the terminal size measured when the session
  started (`src/main.rs:22-23`), not to the current size. The rebinding of
  `twidth`/`theight` at `src/main.rs:89-90` comes later in the loop body.
  `KeyStep` and `Viewer.HandleEvent` keep this behaviour.

## Model

| member | source | states |
|---|---|---|
| `Normalize.ApplyAlpha` | src/image.rs:31-33 | the `u32` product never wraps and the `as u8` cast never truncates. The result is floor(value*alpha/255) and never exceeds value. Alpha 0 gives 0 and alpha 255 gives value |
| `Normalize.ApplyAlpha16` | src/image.rs:27-29 | value*alpha < 2^32, so the `u32` product is exact and the `as u16` cast is lossless. The result is floor(value*alpha/65535) and at most value. Alpha 0 gives 0 and alpha 65535 gives value |
| `Normalize.U16ToU8` | src/image.rs:35-37 | the result is the high byte, rounded down: r*256 <= v < r*256+256 |
| `Normalize.HighByteExamples` | src/image.rs:35-37 | 0xFFFF maps to 0xFF, 0x0100 to 0x01 and 0x00FF to 0x00 |
| `Normalize.F32ToU8` | src/image.rs:39-48 | inputs at or below 0 give 0 and inputs at or above 1 give 255. In between, the result is value*255 truncated |
| `Normalize.Gray8Pixel` | src/image.rs:56-62 | one gray value goes into r, g and b; it is the RGB pixel (v, v, v) |
| `Normalize.GrayAlpha8Pixel` | src/image.rs:75-82 | the gray value is composited with its own alpha into all three channels: each is floor(gray*alpha/255). Alpha 0 gives black whatever the gray; alpha 255 gives the plain gray pixel |
| `Normalize.Rgb8Pixel` | src/image.rs:95-101 | the three channels pass through unchanged |
| `Normalize.Rgba8Pixel` | src/image.rs:114-120 | each channel is composited with the pixel's alpha, floor(c*alpha/255), and never brightens. Alpha 0 gives black; alpha 255 gives the RGB pixel |
| `Normalize.Gray16Pixel` | src/image.rs:133-140 | the high byte of the gray goes into all channels; it is the 16-bit RGB pixel (v, v, v) |
| `Normalize.GrayAlpha16Pixel` | src/image.rs:153-160 | the gray is composited with alpha and then reduced to its high byte: each channel is floor(floor(gray*alpha/65535)/256). Alpha 0 gives black; alpha 65535 gives the plain 16-bit gray pixel |
| `Normalize.Rgb16Pixel` | src/image.rs:173-179 | every channel is reduced to its high byte |
| `Normalize.Rgba16Pixel` | src/image.rs:192-198 | every channel is composited before the high-byte step: floor(floor(c*alpha/65535)/256). Alpha 0 gives black; alpha 65535 gives the 16-bit RGB pixel |
| `Normalize.Rgb32FPixel` | src/image.rs:211-217 | each channel is clamped: at or below 0.0 gives 0, at or above 1.0 gives 255. In between it is c*255 truncated |
| `Normalize.Rgba32FPixel` | src/image.rs:230-236 | channels are multiplied by alpha before scaling: the pixel is the float RGB conversion of (r*a, g*a, b*a). Alpha 0 gives black; alpha 1 gives the RGB float pixel |
| `Normalize.NewGray8` | src/image.rs:51-68 | same dimensions, one output pixel per input pixel in input order, and pixel i is the conversion of input pixel i |
| `Normalize.NewGrayAlpha8` | src/image.rs:70-88 | same dimensions, one output pixel per input pixel in order, pixel i composited from input pixel i alone |
| `Normalize.NewRgb8` | src/image.rs:90-107 | same dimensions, one output pixel per input pixel in order, pixel i copied from input pixel i |
| `Normalize.NewRgba8` | src/image.rs:109-126 | same dimensions, one output pixel per input pixel in order, pixel i composited from input pixel i alone |
| `Normalize.NewGray16` | src/image.rs:128-146 | same dimensions, one output pixel per input pixel in order, pixel i the high byte of input pixel i |
| `Normalize.NewGrayAlpha16` | src/image.rs:148-166 | same dimensions, one output pixel per input pixel in order, pixel i from input pixel i alone |
| `Normalize.NewRgb16` | src/image.rs:168-185 | same dimensions, one output pixel per input pixel in order, pixel i from input pixel i alone |
| `Normalize.NewRgba16` | src/image.rs:187-204 | same dimensions, one output pixel per input pixel in order, pixel i from input pixel i alone |
| `Normalize.NewRgb32F` | src/image.rs:206-223 | same dimensions, one output pixel per input pixel in order, pixel i clamped from input pixel i |
| `Normalize.NewRgba32F` | src/image.rs:225-242 | same dimensions, one output pixel per input pixel in order, pixel i from input pixel i alone |
| `Normalize.New` | src/image.rs:244-280 | the result is an error exactly for an encoding outside the ten listed. Otherwise it keeps the raster's width and height, has one pixel per input pixel, each converted by that encoding's rule, and a well-formed raster gives width*height pixels |
| `Normalize.TransparentIsBlack` | src/image.rs:70-204 | in every encoding that carries alpha, a pixel with alpha 0 normalises to black whatever its colour |
| `Sampling.PixelAt` | src/image.rs:314-324 | black when x >= width or y >= height. Otherwise the stored pixel at y*width+x, and that index is below width*height |
| `Sampling.LookupInverse` | src/image.rs:318-322 | every stored pixel i is read back at column i mod width, row i div width, so lookup inverts the row-major flattening |
| `Sampling.CellAt` | src/image.rs:297-301 | a cell is blank exactly when x < offset.0 or y < offset.1. Otherwise its upper sample is at column x-offset.0+pos.0 and row 2(y-offset.1)+pos.1, and its lower sample is one row below. The subtractions never go negative |
| `Sampling.ShownByExactlyOneCell` | src/image.rs:297-302 | a logical pixel is shown by some cell only if it is right of and below pos. It is then shown by exactly one cell: the one in its column and in the row holding its pair of logical rows |
| `Sampling.Draw` | src/image.rs:290-308 | the frame has twidth*theight glyphs in queueing order. The k-th is the glyph of the cell at column k div theight, row k mod theight: a space for a border cell, else the half block coloured by its two samples |
| `Sampling.FrameCellAt` | src/image.rs:295-296 | every cell (x, y) of the grid appears in a complete frame, at position x*theight+y |
| `Sampling.TwoByTwoFrame` | src/image.rs:295-302 | the 2x2 image red, green / blue, white at pan (0,0) and offset (0,0) draws red over blue in column 0 and green over white in column 1 |
| `Sampling.AsUsize` | src/image.rs:310-312 | the `as usize` cast truncates toward zero and saturates negatives to 0 |
| `Sampling.Size` | src/image.rs:310-312 | at zoom 1 the size is the image size. At any non-negative zoom each axis is the scaled extent truncated: s <= extent < s+1 |
| `Navigation.FitZoom` | src/main.rs:25-32 | the zoom is 1 exactly when the image fits, and otherwise lies in [0, 1). The scaled image fits both axes, and one axis is filled exactly unless the zoom is 1 |
| `Navigation.FitZoomIsLargest` | src/main.rs:25-32 | no zoom of at most 1 that fits both axes is larger than the fitted zoom |
| `Navigation.FittedSizeFits` | src/main.rs:25-32 | at the fitted zoom the truncated image size is within the terminal on both axes |
| `Navigation.FitZoomCanUndercutFloor` | src/main.rs:25-32 | the fit can be below the 0.01 floor of the zoom-out key (a 10000-pixel-wide image in 80 columns) |
| `Navigation.Recentred` | src/main.rs:93-100 | on an axis where the image is narrower (shorter) than the terminal, pan becomes 0 and the offset centres it: the horizontal margins differ by at most one column, the bottom margin exceeds the top one by less than two terminal rows (at most three logical rows). Other axes, and the zoom, are untouched |
| `Navigation.RecentredIdempotent` | src/main.rs:93-100 | re-centring a re-centred state against the same sizes changes nothing |
| `Navigation.Initial` | src/main.rs:20-42 | the session starts with pan (0,0) at the fitted zoom. Each offset is half the spare width ((startWidth-iwidth)/2 columns) or the spare height over four ((startHeight-iheight)/4 terminal rows) where the fitted image is smaller, and 0 otherwise |
| `Navigation.InitialIsCentred` | src/main.rs:20-42 | the session starts at the fitted zoom with pan (0,0). Its offsets are exactly what re-centring gives, so the first re-centre in an unchanged terminal is a no-op |
| `Navigation.KeyStep` | src/main.rs:48-86 | only Press events act, and q or Esc quits. + and = add 0.01 to the zoom, while - and _ give max(0.01, zoom-0.01). h/a and j/s decrement pan only above 0 (a no-op at 0); l/d and k/w increment pan without bound. Space resets pan and offset to (0,0) and zoom to the session-start fit. A pressed key outside this table, like any event that is not a press, leaves the state unchanged, and only space changes the offset |
| `Navigation.Iterate` | src/main.rs:44-101 | a loop iteration quits exactly when the key step quits. Otherwise it keeps the zoom the key step chose, and its state is the key step's state re-centred against the measured terminal (rows doubled) at the image size for that zoom |
| `Navigation.Run` | src/main.rs:44-101 | with no frames the state is unchanged, and a quit on the first frame leaves the state as it was |
| `Navigation.RunConcat` | src/main.rs:44-101 | the loop runs frames in sequence: running a+b is running a and then b from where a ended, and once a run has quit the later frames change nothing |
| `Navigation.RunKeepsZoomInRange` | src/main.rs:44-101 | over any run of events and terminal resizes, zoom stays at or above min(0.01, fitted zoom) |
| `Navigation.ZoomOutPressesKeepFloor` | src/main.rs:55-59 | any positive number of zoom-out presses (`-` or `_`, in any mix), from any zoom and with any resizes, leaves zoom at or above 0.01 |
| `Navigation.Viewer.constructor` | src/main.rs:20-42 | the state is the initial state: fitted zoom, pan (0,0), centred offsets. The session remembers the image size and the starting terminal size (rows doubled) |
| `Navigation.Viewer.HandleEvent` | src/main.rs:48-86 | the result is quit exactly when `KeyStep` quits, and then the state is unchanged. Otherwise the new state is `KeyStep`'s, and the zoom invariant holds |
| `Navigation.Viewer.Recenter` | src/main.rs:88-100 | the new state is the re-centring of the old one, against the measured terminal (rows doubled) and the image size at the current zoom |

## Left out

- Terminal I/O is not modelled: `window_size`, `event::read`, `queue!`/`execute!`, `flush` and the styled-cell output. The terminal size is a parameter and events are a datatype. `Draw` returns the glyphs it would queue.
- `init_tui`, `restore_tui`, `init_panic_hook`, `ui` and `main` are not modelled. They manage terminal modes, panic safety and command-line arguments.
- `Image::load` and `Image::open` are not modelled. Decoding happens in the `image` crate, which is not part of this model. The model starts from an already decoded `DynamicImage`.
- The constructors return `Result<Self>` but always succeed, so the model returns the `Image` directly.
- The model assumes the decoder's pixel iterator yields pixels in row-major order, and that its buffers hold width*height pixels (`WellFormed`).
- Normalize.F32ToU8: modelled over `real`, without f32 rounding of the product and without NaN (Rust's cast turns NaN into 0).
- Normalize.Rgba32FPixel: the product c*a is exact, not rounded as in f32.
- Sampling.Size: the product width*zoom is exact. f32 rounding, and saturation at the largest `usize`, are not modelled.
- Navigation.FitZoom: the ratios are exact real quotients, not f32. A zero-sized image, where f32 division would produce infinity or NaN, is excluded by `Session.Valid`.
- Sampling.Draw: samples at zoom 1 only. The f32 division by zoom inside `Image::pixel` is not modelled, so a logical coordinate is a source pixel coordinate.
- Sampling.PixelAt: takes the source coordinate directly. The division by zoom that produces it is not modelled.
- `Viewer` models one loop iteration as `HandleEvent` followed by `Recenter`. The draw call at the top of the loop is modelled separately by `Draw`.
