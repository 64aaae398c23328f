# spriteview — a Dafny model

spriteview is a small SDL 1.2 sprite-sheet viewer. It slices a sprite sheet
into equally sized tiles, enlarges each tile by an integer factor, and plays
a range of tiles as an animation at a fixed frame rate. It watches the sheet
file with Linux inotify and reloads it whenever a writer closes it. This
project models the two components that hold the logic:

- **The file watcher** (`file_observer`, `fileobserver.cpp`). It has two
  descriptors, both -1 at first. Construction opens an inotify channel and
  watches the file's directory for `IN_CLOSE_WRITE`. Destruction removes
  the watch, then closes the channel. `poll` does one select with a 2 ms
  timeout and one bounded read. It decodes the first `struct inotify_event`
  in the buffer and fires `on_write` when that record reports the watched
  file.
  - `InotifyEvent` (inotify_event.dfy) is the pure little-endian record
    codec: a decoder, an encoder, round trips, and the four-way match.
  - `FileObserver` (file_observer.dfy) is the class. Kernel calls are oracle
    parameters. Construction and destruction return the calls they make,
    and a trace semantics computes which channels and watches remain.
- **The viewer** (`spriteview.cpp`).
  - `SpriteConfig` covers:
    - the geometry checks of `init`;
    - the fullscreen-mode pick;
    - the resize clamp;
    - blit placement with C's truncating division;
    - the `-i start:end` parser, modelled on the `istream >>` rules.
  - `SpriteSheet` covers:
    - surfaces with a flat pixel array;
    - `init_sprites` as nested loops over arrays, specified by a
      nearest-neighbour function on the sheet;
    - `destroy_sprites`;
    - the hot-reload handler `on_write`;
    - `draw_sprite`.
  - `Animation` is the fixed-step timer, with Uint32 wrap-around.
  - `Display` is the resize and fullscreen-toggle state machine.
  - `Arith` holds two shared facts about multiplication and division.

Everything that comes from the kernel or from SDL is an input to the model:
descriptor numbers, select and read outcomes, loaded image sizes, converted
surfaces, mode lists, tick counts, and `SDL_SetVideoMode` success. Each
`exit(1)` path is an error value. A `throw` is an `Err` result.

Two places fall short of what a careful resource owner would do. The
watcher's constructor should release the channel it opened when the watch
registration fails; it throws at `fileobserver.cpp:27-32` without closing it.
The reload should keep the old sheet until the new one is converted; it frees
the old sheet first (`spriteview.cpp:292-293`). The model follows the code in
both places; the first is a finding (see Findings), and the second leads to
the null sheet of the third finding.

## Model

| member | source | states |
|---|---|---|
| InotifyEvent.LeValueOfBytes | fileobserver.cpp:83 | reading back the n little-endian bytes of a value below 256^n gives that value |
| InotifyEvent.LeBytesOfValue | fileobserver.cpp:83 | the little-endian bytes of a byte string's value are that string |
| InotifyEvent.ToInt32 | fileobserver.cpp:86 | the wd field read as a signed 32-bit int; converting it back gives the raw field |
| InotifyEvent.CString | fileobserver.cpp:85 | the name is the longest NUL-free prefix of the bytes after the header, stopped by a NUL when there is one |
| InotifyEvent.Decode | fileobserver.cpp:79-85 | no record iff the buffer is shorter than the 16-byte header; 32-bit fields; the name is NUL-free, fits in the buffer, and is empty when len is 0 |
| InotifyEvent.Padded | fileobserver.cpp:50-71 | the buffer poll examines is BUFFER_SIZE (16 + NAME_MAX + 1) bytes: the data read at the front, zero bytes after it |
| InotifyEvent.Encode | fileobserver.cpp:83-85 | a kernel record: 16 header bytes, then the name, then NUL bytes up to len |
| InotifyEvent.Fires | fileobserver.cpp:84-86 | on_write fires only for a record with a name, the IN_CLOSE_WRITE bit set, the watch's descriptor and the watched file's name |
| InotifyEvent.HeaderFields | fileobserver.cpp:83 | wd, mask, cookie and len are at byte offsets 0, 4, 8 and 12; the name starts at offset 16 |
| InotifyEvent.CStringStopsAtNul | fileobserver.cpp:85 | a NUL-free name followed by a NUL reads back as that name |
| InotifyEvent.DecodeFirstRecord | fileobserver.cpp:83-85 | decoding a well-formed record followed by any bytes gives the record back |
| InotifyEvent.PaddedRecordDecodes | fileobserver.cpp:70-85 | a single record read into the zeroed buffer decodes to itself |
| InotifyEvent.LaterRecordsIgnored | fileobserver.cpp:83-89 | when a read returns several records only the first is decoded, so a poll fires at most once |
| InotifyEvent.SiblingNeverFires | fileobserver.cpp:84-88 | a record naming another file of the watched directory never fires on_write |
| FileObserver.ConstructionCalls | fileobserver.cpp:19-32 | inotify_init1(IN_NONBLOCK) comes first; the watch on the directory with mask IN_CLOSE_WRITE is requested only when the channel opened |
| FileObserver.DestructionCalls | fileobserver.cpp:35-44 | watch removed iff both descriptors are set; channel closed iff it is set; no other call; removal before close |
| FileObserver.PollCalls | fileobserver.cpp:62-71 | poll makes one select with the 2 ms timeout, and one read of BUFFER_SIZE bytes iff the channel is readable |
| FileObserver.ReleasingConstructionCalls | fileobserver.cpp:26-32 | corrected construction: the construction calls, then a close of the channel iff the channel opened and the watch failed |
| FileObserver.Observer.constructor | fileobserver.cpp:5-17 | both descriptors start at -1 and the directory and file names are stored |
| FileObserver.Observer.Register | fileobserver.cpp:19-32 | a failed inotify_init1 throws with no watch requested; a failed inotify_add_watch throws with the channel descriptor kept; the calls are ConstructionCalls |
| FileObserver.Observer.RegisterReleasing | fileobserver.cpp:26-32 | corrected registration: on any failure both descriptors are -1 again and the channel has been closed |
| FileObserver.Observer.Destroy | fileobserver.cpp:35-44 | the destructor issues exactly DestructionCalls of the current descriptors |
| FileObserver.Observer.Poll | fileobserver.cpp:46-91 | one select with a 2 ms timeout and, when readable, one read of at most BUFFER_SIZE bytes; the only exceptions are the select error and the read error, each iff its call failed; a timeout or a short read returns normally; on_write fires iff the first record passes the four tests; no field changes |
| FileObserver.Open | fileobserver.cpp:5-32 | `new file_observer`: an observer holding both descriptors, or the exception of the step that failed |
| FileObserver.LifecycleReleasesAll | fileobserver.cpp:19-44 | construction then destruction leaves no open channel and no live watch, and the watch is removed while its channel is open |
| FileObserver.ChannelInitFailureHoldsNothing | fileobserver.cpp:19-25 | a failed inotify_init1 leaves nothing open and registers no watch |
| FileObserver.WatchFailureLeaksChannel | fileobserver.cpp:26-32 | as written, a failed inotify_add_watch leaves exactly the channel open |
| FileObserver.ReleasingConstructionNeverLeaks | fileobserver.cpp:26-32 | with the channel closed on failure, a failed construction leaves no channel and no watch |
| FileObserver.PollSeesFirstRecord | fileobserver.cpp:83-89 | for a record read at the front of the buffer, the fire test is exactly len > 0, the IN_CLOSE_WRITE bit, the watch descriptor and the name |
| SpriteConfig.ValidateGeometry | spriteview.cpp:97-139 | init goes on iff both sizes are multiples of the sprite size, the sheet holds at least one sprite each way, and -1 <= start <= end < total; the width error comes first, then the height error; perRow * spriteW and perCol * spriteH are the sheet's size |
| SpriteConfig.ValidateGeometryStrict | spriteview.cpp:121-139 | corrected range check: accepts exactly what init accepts with start >= 0, and then 0 <= start <= end < total |
| SpriteConfig.PickFullscreen | spriteview.cpp:143-165 | no list means unsupported; "any mode" gives 1920x1080; otherwise the first mode of strictly greatest area wins; with every area 0, fullscreen is unsupported |
| SpriteConfig.ClampExtent | spriteview.cpp:360-367 | the least value that is both at least 256 and at least the request |
| SpriteConfig.TruncDiv2 | spriteview.cpp:334-335 | C division by 2 truncating toward zero |
| SpriteConfig.BlitPositions | spriteview.cpp:317-341 | tiled only when the flag is set and the sprite is strictly smaller in both directions, then the row-major grid; otherwise one centred blit at the truncated half differences |
| SpriteConfig.Row | spriteview.cpp:322-328 | one row of blits lies on row y between x and the screen edge, and is empty iff x is past the edge |
| SpriteConfig.Grid | spriteview.cpp:321-329 | every blit of the grid lies between row y and the screen's bottom edge, and within the screen's width |
| SpriteConfig.ZeroScaleTilingNeverAdvances | spriteview.cpp:317-322 | as written, a 0 x 0 sprite (scale 0) takes the tiling branch on any screen, and the inner loop's step leaves x below the edge where it was |
| SpriteConfig.RowLength | spriteview.cpp:322 | with a sprite at least one pixel wide, a row from x holds at most dstW - x blits |
| SpriteConfig.CheckedScaleRowIsBounded | spriteview.cpp:220-222 | with the scale checked to be at least 1, every sprite is at least 4 pixels wide and every tiling row ends |
| SpriteConfig.InRow | spriteview.cpp:322 | a point is blitted by one row iff it lies on the row at a multiple of the sprite width before the screen edge |
| SpriteConfig.InGrid | spriteview.cpp:321-322 | a point is blitted by the grid iff both of its offsets are multiples of the sprite size within the screen |
| SpriteConfig.TiledBlitsCoverScreen | spriteview.cpp:320-329 | tiling blits at every multiple of the sprite size below the screen size and nowhere else |
| SpriteConfig.CentredBlitIsBalanced | spriteview.cpp:333-335 | the two margins of a centred blit differ by at most one pixel, including for a sprite larger than the screen |
| SpriteConfig.ReadInt | spriteview.cpp:488-498 | `>> int`: a value within int, at least one character consumed, the rest not starting with a digit; only spaces left means failure |
| SpriteConfig.ReadChar | spriteview.cpp:492 | `>> char`: fails iff only spaces are left, otherwise a non-space character and a shorter rest |
| SpriteConfig.ParseIndexRange | spriteview.cpp:481-500 | the missing-range error iff the parameter is empty; an accepted range holds two ints, the first being what `>> int` reads from the front |
| SpriteConfig.ReadFormattedInt | spriteview.cpp:488 | `>> int` reads back any int written in decimal and stops at the first non-digit |
| SpriteConfig.ParseFormattedRange | spriteview.cpp:481-500 | "start:end" followed by any non-digit text parses to (start, end) |
| SpriteConfig.WrongDelimiterRejected | spriteview.cpp:492-495 | a start index followed by a character that is not a space, a digit or ':' is a syntax error |
| SpriteConfig.MissingEndRejected | spriteview.cpp:496-499 | "start:" with only spaces after it is a syntax error |
| SpriteConfig.NonNumericStartRejected | spriteview.cpp:488-491 | a parameter that does not begin with a sign, space or digit is a syntax error |
| Animation.MsPerFrame | spriteview.cpp:349 | for 1 <= fps <= 1000 a frame lasts 1 to 1000 ms; above 1000 fps it lasts 0 ms |
| Animation.NumFrames | spriteview.cpp:351 | the range holds at least one frame and ends at end |
| Animation.Accumulate | spriteview.cpp:426-431 | never above 1000 ms; the accumulator plus the Uint32 tick difference, modulo 2^32, is kept when it is at most 1000 ms and dropped to 0 otherwise |
| Animation.ElapsedWithoutWrap | spriteview.cpp:426-431 | without a wrap of the tick counter, the accumulator grows by exactly the elapsed ticks |
| Animation.ElapsedAcrossWrap | spriteview.cpp:426-429 | elapsed time is measured correctly across a wrap of the tick counter |
| Animation.NextOffset | spriteview.cpp:434 | the next frame offset is (offset + 1) mod numFrames |
| Animation.OffsetAfter | spriteview.cpp:434 | the frame offset after k steps stays below numFrames (its value is OffsetAfterIsModular) |
| Animation.DrawSequence | spriteview.cpp:433-436 | draw i shows start plus the frame offset after i + 1 steps |
| Animation.DrawnWithinRange | spriteview.cpp:434-435 | every drawn index lies in start .. start + numFrames - 1 |
| Animation.OffsetAfterIsModular | spriteview.cpp:434 | after k steps the frame offset is (offset + k) mod numFrames |
| Animation.RunFrames | spriteview.cpp:433-438 | the number of draws is the accumulator divided by msPerFrame; the remainder stays below msPerFrame; the offset stays below numFrames; the drawn indices are DrawSequence and lie in [start, end] |
| Animation.FastFrameRateNeverLeavesLoop | spriteview.cpp:349-438 | above 1000 fps msPerFrame is 0, so the loop guard always holds and the body does not change the accumulator |
| Animation.Timer.constructor | spriteview.cpp:347-351 | the timer starts at the first tick reading, with an empty accumulator and frame offset 0 |
| Animation.Timer.Tick | spriteview.cpp:426-438 | one pass of the loop: lastTime becomes the current tick; the draws and remainder split the wrapped and reset accumulator; every drawn index is in range |
| SpriteSheet.OnePixelWritten | spriteview.cpp:248 | writing dst[x + y * pitch] changes pixel (x, y) only |
| SpriteSheet.FillBlock | spriteview.cpp:245-250 | the scale x scale block is painted with the colour and every other pixel is unchanged |
| SpriteSheet.PaintPixel | spriteview.cpp:239-251 | one more sheet pixel, in row order, is painted as its block; the read of the sheet stays inside the sheet |
| SpriteSheet.ScaleTile | spriteview.cpp:236-252 | every sprite pixel (x, y) is the sheet pixel (ox + x / scale, oy + y / scale); the buffer is fresh |
| SpriteSheet.BlockRepeatsSheetPixel | spriteview.cpp:239-252 | sprite pixel (ix * scale + sx, iy * scale + sy) with sx, sy < scale is sheet pixel (ox + ix, oy + iy) |
| SpriteSheet.MakeSprite | spriteview.cpp:220-257 | a new sprite of size (spriteW * scale) x (spriteH * scale) holding tile (tx, ty) enlarged |
| SpriteSheet.SliceSheet | spriteview.cpp:218-259 | perRow * perCol sprites, sprite k being tile (k mod perRow, k div perRow) |
| SpriteSheet.Viewer.constructor | spriteview.cpp:111-119 | the state after init: the validated sheet, its sprite counts (at least one each way, perRow * spriteW the sheet width), no sprites |
| SpriteSheet.Viewer.InitSprites | spriteview.cpp:206-265 | appends exactly perRow * perCol sprites in row-major order after the existing ones; sprite k of the new part is tile (k mod perRow, k div perRow) |
| SpriteSheet.Viewer.DestroySprites | spriteview.cpp:267-273 | the sprite list is empty |
| SpriteSheet.Viewer.OnWrite | spriteview.cpp:280-297 | as written: the state is untouched iff the load fails or the size differs; a failed conversion leaves a null sheet and no sprites; otherwise the new sheet is used and the sprites match it |
| SpriteSheet.Viewer.OnWriteChecked | spriteview.cpp:280-297 | corrected reload: the sprites always match the sheet and keep their count; the sheet is replaced iff the load succeeded with the same size and the conversion succeeded |
| SpriteSheet.Viewer.DrawSprite | spriteview.cpp:300-341 | draws spriteList[spriteIdx], which must exist, at the positions BlitPositions gives for the sprite's size |
| SpriteSheet.Viewer.SpriteOfTile | spriteview.cpp:218-259 | the sprite of tile (x, y) is at index y * perRow + x |
| SpriteSheet.Viewer.SpriteSize | spriteview.cpp:220-224 | every sprite is (spriteW * scale) x (spriteH * scale) |
| SpriteSheet.Viewer.SpriteShowsTile | spriteview.cpp:239-252 | pixel (x, y) of sprite k is sheet pixel ((k mod perRow) * spriteW + x / scale, (k div perRow) * spriteH + y / scale) |
| SpriteSheet.MinusOneStartIsDrawn | spriteview.cpp:121-126 | as written, -i -1:-1 passes validation of a 16x16 sheet of 4x4 sprites and every frame drawn is index -1 |
| SpriteSheet.StrictRangeDrawsOnlySprites | spriteview.cpp:433-436 | with the corrected range check every drawn index names a sprite of the sheet |
| Display.Resize | spriteview.cpp:358-375 | the window is at least 256x256 and at least the requested size; the fullscreen flag is kept; one windowed mode of the new size is requested; a failure exits |
| Display.Toggle | spriteview.cpp:383-415 | a no-op without support; exits iff leaving fullscreen fails; the first request is for the other mode; a toggle that goes on in fullscreen has the detected size, and a windowed result has 640x360; the flag flips iff the first mode change succeeds |
| Display.ToggleChecked | spriteview.cpp:392-397 | corrected toggle: the same view and requests as Toggle, with an exit added exactly for a failed fallback |
| Display.UnsupportedToggleIsNoOp | spriteview.cpp:383-387 | without fullscreen support the 'f' key changes nothing and sets no mode |
| Display.ToggleTwiceRestoresWindow | spriteview.cpp:388-415 | 'f' twice with both mode changes succeeding goes to the detected fullscreen size and back to the 640x360 window, setting exactly those two modes |
| Display.ToggleKeepsConsistent | spriteview.cpp:383-415 | a toggle that does not exit leaves fullscreen at the detected size, or windowed at 256x256 or more |
| Display.ResizeKeepsConsistent | spriteview.cpp:358-375 | a window resize keeps at least 256x256 and requests exactly the clamped size |
| Display.FailedFallbackKeepsDrawing | spriteview.cpp:392-397 | as written, a failed fullscreen mode with a failed fallback leaves screen null while the loop goes on |
| Display.CheckedToggleDrawsSafely | spriteview.cpp:392-397 | with the fallback checked, no toggle goes on with a null screen; the view and mode requests are as written |
| Display.Window.constructor | spriteview.cpp:53-61 | the window starts windowed at 640x360 with a screen |
| Display.Window.OnResize | spriteview.cpp:358-376 | the resize event's new state, step and mode request are those of Resize |
| Display.Window.OnToggle | spriteview.cpp:383-415 | the 'f' key's new state, step and mode requests are those of Toggle |

## Left out

- Kernel calls are not modelled: `inotify_init1`, `inotify_add_watch`, `inotify_rm_watch`, `select`, `read` and `close`. Their results are parameters, and the 2 ms timeout is only recorded in the call trace.
- `dirname`, `basename` and the `PATH_MAX` buffer copy in the constructor are libc. The observer takes the directory and file names as given. An unchecked copy of a path of `PATH_MAX` bytes or more is not modelled.
- InotifyEvent.Decode: the name is read up to the first NUL inside the 272-byte buffer. Past the end of the buffer, where the source would read on, the model stops.
- InotifyEvent: host byte order is fixed as little-endian.
- The `on_write` virtual call is not modelled as a call. `Poll` returns `Ok(true)` where the source calls it; `SpriteSheet.Viewer.OnWrite` is the viewer's override.
- SDL and SDL_image are a foreign library, and these calls are not modelled: loading, pixel-format conversion, surface creation, locking, blitting, flipping, event polling and `SDL_GetTicks`. A loaded image is its size; a converted surface is given.
- Allocation failures are left out: `create_sprite_surface` failing, and the exit it causes. Memory release is left out too: `SDL_FreeSurface` is a no-op in the model.
- `tmpSpriteMap` leaks on the early returns of `on_write` (`spriteview.cpp:283-291`). Memory is not modelled, so this leak is not shown.
- SpriteSheet.Surface: the sprite pitch is taken equal to its width. The sheet's pitch is kept general, and only 32-bit pixels are modelled.
- SpriteSheet.ScaleTile: requires scale >= 1. main never checks `-s`, and a scale of 0 or below makes empty or negative sprite sizes.
- SpriteConfig.BlitPositions: requires a sprite of at least 1 x 1 pixels. With scale 0 and `-t`, the tiling loop of `draw_sprite` never ends (see Findings). A negative scale is not modelled.
- Animation.Timer.constructor: requires 1 <= fps <= 1000, which main never checks. With fps 0, `1000/fps` divides by zero. Above 1000, msPerFrame is 0 and the drawing loop never ends (`Animation.FastFrameRateNeverLeavesLoop`). For -1000 <= fps <= -1, `1000/fps` is negative, and its Uint32 value is at least 2^32 - 1000, which the accumulator never reaches, so no frame is drawn. For fps <= -1001, `1000/fps` truncates to 0 and the loop never ends as above.
- SpriteConfig.PickFullscreen: requires every mode's area to fit in an int. `w * h` overflows above that, which is undefined behaviour in C.
- getopt, atoi, printf, usage output and the `-w`/`-h`/`-s`/`-f`/`-t` options are not modelled, nor is the exit path for a missing image path. Only the `-i` parser and the minimum sprite size of 4 are modelled; the minimum size is the precondition of ValidateGeometry.
- The escape key and `SDL_QUIT` only stop the loop, and are not modelled.

## Findings

| source | as written | input that shows it | evidently intended | confidence | as-written member | corrected member |
|---|---|---|---|---|---|---|
| fileobserver.cpp:26-32 | a failed `inotify_add_watch` throws with the inotify channel still open, and no destructor runs for it | a directory that cannot be watched: init returns channel 3, add_watch returns -1 | close the channel before throwing | high, not executed | FileObserver.WatchFailureLeaksChannel | FileObserver.ReleasingConstructionNeverLeaks |
| spriteview.cpp:121-126 | start index -1 is accepted, and `draw_sprite` indexes `spriteList[-1]` | `-i -1:-1` with a 16x16 sheet of 4x4 sprites | reject start indices below 0 | high, not executed | SpriteSheet.MinusOneStartIsDrawn | SpriteSheet.StrictRangeDrawsOnlySprites |
| spriteview.cpp:292-296 | the old sheet is freed and replaced by an unchecked conversion result, and `init_sprites` then dereferences null | a same-size reload whose `SDL_DisplayFormatAlpha` returns null | keep the old sheet and sprites when the conversion fails | medium, not executed | SpriteSheet.Viewer.OnWrite | SpriteSheet.Viewer.OnWriteChecked |
| spriteview.cpp:392-397 | after a failed fullscreen mode, the windowed fallback's result is not checked and the loop draws to a null screen | both `SDL_SetVideoMode` calls of the 'f' key fail | exit, like every other failed mode change | medium, not executed | Display.FailedFallbackKeepsDrawing | Display.CheckedToggleDrawsSafely |
| spriteview.cpp:317-322 | with scale 0 (never rejected by main) and `-t`, sprites are 0 x 0 and the tiling loop's `x += srcWidth` never advances | `-s 0 -t` on any sheet | reject a scale below 1 in main | high, not executed | SpriteConfig.ZeroScaleTilingNeverAdvances | SpriteConfig.CheckedScaleRowIsBounded |
