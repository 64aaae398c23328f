/** The window of the viewer in main_loop (spriteview.cpp:356-415): resize
    events and the 'f' key that toggles fullscreen. SDL_SetVideoMode is an
    oracle: each call is recorded as a ModeRequest and its success is a
    parameter. */
module Display {
  import opened SpriteConfig

  /** The windowed size; the globals holding it are never reassigned. */
  const WINDOWED_WIDTH: int := 640
  const WINDOWED_HEIGHT: int := 360

  /** One SDL_SetVideoMode call: the size and whether SDL_FULLSCREEN is set. */
  datatype ModeRequest = ModeRequest(width: int, height: int, fullscreen: bool)

  /** Whether main_loop goes on or the program calls exit(1). */
  datatype Step = Continue | Exit

  /** fullscreen, viewportWidth, viewportHeight, and whether screen is
      non-null. */
  datatype View = View(fullscreen: bool, width: int, height: int, screenOk: bool)

  /** The view, the next step and the mode requests of one event. */
  datatype Transition = Transition(view: View, step: Step, requests: seq<ModeRequest>)

  /** The fullscreen size the detection in init produced, and whether
      fullscreen is usable at all. */
  datatype FullscreenMode = FullscreenMode(supported: bool, width: int, height: int)

  /** SDL_VIDEORESIZE: the requested size raised to 256 in each direction,
      then a windowed mode of that size; a failure exits. */
  function Resize(v: View, w: int, h: int, ok: bool): (t: Transition)
    ensures t.view.width >= MIN_EXTENT && t.view.width >= w && t.view.height >= MIN_EXTENT && t.view.height >= h
    ensures t.view.fullscreen == v.fullscreen && t.view.screenOk == ok
    ensures t.step == Exit <==> !ok
    ensures t.requests == [ModeRequest(t.view.width, t.view.height, false)]
  {
    var width, height := ClampExtent(w), ClampExtent(h);
    Transition(v.(width := width, height := height, screenOk := ok),
               if ok then Continue else Exit,
               [ModeRequest(width, height, false)])
  }

  /** The 'f' key as written. Entering fullscreen falls back to the windowed
      size when the fullscreen mode fails, without checking the fallback;
      leaving fullscreen exits when the windowed mode fails. */
  function Toggle(v: View, fs: FullscreenMode, firstOk: bool, fallbackOk: bool): (t: Transition)
    ensures !fs.supported ==> t == Transition(v, Continue, [])
    ensures t.step == Exit <==> fs.supported && v.fullscreen && !firstOk
    ensures fs.supported ==> 1 <= |t.requests| <= 2 && t.requests[0].fullscreen == !v.fullscreen
    ensures fs.supported && t.step == Continue && t.view.fullscreen ==> t.view == View(true, fs.width, fs.height, true)
    ensures fs.supported && !t.view.fullscreen ==> t.view.width == WINDOWED_WIDTH && t.view.height == WINDOWED_HEIGHT
    ensures fs.supported ==> (t.view.fullscreen != v.fullscreen <==> firstOk)
  {
    if !fs.supported then Transition(v, Continue, [])
    else if !v.fullscreen then
      if firstOk then
        Transition(View(true, fs.width, fs.height, true), Continue, [ModeRequest(fs.width, fs.height, true)])
      else
        Transition(View(false, WINDOWED_WIDTH, WINDOWED_HEIGHT, fallbackOk), Continue,
                   [ModeRequest(fs.width, fs.height, true), ModeRequest(WINDOWED_WIDTH, WINDOWED_HEIGHT, false)])
    else
      Transition(View(!firstOk, WINDOWED_WIDTH, WINDOWED_HEIGHT, firstOk), if firstOk then Continue else Exit,
                 [ModeRequest(WINDOWED_WIDTH, WINDOWED_HEIGHT, false)])
  }

  /** The 'f' key with the fallback checked like every other mode change: a
      failed fallback exits. */
  function ToggleChecked(v: View, fs: FullscreenMode, firstOk: bool, fallbackOk: bool): (t: Transition)
    ensures var w := Toggle(v, fs, firstOk, fallbackOk);
            t.view == w.view && t.requests == w.requests && (t.step == Continue ==> w.step == Continue)
    ensures t.step == Exit <==> fs.supported && !firstOk && (v.fullscreen || !fallbackOk)
  {
    var t := Toggle(v, fs, firstOk, fallbackOk);
    if fs.supported && !v.fullscreen && !firstOk && !fallbackOk then t.(step := Exit) else t
  }

  /** The viewer keeps drawing to screen: it must be non-null whenever the
      loop goes on. */
  predicate DrawsSafely(t: Transition)
  {
    t.step == Continue ==> t.view.screenOk
  }

  /** A size the window can legally have: fullscreen at the detected size,
      or windowed at 256 x 256 or more. */
  predicate Consistent(v: View, fs: FullscreenMode)
  {
    if v.fullscreen then fs.supported && v.width == fs.width && v.height == fs.height
    else v.width >= MIN_EXTENT && v.height >= MIN_EXTENT
  }

  /** Without fullscreen support the key does nothing. */
  lemma UnsupportedToggleIsNoOp(v: View, fs: FullscreenMode, firstOk: bool, fallbackOk: bool)
    requires !fs.supported
    ensures Toggle(v, fs, firstOk, fallbackOk) == Transition(v, Continue, [])
  {
  }

  /** Pressing 'f' twice from any window, both mode changes succeeding, goes
      through the detected fullscreen size and back to the 640 x 360 window
      (not to the size the window had before). */
  lemma ToggleTwiceRestoresWindow(v: View, fs: FullscreenMode, fallbackOk: bool, fallbackOk': bool)
    requires fs.supported && !v.fullscreen
    ensures var t := Toggle(v, fs, true, fallbackOk);
            && t.view == View(true, fs.width, fs.height, true)
            && Toggle(t.view, fs, true, fallbackOk').view == View(false, WINDOWED_WIDTH, WINDOWED_HEIGHT, true)
            && t.requests + Toggle(t.view, fs, true, fallbackOk').requests
                 == [ModeRequest(fs.width, fs.height, true), ModeRequest(WINDOWED_WIDTH, WINDOWED_HEIGHT, false)]
  {
  }

  /** Every toggle that goes on leaves the window consistent with its
      fullscreen flag. */
  lemma ToggleKeepsConsistent(v: View, fs: FullscreenMode, firstOk: bool, fallbackOk: bool)
    requires Consistent(v, fs)
    ensures var t := Toggle(v, fs, firstOk, fallbackOk);
            t.step == Continue ==> Consistent(t.view, fs)
  {
  }

  /** A resize of a window keeps it at 256 x 256 or more and requests exactly
      the clamped size. */
  lemma ResizeKeepsConsistent(v: View, fs: FullscreenMode, w: int, h: int, ok: bool)
    requires !v.fullscreen
    ensures var t := Resize(v, w, h, ok);
            && Consistent(t.view, fs)
            && t.requests == [ModeRequest(t.view.width, t.view.height, false)]
            && (t.view.width == w || (w < MIN_EXTENT && t.view.width == MIN_EXTENT))
            && (t.view.height == h || (h < MIN_EXTENT && t.view.height == MIN_EXTENT))
  {
  }

  /** As written, a failed fullscreen mode followed by a failed fallback
      leaves screen null while the loop goes on to draw on it. */
  lemma FailedFallbackKeepsDrawing(v: View, fs: FullscreenMode)
    requires fs.supported && !v.fullscreen
    ensures !DrawsSafely(Toggle(v, fs, false, false))
  {
  }

  /** With the fallback checked, no toggle lets the loop go on with a null
      screen, and every other outcome is as written. */
  lemma CheckedToggleDrawsSafely(v: View, fs: FullscreenMode, firstOk: bool, fallbackOk: bool)
    requires v.screenOk
    ensures DrawsSafely(ToggleChecked(v, fs, firstOk, fallbackOk))
    ensures var t, c := Toggle(v, fs, firstOk, fallbackOk), ToggleChecked(v, fs, firstOk, fallbackOk);
            c.view == t.view && c.requests == t.requests && (c.step != t.step ==> c.step == Exit)
  {
  }

  /** The window state of main_loop. */
  class Window {
    const fs: FullscreenMode
    var fullscreen: bool
    var width: int
    var height: int
    var screenOk: bool

    function Current(): View
      reads this
    {
      View(fullscreen, width, height, screenOk)
    }

    /** After init: windowed at 640 x 360, screen set. */
    constructor (fs: FullscreenMode)
      ensures this.fs == fs && Current() == View(false, WINDOWED_WIDTH, WINDOWED_HEIGHT, true)
    {
      this.fs := fs;
      fullscreen, width, height, screenOk := false, WINDOWED_WIDTH, WINDOWED_HEIGHT, true;
    }

    /** The SDL_VIDEORESIZE case. */
    method OnResize(w: int, h: int, setModeOk: bool) returns (step: Step, requests: seq<ModeRequest>)
      modifies this
      ensures Current() == Resize(old(Current()), w, h, setModeOk).view
      ensures step == Resize(old(Current()), w, h, setModeOk).step
      ensures requests == Resize(old(Current()), w, h, setModeOk).requests
    {
      width, height := w, h;
      if width < MIN_EXTENT {
        width := MIN_EXTENT;
      }
      if height < MIN_EXTENT {
        height := MIN_EXTENT;
      }
      requests := [ModeRequest(width, height, false)];
      screenOk := setModeOk;
      step := if setModeOk then Continue else Exit;
    }

    /** The 'f' key: firstOk is the result of the first SDL_SetVideoMode,
        fallbackOk that of the windowed fallback after a failed fullscreen
        mode. */
    method OnToggle(firstOk: bool, fallbackOk: bool) returns (step: Step, requests: seq<ModeRequest>)
      modifies this
      ensures Current() == Toggle(old(Current()), fs, firstOk, fallbackOk).view
      ensures step == Toggle(old(Current()), fs, firstOk, fallbackOk).step
      ensures requests == Toggle(old(Current()), fs, firstOk, fallbackOk).requests
    {
      step, requests := Continue, [];
      if !fs.supported {
        return;
      }
      if !fullscreen {
        width, height := fs.width, fs.height;
        requests := [ModeRequest(width, height, true)];
        screenOk := firstOk;
        if !screenOk {
          width, height := WINDOWED_WIDTH, WINDOWED_HEIGHT;
          requests := requests + [ModeRequest(width, height, false)];
          screenOk := fallbackOk;
        } else {
          fullscreen := true;
        }
      } else {
        width, height := WINDOWED_WIDTH, WINDOWED_HEIGHT;
        requests := [ModeRequest(width, height, false)];
        screenOk := firstOk;
        if !screenOk {
          step := Exit;
        } else {
          fullscreen := false;
        }
      }
    }
  }
}
