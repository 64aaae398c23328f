/** The checks and pure computations of the sprite viewer (spriteview.cpp):
    sprite-sheet geometry validation in init, the fullscreen mode pick, the
    resize clamp, blit placement in draw_sprite, and the -i option parser. */
module SpriteConfig {
  import opened Results
  import opened Arith

  const INT_MIN: int := -0x8000_0000
  const INT_MAX: int := 0x7FFF_FFFF

  // ---------------------------------------------------------------------------
  // Sprite-sheet geometry (init, spriteview.cpp:97-139)

  /** The exit(1) paths of init after the image is loaded. */
  datatype InitError =
    | WidthNotMultiple
    | HeightNotMultiple
    | SheetSmallerThanSprite
    | IndexOutOfRange
    | StartAfterEnd

  /** Sprites per row (spritesPerRow) and per column (spritesPerCol). */
  datatype Geometry = Geometry(perRow: nat, perCol: nat)

  /** The checks of init on the loaded image's size and the -i range. The
      sprite size is at least 4 (main rejects smaller sizes), so no division
      by zero can occur. */
  function ValidateGeometry(imageW: nat, imageH: nat, spriteW: int, spriteH: int, start: int, end: int)
    : (r: Result<Geometry, InitError>)
    requires spriteW >= 4 && spriteH >= 4
    ensures r.Ok? <==>
              && imageW % spriteW == 0 && imageH % spriteH == 0
              && imageW >= spriteW && imageH >= spriteH
              && -1 <= start <= end
              && end < (imageW / spriteW) * (imageH / spriteH)
    ensures r == Err(WidthNotMultiple) <==> imageW % spriteW != 0
    ensures r == Err(HeightNotMultiple) <==> imageW % spriteW == 0 && imageH % spriteH != 0
    ensures r.Ok? ==> r.value.perRow * spriteW == imageW && r.value.perCol * spriteH == imageH
    ensures r.Ok? ==> r.value.perRow >= 1 && r.value.perCol >= 1
    ensures r.Ok? ==> 1 <= end - start + 1 <= r.value.perRow * r.value.perCol + 1
  {
    if imageW % spriteW != 0 then Err(WidthNotMultiple)
    else if imageH % spriteH != 0 then Err(HeightNotMultiple)
    else
      var perRow, perCol := imageW / spriteW, imageH / spriteH;
      if perRow == 0 || perCol == 0 then Err(SheetSmallerThanSprite)
      else
        var total := perRow * perCol;
        if start < -1 || start >= total || end < -1 || end >= total then Err(IndexOutOfRange)
        else if start > end then Err(StartAfterEnd)
        else Ok(Geometry(perRow, perCol))
  }

  /** The same checks with a start index below 0 rejected as out of range. */
  function ValidateGeometryStrict(imageW: nat, imageH: nat, spriteW: int, spriteH: int, start: int, end: int)
    : (r: Result<Geometry, InitError>)
    requires spriteW >= 4 && spriteH >= 4
    ensures r.Ok? <==> ValidateGeometry(imageW, imageH, spriteW, spriteH, start, end).Ok? && start >= 0
    ensures r.Ok? ==> 0 <= start <= end < r.value.perRow * r.value.perCol
    ensures r.Ok? ==> r.value.perRow * spriteW == imageW && r.value.perCol * spriteH == imageH
  {
    var r := ValidateGeometry(imageW, imageH, spriteW, spriteH, start, end);
    if r.Ok? && start < 0 then Err(IndexOutOfRange) else r
  }

  // ---------------------------------------------------------------------------
  // Fullscreen resolution (init, spriteview.cpp:143-165)

  datatype Mode = Mode(w: nat, h: nat)

  /** The result of SDL_ListModes: a null list, the "any mode" marker, or a
      zero-terminated list of modes (the terminator is not part of the seq). */
  datatype ModeList = NoModes | AnyMode | Modes(list: seq<Mode>)

  function Area(m: Mode): nat { m.w * m.h }

  /** Picks the fullscreen size: none without a list, 1920x1080 when any size
      goes, otherwise the first mode of strictly greatest area; a pick left
      at zero width or height means fullscreen is unsupported. */
  method PickFullscreen(modes: ModeList) returns (supported: bool, width: nat, height: nat)
    requires modes.Modes? ==> forall i | 0 <= i < |modes.list| :: Area(modes.list[i]) <= INT_MAX
    ensures modes == NoModes ==> !supported
    ensures modes == AnyMode ==> supported && width == 1920 && height == 1080
    ensures modes.Modes? ==> (supported <==> exists i | 0 <= i < |modes.list| :: Area(modes.list[i]) > 0)
    ensures modes.Modes? && !supported ==> width == 0 && height == 0
    ensures modes.Modes? && supported ==>
              exists k | 0 <= k < |modes.list| ::
                && modes.list[k] == Mode(width, height)
                && (forall j | 0 <= j < |modes.list| :: Area(modes.list[j]) <= Area(modes.list[k]))
                && (forall j | 0 <= j < k :: Area(modes.list[j]) < Area(modes.list[k]))
  {
    supported, width, height := true, 0, 0;
    match modes
    case NoModes =>
      supported := false;
    case AnyMode =>
      width, height := 1920, 1080;
    case Modes(list) =>
      var highestResFound: nat := 0;
      ghost var best: int := -1;
      for i := 0 to |list|
        invariant best == -1 <==> highestResFound == 0
        invariant best == -1 ==> width == 0 && height == 0
        invariant best == -1 ==> forall j | 0 <= j < i :: Area(list[j]) == 0
        invariant best != -1 ==>
                    && 0 <= best < i && list[best] == Mode(width, height)
                    && highestResFound == Area(list[best]) > 0
                    && (forall j | 0 <= j < i :: Area(list[j]) <= highestResFound)
                    && (forall j | 0 <= j < best :: Area(list[j]) < highestResFound)
      {
        var numPixelsInMode := list[i].w * list[i].h;
        if highestResFound < numPixelsInMode {
          width, height := list[i].w, list[i].h;
          highestResFound := numPixelsInMode;
          best := i;
        }
      }
      if width == 0 || height == 0 {
        supported := false;
      }
      if best != -1 {
        assert Area(list[best]) > 0;
      }
  }

  // ---------------------------------------------------------------------------
  // Resize clamp (main_loop, spriteview.cpp:360-367)

  const MIN_EXTENT: int := 256

  /** A requested window extent raised to at least 256: the least value that
      is both at least 256 and at least the request. */
  function ClampExtent(v: int): (r: int)
    ensures r >= MIN_EXTENT && r >= v
    ensures r == v || r == MIN_EXTENT
  {
    if v < MIN_EXTENT then MIN_EXTENT else v
  }

  // ---------------------------------------------------------------------------
  // Blit placement (draw_sprite, spriteview.cpp:317-341)

  /** C and C++ division by 2, which truncates toward zero; Dafny's / on int
      is Euclidean and differs for a negative odd dividend. */
  function TruncDiv2(a: int): (q: int)
    ensures a >= 0 ==> 0 <= 2 * q <= a <= 2 * q + 1
    ensures a < 0 ==> 2 * q - 1 <= a <= 2 * q <= 0
  {
    if a >= 0 then a / 2 else -((-a) / 2)
  }

  datatype Point = Point(x: int, y: int)

  /** Whether draw_sprite tiles: the flag is set and the sprite is strictly
      smaller than the screen in both dimensions. */
  predicate Tiles(tiled: bool, srcW: int, srcH: int, dstW: int, dstH: int)
  {
    tiled && srcW < dstW && srcH < dstH
  }

  /** The blits of one row, from x onwards, every srcW pixels below dstW. */
  function Row(y: int, x: int, srcW: nat, dstW: int): (r: seq<Point>)
    requires srcW >= 1
    ensures forall i | 0 <= i < |r| :: r[i].y == y && x <= r[i].x < dstW
    ensures r != [] <==> x < dstW
    decreases dstW - x
  {
    if x >= dstW then [] else [Point(x, y)] + Row(y, x + srcW, srcW, dstW)
  }

  /** The blits of all rows from y onwards, every srcH pixels below dstH. */
  function Grid(y: int, srcW: nat, srcH: nat, dstW: int, dstH: int): (r: seq<Point>)
    requires srcW >= 1 && srcH >= 1
    ensures forall i | 0 <= i < |r| :: y <= r[i].y < dstH && 0 <= r[i].x < dstW
    decreases dstH - y
  {
    if y >= dstH then [] else Row(y, 0, srcW, dstW) + Grid(y + srcH, srcW, srcH, dstW, dstH)
  }

  /** The destination points draw_sprite blits the sprite to, in order. */
  method BlitPositions(tiled: bool, srcW: nat, srcH: nat, dstW: int, dstH: int) returns (blits: seq<Point>)
    requires srcW >= 1 && srcH >= 1
    ensures Tiles(tiled, srcW, srcH, dstW, dstH) ==> blits == Grid(0, srcW, srcH, dstW, dstH)
    ensures !Tiles(tiled, srcW, srcH, dstW, dstH) ==>
              blits == [Point(TruncDiv2(dstW - srcW), TruncDiv2(dstH - srcH))]
  {
    if tiled && srcW < dstW && srcH < dstH {
      blits := [];
      var y := 0;
      while y < dstH
        invariant y >= 0
        invariant blits + Grid(y, srcW, srcH, dstW, dstH) == Grid(0, srcW, srcH, dstW, dstH)
        decreases dstH - y
      {
        ghost var rest := Grid(y + srcH, srcW, srcH, dstW, dstH);
        assert Grid(y, srcW, srcH, dstW, dstH) == Row(y, 0, srcW, dstW) + rest;
        assert blits + (Row(y, 0, srcW, dstW) + rest) == (blits + Row(y, 0, srcW, dstW)) + rest;
        var x := 0;
        while x < dstW
          invariant x >= 0
          invariant (blits + Row(y, x, srcW, dstW)) + rest == Grid(0, srcW, srcH, dstW, dstH)
          decreases dstW - x
        {
          assert Row(y, x, srcW, dstW) == [Point(x, y)] + Row(y, x + srcW, srcW, dstW);
          assert blits + ([Point(x, y)] + Row(y, x + srcW, srcW, dstW))
                 == (blits + [Point(x, y)]) + Row(y, x + srcW, srcW, dstW);
          blits := blits + [Point(x, y)];
          x := x + srcW;
        }
        assert Row(y, x, srcW, dstW) == [];
        assert blits + Row(y, x, srcW, dstW) == blits;
        y := y + srcH;
      }
      assert Grid(y, srcW, srcH, dstW, dstH) == [];
      assert blits + Grid(y, srcW, srcH, dstW, dstH) == blits;
    } else {
      blits := [Point(TruncDiv2(dstW - srcW), TruncDiv2(dstH - srcH))];
    }
  }

  /** As written, draw_sprite tiles a sprite of size 0 x 0 (scale 0, which
      main never rejects): the tiling branch is taken on any non-empty screen
      and the inner loop's step x += srcWidth leaves x where it was, still
      below dstWidth, so the loop never ends. */
  lemma ZeroScaleTilingNeverAdvances(spriteW: nat, spriteH: nat, dstW: int, dstH: int, x: int)
    requires dstW > 0 && dstH > 0 && 0 <= x < dstW
    ensures Tiles(true, spriteW * 0, spriteH * 0, dstW, dstH)
    ensures x + spriteW * 0 == x && x + spriteW * 0 < dstW
  {
  }

  /** A row of blits from x has at most dstW - x entries when srcW >= 1. */
  lemma {:induction false} RowLength(y: int, x: int, srcW: nat, dstW: int)
    requires srcW >= 1
    ensures |Row(y, x, srcW, dstW)| <= if x < dstW then dstW - x else 0
    decreases dstW - x
  {
    if x < dstW {
      RowLength(y, x + srcW, srcW, dstW);
    }
  }

  /** With the scale checked to be at least 1, every sprite is at least 4
      pixels wide, and each tiling row ends after at most dstW - x blits. */
  lemma CheckedScaleRowIsBounded(spriteW: nat, scale: nat, y: int, x: int, dstW: int)
    requires spriteW >= 4 && scale >= 1
    ensures spriteW * scale >= 4
    ensures |Row(y, x, spriteW * scale, dstW)| <= if x < dstW then dstW - x else 0
  {
    MulMono(1, scale, spriteW);
    RowLength(y, x, spriteW * scale, dstW);
  }

  /** v is a whole number of steps of size s. */
  predicate IsMultipleOf(v: int, s: nat)
    requires s >= 1
    decreases if v < 0 then 0 else v
  {
    v == 0 || (v >= s && IsMultipleOf(v - s, s))
  }

  lemma {:induction false} InRow(y: int, x: int, srcW: nat, dstW: int, p: Point)
    requires srcW >= 1
    ensures p in Row(y, x, srcW, dstW) <==>
              p.y == y && x <= p.x < dstW && IsMultipleOf(p.x - x, srcW)
    decreases dstW - x
  {
    if x < dstW {
      InRow(y, x + srcW, srcW, dstW, p);
      assert Row(y, x, srcW, dstW) == [Point(x, y)] + Row(y, x + srcW, srcW, dstW);
    }
  }

  lemma {:induction false} InGrid(y: int, srcW: nat, srcH: nat, dstW: int, dstH: int, p: Point)
    requires srcW >= 1 && srcH >= 1
    ensures p in Grid(y, srcW, srcH, dstW, dstH) <==>
              && 0 <= p.x < dstW && IsMultipleOf(p.x, srcW)
              && y <= p.y < dstH && IsMultipleOf(p.y - y, srcH)
    decreases dstH - y
  {
    if y < dstH {
      InRow(y, 0, srcW, dstW, p);
      InGrid(y + srcH, srcW, srcH, dstW, dstH, p);
      assert Grid(y, srcW, srcH, dstW, dstH) == Row(y, 0, srcW, dstW) + Grid(y + srcH, srcW, srcH, dstW, dstH);
    }
  }

  /** Tiling blits at every multiple of the sprite size below the screen size,
      and nowhere else. */
  lemma TiledBlitsCoverScreen(srcW: nat, srcH: nat, dstW: int, dstH: int, p: Point)
    requires srcW >= 1 && srcH >= 1
    ensures p in Grid(0, srcW, srcH, dstW, dstH) <==>
              && 0 <= p.x < dstW && IsMultipleOf(p.x, srcW)
              && 0 <= p.y < dstH && IsMultipleOf(p.y, srcH)
  {
    InGrid(0, srcW, srcH, dstW, dstH, p);
  }

  /** A single blit centres the sprite: the two margins differ by at most one
      pixel, the left/top one being the smaller; a sprite wider than the
      screen overhangs both edges alike. */
  lemma CentredBlitIsBalanced(srcW: int, dstW: int)
    ensures var x := TruncDiv2(dstW - srcW);
            && (srcW <= dstW ==> 0 <= x && x <= dstW - (x + srcW) <= x + 1)
            && (srcW > dstW ==> x <= 0 && -x <= (x + srcW) - dstW <= -x + 1)
  {
  }

  // ---------------------------------------------------------------------------
  // The -i start:end option (main, spriteview.cpp:481-500)

  datatype ParseError = MissingRange | BadSyntax

  predicate IsSpace(c: char) { c == ' ' || '\t' <= c <= '\r' }
  predicate IsDigit(c: char) { '0' <= c <= '9' }

  function DigitValue(c: char): nat requires IsDigit(c) { c as nat - '0' as nat }

  /** What operator>> skips before a number or a char. */
  function SkipSpace(s: string): (t: string)
    ensures |t| <= |s|
    ensures t == [] || !IsSpace(t[0])
  {
    if s != [] && IsSpace(s[0]) then SkipSpace(s[1..]) else s
  }

  /** The longest run of digits at the front of s, accumulated onto acc. */
  function ScanDigits(s: string, acc: nat): (r: (nat, string))
    ensures |r.1| <= |s|
    ensures s != [] && IsDigit(s[0]) ==> |r.1| < |s|
    ensures r.1 == [] || !IsDigit(r.1[0])
  {
    if s != [] && IsDigit(s[0]) then ScanDigits(s[1..], acc * 10 + DigitValue(s[0])) else (acc, s)
  }

  /** `stream >> int`: optional space, an optional sign, at least one digit;
      a value outside the range of int fails. Returns the value and the rest. */
  function ReadInt(s: string): (r: Option<(int, string)>)
    ensures r.Some? ==> INT_MIN <= r.value.0 <= INT_MAX
    ensures r.Some? ==> |r.value.1| < |s| && (r.value.1 == [] || !IsDigit(r.value.1[0]))
    ensures SkipSpace(s) == [] ==> r.None?
  {
    ReadSigned(SkipSpace(s))
  }

  function ReadSigned(t: string): (r: Option<(int, string)>)
    ensures r.Some? ==> INT_MIN <= r.value.0 <= INT_MAX
    ensures r.Some? ==> |r.value.1| < |t| && (r.value.1 == [] || !IsDigit(r.value.1[0]))
  {
    if t != [] && t[0] == '-' then ReadMagnitude(t[1..], true)
    else if t != [] && t[0] == '+' then ReadMagnitude(t[1..], false)
    else ReadMagnitude(t, false)
  }

  function ReadMagnitude(u: string, neg: bool): (r: Option<(int, string)>)
    ensures r.Some? <==> u != [] && IsDigit(u[0]) && INT_MIN <= (if neg then 0 - ScanDigits(u, 0).0 else ScanDigits(u, 0).0) <= INT_MAX
    ensures r.Some? ==> |r.value.1| < |u| && (r.value.1 == [] || !IsDigit(r.value.1[0]))
    ensures r.Some? && !neg ==> r.value.0 >= 0
  {
    if u == [] || !IsDigit(u[0]) then None
    else
      var r := ScanDigits(u, 0);
      var v: int := if neg then 0 - r.0 as int else r.0;
      if v < INT_MIN || v > INT_MAX then None else Some((v, r.1))
  }

  /** `stream >> char`: optional space, then one character. */
  function ReadChar(s: string): (r: Option<(char, string)>)
    ensures r.None? <==> SkipSpace(s) == []
    ensures r.Some? ==> !IsSpace(r.value.0) && |r.value.1| < |s|
  {
    var t := SkipSpace(s);
    if t == [] then None else Some((t[0], t[1..]))
  }

  /** The -i argument: start, then ':', then end; anything after end is ignored. */
  function ParseIndexRange(param: string): (r: Result<(int, int), ParseError>)
    ensures r == Err(MissingRange) <==> param == []
    ensures r.Ok? ==> INT_MIN <= r.value.0 <= INT_MAX && INT_MIN <= r.value.1 <= INT_MAX
    ensures r.Ok? ==> ReadInt(param).Some? && r.value.0 == ReadInt(param).value.0
  {
    if param == [] then Err(MissingRange)
    else
      match ReadInt(param)
      case None => Err(BadSyntax)
      case Some((start, rest)) =>
        match ReadChar(rest)
        case None => Err(BadSyntax)
        case Some((delim, rest')) =>
          if delim != ':' then Err(BadSyntax)
          else
            match ReadInt(rest')
            case None => Err(BadSyntax)
            case Some((end, _)) => Ok((start, end))
  }

  // Decimal formatting, the inverse used to state what the parser accepts.

  function Digit(d: nat): (c: char)
    requires d < 10
    ensures IsDigit(c) && DigitValue(c) == d
  {
    ('0' as nat + d) as char
  }

  function NatDigits(n: nat): (ds: string)
    ensures ds != [] && forall i | 0 <= i < |ds| :: IsDigit(ds[i])
  {
    if n < 10 then [Digit(n)] else NatDigits(n / 10) + [Digit(n % 10)]
  }

  function FormatInt(v: int): string
  {
    if v < 0 then "-" + NatDigits(-v) else NatDigits(v)
  }

  predicate AllDigits(ds: string) { forall i | 0 <= i < |ds| :: IsDigit(ds[i]) }

  /** The value of a digit string accumulated onto acc. */
  function DigitsValue(ds: string, acc: nat): nat
    requires AllDigits(ds)
  {
    if ds == [] then acc else DigitsValue(ds[1..], acc * 10 + DigitValue(ds[0]))
  }

  lemma {:induction false} ScanThroughDigits(ds: string, t: string, acc: nat)
    requires AllDigits(ds)
    ensures ScanDigits(ds + t, acc) == ScanDigits(t, DigitsValue(ds, acc))
  {
    if ds != [] {
      assert (ds + t)[1..] == ds[1..] + t;
      ScanThroughDigits(ds[1..], t, acc * 10 + DigitValue(ds[0]));
    } else {
      assert ds + t == t;
    }
  }

  lemma {:induction false} DigitsValueSnoc(ds: string, c: char, acc: nat)
    requires AllDigits(ds) && IsDigit(c)
    ensures DigitsValue(ds + [c], acc) == DigitsValue(ds, acc) * 10 + DigitValue(c)
  {
    if ds != [] {
      assert (ds + [c])[1..] == ds[1..] + [c];
      DigitsValueSnoc(ds[1..], c, acc * 10 + DigitValue(ds[0]));
    }
  }

  lemma {:induction false} NatDigitsValue(n: nat)
    ensures DigitsValue(NatDigits(n), 0) == n
  {
    if n >= 10 {
      NatDigitsValue(n / 10);
      DigitsValueSnoc(NatDigits(n / 10), Digit(n % 10), 0);
    }
  }

  lemma ReadFormattedInt(v: int, t: string)
    requires INT_MIN <= v <= INT_MAX
    requires t == [] || !IsDigit(t[0])
    ensures ReadInt(FormatInt(v) + t) == Some((v, t))
  {
    if v < 0 {
      var ds := NatDigits(-v);
      NatDigitsValue(-v);
      assert FormatInt(v) + t == "-" + ds + t;
      ReadNegative(ds, t);
    } else {
      var ds := NatDigits(v);
      NatDigitsValue(v);
      assert FormatInt(v) + t == ds + t;
      ReadNonNegative(ds, t);
    }
  }

  lemma ReadNegative(ds: string, t: string)
    requires ds != [] && AllDigits(ds) && DigitsValue(ds, 0) <= -INT_MIN
    requires t == [] || !IsDigit(t[0])
    ensures ReadInt("-" + ds + t) == Some((0 - DigitsValue(ds, 0), t))
  {
    var s := "-" + ds + t;
    NoSpaceToSkip(s);
    assert ReadInt(s) == ReadSigned(s);
    assert s[1..] == ds + t;
    assert ReadSigned(s) == ReadMagnitude(ds + t, true);
    ReadDigits(ds, t, true);
  }

  lemma ReadNonNegative(ds: string, t: string)
    requires ds != [] && AllDigits(ds) && DigitsValue(ds, 0) <= INT_MAX
    requires t == [] || !IsDigit(t[0])
    ensures ReadInt(ds + t) == Some((DigitsValue(ds, 0), t))
  {
    var s := ds + t;
    assert s[0] == ds[0];
    NoSpaceToSkip(s);
    assert ReadInt(s) == ReadSigned(s);
    assert ReadSigned(s) == ReadMagnitude(s, false);
    ReadDigits(ds, t, false);
  }

  /** A digit string ending before a non-digit reads as its value. */
  lemma ReadDigits(ds: string, t: string, neg: bool)
    requires ds != [] && AllDigits(ds)
    requires t == [] || !IsDigit(t[0])
    requires var m := DigitsValue(ds, 0); if neg then m <= -INT_MIN else m <= INT_MAX
    ensures var m := DigitsValue(ds, 0);
            ReadMagnitude(ds + t, neg) == Some((if neg then 0 - m else m, t))
  {
    ScanThroughDigits(ds, t, 0);
    assert ScanDigits(t, DigitsValue(ds, 0)) == (DigitsValue(ds, 0), t);
    assert (ds + t)[0] == ds[0];
  }

  lemma NoSpaceToSkip(s: string)
    requires s != [] && !IsSpace(s[0])
    ensures SkipSpace(s) == s
  {
  }

  /** The range as it is written on the command line parses back to itself,
      whatever non-digit text follows the end index. */
  lemma ParseFormattedRange(start: int, end: int, tail: string)
    requires INT_MIN <= start <= INT_MAX && INT_MIN <= end <= INT_MAX
    requires tail == [] || !IsDigit(tail[0])
    ensures ParseIndexRange(FormatInt(start) + ":" + FormatInt(end) + tail) == Ok((start, end))
  {
    var rest' := FormatInt(end) + tail;
    var rest := ":" + rest';
    var param := FormatInt(start) + rest;
    assert FormatInt(start) + ":" + FormatInt(end) + tail == param;
    ReadFormattedInt(start, rest);
    ReadColon(rest');
    ReadFormattedInt(end, tail);
    ParseSteps(param, start, rest, rest', end, tail);
  }

  lemma ReadColon(t: string)
    ensures ReadChar(":" + t) == Some((':', t))
  {
    NoSpaceToSkip(":" + t);
    assert (":" + t)[1..] == t;
  }

  lemma ParseSteps(param: string, start: int, rest: string, rest': string, end: int, tail: string)
    requires ReadInt(param) == Some((start, rest))
    requires ReadChar(rest) == Some((':', rest'))
    requires ReadInt(rest') == Some((end, tail))
    ensures ParseIndexRange(param) == Ok((start, end))
  {
  }

  /** A start index followed by anything but spaces and ':' is rejected. */
  lemma WrongDelimiterRejected(start: int, c: char, tail: string)
    requires INT_MIN <= start <= INT_MAX
    requires c != ':' && !IsSpace(c) && !IsDigit(c)
    ensures ParseIndexRange(FormatInt(start) + [c] + tail) == Err(BadSyntax)
  {
    ReadFormattedInt(start, [c] + tail);
    assert FormatInt(start) + [c] + tail == FormatInt(start) + ([c] + tail);
    assert FormatInt(start) != [];
  }

  /** A start index and ':' with no end index after them are rejected. */
  lemma MissingEndRejected(start: int, spaces: string)
    requires INT_MIN <= start <= INT_MAX
    requires forall i | 0 <= i < |spaces| :: IsSpace(spaces[i])
    ensures ParseIndexRange(FormatInt(start) + ":" + spaces) == Err(BadSyntax)
  {
    var rest := ":" + spaces;
    var param := FormatInt(start) + rest;
    assert FormatInt(start) + ":" + spaces == param;
    ReadFormattedInt(start, rest);
    assert ReadInt(param) == Some((start, rest));
    assert SkipSpace(rest) == rest;
    assert rest[1..] == spaces;
    assert ReadChar(rest) == Some((':', spaces));
    SkipAllSpace(spaces);
    assert ReadInt(spaces) == None;
    assert param != [];
  }

  lemma {:induction false} SkipAllSpace(s: string)
    requires forall i | 0 <= i < |s| :: IsSpace(s[i])
    ensures SkipSpace(s) == []
  {
    if s != [] {
      SkipAllSpace(s[1..]);
    }
  }

  /** A parameter that does not begin with a number is rejected. */
  lemma NonNumericStartRejected(param: string)
    requires param != [] && !IsSpace(param[0]) && !IsDigit(param[0])
    requires param[0] != '-' && param[0] != '+'
    ensures ParseIndexRange(param) == Err(BadSyntax)
  {
  }
}
