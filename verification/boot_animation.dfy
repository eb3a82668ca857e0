/**
 * The Game Boy boot animation: the frames of the cartridge's boot GIF,
 * tiled up to 11 distinct frames when there are fewer, each shown for 12
 * emulator frames, and cut to the 127 frames of the boot sequence.
 */
module BootAnimation {
  import opened Common

  const BOOT_FRAMES: nat := 127
  const FRAME_DURATION_MULTIPLIER: nat := 12
  /** Frames needed before stretching: ceil(127 / 12) = 11. */
  const REQUIRED_BASE_FRAMES: nat := (BOOT_FRAMES + FRAME_DURATION_MULTIPLIER - 1) / FRAME_DURATION_MULTIPLIER

  /** A decoded GIF, already scaled to 160x144: an image sequence has at least one frame. */
  type Gif = fs: seq<Frame> | |fs| > 0 witness [Blank]

  /** `s * n` on a Python list. */
  function Repeat<T>(s: seq<T>, n: nat): (r: seq<T>)
    ensures |r| == |s| * n
  {
    if n == 0 then [] else s + Repeat(s, n - 1)
  }

  /** `s[:n]` on a Python list: at most the first `n` elements. */
  function Take<T>(s: seq<T>, n: nat): (r: seq<T>)
    ensures |r| == if |s| <= n then |s| else n
    ensures forall i :: 0 <= i < |r| ==> r[i] == s[i]
  {
    if |s| <= n then s else s[..n]
  }

  /** The tiling step: fewer than 11 frames are repeated and cut to exactly 11. */
  function Tile(fs: Gif): seq<Frame>
  {
    if |fs| < REQUIRED_BASE_FRAMES then
      Take(Repeat(fs, (REQUIRED_BASE_FRAMES + |fs| - 1) / |fs|), REQUIRED_BASE_FRAMES)
    else fs
  }

  /** Every frame repeated FRAME_DURATION_MULTIPLIER times, in order. */
  function Stretch(fs: seq<Frame>): (r: seq<Frame>)
    ensures |r| == FRAME_DURATION_MULTIPLIER * |fs|
  {
    if fs == [] then [] else Repeat([fs[0]], FRAME_DURATION_MULTIPLIER) + Stretch(fs[1..])
  }

  /**
   * `__gif_to_boot_animation`: `decoded` is None when the GIF file is missing
   * or cannot be decoded, and the animation is then empty.
   */
  function Animation(decoded: Option<Gif>): seq<Frame>
  {
    match decoded
    case None => []
    case Some(fs) => Take(Stretch(Tile(fs)), BOOT_FRAMES)
  }

  lemma MulPos(x: int, l: int)
    requires x >= 1 && l > 0
    ensures x * l >= l
  {
  }

  /** Euclidean division is unique. */
  lemma DivModUnique(a: int, l: int, q: int, r: int)
    requires l > 0 && 0 <= r < l && a == q * l + r
    ensures a % l == r && a / l == q
  {
    var q', r' := a / l, a % l;
    assert a == q' * l + r';
    assert (q - q') * l == r' - r;
    if q > q' { MulPos(q - q', l); }
    else if q < q' { MulPos(q' - q, l); }
  }

  /** Ceiling division covers its dividend: ceil(n / l) * l >= n. */
  lemma CeilCovers(n: nat, l: nat)
    requires l > 0
    ensures ((n + l - 1) / l) * l >= n
  {
    var q, r := (n + l - 1) / l, (n + l - 1) % l;
    assert n + l - 1 == q * l + r;
  }

  lemma {:induction false} RepeatAt<T>(s: seq<T>, n: nat, j: nat)
    requires j < |s| * n
    ensures Repeat(s, n)[j] == s[j % |s|]
    decreases n
  {
    if j < |s| {
      DivModUnique(j, |s|, 0, j);
    } else {
      RepeatAt(s, n - 1, j - |s|);
      DivModUnique(j, |s|, (j - |s|) / |s| + 1, (j - |s|) % |s|);
    }
  }

  lemma {:induction false} StretchAt(fs: seq<Frame>, i: nat)
    requires i < FRAME_DURATION_MULTIPLIER * |fs|
    ensures Stretch(fs)[i] == fs[i / FRAME_DURATION_MULTIPLIER]
    decreases |fs|
  {
    if i < FRAME_DURATION_MULTIPLIER {
      RepeatAt([fs[0]], FRAME_DURATION_MULTIPLIER, i);
    } else {
      StretchAt(fs[1..], i - FRAME_DURATION_MULTIPLIER);
    }
  }

  /** The tiled list has at least 11 frames and cycles through the GIF. */
  lemma TileAt(fs: Gif, j: nat)
    requires j < REQUIRED_BASE_FRAMES
    ensures |Tile(fs)| >= REQUIRED_BASE_FRAMES
    ensures Tile(fs)[j] == fs[j % |fs|]
  {
    if |fs| < REQUIRED_BASE_FRAMES {
      var n := (REQUIRED_BASE_FRAMES + |fs| - 1) / |fs|;
      CeilCovers(REQUIRED_BASE_FRAMES, |fs|);
      RepeatAt(fs, n, j);
    } else {
      DivModUnique(j, |fs|, 0, j);
    }
  }

  /**
   * A decoded GIF gives exactly 127 boot frames, frame `i` being GIF frame
   * (i / 12) mod |GIF|: each GIF frame is shown for 12 emulator frames, and a
   * short GIF loops. A missing or undecodable GIF gives no frames.
   */
  lemma AnimationShape(fs: Gif)
    ensures |Animation(Some(fs))| == BOOT_FRAMES
    ensures forall i :: 0 <= i < BOOT_FRAMES ==>
      Animation(Some(fs))[i] == fs[(i / FRAME_DURATION_MULTIPLIER) % |fs|]
    ensures Animation(None) == []
  {
    var t := Tile(fs);
    TileAt(fs, 0);
    forall i | 0 <= i < BOOT_FRAMES
      ensures Animation(Some(fs))[i] == fs[(i / FRAME_DURATION_MULTIPLIER) % |fs|]
    {
      StretchAt(t, i);
      TileAt(fs, i / FRAME_DURATION_MULTIPLIER);
    }
  }
}
