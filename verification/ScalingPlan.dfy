/**
  Where a picture goes on the screen, over exact numbers. (crates/owe-render/src/image.rs, `plan`)
 */
module ScalingPlan {
  import opened Prelude

  datatype Scaling = Cover | Contain | Center | Stretch

  datatype Pair = Pair(x: real, y: real)

  /** The drawn quad in clip space and the window of the texture it shows. */
  datatype QuadPlan = QuadPlan(clipScale: Pair, clipOffset: Pair, uvScale: Pair, uvOffset: Pair)

  const IDENTITY: QuadPlan := QuadPlan(Pair(1.0, 1.0), Pair(0.0, 0.0), Pair(1.0, 1.0), Pair(0.0, 0.0))

  /** A side of a picture or a screen. */
  type Side = r: real | r > 0.0 witness 1.0

  function Max(a: real, b: real): real { if a < b then b else a }
  function Min(a: real, b: real): real { if a < b then a else b }

  /** Output pixels per source pixel when `s` source pixels fill `t` output pixels. */
  function Ratio(s: Side, t: Side): (k: real)
    ensures k > 0.0
  {
    t / s
  }

  /** The share of `s` source pixels that `t` output pixels show at `k` output pixels per source pixel. */
  function Visible(s: Side, t: Side, k: Side): real {
    t / (s * k)
  }

  /** The share of `t` output pixels that `s` source pixels take at `k` output pixels per source pixel. */
  function Drawn(s: Side, t: Side, k: Side): real {
    s * k / t
  }

  function Margin(share: real): real {
    (1.0 - share) / 2.0
  }

  predicate Positive(s: Size) {
    s.width > 0 && s.height > 0
  }

  function Plan(source: Size, target: Size, mode: Scaling): QuadPlan {
    if !Positive(source) || !Positive(target) then IDENTITY
    else
      var sw: Side, sh: Side := source.width as real, source.height as real;
      var tw: Side, th: Side := target.width as real, target.height as real;
      match mode
      case Stretch => IDENTITY
      case Cover =>
        var scale := Max(Ratio(sw, tw), Ratio(sh, th));
        var u, v := Visible(sw, tw, scale), Visible(sh, th, scale);
        QuadPlan(Pair(1.0, 1.0), Pair(0.0, 0.0), Pair(u, v), Pair(Margin(u), Margin(v)))
      case Contain =>
        var scale := Min(Ratio(sw, tw), Ratio(sh, th));
        QuadPlan(Pair(Drawn(sw, tw, scale), Drawn(sh, th, scale)), Pair(0.0, 0.0), Pair(1.0, 1.0), Pair(0.0, 0.0))
      case Center =>
        var u, v := Min(Ratio(sw, tw), 1.0), Min(Ratio(sh, th), 1.0);
        QuadPlan(Pair(Min(Ratio(tw, sw), 1.0), Min(Ratio(th, sh), 1.0)), Pair(0.0, 0.0), Pair(u, v),
            Pair(Margin(u), Margin(v)))
  }

  // ------------------------------------------------------------------ what a plan shows

  /** A stretch of the unit interval around its middle. */
  predicate Centred(offset: real, scale: real) {
    0.0 < scale <= 1.0 && 0.0 <= offset && offset + scale <= 1.0 && offset + scale / 2.0 == 0.5
  }

  /** The window lies within the texture and the quad within the screen, both around the middle. */
  predicate Proper(p: QuadPlan) {
    && Centred(p.uvOffset.x, p.uvScale.x) && Centred(p.uvOffset.y, p.uvScale.y)
    && p.clipOffset == Pair(0.0, 0.0) && 0.0 < p.clipScale.x <= 1.0 && 0.0 < p.clipScale.y <= 1.0
  }

  /** Output pixels per source pixel along an axis: the width of the quad over the width of the window. */
  function Magnified(clip: real, uv: real, s: Side, t: Side): real {
    if uv > 0.0 then (clip * t) / (uv * s) else 0.0
  }

  function MagnificationX(p: QuadPlan, source: Size, target: Size): real
    requires Positive(source) && Positive(target)
  {
    Magnified(p.clipScale.x, p.uvScale.x, source.width as real, target.width as real)
  }

  function MagnificationY(p: QuadPlan, source: Size, target: Size): real
    requires Positive(source) && Positive(target)
  {
    Magnified(p.clipScale.y, p.uvScale.y, source.height as real, target.height as real)
  }

  // ------------------------------------------------------------------ one axis

  lemma Quotient(a: real, b: real, q: real)
    requires b != 0.0
    ensures a / b == q <==> a == q * b
  {
  }

  lemma WindowOf(s: Side, t: Side, k: Side)
    requires Ratio(s, t) <= k
    ensures 0.0 < Visible(s, t, k) <= 1.0
    ensures Magnified(1.0, Visible(s, t, k), s, t) == k
    ensures Visible(s, t, k) == 1.0 <==> Ratio(s, t) == k
  {
    var u := Visible(s, t, k);
    Quotient(t, s, t / s);
    Quotient(t, s, k);
    Quotient(t, s * k, u);
    assert t <= k * s && u * (s * k) == t;
    WithinOne(u, s * k, t);
    assert (u * s) * k == t && u * s > 0.0;
    Quotient(t, u * s, k);
  }

  lemma WithinOne(u: real, whole: Side, part: Side)
    requires u * whole == part
    ensures u > 0.0 && (u <= 1.0 <==> part <= whole) && (u == 1.0 <==> part == whole)
  {
  }

  lemma QuadOf(s: Side, t: Side, k: Side)
    requires k <= Ratio(s, t)
    ensures 0.0 < Drawn(s, t, k) <= 1.0
    ensures Magnified(Drawn(s, t, k), 1.0, s, t) == k
    ensures Drawn(s, t, k) == 1.0 <==> Ratio(s, t) == k
  {
    var c := Drawn(s, t, k);
    Quotient(t, s, t / s);
    Quotient(t, s, k);
    Quotient(s * k, t, c);
    assert k * s <= t && c * t == s * k;
    WithinOne(c, t, s * k);
    Quotient(c * t, s, k);
  }

  lemma RatioInverse(s: Side, t: Side)
    ensures Ratio(s, t) * s == t && Ratio(t, s) * t == s
    ensures Ratio(s, t) < 1.0 <==> t < s
    ensures Ratio(t, s) < 1.0 <==> s < t
  {
    Quotient(t, s, t / s);
    Quotient(s, t, s / t);
    WithinOne(t / s, s, t);
    WithinOne(s / t, t, s);
  }

  /** One axis drawn one to one: either the whole source, or the whole screen. */
  lemma OneToOne(s: Side, t: Side)
    ensures var c, u := Min(Ratio(t, s), 1.0), Min(Ratio(s, t), 1.0);
            0.0 < c <= 1.0 && 0.0 < u <= 1.0 && Magnified(c, u, s, t) == 1.0 && (c == 1.0 || u == 1.0)
  {
    RatioInverse(s, t);
    var c, u := Min(Ratio(t, s), 1.0), Min(Ratio(s, t), 1.0);
    hide Ratio;
    assert c * t == u * s && u * s > 0.0;
    Quotient(c * t, u * s, 1.0);
  }

  lemma MarginCentres(share: real)
    requires 0.0 < share <= 1.0
    ensures Centred(Margin(share), share)
  {
  }

  // ------------------------------------------------------------------ the modes

  /** In every mode and for every size the quad stays on the screen, the window in the picture, both centred. */
  lemma PlanIsProper(source: Size, target: Size, mode: Scaling)
    ensures Proper(Plan(source, target, mode))
  {
    hide Ratio, Visible, Drawn, Margin, Magnified;
    if Positive(source) && Positive(target) {
      var sw: Side, sh: Side := source.width as real, source.height as real;
      var tw: Side, th: Side := target.width as real, target.height as real;
      match mode
      case Stretch =>
      case Cover =>
        var k := Max(Ratio(sw, tw), Ratio(sh, th));
        WindowOf(sw, tw, k);
        WindowOf(sh, th, k);
        MarginCentres(Visible(sw, tw, k));
        MarginCentres(Visible(sh, th, k));
      case Contain =>
        var k := Min(Ratio(sw, tw), Ratio(sh, th));
        QuadOf(sw, tw, k);
        QuadOf(sh, th, k);
      case Center =>
        OneToOne(sw, tw);
        OneToOne(sh, th);
        MarginCentres(Min(Ratio(sw, tw), 1.0));
        MarginCentres(Min(Ratio(sh, th), 1.0));
    }
  }

  /** At `k` output pixels per source pixel the picture fills the whole screen. */
  predicate Fills(source: Size, target: Size, k: real) {
    source.width as real * k >= target.width as real && source.height as real * k >= target.height as real
  }

  /** At `k` output pixels per source pixel the whole picture fits the screen. */
  predicate Fits(source: Size, target: Size, k: real) {
    source.width as real * k <= target.width as real && source.height as real * k <= target.height as real
  }

  lemma RatioBounds(s: Side, t: Side, k: real)
    ensures (s * k >= t <==> Ratio(s, t) <= k) && (s * k <= t <==> k <= Ratio(s, t))
  {
    Quotient(t, s, t / s);
  }

  lemma FillsFrom(source: Size, target: Size, k: real)
    requires Positive(source) && Positive(target)
    ensures var rx, ry := Ratio(source.width as real, target.width as real),
              Ratio(source.height as real, target.height as real);
            (Fills(source, target, k) <==> Max(rx, ry) <= k) && (Fits(source, target, k) <==> k <= Min(rx, ry))
  {
    RatioBounds(source.width as real, target.width as real, k);
    RatioBounds(source.height as real, target.height as real, k);
    hide Ratio;
  }

  /**
    Cover keeps the picture's shape, fills the screen, shows the whole picture along at least one axis, and enlarges it
    no more than filling the screen takes.
   */
  lemma CoverFills(source: Size, target: Size)
    requires Positive(source) && Positive(target)
    ensures var p := Plan(source, target, Cover);
            && p.clipScale == Pair(1.0, 1.0)
            && MagnificationX(p, source, target) == MagnificationY(p, source, target)
            && (p.uvScale.x == 1.0 || p.uvScale.y == 1.0)
            && forall k :: Fills(source, target, k) <==> MagnificationX(p, source, target) <= k
  {
    hide Ratio, Visible, Drawn, Margin, Magnified, Fills;
    var sw: Side, sh: Side := source.width as real, source.height as real;
    var tw: Side, th: Side := target.width as real, target.height as real;
    var m := Max(Ratio(sw, tw), Ratio(sh, th));
    WindowOf(sw, tw, m);
    WindowOf(sh, th, m);
    forall k ensures Fills(source, target, k) <==> m <= k {
      FillsFrom(source, target, k);
    }
  }

  /** What Cover shows of the picture has the shape of the screen. */
  lemma CoverShowsTheScreensShape(source: Size, target: Size)
    requires Positive(source) && Positive(target)
    ensures var u := Plan(source, target, Cover).uvScale;
            (u.x * source.width as real) * target.height as real == (u.y * source.height as real) * target.width as real
  {
    hide Ratio, Drawn, Margin, Visible, Magnified;
    var sw: Side, sh: Side := source.width as real, source.height as real;
    var tw: Side, th: Side := target.width as real, target.height as real;
    var m := Max(Ratio(sw, tw), Ratio(sh, th));
    Shown(sw, tw, m);
    Shown(sh, th, m);
    var x, y := Visible(sw, tw, m) * sw, Visible(sh, th, m) * sh;
    assert x * th == x * (y * m) && y * tw == y * (x * m);
    Swap(x, y, m);
  }

  lemma Swap(x: real, y: real, m: real)
    ensures x * (y * m) == y * (x * m)
  {
  }

  lemma Shown(s: Side, t: Side, k: Side)
    ensures (Visible(s, t, k) * s) * k == t
  {
    Quotient(t, s * k, Visible(s, t, k));
    assert (Visible(s, t, k) * s) * k == Visible(s, t, k) * (s * k);
  }

  /**
    Contain keeps the picture's shape, shows all of it, reaches the screen's edges along at least one axis, and is the
    largest that fits.
   */
  lemma ContainFits(source: Size, target: Size)
    requires Positive(source) && Positive(target)
    ensures var p := Plan(source, target, Contain);
            && p.uvScale == Pair(1.0, 1.0)
            && MagnificationX(p, source, target) == MagnificationY(p, source, target)
            && (p.clipScale.x == 1.0 || p.clipScale.y == 1.0)
            && forall k :: Fits(source, target, k) <==> k <= MagnificationX(p, source, target)
  {
    hide Ratio, Visible, Drawn, Margin, Magnified, Fits;
    var sw: Side, sh: Side := source.width as real, source.height as real;
    var tw: Side, th: Side := target.width as real, target.height as real;
    var m := Min(Ratio(sw, tw), Ratio(sh, th));
    QuadOf(sw, tw, m);
    QuadOf(sh, th, m);
    forall k ensures Fits(source, target, k) <==> k <= m {
      FillsFrom(source, target, k);
    }
  }

  /** Center draws one source pixel per output pixel, and along each axis all of the picture or all of the screen. */
  lemma CenterIsOneToOne(source: Size, target: Size)
    requires Positive(source) && Positive(target)
    ensures var p := Plan(source, target, Center);
            && MagnificationX(p, source, target) == 1.0 && MagnificationY(p, source, target) == 1.0
            && (p.clipScale.x == 1.0 || p.uvScale.x == 1.0) && (p.clipScale.y == 1.0 || p.uvScale.y == 1.0)
  {
    hide Ratio, Visible, Drawn, Margin, Magnified;
    OneToOne(source.width as real, target.width as real);
    OneToOne(source.height as real, target.height as real);
  }

  /** Stretch draws the whole picture on the whole screen, whatever that does to its shape. */
  lemma StretchFillsWithEverything(source: Size, target: Size)
    requires Positive(source) && Positive(target)
    ensures var p := Plan(source, target, Stretch);
            && p.clipScale == p.uvScale == Pair(1.0, 1.0) && p.clipOffset == p.uvOffset == Pair(0.0, 0.0)
            && MagnificationX(p, source, target) * source.width as real == target.width as real
            && MagnificationY(p, source, target) * source.height as real == target.height as real
            && (MagnificationX(p, source, target) == MagnificationY(p, source, target)
                <==> source.width * target.height == source.height * target.width)
  {
    var sw: Side, sh: Side := source.width as real, source.height as real;
    var tw: Side, th: Side := target.width as real, target.height as real;
    Quotient(tw, sw, tw / sw);
    Quotient(th, sh, th / sh);
    SameRatio(sw, sh, tw, th);
    InWholeNumbers(source.width, target.height);
    InWholeNumbers(source.height, target.width);
  }

  /** Without a picture or a screen there is nothing to choose: every mode draws all of it everywhere. */
  lemma NothingToPlace(source: Size, target: Size, mode: Scaling)
    requires !Positive(source) || !Positive(target)
    ensures var p := Plan(source, target, mode);
            p.clipScale == p.uvScale == Pair(1.0, 1.0) && p.clipOffset == p.uvOffset == Pair(0.0, 0.0)
  {
  }

  /** Cover, Contain and Stretch agree exactly when the picture has the shape of the screen. */
  lemma SameShapeNeedsNoChoice(source: Size, target: Size)
    requires Positive(source) && Positive(target)
    ensures Plan(source, target, Cover) == Plan(source, target, Stretch)
            <==> source.width * target.height == source.height * target.width
    ensures Plan(source, target, Contain) == Plan(source, target, Stretch)
            <==> source.width * target.height == source.height * target.width
  {
    hide Ratio, Visible, Drawn, Magnified;
    var sw: Side, sh: Side := source.width as real, source.height as real;
    var tw: Side, th: Side := target.width as real, target.height as real;
    SameRatio(sw, sh, tw, th);
    InWholeNumbers(source.width, target.height);
    InWholeNumbers(source.height, target.width);
    WindowOf(sw, tw, Max(Ratio(sw, tw), Ratio(sh, th)));
    WindowOf(sh, th, Max(Ratio(sw, tw), Ratio(sh, th)));
    QuadOf(sw, tw, Min(Ratio(sw, tw), Ratio(sh, th)));
    QuadOf(sh, th, Min(Ratio(sw, tw), Ratio(sh, th)));
  }

  lemma InWholeNumbers(a: nat, b: nat)
    ensures (a * b) as real == a as real * b as real
  {
  }

  lemma SameRatio(sw: Side, sh: Side, tw: Side, th: Side)
    ensures Ratio(sw, tw) == Ratio(sh, th) <==> sw * th == sh * tw
  {
    var r := th / sh;
    Quotient(th, sh, r);
    Quotient(tw, sw, r);
    assert tw == r * sw <==> tw * sh == (r * sw) * sh;
    assert (r * sw) * sh == sw * (r * sh) == sw * th;
  }
}
