/**
 * The per-cell rules of the color-hatch artwork: which grid cells are hatched,
 * how dense their 45° hatching is, and which pen draws them. The hatch lines
 * themselves (`hatch45`, modelled in `Hatch45`) and the plotting are not
 * composed here: a drawn cell is recorded with its box, its hatch interval and
 * its pen layer. `hatch45`'s rejection of a non-finite interval is kept, since
 * it ends `render` before the cell's layer is looked up.
 */
module ColorHatch {
  import opened Wrappers
  import opened Geom
  import Js
  import Color

  /** `HueRanges`: the same hue buckets as `HUE_RANGE_RGB`, one pen per channel. */
  const HueRanges: seq<Color.HueToChannel<Color.Channel>> := [
    Color.HueToChannel(Color.Red, [(0.0 / 360.0, 50.0 / 360.0), (280.0 / 360.0, 360.0 / 360.0)]),
    Color.HueToChannel(Color.Green, [(50.0 / 360.0, 180.0 / 360.0)]),
    Color.HueToChannel(Color.Blue, [(180.0 / 360.0, 280.0 / 360.0)])
  ]

  /** `h >= r[0] && h <= r[1]` with JavaScript comparisons. */
  predicate InRangeNum(h: Js.Num, r: (real, real)) {
    Js.Ge(h, r.0) && Js.Le(h, r.1)
  }

  /** `layer.ranges.findIndex(...) != -1`. */
  predicate AnyRangeNum(h: Js.Num, ranges: seq<(real, real)>) {
    exists i :: 0 <= i < |ranges| && InRangeNum(h, ranges[i])
  }

  /** `pickLayerForHue(h)`: the first layer one of whose inclusive ranges contains `h`; `None` when none does. */
  function PickLayerForHue(h: Js.Num, layers: seq<Color.HueToChannel<Color.Channel>>): (r: Option<Color.Channel>)
    ensures r.None? <==> forall i :: 0 <= i < |layers| ==> !AnyRangeNum(h, layers[i].ranges)
    ensures r.Some? ==> exists i :: 0 <= i < |layers| && r.value == layers[i].channel && AnyRangeNum(h, layers[i].ranges)
  {
    if |layers| == 0 then None
    else if AnyRangeNum(h, layers[0].ranges) then Some(layers[0].channel)
    else PickLayerForHue(h, layers[1..])
  }

  /**
   * On a finite hue the lookup is `channelFromHue`; NaN, `undefined` and the
   * infinities fail every comparison with finite bounds, so they find no layer.
   */
  lemma {:induction false} PickLayerForHueIsChannelFromHue(h: Js.Num, layers: seq<Color.HueToChannel<Color.Channel>>)
    ensures h.Fin? ==> PickLayerForHue(h, layers) == Color.ChannelFromHue(h.v, layers)
    ensures !h.Fin? ==> PickLayerForHue(h, layers).None?
  {
    if |layers| > 0 {
      PickLayerForHueIsChannelFromHue(h, layers[1..]);
      if h.Fin? {
        assert AnyRangeNum(h, layers[0].ranges) == Color.InRanges(h.v, layers[0].ranges);
      }
    }
  }

  /** Every finite hue in [0, 1] finds a layer. */
  lemma PickLayerForHueCovers(h: Js.Num)
    requires h.Fin? && 0.0 <= h.v <= 1.0
    ensures PickLayerForHue(h, HueRanges).Some?
  {
    assert HueRanges == Color.HueRangeRgb;
    PickLayerForHueIsChannelFromHue(h, HueRanges);
    Color.HueRangeRgbCovers(h.v);
  }

  /** A pen: one of the hue layers, or the black "other" layer. */
  datatype PenLayer = HueLayer(channel: Color.Channel) | OtherLayer

  /** A cell as zipped by `render`: its box and the statistics at the same index. */
  datatype ZipCell = ZipCell(rect: Box, l: Js.Num, s: Js.Num, h: Js.Num)

  /** The strength range from the configuration. */
  datatype HatchConfig = HatchConfig(strengthLow: real, strengthHigh: real, highThreshold: real)

  /** A hatched cell: its box, the `hatch45` interval, and its pen. */
  datatype CellPlan = CellPlan(rect: Box, interval: Js.Num, layer: PenLayer)

  /** What `render` has plotted, and the error that stopped it, if any. */
  datatype Outcome = Outcome(plotted: seq<CellPlan>, error: Option<string>)

  /** `values[i]`, `undefined` past the end. */
  function At(values: seq<Js.Num>, i: nat): Js.Num {
    if i < |values| then values[i] else Js.Undefined
  }

  /** `segments.map((s, i) => ({ rect: s, l: luminance[i], s: saturation[i], h: hue[i] }))`. */
  function ZipOf(segments: seq<Box>, luminance: seq<Js.Num>, saturation: seq<Js.Num>, hue: seq<Js.Num>): (r: seq<ZipCell>)
    ensures |r| == |segments|
    ensures forall i :: 0 <= i < |r| ==> r[i].rect == segments[i]
    ensures forall i :: 0 <= i < |r| ==>
      (if i < |luminance| then r[i].l == luminance[i] else r[i].l.Undefined?)
      && (if i < |saturation| then r[i].s == saturation[i] else r[i].s.Undefined?)
      && (if i < |hue| then r[i].h == hue[i] else r[i].h.Undefined?)
  {
    seq(|segments|, i requires 0 <= i < |segments| =>
      ZipCell(segments[i], At(luminance, i), At(saturation, i), At(hue, i)))
  }

  /** The cell is left blank: NaN or missing luminance, or lighter than the threshold. */
  predicate Skip(l: Js.Num, high: real) {
    l.NaN? || l.Undefined? || Js.Gt(l, high)
  }

  /** `scale(value, minIn, maxIn, minOut, maxOut)` in JavaScript arithmetic. */
  function ScaleNum(value: Js.Num, minIn: Js.Num, maxIn: Js.Num, minOut: Js.Num, maxOut: Js.Num): Js.Num {
    Js.Add(minOut, Js.Mul(Js.Sub(maxOut, maxIn), Js.Div(Js.Sub(value, minIn), Js.Sub(minOut, minIn))))
  }

  /** `floor(scale(l, 0, 1, w / strength[1], w / strength[0]))`. */
  function IntervalFor(l: Js.Num, w: real, cfg: HatchConfig): (r: Js.Num)
    ensures l.NaN? || l.Undefined? ==> r.NaN?
  {
    var strength := (Js.Div(Js.Fin(w), Js.Fin(cfg.strengthLow)), Js.Div(Js.Fin(w), Js.Fin(cfg.strengthHigh)));
    Js.Floor(ScaleNum(l, Js.Fin(0.0), Js.Fin(1.0), strength.1, strength.0))
  }

  /**
   * With a finite luminance, a non-zero width and non-zero strengths, the
   * interval is the floor of the real `scale` formula.
   */
  lemma IntervalIsScaled(l: real, w: real, cfg: HatchConfig)
    requires w != 0.0 && cfg.strengthLow != 0.0 && cfg.strengthHigh != 0.0
    ensures IntervalFor(Js.Fin(l), w, cfg)
      == Js.Fin(Geom.Scale(l, 0.0, 1.0, w / cfg.strengthHigh, w / cfg.strengthLow).Floor as real)
  {
    var lo, hi := w / cfg.strengthHigh, w / cfg.strengthLow;
    assert lo != 0.0;
    FinDiv(w, cfg.strengthHigh);
    FinDiv(w, cfg.strengthLow);
    ScaleNumFin(l, 0.0, 1.0, lo, hi);
  }

  /** On finite arguments with `minOut != minIn`, `ScaleNum` is the real `scale` formula. */
  lemma ScaleNumFin(value: real, minIn: real, maxIn: real, minOut: real, maxOut: real)
    requires minOut != minIn
    ensures ScaleNum(Js.Fin(value), Js.Fin(minIn), Js.Fin(maxIn), Js.Fin(minOut), Js.Fin(maxOut))
      == Js.Fin(Geom.Scale(value, minIn, maxIn, minOut, maxOut))
  {
    FinSub(maxOut, maxIn);
    FinSub(value, minIn);
    FinSub(minOut, minIn);
    FinDiv(value - minIn, minOut - minIn);
    FinMul(maxOut - maxIn, (value - minIn) / (minOut - minIn));
    FinAdd(minOut, (maxOut - maxIn) * ((value - minIn) / (minOut - minIn)));
  }

  lemma FinAdd(a: real, b: real)
    ensures Js.Add(Js.Fin(a), Js.Fin(b)) == Js.Fin(a + b)
  {
  }

  lemma FinSub(a: real, b: real)
    ensures Js.Sub(Js.Fin(a), Js.Fin(b)) == Js.Fin(a - b)
  {
  }

  lemma FinMul(a: real, b: real)
    ensures Js.Mul(Js.Fin(a), Js.Fin(b)) == Js.Fin(a * b)
  {
  }

  lemma FinDiv(a: real, b: real)
    requires b != 0.0
    ensures Js.Div(Js.Fin(a), Js.Fin(b)) == Js.Fin(a / b)
  {
  }

  /**
   * The pen: a hue layer only for saturated (`s > 0.2`), not too light
   * (`l < 0.8`) cells; the black layer otherwise. `None` is the code's
   * `undefined` layer, when the hue finds no range.
   */
  function LayerFor(c: ZipCell): (r: Option<PenLayer>)
    ensures (r.Some? && r.value.HueLayer?) ==>
      Js.Gt(c.s, 0.2) && Js.Lt(c.l, 0.8) && PickLayerForHue(c.h, HueRanges) == Some(r.value.channel)
    ensures !(Js.Gt(c.s, 0.2) && Js.Lt(c.l, 0.8)) ==> r == Some(OtherLayer)
    ensures r.None? <==> Js.Gt(c.s, 0.2) && Js.Lt(c.l, 0.8) && PickLayerForHue(c.h, HueRanges).None?
  {
    if Js.Gt(c.s, 0.2) && Js.Lt(c.l, 0.8) then
      match PickLayerForHue(c.h, HueRanges)
      case Some(ch) => Some(HueLayer(ch))
      case None => None
    else Some(OtherLayer)
  }

  /** What the `for` loop over `zip` has done after the cells of `zip`. */
  function PlotAll(zip: seq<ZipCell>, w: real, cfg: HatchConfig): (r: Outcome)
    ensures |r.plotted| <= |zip|
  {
    if |zip| == 0 then Outcome([], None)
    else PlotCell(PlotAll(zip[..|zip| - 1], w, cfg), zip[|zip| - 1], w, cfg)
  }

  /**
   * One cell after the cells before it gave `prev`: `hatch45` throws on a
   * non-finite interval before the layer is picked, and an undefined layer
   * throws when it is plotted.
   */
  function PlotCell(prev: Outcome, p: ZipCell, w: real, cfg: HatchConfig): (r: Outcome)
    ensures prev.error.Some? || Skip(p.l, cfg.highThreshold) ==> r == prev
    ensures prev.plotted <= r.plotted && |r.plotted| <= |prev.plotted| + 1
    ensures prev.error.None? && !Skip(p.l, cfg.highThreshold) && !Js.IsFinite(IntervalFor(p.l, w, cfg))
      ==> r == Outcome(prev.plotted, Some("Invalid interval"))
    ensures |r.plotted| == |prev.plotted| + 1 ==> Js.IsFinite(r.plotted[|prev.plotted|].interval)
  {
    if prev.error.Some? || Skip(p.l, cfg.highThreshold) then prev
    else if !Js.IsFinite(IntervalFor(p.l, w, cfg)) then Outcome(prev.plotted, Some("Invalid interval"))
    else match LayerFor(p)
      case None => Outcome(prev.plotted, Some("layer is undefined"))
      case Some(layer) => Outcome(prev.plotted + [CellPlan(p.rect, IntervalFor(p.l, w, cfg), layer)], None)
  }

  lemma PlotAllStep(zip: seq<ZipCell>, k: nat, w: real, cfg: HatchConfig)
    requires k < |zip|
    ensures PlotAll(zip[..k + 1], w, cfg) == PlotCell(PlotAll(zip[..k], w, cfg), zip[k], w, cfg)
  {
    assert zip[..k + 1][..k] == zip[..k];
  }

  /**
   * `render` up to the plotting: nothing when the segment count and the
   * luminance count disagree; `sizeOf(segments[0])` throws on an empty grid;
   * otherwise every cell is skipped or plotted in order, until a cell's
   * interval is not finite or its layer turns out undefined.
   */
  method Render(segments: seq<Box>, luminance: seq<Js.Num>, saturation: seq<Js.Num>, hue: seq<Js.Num>,
                cfg: HatchConfig) returns (out: Outcome)
    ensures |segments| != |luminance| ==> out == Outcome([], None)
    ensures |segments| == |luminance| == 0 ==> out == Outcome([], Some("Not supported"))
    ensures |segments| == |luminance| > 0 ==>
      out == PlotAll(ZipOf(segments, luminance, saturation, hue), segments[0].xmax - segments[0].xmin, cfg)
  {
    if |segments| != |luminance| {
      return Outcome([], None);
    }
    var zip := ZipOf(segments, luminance, saturation, hue);
    if |segments| == 0 {
      return Outcome([], Some("Not supported"));
    }
    var w := segments[0].xmax - segments[0].xmin;
    out := PlotCells(zip, w, cfg);
  }

  /** The `for` loop of `render` over the zipped cells, with cell width `w`. */
  method PlotCells(zip: seq<ZipCell>, w: real, cfg: HatchConfig) returns (out: Outcome)
    ensures out == PlotAll(zip, w, cfg)
  {
    var plotted: seq<CellPlan> := [];
    var k := 0;
    while k < |zip|
      invariant 0 <= k <= |zip|
      invariant PlotAll(zip[..k], w, cfg) == Outcome(plotted, None)
    {
      PlotAllStep(zip, k, w, cfg);
      var p := zip[k];
      if Skip(p.l, cfg.highThreshold) {
        k := k + 1;
        continue;
      }
      var hatchFactorFloored := IntervalFor(p.l, w, cfg);
      if !Js.IsFinite(hatchFactorFloored) {
        PlotAllStuck(zip, k + 1, w, cfg, plotted, "Invalid interval");
        return Outcome(plotted, Some("Invalid interval"));
      }
      var layer := LayerFor(p);
      if layer.None? {
        PlotAllStuck(zip, k + 1, w, cfg, plotted, "layer is undefined");
        return Outcome(plotted, Some("layer is undefined"));
      }
      plotted := plotted + [CellPlan(p.rect, hatchFactorFloored, layer.value)];
      k := k + 1;
    }
    assert zip[..k] == zip;
    out := Outcome(plotted, None);
  }

  /** Once an error is raised, later cells change nothing. */
  lemma {:induction false} PlotAllStuck(zip: seq<ZipCell>, k: nat, w: real, cfg: HatchConfig, plotted: seq<CellPlan>, e: string)
    requires k <= |zip| && PlotAll(zip[..k], w, cfg) == Outcome(plotted, Some(e))
    ensures PlotAll(zip, w, cfg) == Outcome(plotted, Some(e))
    decreases |zip| - k
  {
    if k == |zip| {
      assert zip[..k] == zip;
    } else {
      PlotAllStep(zip, k, w, cfg);
      PlotAllStuck(zip, k + 1, w, cfg, plotted, e);
    }
  }

  /** The plan for one drawn cell. */
  function PlanOf(c: ZipCell, w: real, cfg: HatchConfig, layer: PenLayer): CellPlan {
    CellPlan(c.rect, IntervalFor(c.l, w, cfg), layer)
  }

  /**
   * Every plotted cell is a cell of the grid that is not skipped, drawn with
   * its own finite interval and its own pen.
   */
  lemma {:induction false} PlotAllSound(zip: seq<ZipCell>, w: real, cfg: HatchConfig)
    ensures |PlotAll(zip, w, cfg).plotted| <= |zip|
    ensures forall q :: q in PlotAll(zip, w, cfg).plotted ==> Js.IsFinite(q.interval)
    ensures forall q :: q in PlotAll(zip, w, cfg).plotted ==>
      exists i :: (0 <= i < |zip| && !Skip(zip[i].l, cfg.highThreshold) && LayerFor(zip[i]) == Some(q.layer)
        && q == PlanOf(zip[i], w, cfg, q.layer))
  {
    if |zip| > 0 {
      var n := |zip| - 1;
      var init := zip[..n];
      PlotAllSound(init, w, cfg);
      var before := PlotAll(init, w, cfg);
      assert PlotAll(zip, w, cfg) == PlotCell(before, zip[n], w, cfg);
      forall q | q in PlotAll(zip, w, cfg).plotted
        ensures Js.IsFinite(q.interval)
        ensures exists i :: (0 <= i < |zip| && !Skip(zip[i].l, cfg.highThreshold) && LayerFor(zip[i]) == Some(q.layer)
          && q == PlanOf(zip[i], w, cfg, q.layer))
      {
        if q in before.plotted {
          var i :| 0 <= i < n && !Skip(init[i].l, cfg.highThreshold) && LayerFor(init[i]) == Some(q.layer)
            && q == PlanOf(init[i], w, cfg, q.layer);
          assert init[i] == zip[i];
        } else {
          PlotCellSound(before, zip[n], w, cfg, q);
        }
      }
    }
  }

  /** A plot that one cell adds is that cell's own plan, with a finite interval. */
  lemma PlotCellSound(prev: Outcome, p: ZipCell, w: real, cfg: HatchConfig, q: CellPlan)
    requires q in PlotCell(prev, p, w, cfg).plotted && q !in prev.plotted
    ensures !Skip(p.l, cfg.highThreshold) && LayerFor(p) == Some(q.layer) && q == PlanOf(p, w, cfg, q.layer)
    ensures Js.IsFinite(q.interval)
  {
  }

  /**
   * Without an error, every cell that is not skipped has a finite interval and
   * is plotted, so the blank cells are exactly the skipped ones.
   */
  lemma {:induction false} PlotAllComplete(zip: seq<ZipCell>, w: real, cfg: HatchConfig)
    ensures PlotAll(zip, w, cfg).error.None? ==>
      forall i :: 0 <= i < |zip| && !Skip(zip[i].l, cfg.highThreshold) ==>
        Js.IsFinite(IntervalFor(zip[i].l, w, cfg)) && LayerFor(zip[i]).Some? && PlanOf(zip[i], w, cfg, LayerFor(zip[i]).value) in PlotAll(zip, w, cfg).plotted
  {
    if |zip| > 0 {
      var n := |zip| - 1;
      var init := zip[..n];
      PlotAllComplete(init, w, cfg);
      var before := PlotAll(init, w, cfg);
      assert PlotAll(zip, w, cfg) == PlotCell(before, zip[n], w, cfg);
      if PlotAll(zip, w, cfg).error.None? {
        PlotCellComplete(before, zip[n], w, cfg);
        forall i | 0 <= i < |zip| && !Skip(zip[i].l, cfg.highThreshold)
          ensures Js.IsFinite(IntervalFor(zip[i].l, w, cfg)) && LayerFor(zip[i]).Some?
            && PlanOf(zip[i], w, cfg, LayerFor(zip[i]).value) in PlotAll(zip, w, cfg).plotted
        {
          if i < n {
            assert init[i] == zip[i];
          }
        }
      }
    }
  }

  /** Without an error, one more cell leaves an earlier error-free outcome and plots the cell unless it is skipped. */
  lemma PlotCellComplete(prev: Outcome, p: ZipCell, w: real, cfg: HatchConfig)
    requires PlotCell(prev, p, w, cfg).error.None?
    ensures prev.error.None? && prev.plotted <= PlotCell(prev, p, w, cfg).plotted
    ensures !Skip(p.l, cfg.highThreshold) ==>
      Js.IsFinite(IntervalFor(p.l, w, cfg)) && LayerFor(p).Some?
      && PlanOf(p, w, cfg, LayerFor(p).value) in PlotCell(prev, p, w, cfg).plotted
  {
  }

  /**
   * A zero-width cell gives both strengths 0, so `scale` divides by zero and
   * the floored interval is -Infinity: the first unskipped such cell ends
   * `render` with `hatch45`'s error, and nothing after it is plotted.
   */
  lemma ZeroWidthCellThrows(rect: Box, rest: seq<ZipCell>)
    requires rect.xmax == rect.xmin
    ensures var cfg := HatchConfig(0.25, 5.5, 0.55);
      var c := ZipCell(rect, Js.Fin(0.5), Js.Fin(0.0), Js.Fin(0.0));
      IntervalFor(c.l, rect.xmax - rect.xmin, cfg) == Js.NegInf
      && PlotAll([c] + rest, rect.xmax - rect.xmin, cfg) == Outcome([], Some("Invalid interval"))
  {
    var cfg := HatchConfig(0.25, 5.5, 0.55);
    var c := ZipCell(rect, Js.Fin(0.5), Js.Fin(0.0), Js.Fin(0.0));
    var w := rect.xmax - rect.xmin;
    assert PlotAll([c], w, cfg) == PlotCell(PlotAll([], w, cfg), c, w, cfg);
    assert ([c] + rest)[..1] == [c];
    PlotAllStuck([c] + rest, 1, w, cfg, [], "Invalid interval");
  }
}
