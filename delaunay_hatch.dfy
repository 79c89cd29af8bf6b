/**
 * The decision logic of the delaunay-hatch artwork: the setup reuse guard, the
 * pass that merges visually similar neighbouring grid cells, the Delaunay
 * grouping of the survivors, and the per-triangle skip and pen choice. The
 * colour difference (`ciede2000` in the code) and the triangulator are
 * inputs; plotting and the hatch fill are not modelled.
 */
module DelaunayHatch {
  import opened Wrappers
  import opened Geom
  import Js
  import Color
  import ArrayStats
  import Enumerate
  import DelaunayGroup
  import CanvasCtx

  // ---- setup ----

  /** What `setup` produced last time. */
  datatype SetupContext = SetupContext(canvas: CanvasCtx.CanvasContext, source: string, detail: real,
                                       luminance: seq<real>, hue: seq<real>, saturation: seq<real>)

  /** The prior result can be kept: same image and same detail. */
  predicate Reuses(image: string, detail: real, prior: Option<SetupContext>) {
    prior.Some? && image == prior.value.source && detail == prior.value.detail
  }

  /**
   * `setup`'s guard: returns `true` (the code's `undefined`, keep the prior
   * result) when nothing that matters changed; otherwise the prior canvas is
   * destroyed before a new one is loaded.
   */
  method Setup(image: string, detail: real, prior: Option<SetupContext>) returns (reuse: bool)
    requires prior.Some? ==> prior.value.canvas.Valid()
    modifies if prior.Some? then {prior.value.canvas} else {}
    ensures reuse <==> Reuses(image, detail, prior)
    ensures reuse ==> unchanged(prior.value.canvas)
    ensures !reuse && prior.Some? ==>
      prior.value.canvas.Valid() && prior.value.canvas.canvas.None? && prior.value.canvas.imageDataCache.None?
  {
    if prior.Some? && image == prior.value.source && detail == prior.value.detail {
      return true;
    }
    if prior.Some? {
      prior.value.canvas.Destroy();
    }
    return false;
  }

  // ---- pickLayerForHsl ----

  datatype Layer = RedLayer | GreenLayer | BlueLayer | BlackLayer

  /** A triangle's aggregate colour: median hue, average saturation and lightness. */
  datatype Agg = Agg(h: real, s: Js.Num, l: Js.Num)

  /**
   * `pickLayerForHsl`: washed-out or very light colours go to the black pen,
   * the rest to the pen of their hue channel; a hue no channel claims falls
   * through the `switch` and gives `None` (the code's `undefined`).
   */
  function PickLayerForHsl(hsl: Agg): (r: Option<Layer>)
    ensures r == Some(BlackLayer) <==> Js.Lt(hsl.s, 0.15) || Js.Gt(hsl.l, 0.9)
    ensures r.Some? && r != Some(BlackLayer) ==>
      var c := Color.ChannelFromHue(hsl.h, Color.HueRangeRgb);
      c.Some? && r.value == PenOf(c.value)
    ensures 0.0 <= hsl.h <= 1.0 ==> r.Some?
  {
    if Js.Lt(hsl.s, 0.15) || Js.Gt(hsl.l, 0.9) then Some(BlackLayer)
    else
      assert 0.0 <= hsl.h <= 1.0 ==> Color.ChannelFromHue(hsl.h, Color.HueRangeRgb).Some? by {
        if 0.0 <= hsl.h <= 1.0 {
          Color.HueRangeRgbCovers(hsl.h);
        }
      }
      match Color.ChannelFromHue(hsl.h, Color.HueRangeRgb)
      case Some(c) => Some(PenOf(c))
      case None => None
  }

  /** The coloured pen of a hue channel. */
  function PenOf(c: Color.Channel): Layer {
    match c
    case Red => RedLayer
    case Green => GreenLayer
    case Blue => BlueLayer
  }

  // ---- the merge pass ----

  /** A grid cell: its centre and its `[hue, saturation, luminance]`. */
  datatype Cell = Cell(point: Point, hsl: Color.Hsl)

  /** The loop state: the zipped cells (cleared slots are `None`), the streak counter and the previous element. */
  datatype MergeState = MergeState(zip: seq<Option<Cell>>, run: int, prior: Option<Enumerate.Element2D<Cell>>)

  /** The merge settings from the configuration. */
  datatype MergeConfig = MergeConfig(diffThreshold: real, maxMerge: real)

  /** The element and its predecessor are compared: there is a predecessor and neither is a corner. */
  predicate Compared(st: MergeState, e: Enumerate.Element2D<Cell>) {
    st.prior.Some? && !e.corner && !st.prior.value.corner
  }

  /** A state whose elements carry their cells and whose predecessor names a slot. */
  predicate Steppable(st: MergeState, e: Enumerate.Element2D<Cell>) {
    e.item.Some? && (st.prior.Some? ==> st.prior.value.item.Some? && st.prior.value.idx < |st.zip|)
  }

  /** The colour difference of an element and its predecessor. */
  function Diff(diff: (Color.Hsl, Color.Hsl) -> real, st: MergeState, e: Enumerate.Element2D<Cell>): real
    requires Steppable(st, e) && st.prior.Some?
  {
    diff(e.item.value.hsl, st.prior.value.item.value.hsl)
  }

  /**
   * The comparison removes the predecessor: the colours differ by less than the
   * threshold and the streak, read before `run++` increments it, is below the cap.
   */
  predicate Removes(diff: (Color.Hsl, Color.Hsl) -> real, cfg: MergeConfig, st: MergeState, e: Enumerate.Element2D<Cell>)
    requires Steppable(st, e)
  {
    Compared(st, e) && Diff(diff, st, e) < cfg.diffThreshold && (st.run as real) < cfg.maxMerge
  }

  /** One iteration of the loop over `enumerate2d(zip, horizontalCount)`. */
  function MergeStep(diff: (Color.Hsl, Color.Hsl) -> real, cfg: MergeConfig, st: MergeState, e: Enumerate.Element2D<Cell>): MergeState
    requires Steppable(st, e)
  {
    if Removes(diff, cfg, st, e) then MergeState(st.zip[st.prior.value.idx := None], st.run + 1, Some(e))
    else if Compared(st, e) then MergeState(st.zip, 0, Some(e))
    else MergeState(st.zip, st.run, Some(e))
  }

  /** Elements that carry their cells and name slots of a list of length `n`. */
  predicate Feasible(es: seq<Enumerate.Element2D<Cell>>, n: nat) {
    forall k :: 0 <= k < |es| ==> es[k].item.Some? && es[k].idx < n
  }

  /** The state after the loop has consumed `es`. */
  function MergeFold(diff: (Color.Hsl, Color.Hsl) -> real, cfg: MergeConfig, zip0: seq<Option<Cell>>,
                     es: seq<Enumerate.Element2D<Cell>>): (st: MergeState)
    requires Feasible(es, |zip0|)
    ensures |st.zip| == |zip0| && st.run >= 0
    ensures st.prior == if |es| == 0 then None else Some(es[|es| - 1])
  {
    if |es| == 0 then MergeState(zip0, 0, None)
    else
      var before := MergeFold(diff, cfg, zip0, es[..|es| - 1]);
      MergeStep(diff, cfg, before, es[|es| - 1])
  }

  /** Every cell wrapped as present. */
  function Present(cells: seq<Cell>): (r: seq<Option<Cell>>)
    ensures |r| == |cells| && forall i :: 0 <= i < |cells| ==> r[i] == Some(cells[i])
  {
    seq(|cells|, i requires 0 <= i < |cells| => Some(cells[i]))
  }

  /** `zip.filter(Boolean)`: the cells still present, in order. */
  function Survivors(zip: seq<Option<Cell>>): seq<Cell> {
    if |zip| == 0 then []
    else Survivors(zip[..|zip| - 1]) + (if zip[|zip| - 1].Some? then [zip[|zip| - 1].value] else [])
  }

  /** The enumeration of a grid of whole rows: slot `k` is cell `k`. */
  predicate GridEnumeration(es: seq<Enumerate.Element2D<Cell>>, cells: seq<Cell>) {
    |es| == |cells| && forall k :: 0 <= k < |es| ==> es[k].idx == k && es[k].item == Some(cells[k])
  }

  lemma GridEnumerationOf(cells: seq<Cell>, w: nat)
    requires w >= 1 && |cells| % w == 0
    ensures GridEnumeration(Enumerate.Enumerated(cells, w), cells)
  {
    var es := Enumerate.Enumerated(cells, w);
    Enumerate.EnumeratedCoversRows(cells, w, |cells| / w);
    forall k | 0 <= k < |es|
      ensures es[k].idx == k && es[k].item == Some(cells[k])
    {
      Enumerate.EnumeratedAt(cells, w, k);
    }
  }

  /** The zipped slots after the loop over a grid `w` cells wide. */
  function FinalZip(diff: (Color.Hsl, Color.Hsl) -> real, cfg: MergeConfig, cells: seq<Cell>, w: nat): seq<Option<Cell>>
    requires w >= 1 && |cells| % w == 0
  {
    GridEnumerationOf(cells, w);
    MergeFold(diff, cfg, Present(cells), Enumerate.Enumerated(cells, w)).zip
  }

  /** The cells that survive the merge pass. */
  function Merged(diff: (Color.Hsl, Color.Hsl) -> real, cfg: MergeConfig, cells: seq<Cell>, w: nat): seq<Cell>
    requires |cells| == 0 || (w >= 1 && |cells| % w == 0)
  {
    if |cells| == 0 then [] else Survivors(FinalZip(diff, cfg, cells, w))
  }

  /**
   * Lines 160-175: enumerate the zipped cells, clear the predecessor of every
   * sufficiently similar pair, then drop the cleared slots. The generator reads
   * each slot when it yields it; only earlier slots have been cleared by then,
   * so it sees the original cells.
   */
  method MergePass(diff: (Color.Hsl, Color.Hsl) -> real, cfg: MergeConfig, cells: seq<Cell>, w: nat) returns (kept: seq<Cell>)
    requires |cells| == 0 || (w >= 1 && |cells| % w == 0)
    ensures kept == Merged(diff, cfg, cells, w)
  {
    if |cells| == 0 {
      return [];
    }
    var es := Enumerate.Enumerate2d(cells, w);
    GridEnumerationOf(cells, w);
    var zip := Present(cells);
    var prior: Option<Enumerate.Element2D<Cell>> := None;
    var run: int := 0;
    var k := 0;
    assert Feasible(es, |cells|);
    assert Feasible(es[..0], |cells|);
    while k < |es|
      invariant 0 <= k <= |es|
      invariant Feasible(es[..k], |cells|)
      invariant MergeState(zip, run, prior) == MergeFold(diff, cfg, Present(cells), es[..k])
    {
      MergeFoldStep(diff, cfg, Present(cells), es, k);
      zip, run, prior := MergeTurn(diff, cfg, zip, run, prior, es[k]);
      k := k + 1;
    }
    assert es[..k] == es;
    kept := Survivors(zip);
  }

  /** The body of the `for (const i of enumerate2d(...))` loop: one merge step on `(zip, run, prior)`. */
  method MergeTurn(diff: (Color.Hsl, Color.Hsl) -> real, cfg: MergeConfig, zip: seq<Option<Cell>>, run: int,
                   prior: Option<Enumerate.Element2D<Cell>>, i: Enumerate.Element2D<Cell>)
    returns (zip': seq<Option<Cell>>, run': int, prior': Option<Enumerate.Element2D<Cell>>)
    requires Steppable(MergeState(zip, run, prior), i)
    ensures MergeState(zip', run', prior') == MergeStep(diff, cfg, MergeState(zip, run, prior), i)
  {
    zip', run' := zip, run;
    if prior.Some? && !i.corner && !prior.value.corner {
      var d := diff(i.item.value.hsl, prior.value.item.value.hsl);
      var merge := false;
      if d < cfg.diffThreshold {
        merge := (run' as real) < cfg.maxMerge;
        run' := run' + 1;
      }
      if merge {
        zip' := zip'[prior.value.idx := None];
      } else {
        run' := 0;
      }
    }
    prior' := Some(i);
  }

  /** The fold over one more element is one more step. */
  lemma MergeFoldStep(diff: (Color.Hsl, Color.Hsl) -> real, cfg: MergeConfig, zip0: seq<Option<Cell>>,
                      es: seq<Enumerate.Element2D<Cell>>, k: nat)
    requires Feasible(es, |zip0|) && k < |es|
    ensures Feasible(es[..k], |zip0|) && Feasible(es[..k + 1], |zip0|)
    ensures Steppable(MergeFold(diff, cfg, zip0, es[..k]), es[k])
    ensures MergeFold(diff, cfg, zip0, es[..k + 1]) == MergeStep(diff, cfg, MergeFold(diff, cfg, zip0, es[..k]), es[k])
  {
    assert es[..k + 1][..k] == es[..k];
    assert es[..k + 1][k] == es[k];
  }

  // ---- properties of the merge pass ----

  /**
   * The loop invariant after `j` elements of a grid enumeration: every slot
   * holds its own cell or was cleared; the slots from the predecessor on are
   * untouched; a cleared slot `i` was compared with slot `i + 1`, neither is a
   * corner and their colours differ by less than the threshold; the streak
   * never passes the cap by more than the increment that reached it.
   */
  ghost predicate MergeInv(diff: (Color.Hsl, Color.Hsl) -> real, cfg: MergeConfig, cells: seq<Cell>,
                           es: seq<Enumerate.Element2D<Cell>>, j: nat, st: MergeState)
    requires GridEnumeration(es, cells) && j <= |es|
  {
    && |st.zip| == |cells|
    && (forall i :: 0 <= i < |cells| ==> st.zip[i] == Some(cells[i]) || st.zip[i].None?)
    && (forall i :: 0 <= i < |cells| && j <= i + 1 ==> st.zip[i] == Some(cells[i]))
    && (forall i :: 0 <= i < |cells| && st.zip[i].None? ==>
          i + 1 < j && !es[i].corner && !es[i + 1].corner
          && diff(cells[i + 1].hsl, cells[i].hsl) < cfg.diffThreshold)
    && st.run >= 0 && (st.run == 0 || (st.run as real) < cfg.maxMerge + 1.0)
    && st.prior == (if j == 0 then None else Some(es[j - 1]))
  }

  /** One iteration keeps the invariant. */
  lemma MergeStepKeeps(diff: (Color.Hsl, Color.Hsl) -> real, cfg: MergeConfig, cells: seq<Cell>,
                       es: seq<Enumerate.Element2D<Cell>>, j: nat, st: MergeState)
    requires GridEnumeration(es, cells) && j < |es| && MergeInv(diff, cfg, cells, es, j, st)
    ensures Steppable(st, es[j])
    ensures MergeInv(diff, cfg, cells, es, j + 1, MergeStep(diff, cfg, st, es[j]))
  {
    if Removes(diff, cfg, st, es[j]) {
      RemoveKeeps(diff, cfg, cells, es, j, st);
    } else {
      PassKeeps(diff, cfg, cells, es, j, st, if Compared(st, es[j]) then 0 else st.run);
    }
  }

  /** A removal clears the predecessor's slot `j - 1` and lengthens the streak below the cap. */
  lemma RemoveKeeps(diff: (Color.Hsl, Color.Hsl) -> real, cfg: MergeConfig, cells: seq<Cell>,
                    es: seq<Enumerate.Element2D<Cell>>, j: nat, st: MergeState)
    requires GridEnumeration(es, cells) && j < |es| && MergeInv(diff, cfg, cells, es, j, st)
    requires Steppable(st, es[j]) && Removes(diff, cfg, st, es[j])
    ensures MergeInv(diff, cfg, cells, es, j + 1, MergeState(st.zip[j - 1 := None], st.run + 1, Some(es[j])))
  {
    assert st.prior == Some(es[j - 1]) && es[j - 1].idx == j - 1;
  }

  /** A reset or a pass leaves the slots as they are. */
  lemma PassKeeps(diff: (Color.Hsl, Color.Hsl) -> real, cfg: MergeConfig, cells: seq<Cell>,
                  es: seq<Enumerate.Element2D<Cell>>, j: nat, st: MergeState, run: int)
    requires GridEnumeration(es, cells) && j < |es| && MergeInv(diff, cfg, cells, es, j, st)
    requires run == 0 || run == st.run
    ensures MergeInv(diff, cfg, cells, es, j + 1, MergeState(st.zip, run, Some(es[j])))
  {
  }

  lemma {:induction false} MergeFoldInvariant(diff: (Color.Hsl, Color.Hsl) -> real, cfg: MergeConfig, cells: seq<Cell>,
                                              es: seq<Enumerate.Element2D<Cell>>, j: nat)
    requires GridEnumeration(es, cells) && j <= |es|
    ensures Feasible(es[..j], |cells|)
    ensures MergeInv(diff, cfg, cells, es, j, MergeFold(diff, cfg, Present(cells), es[..j]))
  {
    assert Feasible(es, |Present(cells)|);
    if j > 0 {
      MergeFoldInvariant(diff, cfg, cells, es, j - 1);
      MergeFoldStep(diff, cfg, Present(cells), es, j - 1);
      MergeStepKeeps(diff, cfg, cells, es, j - 1, MergeFold(diff, cfg, Present(cells), es[..j - 1]));
    } else {
      assert Feasible(es[..0], |cells|);
    }
  }

  /**
   * After the loop: every slot holds its own cell or was cleared, the last slot
   * is never cleared, and a cleared slot `i` is not a corner, nor is slot
   * `i + 1`, and their colours differ by less than the threshold.
   */
  lemma MergedSlots(diff: (Color.Hsl, Color.Hsl) -> real, cfg: MergeConfig, cells: seq<Cell>, w: nat)
    requires |cells| > 0 && w >= 1 && |cells| % w == 0
    ensures |Enumerate.Enumerated(cells, w)| == |cells|
    ensures var zip := FinalZip(diff, cfg, cells, w);
      && |zip| == |cells|
      && (forall i :: 0 <= i < |cells| ==> zip[i] == Some(cells[i]) || zip[i].None?)
      && zip[|cells| - 1] == Some(cells[|cells| - 1])
      && (forall i :: 0 <= i < |cells| && zip[i].None? ==>
            i + 1 < |cells| && !Enumerate.Enumerated(cells, w)[i].corner && !Enumerate.Enumerated(cells, w)[i + 1].corner
            && diff(cells[i + 1].hsl, cells[i].hsl) < cfg.diffThreshold)
  {
    var es := Enumerate.Enumerated(cells, w);
    GridEnumerationOf(cells, w);
    MergeFoldInvariant(diff, cfg, cells, es, |es|);
    assert es[..|es|] == es;
    var zip := MergeFold(diff, cfg, Present(cells), es[..|es|]).zip;
    assert FinalZip(diff, cfg, cells, w) == zip;
  }

  /** The loop state before element `j` is handled. */
  function StateAt(diff: (Color.Hsl, Color.Hsl) -> real, cfg: MergeConfig, zip0: seq<Option<Cell>>,
                   es: seq<Enumerate.Element2D<Cell>>, j: nat): MergeState
    requires Feasible(es, |zip0|) && j <= |es|
  {
    assert Feasible(es[..j], |zip0|);
    MergeFold(diff, cfg, zip0, es[..j])
  }

  /** Element `j` removes its predecessor. */
  predicate RemovesAt(diff: (Color.Hsl, Color.Hsl) -> real, cfg: MergeConfig, zip0: seq<Option<Cell>>,
                      es: seq<Enumerate.Element2D<Cell>>, j: nat)
    requires Feasible(es, |zip0|) && j < |es|
  {
    MergeFoldStep(diff, cfg, zip0, es, j);
    Removes(diff, cfg, StateAt(diff, cfg, zip0, es, j), es[j])
  }

  /** Element `j` is compared with its predecessor and removes nothing: the `run = 0` branch. */
  predicate ResetsAt(diff: (Color.Hsl, Color.Hsl) -> real, cfg: MergeConfig, zip0: seq<Option<Cell>>,
                     es: seq<Enumerate.Element2D<Cell>>, j: nat)
    requires Feasible(es, |zip0|) && j < |es|
  {
    MergeFoldStep(diff, cfg, zip0, es, j);
    Compared(StateAt(diff, cfg, zip0, es, j), es[j]) && !Removes(diff, cfg, StateAt(diff, cfg, zip0, es, j), es[j])
  }

  /** How many of the elements `lo .. hi - 1` remove their predecessor. */
  function Removals(diff: (Color.Hsl, Color.Hsl) -> real, cfg: MergeConfig, zip0: seq<Option<Cell>>,
                    es: seq<Enumerate.Element2D<Cell>>, lo: nat, hi: nat): nat
    requires Feasible(es, |zip0|) && lo <= hi <= |es|
    decreases hi
  {
    if hi == lo then 0
    else Removals(diff, cfg, zip0, es, lo, hi - 1) + (if RemovesAt(diff, cfg, zip0, es, hi - 1) then 1 else 0)
  }

  /**
   * Over a stretch with no reset the streak counter grows by one per removal,
   * and after a removal it is at most one above the cap.
   */
  lemma {:induction false} StreakCounts(diff: (Color.Hsl, Color.Hsl) -> real, cfg: MergeConfig, zip0: seq<Option<Cell>>,
                     es: seq<Enumerate.Element2D<Cell>>, lo: nat, hi: nat)
    requires Feasible(es, |zip0|) && lo <= hi <= |es|
    requires forall j :: lo <= j < hi ==> !ResetsAt(diff, cfg, zip0, es, j)
    ensures StateAt(diff, cfg, zip0, es, hi).run
         == StateAt(diff, cfg, zip0, es, lo).run + Removals(diff, cfg, zip0, es, lo, hi)
    ensures Removals(diff, cfg, zip0, es, lo, hi) > 0 ==>
      ((StateAt(diff, cfg, zip0, es, hi).run - 1) as real) < cfg.maxMerge
    decreases hi
  {
    if hi > lo {
      StreakCounts(diff, cfg, zip0, es, lo, hi - 1);
      StreakStep(diff, cfg, zip0, es, hi);
      if !RemovesAt(diff, cfg, zip0, es, hi - 1) {
        assert Removals(diff, cfg, zip0, es, lo, hi) == Removals(diff, cfg, zip0, es, lo, hi - 1);
      }
    }
  }

  /** Element `k - 1`, which does not reset the streak, adds one to it when it removes, and nothing otherwise. */
  lemma StreakStep(diff: (Color.Hsl, Color.Hsl) -> real, cfg: MergeConfig, zip0: seq<Option<Cell>>,
                   es: seq<Enumerate.Element2D<Cell>>, k: nat)
    requires Feasible(es, |zip0|) && 1 <= k <= |es| && !ResetsAt(diff, cfg, zip0, es, k - 1)
    ensures StateAt(diff, cfg, zip0, es, k).run
         == StateAt(diff, cfg, zip0, es, k - 1).run + (if RemovesAt(diff, cfg, zip0, es, k - 1) then 1 else 0)
    ensures RemovesAt(diff, cfg, zip0, es, k - 1) ==> ((StateAt(diff, cfg, zip0, es, k).run - 1) as real) < cfg.maxMerge
  {
    MergeFoldStep(diff, cfg, zip0, es, k - 1);
  }


  /**
   * `run++ < max_merge` caps a streak: counted from the start or from the last
   * comparison that removed nothing, the counter is the number of removals
   * since, and the n-th removal of a streak happens only when n - 1 is below
   * `max_merge`, so at most ⌈max_merge⌉ cells go before the next reset.
   */
  lemma MergeStreakCapped(diff: (Color.Hsl, Color.Hsl) -> real, cfg: MergeConfig, zip0: seq<Option<Cell>>,
                          es: seq<Enumerate.Element2D<Cell>>, lo: nat, hi: nat)
    requires Feasible(es, |zip0|) && lo <= hi <= |es|
    requires lo == 0 || ResetsAt(diff, cfg, zip0, es, lo - 1)
    requires forall j :: lo <= j < hi ==> !ResetsAt(diff, cfg, zip0, es, j)
    ensures StateAt(diff, cfg, zip0, es, hi).run == Removals(diff, cfg, zip0, es, lo, hi)
    ensures Removals(diff, cfg, zip0, es, lo, hi) > 0 ==>
      ((Removals(diff, cfg, zip0, es, lo, hi) - 1) as real) < cfg.maxMerge
  {
    if lo == 0 {
      assert es[..0] == [];
    } else {
      MergeFoldStep(diff, cfg, zip0, es, lo - 1);
    }
    StreakCounts(diff, cfg, zip0, es, lo, hi);
  }

  /** With the slots of a grid enumeration, slot `i` is cleared exactly when element `i + 1` removes its predecessor. */
  lemma {:induction false} ClearedIffRemoves(diff: (Color.Hsl, Color.Hsl) -> real, cfg: MergeConfig, cells: seq<Cell>,
                                             es: seq<Enumerate.Element2D<Cell>>, k: nat, i: nat)
    requires GridEnumeration(es, cells) && k <= |es| && i < |cells|
    ensures Feasible(es, |Present(cells)|)
    ensures StateAt(diff, cfg, Present(cells), es, k).zip[i].None? <==>
      i + 1 < k && RemovesAt(diff, cfg, Present(cells), es, i + 1)
    decreases k
  {
    var zip0 := Present(cells);
    assert Feasible(es, |zip0|);
    if k == 0 {
      assert es[..0] == [];
    } else {
      ClearedIffRemoves(diff, cfg, cells, es, k - 1, i);
      ClearedStep(diff, cfg, zip0, es, k, i);
    }
  }

  /** Step `k` clears slot `i` exactly when it removes, and its predecessor is slot `i`. */
  lemma ClearedStep(diff: (Color.Hsl, Color.Hsl) -> real, cfg: MergeConfig, zip0: seq<Option<Cell>>,
                    es: seq<Enumerate.Element2D<Cell>>, k: nat, i: nat)
    requires Feasible(es, |zip0|) && 1 <= k <= |es| && i < |zip0|
    requires k >= 2 ==> es[k - 2].idx == k - 2
    ensures StateAt(diff, cfg, zip0, es, k).zip[i].None? <==>
      StateAt(diff, cfg, zip0, es, k - 1).zip[i].None? || (RemovesAt(diff, cfg, zip0, es, k - 1) && i + 2 == k)
  {
    MergeFoldStep(diff, cfg, zip0, es, k - 1);
    var st := StateAt(diff, cfg, zip0, es, k - 1);
    var next := StateAt(diff, cfg, zip0, es, k);
    assert next == MergeStep(diff, cfg, st, es[k - 1]);
    if RemovesAt(diff, cfg, zip0, es, k - 1) {
      assert st.prior == Some(es[k - 2]);
      assert next.zip == st.zip[k - 2 := None];
    } else {
      assert next.zip == st.zip;
    }
  }

  /**
   * Both directions of the merge rule: slot `i` is cleared exactly when cell
   * `i + 1` exists, neither cell is a corner, their colours differ by less than
   * the threshold and the streak counter, read before `run++`, is below
   * `max_merge`.
   */
  lemma MergedRemovesExactly(diff: (Color.Hsl, Color.Hsl) -> real, cfg: MergeConfig, cells: seq<Cell>, w: nat, i: nat)
    requires |cells| > 0 && w >= 1 && |cells| % w == 0 && i < |cells|
    ensures GridEnumeration(Enumerate.Enumerated(cells, w), cells)
    ensures |FinalZip(diff, cfg, cells, w)| == |cells|
    ensures var es := Enumerate.Enumerated(cells, w);
      FinalZip(diff, cfg, cells, w)[i].None? <==>
        i + 1 < |cells| && !es[i].corner && !es[i + 1].corner
        && diff(cells[i + 1].hsl, cells[i].hsl) < cfg.diffThreshold
        && (StateAt(diff, cfg, Present(cells), es, i + 1).run as real) < cfg.maxMerge
  {
    var es := Enumerate.Enumerated(cells, w);
    GridEnumerationOf(cells, w);
    ClearedIffRemoves(diff, cfg, cells, es, |es|, i);
    assert es[..|es|] == es;
    assert FinalZip(diff, cfg, cells, w) == StateAt(diff, cfg, Present(cells), es, |es|).zip;
    if i + 1 < |cells| {
      MergeFoldStep(diff, cfg, Present(cells), es, i + 1);
      assert StateAt(diff, cfg, Present(cells), es, i + 1).prior == Some(es[i]);
    }
  }

  /** With `max_merge` at most 0 the streak test never passes and every cell survives. */
  lemma NoCapNoMerge(diff: (Color.Hsl, Color.Hsl) -> real, cfg: MergeConfig, cells: seq<Cell>, w: nat)
    requires |cells| > 0 && w >= 1 && |cells| % w == 0 && cfg.maxMerge <= 0.0
    ensures FinalZip(diff, cfg, cells, w) == Present(cells)
  {
    var zip := FinalZip(diff, cfg, cells, w);
    forall i | 0 <= i < |cells|
      ensures zip[i] == Some(cells[i])
    {
      MergedRemovesExactly(diff, cfg, cells, w, i);
      MergedSlots(diff, cfg, cells, w);
    }
  }

  /**
   * One row of four cells: only the middle pair is compared (the ends are
   * corners), so cell 1 goes exactly when cells 1 and 2 are similar and
   * `max_merge` is positive.
   */
  lemma MergeRowOfFour(diff: (Color.Hsl, Color.Hsl) -> real, cfg: MergeConfig, cells: seq<Cell>)
    requires |cells| == 4
    ensures FinalZip(diff, cfg, cells, 4) ==
      if diff(cells[2].hsl, cells[1].hsl) < cfg.diffThreshold && cfg.maxMerge > 0.0
      then [Some(cells[0]), None, Some(cells[2]), Some(cells[3])]
      else Present(cells)
  {
    var es := Enumerate.Enumerated(cells, 4);
    GridEnumerationOf(cells, 4);
    Enumerate.EnumeratedAt(cells, 4, 0);
    Enumerate.EnumeratedAt(cells, 4, 1);
    Enumerate.EnumeratedAt(cells, 4, 2);
    Enumerate.EnumeratedAt(cells, 4, 3);
    assert es[0].corner && !es[1].corner && !es[2].corner && es[3].corner;
    var zip0 := Present(cells);
    assert Feasible(es, |zip0|);
    // Element 1 is not compared (its predecessor is a corner), so the counter is still 0 at element 2.
    MergeFoldStep(diff, cfg, zip0, es, 0);
    MergeFoldStep(diff, cfg, zip0, es, 1);
    assert es[..0] == [];
    assert StateAt(diff, cfg, zip0, es, 1).run == 0;
    assert StateAt(diff, cfg, zip0, es, 2).run == 0;
    MergedRemovesExactly(diff, cfg, cells, 4, 0);
    MergedRemovesExactly(diff, cfg, cells, 4, 1);
    MergedRemovesExactly(diff, cfg, cells, 4, 2);
    MergedRemovesExactly(diff, cfg, cells, 4, 3);
    MergedSlots(diff, cfg, cells, 4);
  }

  /** The last enumerated cell is never removed, so it ends the surviving list. */
  lemma MergedKeepsLast(diff: (Color.Hsl, Color.Hsl) -> real, cfg: MergeConfig, cells: seq<Cell>, w: nat)
    requires |cells| > 0 && w >= 1 && |cells| % w == 0
    ensures |Merged(diff, cfg, cells, w)| > 0
    ensures Merged(diff, cfg, cells, w)[|Merged(diff, cfg, cells, w)| - 1] == cells[|cells| - 1]
  {
    MergedSlots(diff, cfg, cells, w);
  }

  /** The positions of the slots still present, ascending. */
  function Kept(zip: seq<Option<Cell>>): seq<nat> {
    if |zip| == 0 then []
    else Kept(zip[..|zip| - 1]) + (if zip[|zip| - 1].Some? then [|zip| - 1] else [])
  }

  /**
   * `filter` keeps order: survivor `k` is the cell at the `k`-th present slot,
   * those slots ascend, and every present slot is among them.
   */
  lemma {:induction false} SurvivorsInOrder(zip: seq<Option<Cell>>, cells: seq<Cell>)
    requires |zip| == |cells| && forall i :: 0 <= i < |zip| ==> zip[i] == Some(cells[i]) || zip[i].None?
    ensures |Kept(zip)| == |Survivors(zip)|
    ensures forall a, b :: 0 <= a < b < |Kept(zip)| ==> Kept(zip)[a] < Kept(zip)[b]
    ensures forall k :: 0 <= k < |Kept(zip)| ==> Kept(zip)[k] < |zip| && Survivors(zip)[k] == cells[Kept(zip)[k]]
    ensures forall i :: 0 <= i < |zip| && zip[i].Some? ==> i in Kept(zip)
  {
    if |zip| > 0 {
      var n := |zip| - 1;
      SurvivorsInOrder(zip[..n], cells[..n]);
      assert forall i :: 0 <= i < n ==> zip[..n][i] == zip[i];
    }
  }

  /** The merge pass keeps a subsequence of the cells, in their original order. */
  lemma MergedInOrder(diff: (Color.Hsl, Color.Hsl) -> real, cfg: MergeConfig, cells: seq<Cell>, w: nat)
    requires |cells| > 0 && w >= 1 && |cells| % w == 0
    ensures var ks := Kept(FinalZip(diff, cfg, cells, w));
      && |ks| == |Merged(diff, cfg, cells, w)|
      && (forall a, b :: 0 <= a < b < |ks| ==> ks[a] < ks[b])
      && (forall k :: 0 <= k < |ks| ==> ks[k] < |cells| && Merged(diff, cfg, cells, w)[k] == cells[ks[k]])
  {
    MergedSlots(diff, cfg, cells, w);
    SurvivorsInOrder(FinalZip(diff, cfg, cells, w), cells);
  }

  // ---- render ----

  /** What `segmentAspectRatio` hands back: cell centres, cells per row, cell width. */
  datatype Segmentation = Segmentation(shapes: seq<Point>, horizontalCount: nat, horizontalSize: real)

  /** The render settings from the configuration. */
  datatype RenderConfig = RenderConfig(merge: MergeConfig, highThreshold: real)

  function HueOf(c: Cell): real { c.hsl.h }
  function SaturationOf(c: Cell): real { c.hsl.s }
  function LightnessOf(c: Cell): real { c.hsl.l }
  function PointOf(c: Cell): Point { c.point }

  /**
   * The aggregator handed to `delaunay`. It only ever sees three items, so the
   * median's value for an empty list is never used.
   */
  function AggregateHsl(items: seq<Cell>): Agg {
    Agg(ArrayStats.MedianOf(items, HueOf, 0.0), ArrayStats.AverageOf(items, SaturationOf), ArrayStats.AverageOf(items, LightnessOf))
  }

  /** What one drawn triangle turns into: its polygon hatched at `interval` with the pen of `layer`. */
  datatype Stroke = Stroke(polygon: seq<Point>, interval: Js.Num, layer: Option<Layer>)

  type Tri = DelaunayGroup.Triangle<Cell, Agg>

  /** Too light to draw. */
  predicate Skipped(d: Tri, high: real) { Js.Gt(d.agg.l, high) }

  /** The stroke of a drawn triangle: hatch spacing `0.5 + l * horizontalSize`. */
  function StrokeOf(d: Tri, horizontalSize: real): Stroke {
    Stroke(d.polygon, Js.Add(Js.Fin(0.5), Js.Mul(d.agg.l, Js.Fin(horizontalSize))), PickLayerForHsl(d.agg))
  }

  /** The strokes of the triangles that are not skipped, in order. */
  function Strokes(del: seq<Tri>, high: real, horizontalSize: real): seq<Stroke> {
    if |del| == 0 then []
    else
      var last := del[|del| - 1];
      Strokes(del[..|del| - 1], high, horizontalSize) + (if Skipped(last, high) then [] else [StrokeOf(last, horizontalSize)])
  }

  /** The zipped cells: cell `i` pairs shape `i` with the statistics at index `i`. */
  function Zip(shapes: seq<Point>, hue: seq<real>, saturation: seq<real>, luminance: seq<real>): (r: seq<Cell>)
    requires |hue| == |shapes| && |saturation| == |shapes| && |luminance| == |shapes|
    ensures |r| == |shapes|
    ensures forall i :: 0 <= i < |r| ==>
      r[i].point == shapes[i] && r[i].hsl.h == hue[i] && r[i].hsl.s == saturation[i] && r[i].hsl.l == luminance[i]
  {
    seq(|shapes|, i requires 0 <= i < |shapes| => Cell(shapes[i], Color.Hsl(hue[i], saturation[i], luminance[i])))
  }

  /** A triangulator's contract: whole triples of valid indices for any point list. */
  ghost predicate Triangulator(triangulate: seq<Point> -> seq<nat>) {
    forall pts: seq<Point> :: DelaunayGroup.Triangulation(triangulate(pts), |pts|)
  }

  /** The merged cells' triangles. */
  function Triangles(kept: seq<Cell>, triangulate: seq<Point> -> seq<nat>): seq<Tri>
    requires Triangulator(triangulate)
  {
    var pts := seq(|kept|, i requires 0 <= i < |kept| => kept[i].point);
    DelaunayGroup.Grouped(kept, triangulate(pts), PointOf, AggregateHsl, true)
  }

  /**
   * `render` up to the plotting: nothing when the segment count and the
   * statistics disagree; otherwise the merge pass, the triangulation of the
   * survivors, and a stroke for every triangle that is not too light.
   */
  method Render(diff: (Color.Hsl, Color.Hsl) -> real, cfg: RenderConfig, seg: Segmentation,
                hue: seq<real>, saturation: seq<real>, luminance: seq<real>,
                triangulate: seq<Point> -> seq<nat>) returns (strokes: seq<Stroke>)
    requires |hue| == |luminance| && |saturation| == |luminance|
    requires |seg.shapes| == 0 || (seg.horizontalCount >= 1 && |seg.shapes| % seg.horizontalCount == 0)
    requires Triangulator(triangulate)
    ensures |seg.shapes| != |luminance| ==> strokes == []
    ensures |seg.shapes| == |luminance| ==>
      var kept := Merged(diff, cfg.merge, Zip(seg.shapes, hue, saturation, luminance), seg.horizontalCount);
      strokes == Strokes(Triangles(kept, triangulate), cfg.highThreshold, seg.horizontalSize)
  {
    if |seg.shapes| != |luminance| {
      return [];
    }
    var zip := Zip(seg.shapes, hue, saturation, luminance);
    var kept := MergePass(diff, cfg.merge, zip, seg.horizontalCount);
    var pts := seq(|kept|, i requires 0 <= i < |kept| => kept[i].point);
    var del := DelaunayGroup.Delaunay(kept, triangulate(pts), PointOf, AggregateHsl, true);
    strokes := [];
    var k := 0;
    while k < |del|
      invariant 0 <= k <= |del|
      invariant strokes == Strokes(del[..k], cfg.highThreshold, seg.horizontalSize)
    {
      StrokesStep(del, k, cfg.highThreshold, seg.horizontalSize);
      var d := del[k];
      if !Js.Gt(d.agg.l, cfg.highThreshold) {
        var s := Js.Add(Js.Fin(0.5), Js.Mul(d.agg.l, Js.Fin(seg.horizontalSize)));
        var layer := PickLayerForHsl(d.agg);
        strokes := strokes + [Stroke(d.polygon, s, layer)];
      }
      k := k + 1;
    }
    assert del[..k] == del;
  }

  lemma StrokesStep(del: seq<Tri>, k: nat, high: real, horizontalSize: real)
    requires k < |del|
    ensures Strokes(del[..k + 1], high, horizontalSize)
      == Strokes(del[..k], high, horizontalSize) + (if Skipped(del[k], high) then [] else [StrokeOf(del[k], horizontalSize)])
  {
    assert del[..k + 1][..k] == del[..k];
  }

  /**
   * Every stroke comes from a triangle that is not too light, every such
   * triangle gets its stroke, and there are never more strokes than triangles.
   */
  lemma {:induction false} StrokesSkipLight(del: seq<Tri>, high: real, horizontalSize: real)
    ensures |Strokes(del, high, horizontalSize)| <= |del|
    ensures forall s :: s in Strokes(del, high, horizontalSize) ==>
      exists d :: d in del && !Skipped(d, high) && s == StrokeOf(d, horizontalSize)
    ensures forall d :: d in del && !Skipped(d, high) ==> StrokeOf(d, horizontalSize) in Strokes(del, high, horizontalSize)
  {
    if |del| > 0 {
      var init := del[..|del| - 1];
      StrokesSkipLight(init, high, horizontalSize);
      assert del == init + [del[|del| - 1]];
      forall s | s in Strokes(del, high, horizontalSize)
        ensures exists d :: d in del && !Skipped(d, high) && s == StrokeOf(d, horizontalSize)
      {
        if s in Strokes(init, high, horizontalSize) {
          var d :| d in init && !Skipped(d, high) && s == StrokeOf(d, horizontalSize);
          assert d in del;
        } else {
          var d := del[|del| - 1];
          assert d in del && !Skipped(d, high) && s == StrokeOf(d, horizontalSize);
        }
      }
    }
  }

  /**
   * For cells with lightness in [0, 1] and a non-negative cell width, a
   * triangle's hatch spacing is finite and between 0.5 and 0.5 plus the width.
   */
  lemma TriangleSpacing(items: seq<Cell>, horizontalSize: real)
    requires |items| == 3 && horizontalSize >= 0.0
    requires forall i :: 0 <= i < 3 ==> 0.0 <= items[i].hsl.l <= 1.0
    ensures var iv := Js.Add(Js.Fin(0.5), Js.Mul(ArrayStats.AverageOf(items, LightnessOf), Js.Fin(horizontalSize)));
      iv.Fin? && 0.5 <= iv.v <= 0.5 + horizontalSize
  {
    ArrayStats.AverageOfBetween(items, LightnessOf);
    var lo := ArrayStats.MinimumOf(items, LightnessOf);
    var hi := ArrayStats.MaximumOf(items, LightnessOf);
    var i :| 0 <= i < |items| && lo.v == LightnessOf(items[i]);
    var i' :| 0 <= i' < |items| && hi.v == LightnessOf(items[i']);
    SpacingBetween(ArrayStats.AverageOf(items, LightnessOf).v, horizontalSize);
  }

  lemma SpacingBetween(l: real, horizontalSize: real)
    requires 0.0 <= l <= 1.0 && horizontalSize >= 0.0
    ensures var iv := Js.Add(Js.Fin(0.5), Js.Mul(Js.Fin(l), Js.Fin(horizontalSize)));
      iv.Fin? && 0.5 <= iv.v <= 0.5 + horizontalSize
  {
    var product := l * horizontalSize;
    assert 0.0 <= product by {
      assert l * horizontalSize >= 0.0 * horizontalSize;
    }
    assert product <= horizontalSize by {
      assert horizontalSize - product == (1.0 - l) * horizontalSize;
      assert (1.0 - l) * horizontalSize >= 0.0;
    }
    assert Js.Mul(Js.Fin(l), Js.Fin(horizontalSize)) == Js.Fin(product);
  }
}
