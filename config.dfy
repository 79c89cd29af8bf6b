/**
 * Artwork configuration: the property schema, `makeRenderConfig`'s validation
 * of numeric bounds, and the defaulting done by `getDefaultConfiguration`.
 * A configuration is the list of its entries in `Object.entries` order.
 */
module Config {
  import opened Wrappers

  datatype ImageSource = ImageSource(name: string, source: string)
  datatype Choice = Choice(choiceLabel: Option<string>, value: string)

  /** One property of the schema; `None` is an absent optional member. */
  datatype Prop =
    | NumberProp(default: Option<real>, min: Option<real>, max: Option<real>)
    | RangeProp(rangeDefault: Option<(real, real)>, lo: real, hi: real)
    | BoolProp(boolDefault: Option<bool>)
    | StringProp(stringDefault: Option<string>)
    | ImageProp(imageDefault: Option<string>, predefined: Option<seq<ImageSource>>)
    | ChoiceProp(choiceDefault: Option<string>, choices: seq<Choice>)

  /** A runtime configuration value; `ChoiceV` is a whole `Choice` record, `UndefinedV` is `undefined`. */
  datatype Value = NumV(n: real) | RangeV(min: real, max: real) | BoolV(b: bool) | StrV(s: string)
                 | ChoiceV(choice: Choice) | UndefinedV

  /** JavaScript truthiness of a value: 0, false, "" and undefined are falsy, arrays and objects are not. */
  predicate Truthy(v: Value) {
    match v
    case NumV(n) => n != 0.0
    case BoolV(b) => b
    case StrV(s) => s != ""
    case UndefinedV => false
    case _ => true
  }

  type Entry = (string, Prop)

  /** Object keys are distinct. */
  predicate DistinctKeys(source: seq<Entry>) {
    forall i, j :: 0 <= i < j < |source| ==> source[i].0 != source[j].0
  }

  datatype Violation = MinAboveMax | DefaultBelowMin | DefaultAboveMax
  datatype ConfigError = ConfigError(key: string, violation: Violation)

  /**
   * The validation `switch` for one property. For a number range the default is
   * an array, which JavaScript compares with a number as NaN, so neither
   * default comparison can fire.
   */
  function Check(p: Prop): (r: Option<Violation>)
    ensures !(p.NumberProp? || p.RangeProp?) ==> r.None?
    ensures p.NumberProp? ==> (r.None? <==>
      (p.min.Some? && p.max.Some? ==> p.min.value <= p.max.value)
      && (p.default.Some? && p.min.Some? ==> p.min.value <= p.default.value)
      && (p.default.Some? && p.max.Some? ==> p.default.value <= p.max.value))
    // the bound order is checked first, then the default against min, then against max
    ensures p.NumberProp? ==>
      (r == Some(MinAboveMax) <==> p.min.Some? && p.max.Some? && p.min.value > p.max.value)
    ensures p.NumberProp? && r == Some(DefaultBelowMin) ==>
      p.default.Some? && p.min.Some? && p.default.value < p.min.value
    ensures p.NumberProp? && r == Some(DefaultAboveMax) ==>
      p.default.Some? && p.max.Some? && p.default.value > p.max.value
      && !(p.min.Some? && p.default.value < p.min.value)
    ensures p.NumberProp? && p.default.Some? && p.min.Some? && p.default.value < p.min.value ==>
      r.Some? && r.value != DefaultAboveMax
    ensures p.RangeProp? ==> (r.None? <==> p.lo <= p.hi) && (r.Some? ==> r.value == MinAboveMax)
  {
    match p
    case NumberProp(d, mn, mx) =>
      if mn.Some? && mx.Some? && mn.value > mx.value then Some(MinAboveMax)
      else if d.Some? && mn.Some? && d.value < mn.value then Some(DefaultBelowMin)
      else if d.Some? && mx.Some? && d.value > mx.value then Some(DefaultAboveMax)
      else None
    case RangeProp(_, mn, mx) =>
      if mn > mx then Some(MinAboveMax) else None
    case _ => None
  }

  /** Entry `i` is the first one that fails validation. */
  predicate FirstInvalid(source: seq<Entry>, i: int) {
    0 <= i < |source| && Check(source[i].1).Some?
    && forall j :: 0 <= j < i ==> Check(source[j].1).None?
  }

  /**
   * `makeRenderConfig`: walks the entries in order and throws for the first
   * invalid one; otherwise hands the source back unchanged.
   */
  method MakeRenderConfig(source: seq<Entry>) returns (r: Result<seq<Entry>, ConfigError>)
    ensures r.Success? <==> forall i :: 0 <= i < |source| ==> Check(source[i].1).None?
    ensures r.Success? ==> r.value == source
    ensures r.Failure? ==>
      exists i :: FirstInvalid(source, i) && r.error == ConfigError(source[i].0, Check(source[i].1).value)
  {
    var k := 0;
    while k < |source|
      invariant 0 <= k <= |source|
      invariant forall j :: 0 <= j < k ==> Check(source[j].1).None?
    {
      var (key, prop) := source[k];
      match prop {
        case NumberProp(d, mn, mx) =>
          if mn.Some? && mx.Some? && mn.value > mx.value {
            return Failure(ConfigError(key, MinAboveMax));
          } else if d.Some? && mn.Some? && d.value < mn.value {
            return Failure(ConfigError(key, DefaultBelowMin));
          } else if d.Some? && mx.Some? && d.value > mx.value {
            return Failure(ConfigError(key, DefaultAboveMax));
          }
        case RangeProp(_, mn, mx) =>
          if mn > mx {
            return Failure(ConfigError(key, MinAboveMax));
          }
        case _ =>
      }
      k := k + 1;
    }
    return Success(source);
  }

  /** `defaultForPropType`. */
  function DefaultFor(p: Prop): (r: Value)
    ensures p.BoolProp? ==> r.BoolV?
    ensures p.NumberProp? ==> r.NumV?
    ensures p.RangeProp? ==> r.RangeV?
    ensures p.StringProp? || p.ImageProp? ==> r.StrV?
    ensures p.ChoiceProp? ==> r.StrV? || r.ChoiceV? || r.UndefinedV?
  {
    match p
    case BoolProp(d) =>
      if d.Some? && d.value then BoolV(true) else BoolV(false)
    case NumberProp(d, mn, mx) =>
      if d.Some? && d.value != 0.0 then NumV(d.value)
      else if mn.Some? && mx.Some? then NumV(mn.value + (mx.value - mn.value) / 2.0)
      else if mn.Some? && mn.value != 0.0 then NumV(mn.value)
      else if mx.Some? && mx.value != 0.0 then NumV(mx.value)
      else NumV(0.0)
    case RangeProp(d, mn, mx) =>
      if d.Some? then RangeV(d.value.0, d.value.1) else RangeV(mn, mx)
    case StringProp(d) =>
      if d.Some? && d.value != "" then StrV(d.value) else StrV("")
    case ImageProp(d, pre) =>
      if d.Some? && d.value != "" then StrV(d.value)
      else if pre.Some? && |pre.value| > 0 then StrV(pre.value[0].source)
      else StrV("")
    case ChoiceProp(d, choices) =>
      if d.Some? && d.value != "" then StrV(d.value)
      else if |choices| > 0 then ChoiceV(choices[0])
      else UndefinedV
  }

  /**
   * A number property that passes validation gets a default inside its bounds,
   * even when its own default is the falsy 0 and the midpoint or a bound is used.
   */
  lemma DefaultWithinBounds(p: Prop)
    requires p.NumberProp? && Check(p).None?
    ensures DefaultFor(p).NumV?
    ensures p.min.Some? ==> p.min.value <= DefaultFor(p).n
    ensures p.max.Some? ==> DefaultFor(p).n <= p.max.value
  {
    if !(p.default.Some? && p.default.value != 0.0) && p.min.Some? && p.max.Some? {
      var a, b := p.min.value, p.max.value;
      assert a <= a + (b - a) / 2.0 <= b;
    }
  }

  /**
   * Without a truthy default: booleans get `false`, numbers with both bounds
   * their midpoint, ranges `[min, max]`, strings `""`, images the first
   * predefined source, and choices the first `Choice` record itself.
   */
  lemma FalsyDefaults(p: Prop)
    ensures p.BoolProp? && (p.boolDefault.None? || !p.boolDefault.value) ==> DefaultFor(p) == BoolV(false)
    ensures p.NumberProp? && (p.default.None? || p.default.value == 0.0) && p.min.Some? && p.max.Some? ==>
      DefaultFor(p) == NumV((p.min.value + p.max.value) / 2.0)
    ensures p.RangeProp? && p.rangeDefault.None? ==> DefaultFor(p) == RangeV(p.lo, p.hi)
    ensures p.StringProp? && (p.stringDefault.None? || p.stringDefault.value == "") ==> DefaultFor(p) == StrV("")
    ensures p.ImageProp? && (p.imageDefault.None? || p.imageDefault.value == "")
              && p.predefined.Some? && |p.predefined.value| > 0 ==>
      DefaultFor(p) == StrV(p.predefined.value[0].source)
    ensures p.ChoiceProp? && (p.choiceDefault.None? || p.choiceDefault.value == "") && |p.choices| > 0 ==>
      DefaultFor(p) == ChoiceV(p.choices[0]) && !DefaultFor(p).StrV?
  {
    if p.NumberProp? && (p.default.None? || p.default.value == 0.0) && p.min.Some? && p.max.Some? {
      var a, b := p.min.value, p.max.value;
      assert a + (b - a) / 2.0 == (a + b) / 2.0;
    }
  }

  /** `initial?.[key] || defaultForPropType(prop)`. */
  function Initialised(initial: map<string, Value>, key: string, p: Prop): Value {
    if key in initial && Truthy(initial[key]) then initial[key] else DefaultFor(p)
  }

  /** The set of keys of the entries. */
  function Keys(source: seq<Entry>): (r: set<string>)
    ensures forall i :: 0 <= i < |source| ==> source[i].0 in r
    ensures forall k :: k in r ==> exists i :: 0 <= i < |source| && source[i].0 == k
  {
    set i | 0 <= i < |source| :: source[i].0
  }

  /**
   * `getDefaultConfiguration`: one entry per key of the source, holding the
   * caller's value when it is truthy and the type default otherwise.
   */
  method GetDefaultConfiguration(source: seq<Entry>, initial: map<string, Value>) returns (res: map<string, Value>)
    requires DistinctKeys(source)
    ensures res.Keys == Keys(source)
    ensures forall i :: 0 <= i < |source| ==> res[source[i].0] == Initialised(initial, source[i].0, source[i].1)
  {
    res := map[];
    var k := 0;
    while k < |source|
      invariant 0 <= k <= |source|
      invariant res.Keys == Keys(source[..k])
      invariant forall i :: 0 <= i < k ==> res[source[i].0] == Initialised(initial, source[i].0, source[i].1)
    {
      RecordEntry(source, initial, res, k);
      res := res[source[k].0 := Initialised(initial, source[k].0, source[k].1)];
      k := k + 1;
    }
    assert source[..k] == source;
  }

  /** One turn of the loop: recording entry k keeps the entries before it and adds its key. */
  lemma RecordEntry(source: seq<Entry>, initial: map<string, Value>, res: map<string, Value>, k: nat)
    requires DistinctKeys(source) && k < |source|
    requires res.Keys == Keys(source[..k])
    requires forall i :: 0 <= i < k ==> res[source[i].0] == Initialised(initial, source[i].0, source[i].1)
    ensures var next := res[source[k].0 := Initialised(initial, source[k].0, source[k].1)];
      next.Keys == Keys(source[..k + 1])
      && forall i :: 0 <= i < k + 1 ==>
           source[i].0 in next && next[source[i].0] == Initialised(initial, source[i].0, source[i].1)
  {
    assert source[..k + 1] == source[..k] + [source[k]];
    KeysSnoc(source[..k], source[k]);
  }

  lemma KeysSnoc(source: seq<Entry>, e: Entry)
    ensures Keys(source + [e]) == Keys(source) + {e.0}
  {
    var s := source + [e];
    assert s[|source|] == e;
    forall x | x in Keys(s)
      ensures x in Keys(source) + {e.0}
    {
      var i :| 0 <= i < |s| && s[i].0 == x;
      if i < |source| {
        assert source[i] == s[i];
      }
    }
    forall x | x in Keys(source)
      ensures x in Keys(s)
    {
      var i :| 0 <= i < |source| && source[i].0 == x;
      assert s[i] == source[i];
    }
  }
}
