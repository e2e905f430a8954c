/** The filter screen: a catalogue of colour filters, each a list of CSS
    filter functions, a toggling filter choice, an intensity slider that
    blends every effect value towards 1, and the CSS `filter` string built
    from the chosen filter. Number formatting (`toFixed(2)`) is a
    parameter `fmt`. */
module Filters {
  import opened Wrappers

  /** One CSS filter function, its full-strength value and its unit. */
  datatype Effect = Effect(property: string, value: real, unit: string)

  datatype FilterDef = FilterDef(id: string, name: string, effects: seq<Effect>)

  const Catalogue: seq<FilterDef> := [
    FilterDef("personality", "Personality",
      [Effect("brightness", 1.2, ""), Effect("saturate", 1.1, ""), Effect("contrast", 1.1, "")]),
    FilterDef("natural", "Natural Look",
      [Effect("contrast", 1.8, ""), Effect("brightness", 1.1, "")]),
    FilterDef("pink", "Perfect Pink",
      [Effect("saturate", 1.2, ""), Effect("contrast", 1.1, ""), Effect("brightness", 1.1, "")]),
    FilterDef("classic", "Classic",
      [Effect("sepia", 0.3, ""), Effect("saturate", 1.2, ""), Effect("contrast", 0.8, ""),
       Effect("brightness", 1.1, "")]),
    FilterDef("bw", "B&W",
      [Effect("grayscale", 1.0, ""), Effect("brightness", 1.1, "")])
  ]

  /** Highest position of the intensity slider. */
  const MaxIntensity: int := 100

  /** `adjustValue` over reals: at intensity 0 every effect is neutral (1),
      at 100 it has its full value, linearly in between. */
  function AdjustValue(v: real, intensity: real): real
  {
    1.0 + (v - 1.0) * (intensity / 100.0)
  }

  lemma AdjustEndpoints(v: real, intensity: real)
    ensures AdjustValue(v, 100.0) == v
    ensures AdjustValue(v, 0.0) == 1.0
    ensures AdjustValue(1.0, intensity) == 1.0
  {
  }

  /** On the slider's range the adjusted value lies between 1 and the full value. */
  lemma AdjustBetween(v: real, intensity: real)
    requires 0.0 <= intensity <= 100.0
    ensures v >= 1.0 ==> 1.0 <= AdjustValue(v, intensity) <= v
    ensures v <= 1.0 ==> v <= AdjustValue(v, intensity) <= 1.0
  {
    var t := intensity / 100.0;
    if v >= 1.0 {
      ProductNonNegative(v - 1.0, t);
      ProductNonNegative(v - 1.0, 1.0 - t);
    } else {
      ProductNonNegative(1.0 - v, t);
      ProductNonNegative(1.0 - v, 1.0 - t);
    }
  }

  lemma ProductNonNegative(a: real, b: real)
    requires a >= 0.0 && b >= 0.0
    ensures a * b >= 0.0
  {
  }

  /** A stronger slider setting moves every value further from 1. */
  lemma AdjustMonotone(v: real, i: real, j: real)
    requires 0.0 <= i <= j
    ensures v >= 1.0 ==> AdjustValue(v, i) <= AdjustValue(v, j)
    ensures v <= 1.0 ==> AdjustValue(v, j) <= AdjustValue(v, i)
  {
    assert (v - 1.0) * (j / 100.0) - (v - 1.0) * (i / 100.0) == (v - 1.0) * ((j - i) / 100.0);
  }

  /** The CSS term of one effect, `property(value unit)`. */
  function Term(e: Effect, intensity: real, fmt: real -> string): string
  {
    e.property + "(" + fmt(AdjustValue(e.value, intensity)) + e.unit + ")"
  }

  function Terms(effects: seq<Effect>, intensity: real, fmt: real -> string): (r: seq<string>)
    ensures |r| == |effects|
  {
    seq(|effects|, i requires 0 <= i < |effects| => Term(effects[i], intensity, fmt))
  }

  /** JavaScript's `terms.join(" ")`. */
  function Join(terms: seq<string>): string
  {
    if |terms| == 0 then ""
    else if |terms| == 1 then terms[0]
    else terms[0] + " " + Join(terms[1..])
  }

  /** Splitting at every space, the inverse of `Join` for space-free terms. */
  function Split(s: string): (r: seq<string>)
    ensures |r| >= 1
  {
    if |s| == 0 then [""]
    else
      var rest := Split(s[1..]);
      if s[0] == ' ' then [""] + rest else [[s[0]] + rest[0]] + rest[1..]
  }

  predicate SpaceFree(t: string)
  {
    ' ' !in t
  }

  lemma {:induction false} SplitWord(t: string, tail: string)
    requires SpaceFree(t)
    ensures Split(t + tail) == [t + Split(tail)[0]] + Split(tail)[1..]
    decreases |t|
  {
    if |t| > 0 {
      assert (t + tail)[1..] == t[1..] + tail;
      assert (t + tail)[0] == t[0];
      SplitWord(t[1..], tail);
      assert [t[0]] + (t[1..] + Split(tail)[0]) == t + Split(tail)[0];
    } else {
      assert t + tail == tail;
      assert t + Split(tail)[0] == Split(tail)[0];
      assert Split(tail) == [Split(tail)[0]] + Split(tail)[1..];
    }
  }

  /** The style string splits back into exactly its terms, in order. */
  lemma {:induction false} SplitJoin(terms: seq<string>)
    requires |terms| >= 1
    requires forall i :: 0 <= i < |terms| ==> SpaceFree(terms[i])
    ensures Split(Join(terms)) == terms
    decreases |terms|
  {
    if |terms| == 1 {
      SplitWord(terms[0], "");
      assert terms[0] + "" == terms[0];
    } else {
      var tail := " " + Join(terms[1..]);
      SplitWord(terms[0], tail);
      assert tail[1..] == Join(terms[1..]);
      SplitJoin(terms[1..]);
      assert Split(tail) == [""] + terms[1..];
      assert terms[0] + "" == terms[0];
      assert Join(terms) == terms[0] + tail;
    }
  }

  /** The CSS `filter` value of a filter at a given intensity. */
  function Style(f: FilterDef, intensity: real, fmt: real -> string): string
  {
    Join(Terms(f.effects, intensity, fmt))
  }

  /** Property names and units carry no spaces and every filter has an effect. */
  ghost predicate WellFormed(f: FilterDef)
  {
    && |f.effects| >= 1
    && forall i :: 0 <= i < |f.effects| ==> SpaceFree(f.effects[i].property) && SpaceFree(f.effects[i].unit)
  }

  lemma CatalogueWellFormed()
    ensures forall k :: 0 <= k < |Catalogue| ==> WellFormed(Catalogue[k])
    ensures forall k, m :: 0 <= k < m < |Catalogue| ==> Catalogue[k].id != Catalogue[m].id
    ensures forall k :: 0 <= k < |Catalogue| ==> Catalogue[k].id != ""
  {
  }

  /** For a well-formed filter and a formatter that writes no spaces, the
      style holds one `property(value unit)` term per effect, in effect
      order, separated by single spaces. */
  lemma StyleTerms(f: FilterDef, intensity: real, fmt: real -> string)
    requires WellFormed(f)
    requires forall v :: SpaceFree(fmt(v))
    ensures Split(Style(f, intensity, fmt)) == Terms(f.effects, intensity, fmt)
  {
    var ts := Terms(f.effects, intensity, fmt);
    forall i | 0 <= i < |ts| ensures SpaceFree(ts[i]) {
      var e := f.effects[i];
      var v := fmt(AdjustValue(e.value, intensity));
      assert ts[i] == e.property + "(" + v + e.unit + ")";
      assert SpaceFree(v);
    }
    SplitJoin(ts);
  }

  /** `filters.find(f => f.id === id)`: the first filter with that id. */
  function Find(catalogue: seq<FilterDef>, id: string): (r: Option<FilterDef>)
    ensures r.Some? ==>
              exists k :: && 0 <= k < |catalogue| && catalogue[k] == r.value && r.value.id == id
                          && forall j :: 0 <= j < k ==> catalogue[j].id != id
    ensures r.None? <==> forall k :: 0 <= k < |catalogue| ==> catalogue[k].id != id
  {
    if |catalogue| == 0 then None
    else if catalogue[0].id == id then Some(catalogue[0])
    else Find(catalogue[1..], id)
  }

  datatype FilterPage = FilterPage(selected: string, intensity: int, style: string)

  /** No filter chosen, the slider at half strength, no style yet. */
  const Initial: FilterPage := FilterPage("", 50, "")

  /** A filter button: clicking the chosen filter clears the choice,
      clicking another one chooses it. */
  function FilterClick(s: FilterPage, id: string): (r: FilterPage)
    ensures r.intensity == s.intensity && r.style == s.style
    ensures s.selected == id ==> r.selected == ""
    ensures s.selected != id ==> r.selected == id
  {
    s.(selected := if s.selected == id then "" else id)
  }

  /** The slider moves in whole steps from 0 to 100. */
  function SetIntensity(s: FilterPage, value: int): (r: FilterPage)
    requires 0 <= value <= MaxIntensity
    ensures r.intensity == value && r.selected == s.selected && r.style == s.style
  {
    s.(intensity := value)
  }

  /** The style effect: recomputed only when a known filter is chosen. */
  function StyleEffect(s: FilterPage, fmt: real -> string): (r: FilterPage)
    ensures r.selected == s.selected && r.intensity == s.intensity
    ensures s.selected == "" || Find(Catalogue, s.selected).None? ==> r == s
    ensures s.selected != "" && Find(Catalogue, s.selected).Some? ==>
              r.style == Style(Find(Catalogue, s.selected).value, s.intensity as real, fmt)
  {
    if s.selected != "" then
      match Find(Catalogue, s.selected)
      case Some(f) => s.(style := Style(f, s.intensity as real, fmt))
      case None => s
    else s
  }

  /** With a formatter that writes no spaces, the recomputed style of a
      catalogue filter is its effect terms joined by single spaces. */
  lemma StyleEffectTerms(s: FilterPage, fmt: real -> string)
    requires Find(Catalogue, s.selected).Some?
    requires forall v :: SpaceFree(fmt(v))
    ensures Split(StyleEffect(s, fmt).style) ==
              Terms(Find(Catalogue, s.selected).value.effects, s.intensity as real, fmt)
  {
    var f := Find(Catalogue, s.selected).value;
    CatalogueWellFormed();
    var k :| 0 <= k < |Catalogue| && Catalogue[k] == f;
    assert WellFormed(Catalogue[k]);
    StyleTerms(f, s.intensity as real, fmt);
  }

  /** Moving the slider with a filter chosen restyles it at the new
      intensity; the choice and every effect are unaffected. */
  lemma SlideRestyles(s: FilterPage, value: int, fmt: real -> string)
    requires 0 <= value <= MaxIntensity
    requires s.selected != "" && Find(Catalogue, s.selected).Some?
    ensures var r := StyleEffect(SetIntensity(s, value), fmt);
            && r.selected == s.selected && r.intensity == value
            && r.style == Style(Find(Catalogue, s.selected).value, value as real, fmt)
  {
  }

  /** Choosing a filter and clicking it again deselects it but leaves the
      style the effect last computed. */
  lemma DeselectKeepsStyle(s: FilterPage, id: string, fmt: real -> string)
    requires s.selected != id && id != ""
    ensures var chosen := StyleEffect(FilterClick(s, id), fmt);
            var cleared := StyleEffect(FilterClick(chosen, id), fmt);
            cleared.selected == "" && cleared.style == chosen.style
  {
  }

  /** Every value in a style stays between 1 and the effect's full value. */
  lemma StyleValuesBetween(s: FilterPage, k: nat)
    requires 0 <= s.intensity <= MaxIntensity
    requires Find(Catalogue, s.selected).Some? && k < |Find(Catalogue, s.selected).value.effects|
    ensures var e := Find(Catalogue, s.selected).value.effects[k];
            var a := AdjustValue(e.value, s.intensity as real);
            (e.value >= 1.0 ==> 1.0 <= a <= e.value) && (e.value <= 1.0 ==> e.value <= a <= 1.0)
  {
    var e := Find(Catalogue, s.selected).value.effects[k];
    AdjustBetween(e.value, s.intensity as real);
  }
}
