/**
 * The ColorReferenceSystem component: the base and target shade the
 * stylist has chosen, the handlers that change them and report the pair
 * through onColorSelect, the lightening calculation on the current pair,
 * and the step that turns a colour detected in the "before" photo into
 * the base selection.
 */
module ColorReference {
  import opened Wrappers
  import opened Numeric
  import opened ColorSpace
  import opened Catalog
  import opened Matcher
  import opened Formulation

  /** The (base, target) pair handed to onColorSelect. */
  datatype Selection = Selection(base: string, target: string)

  /** `corBase || ''`: an absent prop gives the empty selection. */
  function OrEmpty(prop: Option<string>): (s: string)
    ensures prop.None? ==> s == ""
    ensures prop.Some? ==> s == prop.value
  {
    if prop.Some? then prop.value else ""
  }

  class ColorReferenceSystem {
    /** The chosen base shade code, "" when none. */
    var selectedBase: string
    /** The chosen target shade code, "" when none. */
    var selectedTarget: string

    /** The initial state comes from the corBase and corDesejada props. */
    constructor(corBase: Option<string>, corDesejada: Option<string>)
      ensures selectedBase == OrEmpty(corBase) && selectedTarget == OrEmpty(corDesejada)
    {
      selectedBase := OrEmpty(corBase);
      selectedTarget := OrEmpty(corDesejada);
    }

    /** When the props change, both selections are reset from them. */
    method SyncFromProps(corBase: Option<string>, corDesejada: Option<string>)
      modifies this
      ensures selectedBase == OrEmpty(corBase) && selectedTarget == OrEmpty(corDesejada)
    {
      selectedBase := OrEmpty(corBase);
      selectedTarget := OrEmpty(corDesejada);
    }

    /**
     * handleBaseChange: the base becomes `value`, the target is kept, and
     * onColorSelect receives the new base with the target.
     */
    method HandleBaseChange(value: string) returns (notified: Selection)
      modifies this
      ensures selectedBase == value && selectedTarget == old(selectedTarget)
      ensures notified == Selection(selectedBase, selectedTarget)
    {
      selectedBase := value;
      notified := Selection(value, selectedTarget);
    }

    /**
     * handleTargetChange: the target becomes `value`, the base is kept, and
     * onColorSelect receives the base with the new target.
     */
    method HandleTargetChange(value: string) returns (notified: Selection)
      modifies this
      ensures selectedTarget == value && selectedBase == old(selectedBase)
      ensures notified == Selection(selectedBase, selectedTarget)
    {
      selectedTarget := value;
      notified := Selection(selectedBase, value);
    }

    /**
     * calcularClareamento: nothing is reported while either selection is
     * empty. Otherwise the plan handed to onCalculate has
     * max(0, target level - base level) levels, 15 minutes per level and a
     * 20-volume oxidant; for two catalogue codes none of these is NaN.
     * The selections are not changed.
     */
    method CalcularClareamento() returns (result: Option<Plan>)
      ensures result.None? <==> selectedBase == "" || selectedTarget == ""
      ensures result.Some? ==> result.value == PlanOf(ParseInt(selectedBase), ParseInt(selectedTarget))
      ensures result.Some? ==> result.value.oxidantVolume == 20
      ensures result.Some? && ParseInt(selectedBase).Int? && ParseInt(selectedTarget).Int? ==>
                var b, t := ParseInt(selectedBase).n, ParseInt(selectedTarget).n;
                && result.value.levelsNeeded == Int(if t > b then t - b else 0)
                && result.value.estimatedMinutes == Int(15 * result.value.levelsNeeded.n)
      ensures IsCode(selectedBase) && IsCode(selectedTarget) ==>
                result.Some? && result.value.levelsNeeded.Int? && result.value.estimatedMinutes.Int?
    {
      result := Calculate(selectedBase, selectedTarget);
      CalculateOutcome(selectedBase, selectedTarget);
    }

    /**
     * The success path of the photo analysis: the detected colour is
     * matched against the catalogue and the matching code becomes the base
     * through handleBaseChange. The match is never empty, so the "could
     * not detect" branch is never taken; the new base is a catalogue code.
     */
    method ApplyDetectedColor(detected: Rgb) returns (notified: Selection)
      modifies this
      ensures selectedBase == Nearest(FromRgb(detected)) && IsCode(selectedBase)
      ensures selectedTarget == old(selectedTarget)
      ensures notified == Selection(selectedBase, selectedTarget)
    {
      var nivelDetectado := FindNearest(FromRgb(detected));
      DetectedLevelIsCode(FromRgb(detected));
      if nivelDetectado != "" {
        notified := HandleBaseChange(nivelDetectado);
      } else {
        assert false;
      }
    }
  }

  /** `code` is the code of a catalogue shade. */
  predicate IsCode(code: string) {
    exists k :: 0 <= k < |Shades| && Shades[k].valor == code
  }

  /**
   * Each catalogue code, split into its level (parsed back by parseInt)
   * and the tone suffix that parseInt stops at.
   */
  const CodeParts: seq<(nat, string)> := [
    (1, ""), (3, ""), (4, ""), (5, ""), (6, ""), (6, ".1"), (6, ".12"),
    (7, ""), (7, ".1"), (7, ".12"), (8, ""), (8, ".1"), (8, ".12"),
    (9, ""), (9, ".1"), (9, ".12"), (10, ""), (10, ".1"), (10, ".12")
  ]

  lemma CodePartsMatch()
    ensures |CodeParts| == |Shades|
    ensures forall k :: 0 <= k < |Shades| ==> Shades[k].valor == Decimal(CodeParts[k].0) + CodeParts[k].1
  {
    assert Decimal(10) == "10";
  }

  /** Levels run from 1 to 10 in non-decreasing order; every tone suffix starts with a dot. */
  lemma CodePartsShape()
    ensures forall k :: 0 <= k < |CodeParts| ==>
              1 <= CodeParts[k].0 <= 10 && (CodeParts[k].1 == "" || CodeParts[k].1[0] == '.')
    ensures forall i, j :: 0 <= i < j < |CodeParts| ==> CodeParts[i].0 <= CodeParts[j].0
  {
  }

  /**
   * Every catalogue code parses to a level between 1 and 10, and the
   * levels never decrease along the catalogue, darkest first.
   */
  lemma CodeLevels()
    ensures forall k :: 0 <= k < |Shades| ==>
              ParseInt(Shades[k].valor).Int? && 1 <= ParseInt(Shades[k].valor).n <= 10
    ensures forall i, j :: 0 <= i < j < |Shades| ==> ParseInt(Shades[i].valor).n <= ParseInt(Shades[j].valor).n
  {
    CodePartsMatch();
    CodePartsShape();
    forall k | 0 <= k < |Shades|
      ensures ParseInt(Shades[k].valor) == Int(CodeParts[k].0)
    {
      var (level, tone) := CodeParts[k];
      ParseIntDecimal(level, tone);
    }
  }

  /** A catalogue code is not empty and parses to a level in [1, 10]. */
  lemma CodeLevel(code: string)
    requires IsCode(code)
    ensures |code| > 0 && ParseInt(code).Int? && 1 <= ParseInt(code).n <= 10
  {
    var k :| 0 <= k < |Shades| && Shades[k].valor == code;
    CodePartsMatch();
    CodeLevels();
  }

  /** Two catalogue codes always give a plan with a numeric level count and time. */
  lemma CodesGiveNumericPlan(base: string, target: string)
    requires IsCode(base) && IsCode(target)
    ensures var p := Calculate(base, target);
            p.Some? && p.value.levelsNeeded.Int? && p.value.estimatedMinutes.Int?
  {
    CodeLevel(base);
    CodeLevel(target);
  }

  /**
   * What calcularClareamento reports for a pair of selections: nothing
   * while either is empty; otherwise a 20-volume plan with
   * max(0, target - base) levels and 15 minutes per level, numeric for
   * two catalogue codes.
   */
  lemma CalculateOutcome(base: string, target: string)
    ensures var p := Calculate(base, target);
            && (p.None? <==> base == "" || target == "")
            && (p.Some? ==> p.value == PlanOf(ParseInt(base), ParseInt(target)) && p.value.oxidantVolume == 20)
            && (p.Some? && ParseInt(base).Int? && ParseInt(target).Int? ==>
                  var b, t := ParseInt(base).n, ParseInt(target).n;
                  && p.value.levelsNeeded == Int(if t > b then t - b else 0)
                  && p.value.estimatedMinutes == Int(15 * p.value.levelsNeeded.n))
            && (IsCode(base) && IsCode(target) ==>
                  p.Some? && p.value.levelsNeeded.Int? && p.value.estimatedMinutes.Int?)
  {
    if base != "" && target != "" {
      PlanContents(base, target);
    }
    if IsCode(base) && IsCode(target) {
      CodesGiveNumericPlan(base, target);
    }
  }

  /**
   * The detected level is a catalogue code, hence not empty: for a colour
   * without NaN the closest shade's, and "1" otherwise.
   */
  lemma DetectedLevelIsCode(cor: RgbInput)
    ensures IsCode(Nearest(cor)) && Nearest(cor) != ""
  {
    if HasNaN(cor) {
      NaNFallsBackToDarkest(cor);
      assert Shades[0].valor == Nearest(cor);
    } else {
      var k := FirstMin(Distances(DistanceSq, Shades, ToRgb(cor)));
      assert Shades[k].valor == Nearest(cor);
      CodeLevel(Shades[k].valor);
    }
  }
}
