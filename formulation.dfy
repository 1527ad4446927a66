/**
 * calcularClareamento and its four helpers: from the base and target
 * shade codes, the levels of lift needed, the oxidant volume, the
 * processing time, the revealed backdrop and the recommended products.
 *
 * Levels come from parseInt of the shade codes ("7.1" is level 7), which
 * is modelled as section 18.2.5 of ECMAScript 2019 defines it for an absent
 * radix; a code without leading digits parses to NaN, and NaN then flows
 * through Math.max and the multiplication by 15.
 */
module Formulation {
  import opened Wrappers
  import opened Numeric

  // ---------------------------------------------------------------------
  // parseInt
  // ---------------------------------------------------------------------

  /** StrWhiteSpaceChar: the white space and line terminators parseInt skips. */
  predicate IsStrWhiteSpace(ch: char) {
    ch == '\t' || ch == '\n' || ch == '\U{000B}' || ch == '\U{000C}' || ch == '\r' ||
    ch == ' ' || ch == '\U{00A0}' || ch == '\U{1680}' || ('\U{2000}' <= ch <= '\U{200A}') ||
    ch == '\U{2028}' || ch == '\U{2029}' || ch == '\U{202F}' || ch == '\U{205F}' ||
    ch == '\U{3000}' || ch == '\U{FEFF}'
  }

  /** The string without its leading white space. */
  function TrimStart(s: string): (r: string)
    ensures |r| <= |s| && r == s[|s| - |r|..]
    ensures r == [] || !IsStrWhiteSpace(r[0])
    ensures forall i :: 0 <= i < |s| - |r| ==> IsStrWhiteSpace(s[i])
  {
    if s != [] && IsStrWhiteSpace(s[0]) then TrimStart(s[1..]) else s
  }

  /** The value of `ch` as a digit in base 10 or 16, or -1 when it is not one. */
  function DigitValue(ch: char, radix: nat): (v: int)
    requires radix == 10 || radix == 16
    ensures -1 <= v < radix as int
  {
    if '0' <= ch <= '9' then ch as int - '0' as int
    else if radix == 16 && 'a' <= ch <= 'f' then ch as int - 'a' as int + 10
    else if radix == 16 && 'A' <= ch <= 'F' then ch as int - 'A' as int + 10
    else -1
  }

  predicate IsDigit(ch: char, radix: nat)
    requires radix == 10 || radix == 16
  {
    DigitValue(ch, radix) >= 0
  }

  /** The longest prefix of `s` made of digits of `radix`. */
  function DigitPrefix(s: string, radix: nat): (r: string)
    requires radix == 10 || radix == 16
    ensures |r| <= |s| && r == s[..|r|]
    ensures forall i :: 0 <= i < |r| ==> IsDigit(r[i], radix)
    ensures |r| == |s| || !IsDigit(s[|r|], radix)
  {
    if s != [] && IsDigit(s[0], radix) then [s[0]] + DigitPrefix(s[1..], radix) else []
  }

  /** The number a string of digits denotes, most significant digit first. */
  function DigitsValue(ds: string, radix: nat): (v: nat)
    requires radix == 10 || radix == 16
    requires forall i :: 0 <= i < |ds| ==> IsDigit(ds[i], radix)
  {
    if ds == [] then 0
    else
      assert IsDigit(ds[|ds| - 1], radix);
      DigitsValue(ds[..|ds| - 1], radix) * radix + DigitValue(ds[|ds| - 1], radix)
  }

  /** "0x" or "0X" at the start: parseInt then reads base 16. */
  predicate HasHexPrefix(u: string) {
    |u| >= 2 && u[0] == '0' && (u[1] == 'x' || u[1] == 'X')
  }

  /**
   * The magnitude parseInt reads after the sign: base 16 after a hex
   * prefix, base 10 otherwise, as many digits as there are; None when
   * there is no digit at all.
   */
  function Magnitude(u: string): (r: Option<nat>)
    ensures r.None? <==> (if HasHexPrefix(u) then DigitPrefix(u[2..], 16) else DigitPrefix(u, 10)) == []
  {
    var radix := if HasHexPrefix(u) then 16 else 10;
    var digits := DigitPrefix(if HasHexPrefix(u) then u[2..] else u, radix);
    if digits == [] then None else Some(DigitsValue(digits, radix))
  }

  /**
   * parseInt(s) with no radix: skip leading white space, read an optional
   * sign, then the magnitude. The result is NaN exactly when no digit of
   * the chosen radix follows the sign (and the "0x" prefix, if any); a
   * leading "-" gives a number at most 0, anything else one at least 0.
   */
  function ParseInt(s: string): (r: JsInt)
    ensures r.NaN? <==> Magnitude(SignStripped(TrimStart(s))).None?
    ensures var u := SignStripped(TrimStart(s));
            r.NaN? <==> if HasHexPrefix(u) then |u| == 2 || !IsDigit(u[2], 16) else u == [] || !IsDigit(u[0], 10)
    ensures r.Int? && TrimStart(s) != [] && TrimStart(s)[0] == '-' ==> r.n <= 0
    ensures r.Int? && (TrimStart(s) == [] || TrimStart(s)[0] != '-') ==> r.n >= 0
  {
    var t := TrimStart(s);
    var sign := if t != [] && t[0] == '-' then -1 else 1;
    match Magnitude(SignStripped(t))
    case None => NaN
    case Some(v) => Int(sign * v)
  }

  /** The text after a leading "+" or "-", if any. */
  function SignStripped(t: string): (u: string)
    ensures t != [] && t[0] in "+-" ==> u == t[1..]
    ensures t == [] || t[0] !in "+-" ==> u == t
  {
    if t != [] && (t[0] == '-' || t[0] == '+') then t[1..] else t
  }

  /** The decimal digits of a natural number, without leading zeros. */
  function Decimal(n: nat): (s: string)
    ensures |s| > 0 && forall i :: 0 <= i < |s| ==> '0' <= s[i] <= '9'
  {
    var d := ['0' + (n % 10) as char];
    if n < 10 then d else Decimal(n / 10) + d
  }

  /** A run of digits followed by a non-digit reads back as exactly that run. */
  lemma {:induction false} DigitPrefixOfDigits(ds: string, rest: string)
    requires forall i :: 0 <= i < |ds| ==> '0' <= ds[i] <= '9'
    requires rest == [] || !IsDigit(rest[0], 10)
    ensures DigitPrefix(ds + rest, 10) == ds
  {
    if ds != [] {
      assert (ds + rest)[1..] == ds[1..] + rest;
      DigitPrefixOfDigits(ds[1..], rest);
    }
  }

  /** The decimal digits of `n` denote `n`. */
  lemma {:induction false} DecimalValue(n: nat)
    ensures DigitsValue(Decimal(n), 10) == n
  {
    var d := ['0' + (n % 10) as char];
    if n >= 10 {
      DecimalValue(n / 10);
      var s := Decimal(n / 10) + d;
      assert s[..|s| - 1] == Decimal(n / 10);
    }
  }

  /**
   * parseInt reads back the decimal digits of any natural number, whatever
   * non-digit text follows them ("7.1" reads as 7), provided that a lone
   * "0" is not followed by an "x" that would make it a hexadecimal prefix.
   */
  lemma ParseIntDecimal(n: nat, rest: string)
    requires rest == [] || !('0' <= rest[0] <= '9')
    requires n == 0 && rest != [] ==> rest[0] != 'x' && rest[0] != 'X'
    ensures ParseInt(Decimal(n) + rest) == Int(n)
  {
    var ds := Decimal(n);
    var s := ds + rest;
    assert s[0] == ds[0];
    NoHexPrefix(n, rest);
    DigitPrefixOfDigits(ds, rest);
    DecimalValue(n);
    ParseIntUnsigned(s);
  }

  /** Text that starts with a decimal digit, and not with "0x", reads as its leading decimal digits. */
  lemma ParseIntUnsigned(s: string)
    requires s != [] && '0' <= s[0] <= '9' && !HasHexPrefix(s)
    ensures DigitPrefix(s, 10) != []
    ensures ParseInt(s) == Int(DigitsValue(DigitPrefix(s, 10), 10))
  {
    assert TrimStart(s) == s;
    assert SignStripped(s) == s;
    assert IsDigit(s[0], 10);
  }

  /** The decimal digits of `n`, followed by `rest`, never start with "0x" or "0X". */
  lemma NoHexPrefix(n: nat, rest: string)
    requires rest == [] || !('0' <= rest[0] <= '9')
    requires n == 0 && rest != [] ==> rest[0] != 'x' && rest[0] != 'X'
    ensures !HasHexPrefix(Decimal(n) + rest)
  {
    var s := Decimal(n) + rest;
    if |Decimal(n)| >= 2 {
      assert s[1] == Decimal(n)[1];
    } else if n > 0 {
      assert s[0] != '0';
    }
  }

  // ---------------------------------------------------------------------
  // The plan
  // ---------------------------------------------------------------------

  /**
   * Math.max(0, target - base): the levels of lift needed. NaN when either
   * level is NaN, and otherwise never negative, since going darker needs
   * no lightening.
   */
  function LevelsNeeded(base: JsInt, target: JsInt): (n: JsInt)
    ensures n.Int? <==> base.Int? && target.Int?
    ensures n.Int? ==> n.n >= 0 && n.n >= target.n - base.n && (n.n == 0 || n.n == target.n - base.n)
  {
    match (base, target)
    case (Int(b), Int(t)) => Int(if 0 > t - b then 0 else t - b)
    case _ => NaN
  }

  /** calcularVolumeOxidante: a 20-volume developer whatever the levels. */
  function OxidantVolume(levels: JsInt): int {
    20
  }

  /** calcularTempoEstimado: 15 minutes per level; NaN stays NaN. */
  function EstimatedMinutes(levels: JsInt): JsInt {
    match levels
    case Int(n) => Int(n * 15)
    case NaN => NaN
  }

  /** determinarFundoRevelacao: the backdrop revealed, the same for every base level. */
  function Backdrop(baseLevel: JsInt): string {
    "Amarelo"
  }

  /** determinarProdutosRecomendados: bleaching powder and 20-volume developer. */
  function RecommendedProducts(levels: JsInt): seq<string> {
    ["Pó descolorante", "Oxidante 20 volumes"]
  }

  /** The result handed to onCalculate (ResultadoClareamento). */
  datatype Plan = Plan(
    levelsNeeded: JsInt,      // niveis_necessarios
    oxidantVolume: int,       // volume_oxidante
    estimatedMinutes: JsInt,  // tempo_estimado
    backdrop: string,         // fundo_revelacao
    products: seq<string>)    // produtos_recomendados

  /** The plan between two parsed levels. */
  function PlanOf(nivelBase: JsInt, nivelAlvo: JsInt): Plan {
    var niveis := LevelsNeeded(nivelBase, nivelAlvo);
    Plan(niveis, OxidantVolume(niveis), EstimatedMinutes(niveis),
         Backdrop(nivelBase), RecommendedProducts(niveis))
  }

  /**
   * calcularClareamento for the current selections: nothing when either
   * selection is the empty string, otherwise the plan from the two levels.
   */
  function Calculate(selectedBase: string, selectedTarget: string): Option<Plan> {
    if selectedBase == "" || selectedTarget == "" then None
    else Some(PlanOf(ParseInt(selectedBase), ParseInt(selectedTarget)))
  }

  /**
   * What a calculated plan promises: levels = max(0, target - base) of the
   * parsed levels, 15 minutes per level, a 20-volume oxidant.
   */
  lemma PlanContents(selectedBase: string, selectedTarget: string)
    requires selectedBase != "" && selectedTarget != ""
    ensures var p := Calculate(selectedBase, selectedTarget);
            var b, t := ParseInt(selectedBase), ParseInt(selectedTarget);
            && p.Some?
            && p.value.oxidantVolume == 20
            && (b.Int? && t.Int? ==>
                  p.value.levelsNeeded.Int? && p.value.estimatedMinutes.Int?
                  && p.value.levelsNeeded.n == (if t.n > b.n then t.n - b.n else 0)
                  && p.value.estimatedMinutes.n == 15 * p.value.levelsNeeded.n)
            && (b.NaN? || t.NaN? ==> p.value.levelsNeeded.NaN? && p.value.estimatedMinutes.NaN?)
  {
  }

  /** For a fixed base, a higher target never means fewer levels or less time. */
  lemma LevelsMonotoneInTarget(base: int, t1: int, t2: int)
    requires t1 <= t2
    ensures LevelsNeeded(Int(base), Int(t1)).n <= LevelsNeeded(Int(base), Int(t2)).n
    ensures EstimatedMinutes(LevelsNeeded(Int(base), Int(t1))).n
         <= EstimatedMinutes(LevelsNeeded(Int(base), Int(t2))).n
  {
  }

  /** Lifting base 5 to target 8 takes 3 levels and 45 minutes. */
  lemma LiftFiveToEight()
    ensures Calculate("5", "8") == Some(PlanOf(Int(5), Int(8)))
    ensures PlanOf(Int(5), Int(8)).levelsNeeded == Int(3)
    ensures PlanOf(Int(5), Int(8)).estimatedMinutes == Int(45)
  {
    ParseSingleDigit(5);
    assert ParseInt("5") == Int(5);
    ParseSingleDigit(8);
    assert ParseInt("8") == Int(8);
    PlanOfLevels(5, 8);
  }

  /** Going darker, from base 7 to target 4, needs no lightening and no time. */
  lemma LowerSevenToFour()
    ensures Calculate("7", "4") == Some(PlanOf(Int(7), Int(4)))
    ensures PlanOf(Int(7), Int(4)).levelsNeeded == Int(0)
    ensures PlanOf(Int(7), Int(4)).estimatedMinutes == Int(0)
  {
    ParseSingleDigit(7);
    assert ParseInt("7") == Int(7);
    ParseSingleDigit(4);
    assert ParseInt("4") == Int(4);
    PlanOfLevels(7, 4);
  }

  /** The plan between two one-digit levels. */
  lemma SingleDigitPlan(base: nat, target: nat)
    requires base < 10 && target < 10
    ensures var p := Calculate(['0' + base as char], ['0' + target as char]);
            var levels := if target > base then target - base else 0;
            p.Some? && p.value.levelsNeeded == Int(levels) && p.value.estimatedMinutes == Int(15 * levels)
  {
    var b, t := ['0' + base as char], ['0' + target as char];
    ParseSingleDigit(base);
    ParseSingleDigit(target);
    PlanOfLevels(base, target);
  }

  /** The plan between two integer levels. */
  lemma PlanOfLevels(base: int, target: int)
    ensures var levels := if target > base then target - base else 0;
            && PlanOf(Int(base), Int(target)).levelsNeeded == Int(levels)
            && PlanOf(Int(base), Int(target)).estimatedMinutes == Int(15 * levels)
  {
  }

  /** A one-digit shade code reads as its digit. */
  lemma ParseSingleDigit(n: nat)
    requires n < 10
    ensures ParseInt(['0' + n as char]) == Int(n)
  {
    ParseIntDecimal(n, "");
    assert Decimal(n) + "" == Decimal(n);
    SingleDigitDecimal(n);
  }

  /** A number below 10 is written as one digit. */
  lemma SingleDigitDecimal(n: nat)
    requires n < 10
    ensures Decimal(n) == ['0' + n as char]
  {
  }
}
