/**
 * encontrarCorMaisProxima: the catalogue shade nearest to a detected
 * colour. A first pass keeps the strictly smallest distance seen so far,
 * so ties go to the earlier shade, and collects a shortlist of candidates
 * within 20% of the running minimum; when the shortlist has more than one
 * entry it is sorted by distance and its head is taken.
 *
 * Distances are squared (see ColorSpace), so "within 20%" is "within a
 * factor 1.44 of the squared minimum".
 */
module Matcher {
  import opened Numeric
  import opened ColorSpace
  import opened Catalog

  /** The detected colour handed to the matcher; any channel may be NaN. */
  datatype RgbInput = RgbInput(R: JsInt, G: JsInt, B: JsInt)

  predicate HasNaN(c: RgbInput) {
    c.R.NaN? || c.G.NaN? || c.B.NaN?
  }

  function ToRgb(c: RgbInput): Rgb
    requires !HasNaN(c)
  {
    Rgb(c.R.n, c.G.n, c.B.n)
  }

  function FromRgb(c: Rgb): (r: RgbInput)
    ensures !HasNaN(r) && ToRgb(r) == c
  {
    RgbInput(Int(c.r), Int(c.g), Int(c.b))
  }

  /** A shortlisted shade with its (squared) distance (Candidato). */
  datatype Candidate = Candidate(nivel: Shade, distancia: Number)

  // ---------------------------------------------------------------------
  // Sorting the shortlist
  // ---------------------------------------------------------------------

  /** No candidate distance is NaN. */
  predicate NoNaNKeys(cs: seq<Candidate>) {
    forall t :: 0 <= t < |cs| ==> cs[t].distancia != NotANumber
  }

  /** Ascending by distance, with the comparator `a.distancia - b.distancia`. */
  predicate SortedByDistance(cs: seq<Candidate>) {
    forall i, j :: 0 <= i < j < |cs| ==> !Less(cs[j].distancia, cs[i].distancia)
  }

  /** "Not less than" is transitive on numbers that are not NaN. */
  lemma NotLessTransitive(a: Number, b: Number, c: Number)
    requires a != NotANumber && b != NotANumber && c != NotANumber
    requires !Less(b, a) && !Less(c, b)
    ensures !Less(c, a)
  {
  }

  /** A head no greater than any element of a sorted tail keeps the sequence sorted. */
  lemma SortedCons(h: Candidate, tail: seq<Candidate>)
    requires SortedByDistance(tail)
    requires forall t :: 0 <= t < |tail| ==> !Less(tail[t].distancia, h.distancia)
    ensures SortedByDistance([h] + tail)
  {
    var r := [h] + tail;
    forall i, j | 0 <= i < j < |r|
      ensures !Less(r[j].distancia, r[i].distancia)
    {
      if i > 0 {
        assert r[i] == tail[i - 1] && r[j] == tail[j - 1];
      } else {
        assert r[j] == tail[j - 1];
      }
    }
  }

  /**
   * Insert `c` in front of the first element whose distance is not smaller
   * than its own, so that `c` stays ahead of later equal elements.
   */
  function Insert(c: Candidate, sorted: seq<Candidate>): (r: seq<Candidate>)
    ensures multiset(r) == multiset(sorted) + multiset{c}
    ensures |r| == |sorted| + 1
  {
    if sorted == [] || !Less(sorted[0].distancia, c.distancia) then
      [c] + sorted
    else
      assert sorted == [sorted[0]] + sorted[1..];
      [sorted[0]] + Insert(c, sorted[1..])
  }

  /** Inserting into a sorted sequence keeps it sorted, when no distance is NaN. */
  lemma {:induction false} InsertSorted(c: Candidate, sorted: seq<Candidate>)
    requires c.distancia != NotANumber && NoNaNKeys(sorted) && SortedByDistance(sorted)
    ensures SortedByDistance(Insert(c, sorted))
  {
    if sorted == [] {
    } else if !Less(sorted[0].distancia, c.distancia) {
      forall t | 0 <= t < |sorted|
        ensures !Less(sorted[t].distancia, c.distancia)
      {
        if t > 0 {
          NotLessTransitive(c.distancia, sorted[0].distancia, sorted[t].distancia);
        }
      }
      SortedCons(c, sorted);
    } else {
      var tail := sorted[1..];
      InsertSorted(c, tail);
      var ins := Insert(c, tail);
      forall t | 0 <= t < |ins|
        ensures !Less(ins[t].distancia, sorted[0].distancia)
      {
        assert ins[t] in multiset(tail) + multiset{c};
        if ins[t] != c {
          assert ins[t] in multiset(tail);
          var u :| 0 <= u < |tail| && tail[u] == ins[t];
          assert tail[u] == sorted[u + 1];
        }
      }
      SortedCons(sorted[0], ins);
    }
  }

  /**
   * The shortlist sort `candidatos.sort((a, b) => a.distancia - b.distancia)`:
   * JavaScript's sort is stable, so it is modelled by a stable insertion
   * sort. The result is a permutation of the input.
   */
  function SortByDistance(cs: seq<Candidate>): (r: seq<Candidate>)
    ensures multiset(r) == multiset(cs) && |r| == |cs|
  {
    if cs == [] then []
    else
      assert cs == [cs[0]] + cs[1..];
      Insert(cs[0], SortByDistance(cs[1..]))
  }

  /** When no distance is NaN, the sorted shortlist is ascending. */
  lemma {:induction false} SortByDistanceSorted(cs: seq<Candidate>)
    requires NoNaNKeys(cs)
    ensures SortedByDistance(SortByDistance(cs))
  {
    if cs != [] {
      SortByDistanceSorted(cs[1..]);
      var rest := SortByDistance(cs[1..]);
      forall t | 0 <= t < |rest|
        ensures rest[t].distancia != NotANumber
      {
        assert rest[t] in multiset(cs[1..]);
        var u :| 0 <= u < |cs[1..]| && cs[1..][u] == rest[t];
        assert cs[u + 1] == rest[t];
      }
      InsertSorted(cs[0], rest);
    }
  }

  /**
   * The sort puts first the earliest candidate whose distance is not
   * beaten by any candidate and strictly beats every candidate before it.
   */
  lemma {:induction false} SortLeader(cs: seq<Candidate>, p: nat)
    requires p < |cs|
    requires forall t :: 0 <= t < |cs| ==> !Less(cs[t].distancia, cs[p].distancia)
    requires forall t :: 0 <= t < p ==> Less(cs[p].distancia, cs[t].distancia)
    ensures SortByDistance(cs)[0] == cs[p]
  {
    var rest := SortByDistance(cs[1..]);
    if p == 0 {
      if rest != [] {
        assert rest[0] in multiset(cs[1..]);
        var t :| 0 <= t < |cs[1..]| && cs[1..][t] == rest[0];
        assert cs[t + 1] == rest[0];
      }
    } else {
      SortLeader(cs[1..], p - 1);
    }
  }

  // ---------------------------------------------------------------------
  // The first pass: arg-min with strict comparison
  // ---------------------------------------------------------------------

  /** Some distance is a finite number. */
  predicate HasFinite(ds: seq<Number>) {
    exists j :: 0 <= j < |ds| && ds[j].Finite?
  }

  /**
   * `k` is where the first pass settles: the earliest index holding the
   * smallest finite distance, or index 0 (the initial choice) when no
   * distance is finite.
   */
  predicate IsFirstMin(ds: seq<Number>, k: nat) {
    k < |ds| &&
    if HasFinite(ds) then
      && ds[k].Finite?
      && (forall j :: 0 <= j < |ds| && ds[j].Finite? ==> ds[k].v <= ds[j].v)
      && (forall j :: 0 <= j < k && ds[j].Finite? ==> ds[k].v < ds[j].v)
    else
      k == 0
  }

  /** The first-minimum index, computed over ever longer prefixes. */
  function FirstMin(ds: seq<Number>): (k: nat)
    requires |ds| > 0
    ensures IsFirstMin(ds, k)
    decreases |ds|
  {
    if |ds| == 1 then 0
    else
      var n := |ds| - 1;
      var k := FirstMin(ds[..n]);
      assert forall j :: 0 <= j < n ==> ds[..n][j] == ds[j];
      assert HasFinite(ds[..n]) ==> HasFinite(ds);
      if ds[n].Finite? && (!ds[k].Finite? || ds[n].v < ds[k].v) then n else k
  }

  /** One step of the first pass: a strictly smaller distance takes over. */
  lemma FirstMinStep(ds: seq<Number>, i: nat, win: nat)
    requires i < |ds|
    requires forall k :: 0 <= k < |ds| ==> ds[k] != NotANumber
    requires i == 0 ==> win == 0
    requires i > 0 ==> IsFirstMin(ds[..i], win)
    ensures var best := if i == 0 then PosInf else ds[win];
            IsFirstMin(ds[..i + 1], if Less(ds[i], best) then i else win)
  {
    assert forall j :: 0 <= j < i ==> ds[..i + 1][j] == ds[..i][j];
    assert ds[..i + 1][i] == ds[i];
    if i > 0 {
      assert HasFinite(ds[..i]) ==> HasFinite(ds[..i + 1]);
    }
  }

  /** There is only one first minimum. */
  lemma FirstMinUnique(ds: seq<Number>, k1: nat, k2: nat)
    requires IsFirstMin(ds, k1) && IsFirstMin(ds, k2)
    ensures k1 == k2
  {
  }

  /**
   * A distance metric. The scan is stated for any metric and catalogue;
   * encontrarCorMaisProxima ranks the fixed catalogue by
   * calcularDistanciaCores (DistanceSq).
   */
  type Metric = (Rgb, Rgb) -> Number

  /** The distance from `c` to each shade of `shades`, in catalogue order. */
  function Distances(metric: Metric, shades: seq<Shade>, c: Rgb): (ds: seq<Number>)
    ensures |ds| == |shades|
    ensures forall k :: 0 <= k < |shades| ==> ds[k] == metric(c, shades[k].rgb)
  {
    seq(|shades|, k requires 0 <= k < |shades| => metric(c, shades[k].rgb))
  }

  /** Every reference colour of a catalogue is in [0, 255]. */
  predicate ColorsInRange(shades: seq<Shade>) {
    forall k :: 0 <= k < |shades| ==> InRange(shades[k].rgb)
  }

  /** The metric never gives NaN or a negative number against a shade of the catalogue. */
  ghost predicate ProperOn(metric: Metric, shades: seq<Shade>) {
    forall c: Rgb, k :: 0 <= k < |shades| ==>
      metric(c, shades[k].rgb) != NotANumber &&
      (metric(c, shades[k].rgb).Finite? ==> metric(c, shades[k].rgb).v >= 0.0)
  }

  /**
   * Against a catalogue of in-range colours calcularDistanciaCores is never
   * NaN: the catalogue side always has a finite saturation.
   */
  lemma HslMetricProper(shades: seq<Shade>)
    requires ColorsInRange(shades)
    ensures ProperOn(DistanceSq, shades)
  {
    forall c: Rgb, k | 0 <= k < |shades|
      ensures DistanceSq(c, shades[k].rgb) != NotANumber
    {
      HslInRange(shades[k].rgb);
    }
  }

  /**
   * The shade code encontrarCorMaisProxima returns for a catalogue: "1"
   * when a channel is NaN, otherwise the code of the first-minimum shade.
   */
  function NearestIn(metric: Metric, shades: seq<Shade>, cor: RgbInput): string
    requires |shades| > 0
  {
    if HasNaN(cor) then "1"
    else shades[FirstMin(Distances(metric, shades, ToRgb(cor)))].valor
  }

  /** The shade code encontrarCorMaisProxima returns for the fixed catalogue. */
  function Nearest(cor: RgbInput): string {
    NearestIn(DistanceSq, Shades, cor)
  }

  /**
   * When the shortlist holds the first-pass winner, in catalogue order
   * with the winner's distance at most everyone's and strictly below
   * everyone's before it, sorting it puts the winner first.
   */
  lemma ShortlistLeader(ds: seq<Number>, win: nat, cands: seq<Candidate>, pos: seq<nat>, wt: nat)
    requires IsFirstMin(ds, win)
    requires forall k :: 0 <= k < |ds| ==> ds[k] != NotANumber
    requires |pos| == |cands| && wt < |pos| && pos[wt] == win
    requires forall t :: 0 <= t < |pos| ==> pos[t] < |ds| && cands[t].distancia == ds[pos[t]]
    requires forall t, u :: 0 <= t < u < |pos| ==> pos[t] < pos[u]
    ensures SortByDistance(cands)[0] == cands[wt]
  {
    forall t | 0 <= t < |cands|
      ensures !Less(cands[t].distancia, cands[wt].distancia)
    {
    }
    forall t | 0 <= t < wt
      ensures Less(cands[wt].distancia, cands[t].distancia)
    {
      assert pos[t] < win;
    }
    SortLeader(cands, wt);
  }

  /**
   * The state of the first pass: the smallest distance so far
   * (menorDistancia), the index of the shade chosen so far
   * (corMaisProxima), and the shortlist (candidatos). `pos` and `wt` are
   * bookkeeping for the proof: the catalogue index of each candidate and
   * the shortlist position of the chosen shade.
   */
  datatype PassState = PassState(best: Number, win: nat, cands: seq<Candidate>, pos: seq<nat>, wt: nat)

  /** The first pass after it has visited the first `n` shades. */
  ghost function FirstPass(shades: seq<Shade>, ds: seq<Number>, n: nat): PassState
    requires n <= |shades| == |ds|
  {
    if n == 0 then PassState(PosInf, 0, [], [], 0)
    else
      var st := FirstPass(shades, ds, n - 1);
      var i := n - 1;
      var d := ds[i];
      if d == NotANumber then st
      else
        var best := if Less(d, st.best) then d else st.best;
        var win := if Less(d, st.best) then i else st.win;
        if AtMost(d, Scale(best, 1.44)) then
          PassState(best, win, st.cands + [Candidate(shades[i], d)], st.pos + [i],
                    if win == i then |st.pos| else st.wt)
        else
          PassState(best, win, st.cands, st.pos, st.wt)
  }

  /** Every distance of `ds` is a number, finite ones non-negative. */
  predicate ProperDistances(ds: seq<Number>) {
    forall k :: 0 <= k < |ds| ==> ds[k] != NotANumber && (ds[k].Finite? ==> ds[k].v >= 0.0)
  }

  /** After `n > 0` shades the first pass holds the first minimum of what it has seen. */
  lemma {:induction false} FirstPassWinner(shades: seq<Shade>, ds: seq<Number>, n: nat)
    requires 0 < n <= |shades| == |ds| && ProperDistances(ds)
    ensures var st := FirstPass(shades, ds, n);
            IsFirstMin(ds[..n], st.win) && st.best == ds[st.win]
  {
    if n > 1 {
      FirstPassWinner(shades, ds, n - 1);
    }
    var prev := FirstPass(shades, ds, n - 1);
    FirstMinStep(ds, n - 1, prev.win);
  }

  /** The shortlist lists shades in catalogue order, each with its distance. */
  lemma {:induction false} FirstPassListing(shades: seq<Shade>, ds: seq<Number>, n: nat)
    requires n <= |shades| == |ds|
    ensures var st := FirstPass(shades, ds, n);
            && |st.pos| == |st.cands|
            && (forall t :: 0 <= t < |st.pos| ==>
                  st.pos[t] < n && st.cands[t] == Candidate(shades[st.pos[t]], ds[st.pos[t]]))
            && (forall t, u :: 0 <= t < u < |st.pos| ==> st.pos[t] < st.pos[u])
  {
    if n > 0 {
      FirstPassListing(shades, ds, n - 1);
    }
  }

  /** The shortlist contains the shade the first pass has chosen, at position `wt`. */
  lemma {:induction false} FirstPassKeepsWinner(shades: seq<Shade>, ds: seq<Number>, n: nat)
    requires 0 < n <= |shades| == |ds| && ProperDistances(ds)
    ensures var st := FirstPass(shades, ds, n);
            st.wt < |st.pos| && st.pos[st.wt] == st.win
  {
    var prev := FirstPass(shades, ds, n - 1);
    if n > 1 {
      FirstPassKeepsWinner(shades, ds, n - 1);
      FirstPassWinner(shades, ds, n - 1);
    }
    var d := ds[n - 1];
    if Less(d, prev.best) {
      assert AtMost(d, Scale(d, 1.44));
    } else if n == 1 {
      // Only +Infinity is not below the initial +Infinity.
      AtMostIsNotLess(prev.best, d);
      assert d == PosInf;
    }
  }

  /**
   * After the whole catalogue the first pass has chosen the first-minimum
   * shade, and when the shortlist has more than one entry, sorting it by
   * distance puts that same shade first.
   */
  lemma FirstPassOutcome(shades: seq<Shade>, ds: seq<Number>)
    requires 0 < |shades| == |ds| && ProperDistances(ds)
    ensures var st := FirstPass(shades, ds, |shades|);
            && st.win == FirstMin(ds)
            && (|st.cands| > 1 ==> SortByDistance(st.cands)[0].nivel == shades[FirstMin(ds)])
  {
    var st := FirstPass(shades, ds, |shades|);
    FirstPassWinner(shades, ds, |shades|);
    FirstPassListing(shades, ds, |shades|);
    FirstPassKeepsWinner(shades, ds, |shades|);
    assert ds[..|shades|] == ds;
    FirstMinUnique(ds, st.win, FirstMin(ds));
    if |st.cands| > 1 {
      ShortlistLeader(ds, st.win, st.cands, st.pos, st.wt);
    }
  }

  /**
   * encontrarCorMaisProxima over a catalogue whose colours are in range.
   * The result is the code of the first-minimum shade, so the shortlist
   * sort never changes the first pass's choice; a NaN channel yields the
   * fallback code "1".
   */
  method FindNearestIn(metric: Metric, shades: seq<Shade>, cor: RgbInput) returns (valor: string)
    requires |shades| > 0 && ProperOn(metric, shades)
    ensures valor == NearestIn(metric, shades, cor)
    ensures HasNaN(cor) ==> valor == "1"
  {
    if HasNaN(cor) {
      return "1";
    }
    var c := ToRgb(cor);
    ghost var ds := Distances(metric, shades, c);

    var menorDistancia := PosInf;
    var corMaisProxima := shades[0];
    ghost var win: nat := 0;
    var candidatos: seq<Candidate> := [];
    ghost var pos: seq<nat> := [];
    ghost var wt: nat := 0;

    for i := 0 to |shades|
      invariant win < |shades| && corMaisProxima == shades[win]
      invariant PassState(menorDistancia, win, candidatos, pos, wt) == FirstPass(shades, ds, i)
    {
      var distancia := metric(c, shades[i].rgb);
      assert distancia == ds[i];
      if distancia != NotANumber {
        if Less(distancia, menorDistancia) {
          menorDistancia := distancia;
          corMaisProxima := shades[i];
          win := i;
        }
        if AtMost(distancia, Scale(menorDistancia, 1.44)) {
          candidatos := candidatos + [Candidate(shades[i], distancia)];
          wt := if win == i then |pos| else wt;
          pos := pos + [i];
        }
      }
    }

    FirstPassOutcome(shades, ds);
    if |candidatos| > 1 {
      var ordenados := SortByDistance(candidatos);
      var melhores := if |ordenados| <= 3 then ordenados else ordenados[..3];
      corMaisProxima := melhores[0].nivel;
    }
    valor := corMaisProxima.valor;
  }

  /** encontrarCorMaisProxima over the fixed catalogue. */
  method FindNearest(cor: RgbInput) returns (valor: string)
    ensures valor == Nearest(cor)
    ensures HasNaN(cor) ==> valor == Shades[0].valor
  {
    CatalogWellFormed();
    HslMetricProper(Shades);
    valor := FindNearestIn(DistanceSq, Shades, cor);
  }

  // ---------------------------------------------------------------------
  // What the result is
  // ---------------------------------------------------------------------

  /**
   * For a colour without NaN, the result is the code of a shade that no
   * other shade is strictly closer than, and every earlier shade is
   * strictly farther: ties go to the earliest shade in catalogue order.
   */
  lemma NearestInIsClosest(metric: Metric, shades: seq<Shade>, cor: RgbInput)
    requires |shades| > 0 && ProperOn(metric, shades) && !HasNaN(cor)
    ensures var c := ToRgb(cor);
            exists k :: 0 <= k < |shades| && shades[k].valor == NearestIn(metric, shades, cor)
              && (forall j :: 0 <= j < |shades| ==> !Less(metric(c, shades[j].rgb), metric(c, shades[k].rgb)))
              && (forall j :: 0 <= j < k ==> Less(metric(c, shades[k].rgb), metric(c, shades[j].rgb)))
  {
    var c := ToRgb(cor);
    var ds := Distances(metric, shades, c);
    var k := FirstMin(ds);
    assert forall j :: 0 <= j < |shades| ==> ds[j] == metric(c, shades[j].rgb);
    if !HasFinite(ds) {
      assert forall j :: 0 <= j < |shades| ==> ds[j] == PosInf;
    }
  }

  /**
   * The fallback: a NaN channel yields "1", and when no distance is finite
   * the initial choice, the first shade, is kept.
   */
  lemma NearestInFallback(metric: Metric, shades: seq<Shade>, cor: RgbInput)
    requires |shades| > 0
    ensures HasNaN(cor) ==> NearestIn(metric, shades, cor) == "1"
    ensures !HasNaN(cor) && !HasFinite(Distances(metric, shades, ToRgb(cor))) ==>
            NearestIn(metric, shades, cor) == shades[0].valor
  {
  }

  /**
   * A colour at distance zero from some shade is matched to a shade at
   * distance zero (the earliest such shade).
   */
  lemma NearestInExactMatch(metric: Metric, shades: seq<Shade>, cor: RgbInput, m: nat)
    requires |shades| > 0 && ProperOn(metric, shades) && !HasNaN(cor)
    requires m < |shades| && metric(ToRgb(cor), shades[m].rgb) == Finite(0.0)
    ensures exists k :: 0 <= k < |shades| && shades[k].valor == NearestIn(metric, shades, cor)
              && metric(ToRgb(cor), shades[k].rgb) == Finite(0.0)
  {
    var ds := Distances(metric, shades, ToRgb(cor));
    var k := FirstMin(ds);
    assert ds[m] == Finite(0.0);
    assert ds[k] == metric(ToRgb(cor), shades[k].rgb);
  }

  /** The fixed catalogue's first shade is code "1": the NaN fallback is the darkest shade. */
  lemma NaNFallsBackToDarkest(cor: RgbInput)
    requires HasNaN(cor)
    ensures Nearest(cor) == Shades[0].valor == "1"
  {
    CatalogWellFormed();
  }

  /** For the fixed catalogue: the result is a closest shade, ties going to the earliest. */
  lemma NearestIsClosest(cor: RgbInput)
    requires !HasNaN(cor)
    ensures var c := ToRgb(cor);
            exists k :: 0 <= k < |Shades| && Shades[k].valor == Nearest(cor)
              && (forall j :: 0 <= j < |Shades| ==> !Less(DistanceSq(c, Shades[j].rgb), DistanceSq(c, Shades[k].rgb)))
              && (forall j :: 0 <= j < k ==> Less(DistanceSq(c, Shades[k].rgb), DistanceSq(c, Shades[j].rgb)))
  {
    CatalogWellFormed();
    HslMetricProper(Shades);
    NearestInIsClosest(DistanceSq, Shades, cor);
  }

  /**
   * A colour equal to a catalogue colour is matched to a shade with the
   * very same HSL form, and since no two catalogue colours share a
   * lightness, that shade is the one whose colour it is.
   */
  lemma ExactMatchHasSameHsl(cor: RgbInput, m: nat)
    requires !HasNaN(cor) && m < |Shades| && ToRgb(cor) == Shades[m].rgb
    ensures exists k :: 0 <= k < |Shades| && Shades[k].valor == Nearest(cor)
              && RgbToHsl(Shades[k].rgb) == RgbToHsl(Shades[m].rgb)
    ensures Nearest(cor) == Shades[m].valor
  {
    CatalogWellFormed();
    HslMetricProper(Shades);
    DistanceToSelf(Shades[m].rgb);
    NearestInExactMatch(DistanceSq, Shades, cor, m);
    var k :| 0 <= k < |Shades| && Shades[k].valor == Nearest(cor) && DistanceSq(ToRgb(cor), Shades[k].rgb) == Finite(0.0);
    DistanceZeroIffSameHsl(ToRgb(cor), Shades[k].rgb);
    if k < m {
      CatalogDarkToLight(k, m);
    } else if m < k {
      CatalogDarkToLight(m, k);
    }
  }

  /** Every catalogue colour, detected as it is, is matched to its own shade code. */
  lemma CatalogColorMatchesItself(m: nat)
    requires m < |Shades|
    ensures Nearest(FromRgb(Shades[m].rgb)) == Shades[m].valor
  {
    ExactMatchHasSameHsl(FromRgb(Shades[m].rgb), m);
  }

  /** A detected colour of (14, 14, 14), the reference colour of shade "1", is matched to "1". */
  lemma DarkestReferenceMatchesItself()
    ensures Nearest(FromRgb(Rgb(14, 14, 14))) == "1"
  {
    CatalogWellFormed();
    CatalogColorMatchesItself(0);
  }
}
