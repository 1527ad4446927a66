/**
 * The fixed, ordered catalogue of reference hair shades (NIVEIS_CORES):
 * a shade code, a description and the code's reference RGB colour.
 */
module Catalog {
  import opened ColorSpace

  datatype Shade = Shade(valor: string, descricao: string, rgb: Rgb)

  const Shades: seq<Shade> := [
    Shade("1", "Preto", Rgb(14, 14, 14)),
    Shade("3", "Castanho Escuro", Rgb(55, 20, 14)),
    Shade("4", "Castanho Médio", Rgb(64, 22, 15)),
    Shade("5", "Castanho Claro", Rgb(74, 29, 17)),
    Shade("6", "Loiro Escuro", Rgb(73, 45, 21)),
    Shade("6.1", "Loiro Escuro Acinzentado", Rgb(71, 43, 28)),
    Shade("6.12", "Loiro Escuro Acinzentado Irisado", Rgb(69, 41, 32)),
    Shade("7", "Loiro Médio", Rgb(78, 55, 25)),
    Shade("7.1", "Loiro Médio Acinzentado", Rgb(76, 53, 32)),
    Shade("7.12", "Loiro Médio Acinzentado Irisado", Rgb(74, 51, 38)),
    Shade("8", "Loiro Claro", Rgb(140, 115, 64)),
    Shade("8.1", "Loiro Claro Acinzentado", Rgb(138, 113, 71)),
    Shade("8.12", "Loiro Claro Acinzentado Irisado", Rgb(136, 111, 77)),
    Shade("9", "Loiro Muito Claro", Rgb(193, 167, 103)),
    Shade("9.1", "Loiro Muito Claro Acinzentado", Rgb(191, 165, 110)),
    Shade("9.12", "Loiro Muito Claro Acinzentado Irisado", Rgb(189, 163, 116)),
    Shade("10", "Loiro Claríssimo", Rgb(223, 211, 142)),
    Shade("10.1", "Loiro Claríssimo Acinzentado", Rgb(221, 209, 149)),
    Shade("10.12", "Loiro Claríssimo Acinzentado Irisado", Rgb(219, 207, 155))
  ]

  /**
   * The catalogue has nineteen shades, the first (darkest) is code "1",
   * codes are pairwise distinct and every reference colour is in [0, 255].
   */
  lemma CatalogWellFormed()
    ensures |Shades| == 19 && Shades[0].valor == "1"
    ensures forall k :: 0 <= k < |Shades| ==> InRange(Shades[k].rgb)
    ensures forall i, j :: 0 <= i < j < |Shades| ==> Shades[i].valor != Shades[j].valor
  {
  }

  /** Each shade is strictly lighter than the one before it (adjacent pairs). */
  lemma CatalogStepsLighter()
    ensures forall k :: 0 <= k < |Shades| - 1 ==> ChannelSpan(Shades[k].rgb) < ChannelSpan(Shades[k + 1].rgb)
  {
  }

  /**
   * The catalogue runs from darkest to lightest: a later shade always has
   * a strictly larger lightness.
   */
  lemma {:induction false} CatalogDarkToLight(i: nat, j: nat)
    requires i < j < |Shades|
    ensures RgbToHsl(Shades[i].rgb).l < RgbToHsl(Shades[j].rgb).l
    decreases j - i
  {
    CatalogStepsLighter();
    LightnessOfChannels(Shades[j].rgb);
    LightnessOfChannels(Shades[j - 1].rgb);
    if i < j - 1 {
      CatalogDarkToLight(i, j - 1);
    } else {
      LightnessOfChannels(Shades[i].rgb);
    }
  }
}
