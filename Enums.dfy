/** The model catalog: the closed set of models and their wire paths. */
module Enums {

  /** The five models the client can address. */
  datatype GeminiModel =
    | Gemini20Flash
    | Gemini20FlashLite
    | Gemini15Pro
    | Gemini15Flash
    | Gemini15Flash8B

  /** Every variant, in declaration order. */
  const AllModels: seq<GeminiModel> :=
    [Gemini20Flash, Gemini20FlashLite, Gemini15Pro, Gemini15Flash, Gemini15Flash8B]

  /** The common prefix of every wire path. */
  const ModelPrefix: string := "models/"

  /** The wire path of a model. The match is exhaustive over the closed datatype,
      so the source's out-of-range arm has no counterpart: it cannot be reached. */
  function ToModelName(model: GeminiModel): (name: string)
    ensures |ModelPrefix| < |name| && ModelPrefix <= name
    ensures forall i :: 0 <= i < |name| ==> name[i] != ':'
  {
    match model
    case Gemini20Flash => "models/gemini-2.0-flash"
    case Gemini20FlashLite => "models/gemini-2.0-flash-lite"
    case Gemini15Pro => "models/gemini-1.5-pro-latest"
    case Gemini15Flash => "models/gemini-1.5-flash-latest"
    case Gemini15Flash8B => "models/gemini-1.5-flash-8b-latest"
  }

  /** The enumeration has exactly five variants, each listed once. */
  lemma CatalogHasFiveModels()
    ensures |AllModels| == 5
    ensures forall m :: m in AllModels
    ensures forall i, j :: 0 <= i < j < |AllModels| ==> AllModels[i] != AllModels[j]
  {
    forall m: GeminiModel ensures m in AllModels {
      match m
      case Gemini20Flash => assert AllModels[0] == m;
      case Gemini20FlashLite => assert AllModels[1] == m;
      case Gemini15Pro => assert AllModels[2] == m;
      case Gemini15Flash => assert AllModels[3] == m;
      case Gemini15Flash8B => assert AllModels[4] == m;
    }
  }

  /** Distinct models are sent to distinct wire paths. */
  lemma ToModelNameInjective(a: GeminiModel, b: GeminiModel)
    ensures ToModelName(a) == ToModelName(b) ==> a == b
  {
  }

  /** The example given with the mapping. */
  lemma Gemini20FlashName()
    ensures ToModelName(Gemini20Flash) == "models/gemini-2.0-flash"
  {
  }
}
