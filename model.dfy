/** The allocation policy tag of `src/model/model.rs`: which calculator a
    submission is meant for, the list shown by the pick list, and the labels. */
module Models {
  /** `enum Model`. */
  datatype Model = FlatHat | Pyramid

  /** `Model::ALL`, the choices offered by the pick list, in display order. */
  const ALL: seq<Model> := [FlatHat, Pyramid]

  /** `#[default]` on the enum. */
  function Default(): Model
  {
    FlatHat
  }

  /** The `Display` implementation: the label shown for each variant. */
  function Display(m: Model): string
  {
    match m
    case FlatHat => "Flat hat"
    case Pyramid => "Pyramid"
  }

  /** The default variant is the first entry of the pick list. */
  lemma DefaultIsFirstChoice()
    ensures Default() == FlatHat && Default() == ALL[0]
  {
  }

  /** `ALL` lists every variant exactly once. */
  lemma AllListsEachVariantOnce()
    ensures |ALL| == 2
    ensures forall m: Model :: m in ALL
    ensures forall m: Model :: multiset(ALL)[m] == 1
  {
    forall m: Model ensures m in ALL && multiset(ALL)[m] == 1 {
      assert ALL == [FlatHat] + [Pyramid];
      match m
      case FlatHat => assert ALL[0] == m;
      case Pyramid => assert ALL[1] == m;
    }
  }

  /** The labels, and the fact that no two variants share one, so a label
      picked from the list identifies its variant. */
  lemma DisplayLabels()
    ensures Display(FlatHat) == "Flat hat" && Display(Pyramid) == "Pyramid"
    ensures forall a: Model, b: Model :: Display(a) == Display(b) ==> a == b
  {
  }
}
