/** `recommend_service`: the advice shown when an order is being entered for a client. */
module Recommend {
  import opened Wrappers
  import opened Records
  import opened Text

  const WrittenConsultation: string := "Индивидуальная консультация (письменно)"
  const CustomerMaterials: string := "Обработка материалов заказчика"
  const SupportDiscount: string := "Скидка 10% на услуги сопровождения"
  const ContentFromScratch: string := "Создание контента с нуля"

  /** `x.strip().lower() if x else ""`: NULL and the empty text both give "". */
  function Field(x: Option<string>): string {
    match x
    case None => ""
    case Some(s) => if s == "" then "" else Normalize(s)
  }

  /** The first rule that matches, on the normalized category and region, then on the
      repeat flag (any non-zero flag counts). */
  function RecommendService(c: Client): (r: string)
    ensures r in {WrittenConsultation, CustomerMaterials, SupportDiscount, ContentFromScratch}
  {
    var category := Field(c.category);
    var region := Field(c.region);
    if region == "москва" && category == "физическое лицо" then WrittenConsultation
    else if region == "регионы" && category == "юридическое лицо" then CustomerMaterials
    else if c.isRepeat != 0 then SupportDiscount
    else ContentFromScratch
  }

  /** The four outcomes, each exactly when its rule is the first to match: an individual in
      Moscow gets the written consultation even as a repeat client. */
  lemma RecommendRules(c: Client)
    ensures var category, region, r := Field(c.category), Field(c.region), RecommendService(c);
      var moscowIndividual := region == "москва" && category == "физическое лицо";
      var regionalCompany := region == "регионы" && category == "юридическое лицо";
      (r == WrittenConsultation <==> moscowIndividual)
      && (r == CustomerMaterials <==> !moscowIndividual && regionalCompany)
      && (r == SupportDiscount <==> !moscowIndividual && !regionalCompany && c.isRepeat != 0)
      && (r == ContentFromScratch <==> !moscowIndividual && !regionalCompany && c.isRepeat == 0)
  {
  }

  /** A field already in normal form stays as it is. */
  lemma FieldIdempotent(x: Option<string>)
    ensures Field(Some(Field(x))) == Field(x)
  {
    if x.Some? && x.value != "" {
      NormalizeIdempotent(x.value);
    }
  }

  /** The rule sees category and region only through their normal forms: a client whose
      texts are replaced by their trimmed, lower-cased forms gets the same advice. */
  lemma RecommendNormalized(c: Client)
    ensures RecommendService(c)
      == RecommendService(c.(category := Some(Field(c.category)), region := Some(Field(c.region))))
  {
    FieldIdempotent(c.category);
    FieldIdempotent(c.region);
  }

  /** A text of white space only, like NULL and "", normalises to "". */
  lemma BlankField(s: string)
    requires forall i :: 0 <= i < |s| ==> IsSpace(s[i])
    ensures Field(Some(s)) == ""
  {
    assert TrimLeft(s) == [];
  }

  /** A client whose category and region are missing, empty or blank gets no category rule:
      the advice falls through to the repeat flag. */
  lemma RecommendNoCategory(c: Client)
    requires Field(c.category) == "" && Field(c.region) == ""
    ensures RecommendService(c) == if c.isRepeat != 0 then SupportDiscount else ContentFromScratch
  {
  }
}
