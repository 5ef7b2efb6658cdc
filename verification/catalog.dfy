/** The rule catalog (`AUTO_RECOMMENDATION_RULES`), as fixed by the
    `expectedRules` literal of src/data/autoRecommendations.test.ts, and the
    properties the evaluator has on it. */
module Catalog {
  import opened Wrappers
  import opened Seqs
  import opened Answers
  import opened Conditions
  import opened Actions
  import opened Recommendations

  function AnyOf(from: string, values: seq<string>): Condition {
    Leaf(FieldCondition(from, None, None, Some(values), None))
  }

  function EqualsTo(from: string, value: string): Condition {
    Leaf(FieldCondition(from, Some(value), None, None, None))
  }

  function IncludesValue(from: string, value: string): Condition {
    Leaf(FieldCondition(from, None, Some(value), None, None))
  }

  const Headache := "Dolores de cabeza"
  const Dryness := "Sequedad ocular"
  /** The catalog's photopsia option, with typographic quotes. */
  const Photopsia := "Destellos / “moscas volantes”"

  const HeadacheRule := Rule(
    AnyOf("symptoms_list", [Headache, "Dificultad de enfoque / fatiga visual"]),
    [BinocularSuite, Tbuts],
    "Alta asociación de DES y anomalías acomodativas/vergenciales en usuarios de pantallas; evaluar BV y superficie antes de prescribir.")

  const DrynessRule := Rule(
    AnyOf("symptoms_list", [Dryness, "Ojos rojos / irritación"]),
    [Tbuts, StainingCfs, SchirmerIfAqueous, Meibography, DelayFinalRxIfUnstable],
    "TFOS DEWS II: secuencia diagnóstica y priorizar estabilizar película antes de la RX fina.")

  const PhotopsiaRule := Rule(
    AnyOf("symptoms_list", [Photopsia]),
    [UrgentReferral],
    "PVD sintomático: riesgo de desgarro; precisa dilatación y/o IO.")

  const NightGlareRule := Rule(
    All([AnyOf("night_drive", ["Sí, habitualmente", "A veces"]), AnyOf("night_glare", ["Mucho", "A veces"])]),
    [ContrastSensitivity, GlareTest, LensArCounsel, CataractCheckIfAge],
    "La sensibilidad al contraste predice mejor el rendimiento nocturno que la AV alto contraste.")

  const ProgressiveRule := Rule(
    All([EqualsTo("uses_glasses", "Sí"), EqualsTo("progressives", "Sí"),
         AnyOf("progressive_adapt", ["Regular", "Mala"])]),
    [VerifyPdHeights, CheckPantoscopicTilt, CheckVertexDistance, CheckFrameWrap, BinocularSuite],
    "Errores de medida (DP/alturas/angulo/VD/wrap) degradan la performance; problemas de vergencia dificultan adaptación.")

  const ContactsRule := Rule(
    All([EqualsTo("uses_contacts", "Sí"), AnyOf("contacts_comfort", ["Regular", "Mala"])]),
    [Tbuts, StainingCfs, Meibography, BlinkRateCheck],
    "LC se asocia a cambios meibomianos y DED; evaluar y tratar superficie para mejorar tolerancia.")

  const KeratoconusRule := Rule(
    AnyOf("ocular_dx", ["Queratocono"]),
    [Topography, TomographyIfAvailable],
    "La combinación topografía/tomografía mejora detección de KC subclínico.")

  const GlaucomaRule := Rule(
    AnyOf("ocular_dx", ["Glaucoma"]),
    [Tonometry, Pachymetry, OctRnfl, Vf242],
    "CCT modula lectura de PIO y riesgo; RNFL en OCT es clave para diagnóstico/seguimiento.")

  const FamilyGlaucomaRule := Rule(
    AnyOf("family_dx", ["Glaucoma"]),
    [Tonometry, Pachymetry, OctRnflBase, Vf242IfIndicated],
    "Antecedente familiar eleva riesgo; incorporar CCT y línea base estructural/funcional.")

  const FamilyAmdRule := Rule(
    AnyOf("family_dx", ["Degeneración macular (DMAE)"]),
    [RetinographyMacula, OctMaculaIfSymptoms],
    "Imagen macular de base y OCT si hay metamorfopsias/drusas.")

  const DiabetesRule := Rule(
    AnyOf("systemic", ["Diabetes"]),
    [Retinography, OctMaculaIfCentralSymptoms, DelayFinalRxIfRecentHyperglycemia],
    "Cribado de RD en AP es viable; hiperglucemia fluctúa la refracción.")

  const ScreensRule := Rule(
    AnyOf("screens", ["> 8 h", "4–8 h"]),
    [Tbuts, BinocularSuite, ErgonomicsCounsel],
    "DES + anomalías acomodativas/vergenciales frecuentes con uso intensivo de pantallas.")

  const CorticosteroidRule := Rule(
    All([IncludesValue("medications_groups", "Corticoesteroides (cualquier vía, incluidos colirios esteroides)")]),
    [Tonometry, SlitLampLensCheck],
    "Corticoides elevan PIO y favorecen catarata subcapsular; medir PIO y revisar cristalino.")

  const HydroxychloroquineRule := Rule(
    All([IncludesValue("medications_groups", "Antimaláricos/inmunomoduladores (hidroxicloroquina/cloroquina)"),
         AnyOf("medications_hcq_duracion", ["> 5 años"])]),
    [OctMaculaIfSymptoms, Vf102, RetinographyMacula],
    "Cribado anual por riesgo de retinopatía por hidroxicloroquina tras 5 años.")

  const NightDriveRule := Rule(
    AnyOf("night_drive", ["Sí, habitualmente", "A veces"]),
    [ContrastSensitivity],
    "Métrica útil para aptitud nocturna y monitorizar beneficio tras intervención.")

  const ContactsInterestRule := Rule(
    All([AnyOf("reason_list", ["Interés en lentes de contacto"]), AnyOf("symptoms_list", [Dryness])]),
    [Tbuts, Meibography, StainingCfs, DelayFinalRxIfUnstable],
    "Optimiza superficie antes de adaptar LC para evitar fracaso por DED.")

  const NearBlurRule := Rule(
    All([AnyOf("reason_list", ["Renovación de gafas"]), AnyOf("symptoms_list", ["Visión borrosa de cerca"]),
         EqualsTo("progressives", "No")]),
    [BinocularSuite, NearWorkDistanceCheck],
    "Descartar insuficiencia acomodativa/vergencial y ajustar adición/distancia de trabajo.")

  /** `AUTO_RECOMMENDATION_RULES`, in catalog order. */
  const Rules: seq<Rule> := [
    HeadacheRule, DrynessRule, PhotopsiaRule, NightGlareRule, ProgressiveRule, ContactsRule,
    KeratoconusRule, GlaucomaRule, FamilyGlaucomaRule, FamilyAmdRule, DiabetesRule, ScreensRule,
    CorticosteroidRule, HydroxychloroquineRule, NightDriveRule, ContactsInterestRule, NearBlurRule
  ]

  /** A rule's signature: its condition and its action list. The test compares
      the `JSON.stringify` text of `{ if, then }`, which also depends on the
      order of object keys; the model compares the structures themselves.
      Equal structures written with the same key order serialise alike, so
      the structural check is at least as strict: a catalog that passes it
      passes the test, but two rules that differ only in key order would
      fail here and pass there. */
  function Signature(r: Rule): (Condition, seq<Key>) {
    (r.cond, r.actionKeys)
  }

  /** The catalog test's loop, over structural signatures: every rule's
      signature must not have been seen before, and is then added to the seen
      set. */
  function SignatureCheck(rules: seq<Rule>, seen: set<(Condition, seq<Key>)>): bool
  {
    if rules == [] then true
    else Signature(rules[0]) !in seen && SignatureCheck(rules[1..], seen + {Signature(rules[0])})
  }

  /** The test passes exactly when no signature was seen beforehand and no
      two rules share a signature. */
  lemma {:induction false} SignatureCheckMeansUnique(rules: seq<Rule>, seen: set<(Condition, seq<Key>)>)
    ensures SignatureCheck(rules, seen) <==>
              (forall i :: 0 <= i < |rules| ==> Signature(rules[i]) !in seen) &&
              (forall i, j :: 0 <= i < j < |rules| ==> Signature(rules[i]) != Signature(rules[j]))
  {
    if rules != [] {
      SignatureCheckMeansUnique(rules[1..], seen + {Signature(rules[0])});
      if SignatureCheck(rules, seen) {
        forall i, j | 0 <= i < j < |rules|
          ensures Signature(rules[i]) != Signature(rules[j])
        {
          if i > 0 {
            assert rules[1..][i - 1] == rules[i] && rules[1..][j - 1] == rules[j];
          } else {
            assert rules[1..][j - 1] == rules[j];
          }
        }
      }
      if (forall i :: 0 <= i < |rules| ==> Signature(rules[i]) !in seen) &&
         (forall i, j :: 0 <= i < j < |rules| ==> Signature(rules[i]) != Signature(rules[j])) {
        forall i | 0 <= i < |rules[1..]|
          ensures Signature(rules[1..][i]) !in seen + {Signature(rules[0])}
        {
          assert rules[1..][i] == rules[i + 1];
        }
        forall i, j | 0 <= i < j < |rules[1..]|
          ensures Signature(rules[1..][i]) != Signature(rules[1..][j])
        {
          assert rules[1..][i] == rules[i + 1] && rules[1..][j] == rules[j + 1];
        }
      }
    }
  }

  /** No two catalog rules share a signature, so the catalog passes its
      uniqueness test. */
  lemma CatalogPassesSignatureCheck()
    ensures SignatureCheck(Rules, {})
  {
    assert forall i, j :: 0 <= i < j < |Rules| ==> Signature(Rules[i]) != Signature(Rules[j]);
    SignatureCheckMeansUnique(Rules, {});
  }

  /** What every catalog rule satisfies: a non-empty, duplicate-free action
      list whose keys all have metadata, and a condition that is a positive
      leaf or a non-empty `all` of positive leaves (nesting depth at most two,
      no `any` node). */
  predicate WellFormedRule(r: Rule) {
    && |r.actionKeys| > 0
    && Distinct(r.actionKeys)
    && (forall i :: 0 <= i < |r.actionKeys| ==> !r.actionKeys[i].Unlisted?)
    && LeafOrAllOfLeaves(r.cond)
  }

  lemma HeadacheRuleIsWellFormed() ensures WellFormedRule(HeadacheRule) { }
  lemma DrynessRuleIsWellFormed() ensures WellFormedRule(DrynessRule) { }
  lemma PhotopsiaRuleIsWellFormed() ensures WellFormedRule(PhotopsiaRule) { }
  lemma NightGlareRuleIsWellFormed() ensures WellFormedRule(NightGlareRule) { }
  lemma ProgressiveRuleIsWellFormed() ensures WellFormedRule(ProgressiveRule) { }
  lemma ContactsRuleIsWellFormed() ensures WellFormedRule(ContactsRule) { }
  lemma KeratoconusRuleIsWellFormed() ensures WellFormedRule(KeratoconusRule) { }
  lemma GlaucomaRuleIsWellFormed() ensures WellFormedRule(GlaucomaRule) { }
  lemma FamilyGlaucomaRuleIsWellFormed() ensures WellFormedRule(FamilyGlaucomaRule) { }
  lemma FamilyAmdRuleIsWellFormed() ensures WellFormedRule(FamilyAmdRule) { }
  lemma DiabetesRuleIsWellFormed() ensures WellFormedRule(DiabetesRule) { }
  lemma ScreensRuleIsWellFormed() ensures WellFormedRule(ScreensRule) { }
  lemma CorticosteroidRuleIsWellFormed() ensures WellFormedRule(CorticosteroidRule) { }
  lemma HydroxychloroquineRuleIsWellFormed() ensures WellFormedRule(HydroxychloroquineRule) { }
  lemma NightDriveRuleIsWellFormed() ensures WellFormedRule(NightDriveRule) { }
  lemma ContactsInterestRuleIsWellFormed() ensures WellFormedRule(ContactsInterestRule) { }
  lemma NearBlurRuleIsWellFormed() ensures WellFormedRule(NearBlurRule) { }

  /** Every catalog rule is well formed. */
  lemma CatalogWellFormed()
    ensures forall i :: 0 <= i < |Rules| ==> WellFormedRule(Rules[i])
  {
    HeadacheRuleIsWellFormed();
    DrynessRuleIsWellFormed();
    PhotopsiaRuleIsWellFormed();
    NightGlareRuleIsWellFormed();
    ProgressiveRuleIsWellFormed();
    ContactsRuleIsWellFormed();
    KeratoconusRuleIsWellFormed();
    GlaucomaRuleIsWellFormed();
    FamilyGlaucomaRuleIsWellFormed();
    FamilyAmdRuleIsWellFormed();
    DiabetesRuleIsWellFormed();
    ScreensRuleIsWellFormed();
    CorticosteroidRuleIsWellFormed();
    HydroxychloroquineRuleIsWellFormed();
    NightDriveRuleIsWellFormed();
    ContactsInterestRuleIsWellFormed();
    NearBlurRuleIsWellFormed();
  }

  /** A catalog whose conditions are all positive leaves or `all`s of them
      triggers nothing on the empty record, so it yields no action. */
  lemma QuietOnEmptyRecord(catalog: seq<Rule>, resolve: Key -> Meta, labelLe: (string, string) -> bool)
    requires forall i :: 0 <= i < |catalog| ==> LeafOrAllOfLeaves(catalog[i].cond)
    ensures BuildAutoRecommendations(catalog, map[], resolve, labelLe).triggeredRules == []
    ensures BuildAutoRecommendations(catalog, map[], resolve, labelLe).actions == []
  {
    var out := BuildAutoRecommendations(catalog, map[], resolve, labelLe);
    forall r | r in catalog
      ensures !Eval(r.cond, map[])
    {
      var i :| 0 <= i < |catalog| && catalog[i] == r;
      ShallowPositiveFailsOnEmpty(r.cond);
    }
    assert forall r :: r !in out.triggeredRules;
    assert multiset(out.actions) == multiset([]);
  }

  /** The catalog's empty record `{}` triggers no rule and yields no action. */
  lemma EmptyRecordTriggersNothing(resolve: Key -> Meta, labelLe: (string, string) -> bool)
    ensures BuildAutoRecommendations(Rules, map[], resolve, labelLe).triggeredRules == []
    ensures BuildAutoRecommendations(Rules, map[], resolve, labelLe).actions == []
  {
    CatalogWellFormed();
    QuietOnEmptyRecord(Rules, resolve, labelLe);
  }

  /** Only the photopsia rule lists `urgent_referral`. */
  lemma OnlyPhotopsiaRuleRefers()
    ensures forall i :: 0 <= i < |Rules| && UrgentReferral in Rules[i].actionKeys ==> Rules[i] == PhotopsiaRule
  {
  }

  /** The photopsia rule fires exactly when the symptom list holds the
      catalog's photopsia option (an array containing it, or that very
      string). */
  lemma PhotopsiaRuleFires(d: Record)
    ensures Eval(PhotopsiaRule.cond, d) <==> Holds(Get(d, "symptoms_list"), Photopsia)
  {
  }

  /** `urgent_referral` is recommended exactly when the symptom list holds
      the photopsia option. */
  lemma UrgentReferralIffPhotopsia(d: Record, resolve: Key -> Meta, labelLe: (string, string) -> bool)
    ensures UrgentReferral in ActionKeys(BuildAutoRecommendations(Rules, d, resolve, labelLe).actions) <==>
              Holds(Get(d, "symptoms_list"), Photopsia)
  {
    OnlyPhotopsiaRuleRefers();
    assert Rules[2] == PhotopsiaRule;
    SoleListerDecides(Rules, d, resolve, labelLe, UrgentReferral, 2);
    PhotopsiaRuleFires(d);
  }

  /** The answers of the dry-eye-plus-headache scenario: the test suite's
      base record with the symptom list holding both options. */
  const DrynessAndHeadache: Record := map[
    "reason_list" := Arr([]),
    "symptoms_list" := Arr([Dryness, Headache]),
    "last_exam" := Str(""),
    "uses_glasses" := Str("No"),
    "progressives" := Str("No"),
    "progressive_adapt" := Str("Buena"),
    "uses_contacts" := Str("No"),
    "contacts_comfort" := Str("Buena"),
    "ocular_dx" := Arr([]),
    "family_dx" := Arr([]),
    "systemic" := Arr([]),
    "medications_groups" := Arr([]),
    "medications_hcq_duracion" := Str("0-5 años"),
    "night_drive" := Str("No"),
    "night_glare" := Str("Nada"),
    "screens" := Str("<4 h")]

  /** Each of the other fifteen rules stays quiet on the record. */
  lemma PhotopsiaRuleQuiet() ensures !Fires(DrynessAndHeadache)(PhotopsiaRule) { }
  lemma NightGlareRuleQuiet() ensures !Fires(DrynessAndHeadache)(NightGlareRule) { }
  lemma ProgressiveRuleQuiet() ensures !Fires(DrynessAndHeadache)(ProgressiveRule) { }
  lemma ContactsRuleQuiet() ensures !Fires(DrynessAndHeadache)(ContactsRule) { }
  lemma KeratoconusRuleQuiet() ensures !Fires(DrynessAndHeadache)(KeratoconusRule) { }
  lemma GlaucomaRuleQuiet() ensures !Fires(DrynessAndHeadache)(GlaucomaRule) { }
  lemma FamilyGlaucomaRuleQuiet() ensures !Fires(DrynessAndHeadache)(FamilyGlaucomaRule) { }
  lemma FamilyAmdRuleQuiet() ensures !Fires(DrynessAndHeadache)(FamilyAmdRule) { }
  lemma DiabetesRuleQuiet() ensures !Fires(DrynessAndHeadache)(DiabetesRule) { }
  lemma ScreensRuleQuiet() ensures !Fires(DrynessAndHeadache)(ScreensRule) { }
  lemma CorticosteroidRuleQuiet() ensures !Fires(DrynessAndHeadache)(CorticosteroidRule) { }
  lemma HydroxychloroquineRuleQuiet() ensures !Fires(DrynessAndHeadache)(HydroxychloroquineRule) { }
  lemma NightDriveRuleQuiet() ensures !Fires(DrynessAndHeadache)(NightDriveRule) { }
  lemma ContactsInterestRuleQuiet() ensures !Fires(DrynessAndHeadache)(ContactsInterestRule) {
    assert !Eval(ContactsInterestRule.cond.all[0], DrynessAndHeadache);
  }
  lemma NearBlurRuleQuiet() ensures !Fires(DrynessAndHeadache)(NearBlurRule) {
    assert !Eval(NearBlurRule.cond.all[0], DrynessAndHeadache);
  }

  /** The first group of five stays quiet on the record (proof-splitting step). */
  lemma EarlyRulesQuiet()
    ensures Quiet(EarlyRules, DrynessAndHeadache)
  {
    PhotopsiaRuleQuiet();
    NightGlareRuleQuiet();
    ProgressiveRuleQuiet();
    ContactsRuleQuiet();
    KeratoconusRuleQuiet();
    NoneOfFive(Fires(DrynessAndHeadache), PhotopsiaRule, NightGlareRule, ProgressiveRule, ContactsRule, KeratoconusRule);
  }

  /** The second group of five stays quiet on the record (proof-splitting step). */
  lemma MiddleRulesQuiet()
    ensures Quiet(MiddleRules, DrynessAndHeadache)
  {
    GlaucomaRuleQuiet();
    FamilyGlaucomaRuleQuiet();
    FamilyAmdRuleQuiet();
    DiabetesRuleQuiet();
    ScreensRuleQuiet();
    NoneOfFive(Fires(DrynessAndHeadache), GlaucomaRule, FamilyGlaucomaRule, FamilyAmdRule, DiabetesRule, ScreensRule);
  }

  /** The third group of five stays quiet on the record (proof-splitting step). */
  lemma LateRulesQuiet()
    ensures Quiet(LateRules, DrynessAndHeadache)
  {
    CorticosteroidRuleQuiet();
    HydroxychloroquineRuleQuiet();
    NightDriveRuleQuiet();
    ContactsInterestRuleQuiet();
    NearBlurRuleQuiet();
    NoneOfFive(Fires(DrynessAndHeadache), CorticosteroidRule, HydroxychloroquineRule, NightDriveRule, ContactsInterestRule, NearBlurRule);
  }

  /** The rules after the first two, in three groups of five. The grouping
      carries no meaning: it only splits the proof that these rules stay quiet
      into parts the solver handles separately. */
  const EarlyRules := [PhotopsiaRule, NightGlareRule, ProgressiveRule, ContactsRule, KeratoconusRule]
  const MiddleRules := [GlaucomaRule, FamilyGlaucomaRule, FamilyAmdRule, DiabetesRule, ScreensRule]
  const LateRules := [CorticosteroidRule, HydroxychloroquineRule, NightDriveRule, ContactsInterestRule, NearBlurRule]

  /** The catalog is the first pair followed by the three groups (proof-splitting step). */
  lemma RulesSplit()
    ensures Rules == [HeadacheRule, DrynessRule] + (EarlyRules + MiddleRules + LateRules)
  {
  }

  /** Both rules of the first pair fire on the record. */
  lemma FirstPairFires()
    ensures Fires(DrynessAndHeadache)(HeadacheRule) && Fires(DrynessAndHeadache)(DrynessRule)
  {
    assert Holds(Get(DrynessAndHeadache, "symptoms_list"), Headache);
    assert Holds(Get(DrynessAndHeadache, "symptoms_list"), Dryness);
  }

  /** None of the fifteen rules after the first pair fires on the record. */
  lemma RestQuiet()
    ensures Quiet(EarlyRules + MiddleRules + LateRules, DrynessAndHeadache)
  {
    var rest := EarlyRules + MiddleRules + LateRules;
    EarlyRulesQuiet();
    MiddleRulesQuiet();
    LateRulesQuiet();
    forall i | 0 <= i < |rest|
      ensures !Eval(rest[i].cond, DrynessAndHeadache)
    {
      if i < 5 {
        assert rest[i] == EarlyRules[i];
      } else if i < 10 {
        assert rest[i] == MiddleRules[i - 5];
      } else {
        assert rest[i] == LateRules[i - 10];
      }
    }
  }

  /** On the dry-eye-plus-headache record exactly the headache and the dry-eye
      rules fire, in that order. */
  lemma TriggeredOnDrynessAndHeadache()
    ensures TriggeredRules(Rules, DrynessAndHeadache) == [HeadacheRule, DrynessRule]
  {
    RulesSplit();
    RestQuiet();
    FirstPairFires();
    TriggeredPrefix(Rules, DrynessAndHeadache, [HeadacheRule, DrynessRule], EarlyRules + MiddleRules + LateRules);
  }

  /** The headache and the dry-eye rules give different rationales. */
  lemma HeadacheAndDrynessWhysDiffer()
    ensures HeadacheRule.why != DrynessRule.why
  {
    assert |HeadacheRule.why| != |DrynessRule.why|;
  }

  /** Any catalog in which exactly the headache and the dry-eye rules fire
      recommends the tear-film test once, for both reasons: the headache
      rule's, then the dry-eye rule's. */
  lemma TearFilmTestReasons(catalog: seq<Rule>, d: Record, resolve: Key -> Meta, labelLe: (string, string) -> bool)
    requires TriggeredRules(catalog, d) == [HeadacheRule, DrynessRule]
    ensures var out := BuildAutoRecommendations(catalog, d, resolve, labelLe);
      && Tbuts in ActionKeys(out.actions)
      && forall a :: a in out.actions && a.key == Tbuts ==> a.reasons == [HeadacheRule.why, DrynessRule.why]
  {
    HeadacheRuleIsWellFormed();
    DrynessRuleIsWellFormed();
    HeadacheAndDrynessWhysDiffer();
    SharedKeyReasons(catalog, d, resolve, labelLe, HeadacheRule, DrynessRule, Tbuts);
  }

  /** On the dry-eye-plus-headache record the tear-film test is recommended
      once, for both reasons. */
  lemma TearFilmTestHasBothReasons(resolve: Key -> Meta, labelLe: (string, string) -> bool)
    ensures var out := BuildAutoRecommendations(Rules, DrynessAndHeadache, resolve, labelLe);
      && Tbuts in ActionKeys(out.actions)
      && forall a :: a in out.actions && a.key == Tbuts ==> a.reasons == [HeadacheRule.why, DrynessRule.why]
  {
    TriggeredOnDrynessAndHeadache();
    TearFilmTestReasons(Rules, DrynessAndHeadache, resolve, labelLe);
  }
}
