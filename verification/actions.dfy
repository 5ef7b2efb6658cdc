/** The action metadata table and the severity ranking of
    src/lib/recommendations.ts. */
module Actions {
  import opened Wrappers
  import opened Labels

  /** An action identifier. Each identifier of the metadata table has its own
      constructor; `Unlisted(name)` is any other identifier, written `name` in
      a rule. */
  datatype ActionKey =
    | BinocularSuite | Tbuts | StainingCfs | SchirmerIfAqueous | Meibography
    | DelayFinalRxIfUnstable | UrgentReferral | ContrastSensitivity | GlareTest | LensArCounsel
    | CataractCheckIfAge | VerifyPdHeights | CheckPantoscopicTilt | CheckVertexDistance
    | CheckFrameWrap | BlinkRateCheck | Topography | TomographyIfAvailable | Tonometry | Pachymetry
    | OctRnfl | Vf242 | OctRnflBase | Vf242IfIndicated | RetinographyMacula | OctMaculaIfSymptoms
    | Retinography | OctMaculaIfCentralSymptoms | DelayFinalRxIfRecentHyperglycemia
    | ErgonomicsCounsel | Vf102 | NearWorkDistanceCheck | SlitLampLensCheck
    | Unlisted(name: string)

  /** The identifier as it is written in the source. */
  function KeyName(k: ActionKey): string
  {
    match k
    case BinocularSuite => "binocular_suite"
    case Tbuts => "tbuts"
    case StainingCfs => "staining_cfs"
    case SchirmerIfAqueous => "schirmer_if_aqueous"
    case Meibography => "meibography"
    case DelayFinalRxIfUnstable => "delay_final_rx_if_unstable"
    case UrgentReferral => "urgent_referral"
    case ContrastSensitivity => "contrast_sensitivity"
    case GlareTest => "glare_test"
    case LensArCounsel => "lens_AR_counsel"
    case CataractCheckIfAge => "cataract_check_if_age"
    case VerifyPdHeights => "verify_pd_heights"
    case CheckPantoscopicTilt => "check_pantoscopic_tilt"
    case CheckVertexDistance => "check_vertex_distance"
    case CheckFrameWrap => "check_frame_wrap"
    case BlinkRateCheck => "blink_rate_check"
    case Topography => "topography"
    case TomographyIfAvailable => "tomography_if_available"
    case Tonometry => "tonometry"
    case Pachymetry => "pachymetry"
    case OctRnfl => "oct_rnfl"
    case Vf242 => "vf_24_2"
    case OctRnflBase => "oct_rnfl_base"
    case Vf242IfIndicated => "vf_24_2_if_indicated"
    case RetinographyMacula => "retinography_macula"
    case OctMaculaIfSymptoms => "oct_macula_if_symptoms"
    case Retinography => "retinography"
    case OctMaculaIfCentralSymptoms => "oct_macula_if_central_symptoms"
    case DelayFinalRxIfRecentHyperglycemia => "delay_final_rx_if_recent_hyperglycemia"
    case ErgonomicsCounsel => "ergonomics_counsel"
    case Vf102 => "vf_10_2"
    case NearWorkDistanceCheck => "near_work_distance_check"
    case SlitLampLensCheck => "slit_lamp_lens_check"
    case Unlisted(name) => name
  }

  /** The identifiers of the metadata table. */
  const ListedNames: set<string> := {
    "binocular_suite",
    "tbuts",
    "staining_cfs",
    "schirmer_if_aqueous",
    "meibography",
    "delay_final_rx_if_unstable",
    "urgent_referral",
    "contrast_sensitivity",
    "glare_test",
    "lens_AR_counsel",
    "cataract_check_if_age",
    "verify_pd_heights",
    "check_pantoscopic_tilt",
    "check_vertex_distance",
    "check_frame_wrap",
    "blink_rate_check",
    "topography",
    "tomography_if_available",
    "tonometry",
    "pachymetry",
    "oct_rnfl",
    "vf_24_2",
    "oct_rnfl_base",
    "vf_24_2_if_indicated",
    "retinography_macula",
    "oct_macula_if_symptoms",
    "retinography",
    "oct_macula_if_central_symptoms",
    "delay_final_rx_if_recent_hyperglycemia",
    "ergonomics_counsel",
    "vf_10_2",
    "near_work_distance_check",
    "slit_lamp_lens_check"
  }

  /** An action identifier in canonical form: an `Unlisted` name is never one
      of the table's identifiers, so two keys are equal exactly when the
      identifiers they stand for are. */
  type Key = k: ActionKey | k.Unlisted? ==> k.name !in ListedNames witness Tbuts

  datatype Severity = Info | Warning | Critical

  datatype ActionType = Diagnostic | Management | Counseling

  /** One metadata entry; `title` is the source's `label`. `severity` and
      `description` are optional, as in the source; no entry of the table sets
      a description. */
  datatype Meta = Meta(title: string, kind: ActionType, severity: Option<Severity>, description: Option<string>)

  /** `severityWeight`: more urgent sorts first. */
  function SeverityWeight(s: Severity): nat
  {
    match s
    case Critical => 0
    case Warning => 1
    case Info => 2
  }

  /** The ranking is strict: distinct severities have distinct weights,
      critical < warning < info. */
  lemma SeverityWeightRanks(a: Severity, b: Severity)
    ensures SeverityWeight(a) == SeverityWeight(b) <==> a == b
    ensures SeverityWeight(Critical) < SeverityWeight(Warning) < SeverityWeight(Info)
  {
  }

  /** The `label` column of `ACTION_METADATA`. */
  function Title(k: ActionKey): string
    requires !k.Unlisted?
  {
    match k
    case BinocularSuite => "Suite binocular completa (cover test, forias, NPC, AA, MAF/BAF, NRA/PRA)"
    case Tbuts => "Evaluación de película lagrimal (NIBUT/TBUT)"
    case StainingCfs => "Tinción corneal con fluoresceína/lisamina"
    case SchirmerIfAqueous => "Test de Schirmer si sospecha déficit acuoso"
    case Meibography => "Evaluación meibomiana / meibografía"
    case DelayFinalRxIfUnstable => "Posponer graduación final hasta estabilizar superficie"
    case UrgentReferral => "Derivación urgente para exploración con dilatación"
    case ContrastSensitivity => "Sensibilidad al contraste (p. ej., Pelli-Robson)"
    case GlareTest => "Prueba de deslumbramiento / halos nocturnos"
    case LensArCounsel => "Consejo sobre tratamientos AR / filtros para conducción nocturna"
    case CataractCheckIfAge => "Evaluar cristalino / catarata si procede"
    case VerifyPdHeights => "Verificar DP monocular y alturas de montaje"
    case CheckPantoscopicTilt => "Revisar ángulo pantoscópico"
    case CheckVertexDistance => "Comprobar distancia vértice"
    case CheckFrameWrap => "Comprobar envolvente (wrap) del armazón"
    case BlinkRateCheck => "Evaluar frecuencia y calidad de parpadeo"
    case Topography => "Topografía corneal"
    case TomographyIfAvailable => "Tomografía corneal (Scheimpflug/AS-OCT) si disponible"
    case Tonometry => "Tonometría"
    case Pachymetry => "Pachimetría (CCT)"
    case OctRnfl => "OCT RNFL / mácula para glaucoma"
    case Vf242 => "Campo visual 24-2"
    case OctRnflBase => "OCT RNFL de línea base"
    case Vf242IfIndicated => "Campo visual 24-2 (línea base si procede)"
    case RetinographyMacula => "Retinografía macular"
    case OctMaculaIfSymptoms => "OCT mácula si hay síntomas o hallazgos"
    case Retinography => "Retinografía de cribado"
    case OctMaculaIfCentralSymptoms => "OCT mácula si hay síntomas centrales"
    case DelayFinalRxIfRecentHyperglycemia => "Posponer Rx final hasta estabilizar glucemia"
    case ErgonomicsCounsel => "Consejo sobre ergonomía y micropausas"
    case Vf102 => "Campo visual 10-2"
    case NearWorkDistanceCheck => "Medir distancia real de trabajo cercano"
    case SlitLampLensCheck => "Revisión de cristalino en lámpara de hendidura"
  }

  /** The `type` column of `ACTION_METADATA`. */
  function Kind(k: ActionKey): ActionType
  {
    match k
    case DelayFinalRxIfUnstable
      | UrgentReferral
      | VerifyPdHeights
      | CheckPantoscopicTilt
      | CheckVertexDistance
      | CheckFrameWrap
      | DelayFinalRxIfRecentHyperglycemia
      | NearWorkDistanceCheck
      => Management
    case LensArCounsel
      | BlinkRateCheck
      | ErgonomicsCounsel
      => Counseling
    case _ => Diagnostic
  }

  /** The `severity` column of `ACTION_METADATA`; most entries leave it unset. */
  function TableSeverity(k: ActionKey): Option<Severity>
  {
    match k
    case DelayFinalRxIfUnstable | DelayFinalRxIfRecentHyperglycemia => Some(Warning)
    case UrgentReferral => Some(Critical)
    case _ => None
  }

  /** `ACTION_METADATA[key]`: the table entry, `None` for an unlisted key. No
      entry sets a description. */
  function Metadata(k: ActionKey): Option<Meta>
  {
    if k.Unlisted? then None else Some(Meta(Title(k), Kind(k), TableSeverity(k), None))
  }

  /** The metadata an action key resolves to (`metadata || fallback`): its
      table entry, or else a synthesised diagnostic entry of severity info
      labelled from the identifier. */
  function Resolve(k: ActionKey, upper: char -> char): (m: Meta)
    ensures k.Unlisted? ==> m.kind == Diagnostic && m.severity == Some(Info) && m.description == None
    ensures k.Unlisted? ==> |m.title| == |k.name|
    ensures k.Unlisted? ==> forall i :: 0 <= i < |k.name| ==> m.title[i] == TitleChar(k.name, upper, i)
    ensures !k.Unlisted? ==> m.title == Title(k) && m.kind == Kind(k)
    ensures !k.Unlisted? ==> m.severity == TableSeverity(k) && m.description == None
  {
    match Metadata(k)
    case Some(m) => m
    case None => Meta(FormatLabelFromKey(KeyName(k), upper), Diagnostic, Some(Info), None)
  }

  /** In the table, only `urgent_referral` is critical and only the two
      postponement actions are warnings. */
  lemma TableSeverities(k: ActionKey)
    ensures TableSeverity(k) == Some(Critical) <==> k == UrgentReferral
    ensures TableSeverity(k) == Some(Warning) <==>
              k == DelayFinalRxIfUnstable || k == DelayFinalRxIfRecentHyperglycemia
  {
  }

  /** Only `urgent_referral` resolves to critical and only the two
      postponement actions to warning; everything else, synthesised entries
      included, is info once the missing severity defaults. */
  lemma SeverityOfKeys(k: ActionKey, upper: char -> char)
    ensures Resolve(k, upper).severity.GetOr(Info) == Critical <==> k == UrgentReferral
    ensures Resolve(k, upper).severity.GetOr(Info) == Warning <==>
              k == DelayFinalRxIfUnstable || k == DelayFinalRxIfRecentHyperglycemia
  {
    TableSeverities(k);
  }

  /** `ACTION_METADATA[actionKey] || fallback` as a resolver. */
  function MetadataOf(upper: char -> char): Key -> Meta
  {
    (k: Key) => Resolve(k, upper)
  }

  /** Under the application's resolver exactly one key is critical. */
  lemma OnlyUrgentReferralIsCritical(upper: char -> char)
    ensures forall k: Key :: MetadataOf(upper)(k).severity.GetOr(Info) == Critical <==> k == UrgentReferral
  {
    forall k: Key
      ensures MetadataOf(upper)(k).severity.GetOr(Info) == Critical <==> k == UrgentReferral
    {
      SeverityOfKeys(k, upper);
    }
  }
}
