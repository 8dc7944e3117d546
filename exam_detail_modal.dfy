/**
 * The exam detail modal: the colour and the pass/fail label of the numeric
 * grade, its own copies of the status colour and duration helpers, and the
 * fallback labels for fields that are missing.
 *
 * The grade is a string that the modal reads with `parseFloat`; here that
 * reading is an input, `None` standing for NaN.
 */
module ExamDetailModal {
  import opened Wrappers
  import opened Text
  import opened TypesTable
  import ExamenesTable

  /** `formatDuration`, the modal's own copy. */
  function FormatDuration(minutes: Option<nat>): (r: string)
    ensures r == ExamenesTable.FormatDuration(minutes)
  {
    if minutes.None? || minutes.value == 0 then "N/A"
    else
      var hours := minutes.value / 60;
      var mins := minutes.value % 60;
      if hours > 0 then NatToDecimal(hours) + "h " + NatToDecimal(mins) + "m"
      else NatToDecimal(mins) + "m"
  }

  /** `getStatusColor`, the modal's own copy. */
  function StatusColor(estado: Option<string>): (r: BadgeColor)
    ensures r == ExamenesTable.StatusColor(estado)
  {
    if estado.None? || estado.value == "" then Error
    else
      var estadoLower := Lower(estado.value);
      if Contains(estadoLower, "completado") || Contains(estadoLower, "finalizado")
         || Contains(estadoLower, "aprobado") then Success
      else if Contains(estadoLower, "pendiente") || Contains(estadoLower, "en curso")
              || Contains(estadoLower, "progreso") then Warning
      else Error
  }

  /** `getGradeColor(calificacion)` on the parsed grade: unreadable is "info",
      then 9 and up success, 7 and up info, 5 and up warning, below error. */
  function GradeColor(grade: Option<real>): (r: BadgeColor)
    ensures grade.None? ==> r == Info
    ensures r == Success ==> grade.Some? && grade.value >= 9.0
  {
    if grade.None? then Info
    else if grade.value >= 9.0 then Success
    else if grade.value >= 7.0 then Info
    else if grade.value >= 5.0 then Warning
    else Error
  }

  /** The badge text: `parseFloat(calificacion) >= 7`, false for NaN. */
  function ResultLabel(grade: Option<real>): (r: string)
    ensures r == "Aprobado" || r == "Reprobado"
    ensures grade.None? ==> r == "Reprobado"
  {
    if grade.Some? && grade.value >= 7.0 then "Aprobado" else "Reprobado"
  }

  /** The label passes exactly the readable grades from 7 on. */
  lemma ResultLabelPasses(grade: Option<real>)
    ensures ResultLabel(grade) == "Aprobado" <==> grade.Some? && grade.value >= 7.0
    ensures ResultLabel(grade) == "Aprobado" || ResultLabel(grade) == "Reprobado"
  {
  }

  /** Colour and label agree: a success badge always says "Aprobado", a warning
      or error badge "Reprobado"; "info" covers both an unreadable grade
      (Reprobado) and the band from 7 to 9 (Aprobado). */
  lemma ColorAgreesWithLabel(grade: Option<real>)
    ensures GradeColor(grade) == Success ==> ResultLabel(grade) == "Aprobado"
    ensures GradeColor(grade) in {Warning, Error} ==> ResultLabel(grade) == "Reprobado"
    ensures GradeColor(grade) == Info ==>
              (grade.None? && ResultLabel(grade) == "Reprobado")
              || (grade.Some? && 7.0 <= grade.value < 9.0 && ResultLabel(grade) == "Aprobado")
  {
  }

  /** Among readable grades, a higher grade never gets a lower tier
      (error, warning, info, success in that order). */
  lemma GradeColorMonotone(a: real, b: real)
    requires a <= b
    ensures Tier(GradeColor(Some(a))) <= Tier(GradeColor(Some(b)))
  {
  }

  function Tier(color: BadgeColor): nat {
    match color
    case Error => 0
    case Warning => 1
    case Info => 2
    case Success => 3
  }

  /** The four bands of a readable grade, over every grade. */
  lemma GradeColorThresholds(g: real)
    ensures g >= 9.0 ==> GradeColor(Some(g)) == Success
    ensures 7.0 <= g < 9.0 ==> GradeColor(Some(g)) == Info
    ensures 5.0 <= g < 7.0 ==> GradeColor(Some(g)) == Warning
    ensures g < 5.0 ==> GradeColor(Some(g)) == Error
  {
  }

  // ---------------------------------------------------------------------------
  // Fallback labels

  function EstadoLabel(examen: Examen): (r: string)
    ensures r != ""
  {
    OrFallback(NameOf(examen.estado), "Sin estado")
  }

  function AreaLabel(examen: Examen): (r: string)
    ensures r != ""
  {
    OrFallback(NameOf(examen.areaEstudio), "Sin área")
  }

  function NivelLabel(examen: Examen): (r: string)
    ensures r != ""
  {
    OrFallback(NameOf(examen.nivel), "Sin nivel")
  }

  function EmailLabel(persona: Persona): (r: string)
    ensures r != ""
  {
    OrFallback(persona.email, "Sin email registrado")
  }

  /** A missing nested reference or an empty name shows the fixed label,
      otherwise the name itself; no label is ever blank. */
  lemma LabelsFallBack(examen: Examen)
    ensures EstadoLabel(examen) == (if examen.estado.None? || examen.estado.value.nombre == "" then "Sin estado" else examen.estado.value.nombre)
    ensures AreaLabel(examen) == (if examen.areaEstudio.None? || examen.areaEstudio.value.nombre == "" then "Sin área" else examen.areaEstudio.value.nombre)
    ensures NivelLabel(examen) == (if examen.nivel.None? || examen.nivel.value.nombre == "" then "Sin nivel" else examen.nivel.value.nombre)
    ensures EstadoLabel(examen) != "" && AreaLabel(examen) != "" && NivelLabel(examen) != ""
  {
  }

  /** A missing or empty email shows the fixed label, otherwise the address. */
  lemma EmailFallsBack(persona: Persona)
    ensures EmailLabel(persona) == (if persona.email.None? || persona.email.value == "" then "Sin email registrado" else persona.email.value)
    ensures EmailLabel(persona) != ""
  {
  }

  /** A missing or empty status is shown as "Sin estado" with the error colour. */
  lemma MissingStatusIsError(examen: Examen)
    requires examen.estado.None? || examen.estado.value.nombre == ""
    ensures EstadoLabel(examen) == "Sin estado"
    ensures StatusColor(NameOf(examen.estado)) == Error
  {
  }
}
