/**
 * The exam record the table and the detail modal display, reduced to the
 * fields their helpers read, and the badge colours they choose from.
 */
module TypesTable {
  import opened Wrappers

  /** A nested reference such as an exam's status, level or subject area. */
  datatype Catalog = Catalog(id: int, nombre: string, descripcion: string)

  /** The examinee. */
  datatype Persona = Persona(id: int, nombreCompleto: string, email: Option<string>)

  datatype Examen = Examen(
    id: int,
    titulo: string,
    descripcion: string,
    duracionMinutos: Option<nat>,
    calificacion: string,
    porcentajeAciertos: real,
    persona: Option<Persona>,
    estado: Option<Catalog>,
    nivel: Option<Catalog>,
    areaEstudio: Option<Catalog>)

  /** Badge colours; the table's helpers use the first three. */
  datatype BadgeColor = Success | Warning | Error | Info

  /** The name of an optional nested reference (`ref?.nombre`). */
  function NameOf(ref: Option<Catalog>): Option<string> {
    if ref.Some? then Some(ref.value.nombre) else None
  }

  /** `value || fallback` for an optional string: absent or empty gives the fallback. */
  function OrFallback(value: Option<string>, fallback: string): (r: string)
    ensures value.Some? && value.value != "" ==> r == value.value
    ensures value.None? || value.value == "" ==> r == fallback
  {
    if value.Some? && value.value != "" then value.value else fallback
  }
}
