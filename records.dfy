/** The records the gym's fee pipeline reads and produces.

    The three input datasets (members, activities, usage records) are ordered
    sequences of these values; the two reports are sequences of the derived
    row types. Codes are compared as text, as the queries compare untyped
    element and attribute content. */
module GymRecords {

  /** One `fila_socios` element: COD, NOMBRE, CUOTA_FIJA. */
  datatype Member = Member(code: string, name: string, fixedFee: int)

  /** One `fila_actividades` element: the `cod` and `tipo` attributes and NOMBRE.
      `kind` is the activity type: 2 and 3 carry an hourly surcharge. */
  datatype Activity = Activity(code: string, name: string, kind: int)

  /** One `fila_uso` element: CODSOCIO, CODACTIV, HORAINICIO, HORAFINAL. */
  datatype Usage = Usage(memberCode: string, activityCode: string, startHour: int, endHour: int)

  /** One `datos` row of the enriched-usage report (`intermedio.xml`).
      A member or activity code may match several records or none, so the
      resolved names and types are the sequences of all matches. */
  datatype EnrichedRow = EnrichedRow(
    memberCode: string,
    memberNames: seq<string>,
    activityCode: string,
    activityNames: seq<string>,
    hours: int,
    activityKinds: seq<int>,
    additionalFee: int)

  /** One `datos` row of the total-fee report (`cuota_total.xml`). */
  datatype TotalRow = TotalRow(code: string, name: string, fixedFee: int, additionalSum: int, total: int)

  /** No two members share a code. Nothing in the pipeline checks this. */
  predicate UniqueMemberCodes(members: seq<Member>) {
    forall i, j :: 0 <= i < j < |members| ==> members[i].code != members[j].code
  }

  /** No two activities share a code. Nothing in the pipeline checks this. */
  predicate UniqueActivityCodes(activities: seq<Activity>) {
    forall i, j :: 0 <= i < j < |activities| ==> activities[i].code != activities[j].code
  }

  /** How many members carry the code `code`. */
  function CodeCount(members: seq<Member>, code: string): (n: nat)
    ensures n <= |members|
    ensures n == 0 <==> forall m :: m in members ==> m.code != code
  {
    if members == [] then 0
    else (if members[0].code == code then 1 else 0) + CodeCount(members[1..], code)
  }
}
