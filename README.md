# Gym fee computation

A Dafny model of the fee computation of `GimnasioDB`, a small program that
keeps a gym's members, activities and per-session usage records in an XML
database and computes what each member owes. The computation is written as
two XQuery FLWOR queries:

- `cuotaSocio` builds the enriched-usage report (`intermedio.xml`). It has one
  row per usage record, in usage order. Each row resolves the member by code
  and the activity by code, and computes `horas = HORAFINAL - HORAINICIO`. Its
  additional fee is `horas * 2` for an activity of type 2, `horas * 4` for type 3
  and 0 otherwise.
- `cuotaTotal` reads that stored report and builds the total-fee report
  (`cuota_total.xml`). It has one row per member, in member order. The row's
  `suma_cuota_adic` is the sum of the additional fees of the rows that carry
  the member's code, and its `cuota_total` is `CUOTA_FIJA` plus that sum.

The model is pure: datatypes for the records, and functions over `seq` for the
two queries. Its modules:

- `GymRecords` (`records.dfy`): `Member`, `Activity`, `Usage`, `EnrichedRow`,
  `TotalRow`, the "codes are unique" predicates, and the count of members
  carrying a code.
- `FeeRule` (`fee_rule.dfy`): the additional-fee rule and an hourly-rate table
  that serves as its reference.
- `UsageJoin` (`usage_join.dfy`): code resolution and the enriched-usage report.
- `FeeTotals` (`fee_totals.dfy`): the per-member sums, the total-fee report,
  and conservation of fees.
- `FeePipeline` (`pipeline.dfy`): the two stages composed. It also gives a
  reference definition of a member's sum computed straight from the usage
  records, and proves what happens to unmatched and duplicated member codes.

Code resolution follows XQuery's general comparison exactly. It does not take
the first match:

- `fila_socios[COD = $uso/CODSOCIO]/NOMBRE` is the names of ALL members with
  that code, in document order. So `EnrichedRow.memberNames` is a sequence.
- `$actividad` is ALL activities with that code, and `$tipo_actividad` is the
  sequence of their types. `$tipo_actividad = 2` holds when ANY of those types
  is 2. So when several activities share a code, a type 2 among them wins,
  otherwise a type 3 wins, otherwise the fee is 0. An activity code that matches
  nothing gives an empty type and a fee of 0.
- Codes are compared as text.

With unique codes, each code resolves to one record (`UniqueMemberResolves`,
`UniqueActivityResolves`). Nothing in the program checks that codes are unique.

The queries raise no error for an unknown member or activity code, for
duplicate codes or for negative hours, and the model raises none either:

- An activity code that matches nothing yields fee 0.
- A negative duration passes through as a negative fee
  (`NegativeDurationPassesThrough`).
- A usage record whose member code no member carries is computed and then
  dropped from every total (`UnknownMemberUsageIsDropped`).
- A member code that two members share credits the usage to both
  (`DuplicateMemberCodeCountsTwice`).
- Conservation of fees is therefore guaranteed when member codes are unique and
  every usage record's code resolves (`Conservation`,
  `PipelineConservation`). The general statement is `SumsAreCreditedFees`:
  each row's fee is credited once per member carrying its code, so
  conservation also holds whenever the unresolved or doubly credited rows have
  fee 0.

## Model

| member | source | states |
|---|---|---|
| `FeeRule.HourlyRate` | src/main/java/eu/andreatt/GimnasioDB.java:160 | the hourly surcharge is 0, 2 or 4; it is 2 exactly when some matched type is 2, and 0 exactly when no matched type is 2 or 3 |
| `FeeRule.AdditionalFee` | src/main/java/eu/andreatt/GimnasioDB.java:160 | for non-negative hours the fee lies between 0 and 4 per hour (mirrored for negative hours), and it is 0 whenever no matched type is 2 or 3, including when nothing matched |
| `FeeRule.FeeIsRateTimesHours` | src/main/java/eu/andreatt/GimnasioDB.java:158-160 | the fee equals the hourly rate of the matched types times the hours |
| `FeeRule.FeeOfSingleActivity` | src/main/java/eu/andreatt/GimnasioDB.java:160 | for one resolved activity: type 2 pays 2 per hour, type 3 pays 4 per hour, any other type pays 0 |
| `FeeRule.FeeIsAdditive` | src/main/java/eu/andreatt/GimnasioDB.java:158-160 | splitting a session's hours into two parts splits its fee into the two parts' fees |
| `UsageJoin.MemberNamesFor` | src/main/java/eu/andreatt/GimnasioDB.java:156 | one name per member carrying the usage's member code (as many names as such members); every such member's name is present and no other name is |
| `UsageJoin.MemberNamesForAppend` | src/main/java/eu/andreatt/GimnasioDB.java:156 | resolving over two batches of members gives the first batch's names followed by the second's, so member order is kept |
| `UsageJoin.ActivitiesFor` | src/main/java/eu/andreatt/GimnasioDB.java:157 | an activity is matched if and only if it is in the dataset and carries the usage's activity code, and it appears as many times as it does in the dataset |
| `UsageJoin.ActivitiesForAppend` | src/main/java/eu/andreatt/GimnasioDB.java:157 | resolving over two batches of activities gives the first batch's matches followed by the second's, so activity order is kept |
| `UsageJoin.NamesOf` | src/main/java/eu/andreatt/GimnasioDB.java:162 | the activity names are those of the matched activities, one per activity, in order |
| `UsageJoin.KindsOf` | src/main/java/eu/andreatt/GimnasioDB.java:159 | the types are those of the matched activities, one per activity, in order |
| `UsageJoin.KindsReflectActivities` | src/main/java/eu/andreatt/GimnasioDB.java:159-160 | a type is among the matched types if and only if some matched activity has it |
| `UsageJoin.Enrich` | src/main/java/eu/andreatt/GimnasioDB.java:155-163 | a row copies the usage's codes and carries HORAFINAL - HORAINICIO hours. Its member names are all names resolved for the member code, and its activity names and types are those of all activities resolved for the activity code, in order. Its fee is 2 per hour if some activity with that code has type 2, otherwise 4 per hour if one has type 3, otherwise 0 |
| `UsageJoin.EnrichedReport` | src/main/java/eu/andreatt/GimnasioDB.java:155-163 | exactly one row per usage record, and row i is usage i enriched, so usage order is kept |
| `UsageJoin.RowCarriesUsage` | src/main/java/eu/andreatt/GimnasioDB.java:158-163 | row i carries usage i's member code, activity code and duration |
| `UsageJoin.EnrichedReportAppend` | src/main/java/eu/andreatt/GimnasioDB.java:155 | the report over two batches of usage records is the two reports concatenated |
| `UsageJoin.UniqueMemberResolves` | src/main/java/eu/andreatt/GimnasioDB.java:156 | with unique member codes, a member's code resolves to that member's name alone |
| `UsageJoin.NoMemberNoName` | src/main/java/eu/andreatt/GimnasioDB.java:156 | a member code no member carries resolves to no name, and there is no error |
| `UsageJoin.NoActivityMatches` | src/main/java/eu/andreatt/GimnasioDB.java:157 | an activity code no activity carries resolves to no activity |
| `UsageJoin.UniqueActivityResolves` | src/main/java/eu/andreatt/GimnasioDB.java:157-159 | with unique activity codes, an activity's code resolves to that activity alone, so the row's type is that activity's type |
| `UsageJoin.UnknownActivityIsFree` | src/main/java/eu/andreatt/GimnasioDB.java:157-160 | a usage whose activity code matches nothing has an empty type, no activity name and fee 0 |
| `UsageJoin.NegativeDurationPassesThrough` | src/main/java/eu/andreatt/GimnasioDB.java:158-160 | hours are not clamped: a session ending before it starts, on a type 2 or 3 activity, has negative hours and a negative fee |
| `FeeTotals.RowsOf` | src/main/java/eu/andreatt/GimnasioDB.java:190 | a row is selected for a member if and only if it is in the report and carries the member's code, and it is selected as many times as it occurs in the report |
| `FeeTotals.FeeSumFor` | src/main/java/eu/andreatt/GimnasioDB.java:190 | the sum is 0 when no row carries the code, and it is non-negative when every fee of the code is |
| `FeeTotals.FeeSumIsSumOfOwnRows` | src/main/java/eu/andreatt/GimnasioDB.java:190 | a member's sum is the sum of the fees of exactly the rows that carry its code |
| `FeeTotals.FeeSumAppend` | src/main/java/eu/andreatt/GimnasioDB.java:190 | sums over two batches of rows add up |
| `FeeTotals.TotalReport` | src/main/java/eu/andreatt/GimnasioDB.java:186-194 | exactly one row per member, in member order. Each row carries the member's code, name and fixed fee, the sum of its code's fees, and total = fixed fee + sum |
| `FeeTotals.MemberWithoutRows` | src/main/java/eu/andreatt/GimnasioDB.java:190-191 | a member that no row refers to is listed with sum 0 and total equal to its fixed fee |
| `GymRecords.CodeCount` | src/main/java/eu/andreatt/GimnasioDB.java:156 | the number of members carrying a code is 0 exactly when no member carries it |
| `FeeTotals.CreditIsCountTimesFee` | src/main/java/eu/andreatt/GimnasioDB.java:190 | a row is credited its fee once for every member carrying its code |
| `FeeTotals.RowCreditedPerMatchingMember` | src/main/java/eu/andreatt/GimnasioDB.java:190 | adding one row adds exactly its credit to the sum of the members' sums |
| `FeeTotals.SumsAreCreditedFees` | src/main/java/eu/andreatt/GimnasioDB.java:186-190 | the members' sums add up to each row's fee times the number of members carrying its code |
| `FeeTotals.UniqueCodeCountsOnce` | src/main/java/eu/andreatt/GimnasioDB.java:186-190 | with unique member codes, a carried code is carried exactly once |
| `FeeTotals.CreditedFeesWhenEachCountsOnce` | src/main/java/eu/andreatt/GimnasioDB.java:190 | when every row's code is carried exactly once, the credited fees are all the fees |
| `FeeTotals.Conservation` | src/main/java/eu/andreatt/GimnasioDB.java:186-190 | with unique member codes and every row's code carried by a member, the members' sums add up to the sum of all additional fees |
| `FeePipeline.FeeReport` | src/main/java/eu/andreatt/GimnasioDB.java:186-191 | the total report computed from the stored enriched report has one row per member, in member order, with total = fixed fee + sum |
| `FeePipeline.SumThroughReportIsUsageFees` | src/main/java/eu/andreatt/GimnasioDB.java:155-160 | summing a code's fees through the enriched report equals summing rate × hours over that code's usage records |
| `FeePipeline.MemberSumIsUsageFees` | src/main/java/eu/andreatt/GimnasioDB.java:187-190 | each member's suma_cuota_adic is the reference sum over its own usage records |
| `FeePipeline.IdleMemberPaysFixedFee` | src/main/java/eu/andreatt/GimnasioDB.java:186-191 | a member with no usage records is still listed, with sum 0 and total equal to its fixed fee |
| `FeePipeline.PipelineConservation` | src/main/java/eu/andreatt/GimnasioDB.java:160-190 | with unique member codes and every usage record resolving to a member, the total report's sums add up to all the enriched report's fees |
| `FeePipeline.UnknownMemberUsageIsDropped` | src/main/java/eu/andreatt/GimnasioDB.java:155-190 | appending a usage record whose member code no member carries leaves the total report unchanged |
| `FeePipeline.DuplicateMemberCodeCountsTwice` | src/main/java/eu/andreatt/GimnasioDB.java:190 | a usage record whose code two members share is credited to both, so the sums add up to twice its fee |
| `FeePipeline.TwoHoursOfTypeTwo` | src/main/java/eu/andreatt/GimnasioDB.java:155-194 | worked example: a two-hour session on a type 2 activity yields hours 2 and fee 4, and a total of 24 on a fixed fee of 20 |

## Left out

- Connection set-up and tear-down (`conectar`, `desconectar`, the static `conexion` handle): I/O against the eXist-db driver.
- Collection creation and file upload (`crearColeccionSiNoExiste`, `subirFicheros`, `leerFichero`): file and database I/O. The model takes the three datasets as sequences.
- The interactive menu loop in `main`: console I/O. Running "Cuota Total" before "Cuota Socio" reads a missing or stale `intermedio.xml`. The model always composes the second query with the first query's result on the same data.
- XML serialisation of the reports: the `<intermedio>`/`<cuota>` wrapping loops and the quote escaping in the `xmldb:store` calls. In the serialised report, several matched member names merge into one text node, and several matched types are written space-separated. The model keeps them as sequences.
- Number typing: the comparisons of `@tipo` with 2 and 3, the `sum`, and `CUOTA_FIJA + sum` go through XQuery's untyped-to-double promotion. The model uses unbounded integers for hours, types and fees.
- Malformed records: a missing or non-numeric HORAINICIO, HORAFINAL, `@tipo` or CUOTA_FIJA raises a cast error or yields an empty sequence in XQuery. The model's records always carry integers.
- Unique codes: no error is raised for duplicate codes, and the model raises none either. Uniqueness appears only as a hypothesis of the lemmas that need it.
