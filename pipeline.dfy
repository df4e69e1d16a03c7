/** The whole fee computation: the total-fee report is computed from the
    enriched-usage report that the first query stored, so the two stages
    compose. */
module FeePipeline {
  import opened GymRecords
  import opened FeeRule
  import opened UsageJoin
  import opened FeeTotals

  /** The total-fee report of the three datasets. */
  function FeeReport(members: seq<Member>, activities: seq<Activity>, usages: seq<Usage>): (totals: seq<TotalRow>)
    ensures |totals| == |members|
    ensures forall i :: 0 <= i < |members| ==>
              && totals[i].code == members[i].code
              && totals[i].fixedFee == members[i].fixedFee
              && totals[i].total == members[i].fixedFee + totals[i].additionalSum
  {
    TotalReport(members, EnrichedReport(usages, members, activities))
  }

  /** Reference definition of one usage's fee: the hourly rate of the
      activities its code resolves to, times its duration. */
  function UsageFee(u: Usage, activities: seq<Activity>): int {
    HourlyRate(KindsOf(ActivitiesFor(activities, u.activityCode))) * (u.endHour - u.startHour)
  }

  /** Reference definition of a member's additional sum, straight from the usage records. */
  function MemberUsageFees(usages: seq<Usage>, activities: seq<Activity>, code: string): int {
    if usages == [] then 0
    else (if usages[0].memberCode == code then UsageFee(usages[0], activities) else 0)
         + MemberUsageFees(usages[1..], activities, code)
  }

  /** The sum a member is credited through the enriched report is the sum of
      the reference fees of the member's own usage records. */
  lemma {:induction false} SumThroughReportIsUsageFees(members: seq<Member>, activities: seq<Activity>, usages: seq<Usage>, code: string)
    ensures FeeSumFor(EnrichedReport(usages, members, activities), code) == MemberUsageFees(usages, activities, code)
  {
    if usages != [] {
      var rows := EnrichedReport(usages, members, activities);
      assert rows[1..] == EnrichedReport(usages[1..], members, activities);
      var u := usages[0];
      FeeIsRateTimesHours(u.endHour - u.startHour, KindsOf(ActivitiesFor(activities, u.activityCode)));
      SumThroughReportIsUsageFees(members, activities, usages[1..], code);
    }
  }

  /** Each member's additional sum is the reference sum over its own usage records. */
  lemma MemberSumIsUsageFees(members: seq<Member>, activities: seq<Activity>, usages: seq<Usage>, i: int)
    requires 0 <= i < |members|
    ensures FeeReport(members, activities, usages)[i].additionalSum == MemberUsageFees(usages, activities, members[i].code)
  {
    SumThroughReportIsUsageFees(members, activities, usages, members[i].code);
  }

  /** A member with no usage records is listed with a zero sum and pays its fixed fee. */
  lemma IdleMemberPaysFixedFee(members: seq<Member>, activities: seq<Activity>, usages: seq<Usage>, i: int)
    requires 0 <= i < |members|
    requires forall u :: u in usages ==> u.memberCode != members[i].code
    ensures FeeReport(members, activities, usages)[i].additionalSum == 0
    ensures FeeReport(members, activities, usages)[i].total == members[i].fixedFee
  {
  }

  /** Conservation: with unique member codes and every usage record's member
      code carried by a member, the members' sums add up to the sum of all
      additional fees in the enriched report. */
  lemma PipelineConservation(members: seq<Member>, activities: seq<Activity>, usages: seq<Usage>)
    requires UniqueMemberCodes(members)
    requires forall u :: u in usages ==> exists m :: m in members && m.code == u.memberCode
    ensures AllSums(FeeReport(members, activities, usages)) == AllFees(EnrichedReport(usages, members, activities))
  {
    var rows := EnrichedReport(usages, members, activities);
    forall r | r in rows ensures exists m :: m in members && m.code == r.memberCode {
      var k :| 0 <= k < |rows| && rows[k] == r;
      assert usages[k] in usages;
    }
    Conservation(members, rows);
  }

  /** A usage record whose member code no member carries changes no row of the
      total-fee report: its fee is computed and then lost. */
  lemma UnknownMemberUsageIsDropped(members: seq<Member>, activities: seq<Activity>, usages: seq<Usage>, u: Usage)
    requires forall m :: m in members ==> m.code != u.memberCode
    ensures FeeReport(members, activities, usages + [u]) == FeeReport(members, activities, usages)
  {
    var before := FeeReport(members, activities, usages);
    var after := FeeReport(members, activities, usages + [u]);
    EnrichedReportAppend(usages, [u], members, activities);
    forall i | 0 <= i < |members| ensures after[i] == before[i] {
      FeeSumAppend(EnrichedReport(usages, members, activities), EnrichedReport([u], members, activities), members[i].code);
    }
  }

  /** A usage record whose member code two members carry is credited to both. */
  lemma DuplicateMemberCodeCountsTwice(m1: Member, m2: Member, activities: seq<Activity>, u: Usage)
    requires m1.code == m2.code == u.memberCode
    ensures AllSums(FeeReport([m1, m2], activities, [u]))
         == 2 * AllFees(EnrichedReport([u], [m1, m2], activities))
  {
    var rows := EnrichedReport([u], [m1, m2], activities);
    var totals := FeeReport([m1, m2], activities, [u]);
    assert rows[1..] == [];
    assert FeeSumFor(rows, u.memberCode) == AllFees(rows) == rows[0].additionalFee;
    assert totals[1..][1..] == [];
    assert AllSums(totals[1..]) == totals[1].additionalSum;
    assert AllSums(totals) == totals[0].additionalSum + totals[1].additionalSum;
  }

  /** One member, one type 2 activity, one two-hour session: the fee is 4 and the total 24. */
  lemma TwoHoursOfTypeTwo()
    ensures EnrichedReport([Usage("S1", "A1", 10, 12)], [Member("S1", "Ana", 20)], [Activity("A1", "Spinning", 2)])
         == [EnrichedRow("S1", ["Ana"], "A1", ["Spinning"], 2, [2], 4)]
    ensures FeeReport([Member("S1", "Ana", 20)], [Activity("A1", "Spinning", 2)], [Usage("S1", "A1", 10, 12)])
         == [TotalRow("S1", "Ana", 20, 4, 24)]
  {
    var members := [Member("S1", "Ana", 20)];
    var activities := [Activity("A1", "Spinning", 2)];
    var rows := EnrichedReport([Usage("S1", "A1", 10, 12)], members, activities);
    assert ActivitiesFor(activities, "A1") == activities;
    assert NamesOf(activities) == ["Spinning"];
    assert KindsOf(activities) == [2];
    assert MemberNamesFor(members, "S1") == ["Ana"];
    assert rows[0] == Enrich(Usage("S1", "A1", 10, 12), members, activities);
    assert rows == [EnrichedRow("S1", ["Ana"], "A1", ["Spinning"], 2, [2], 4)];
    assert FeeSumFor(rows, "S1") == 4;
  }
}
