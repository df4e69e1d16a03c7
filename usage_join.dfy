/** The enriched-usage report (`cuotaSocio`): one row per usage record, in
    usage order, with the member and the activity resolved by code and the
    additional fee computed by the fee rule. Nothing is rejected: a code that
    matches no record resolves to nothing, and one that matches several
    records resolves to all of them. */
module UsageJoin {
  import opened GymRecords
  import opened FeeRule

  /** The names of every member whose code is `code`, in member order. */
  function MemberNamesFor(members: seq<Member>, code: string): (names: seq<string>)
    ensures |names| == CodeCount(members, code)
    ensures forall m :: m in members && m.code == code ==> m.name in names
    ensures forall n :: n in names ==> exists m :: m in members && m.code == code && m.name == n
  {
    if members == [] then []
    else if members[0].code == code then [members[0].name] + MemberNamesFor(members[1..], code)
    else MemberNamesFor(members[1..], code)
  }

  /** Every activity whose code is `code`, in activity order. */
  function ActivitiesFor(activities: seq<Activity>, code: string): (matched: seq<Activity>)
    ensures |matched| <= |activities|
    ensures forall a :: a in matched <==> a in activities && a.code == code
    ensures forall a :: multiset(matched)[a] == if a.code == code then multiset(activities)[a] else 0
  {
    if activities == [] then []
    else
      assert activities == [activities[0]] + activities[1..];
      if activities[0].code == code then [activities[0]] + ActivitiesFor(activities[1..], code)
      else ActivitiesFor(activities[1..], code)
  }

  /** The names of the given activities, in order. */
  function NamesOf(activities: seq<Activity>): (names: seq<string>)
    ensures |names| == |activities|
    ensures forall i :: 0 <= i < |activities| ==> names[i] == activities[i].name
  {
    if activities == [] then [] else [activities[0].name] + NamesOf(activities[1..])
  }

  /** Resolving a member code over two batches of members gives the two
      batches' names one after the other: member order is kept. */
  lemma {:induction false} MemberNamesForAppend(a: seq<Member>, b: seq<Member>, code: string)
    ensures MemberNamesFor(a + b, code) == MemberNamesFor(a, code) + MemberNamesFor(b, code)
  {
    if a == [] {
      assert a + b == b;
    } else {
      assert (a + b)[1..] == a[1..] + b;
      MemberNamesForAppend(a[1..], b, code);
    }
  }

  /** Resolving an activity code over two batches of activities gives the two
      batches' matches one after the other: activity order is kept. */
  lemma {:induction false} ActivitiesForAppend(a: seq<Activity>, b: seq<Activity>, code: string)
    ensures ActivitiesFor(a + b, code) == ActivitiesFor(a, code) + ActivitiesFor(b, code)
  {
    if a == [] {
      assert a + b == b;
    } else {
      assert (a + b)[1..] == a[1..] + b;
      ActivitiesForAppend(a[1..], b, code);
    }
  }

  /** The types of the given activities, in order. */
  function KindsOf(activities: seq<Activity>): (kinds: seq<int>)
    ensures |kinds| == |activities|
    ensures forall i :: 0 <= i < |activities| ==> kinds[i] == activities[i].kind
  {
    if activities == [] then [] else [activities[0].kind] + KindsOf(activities[1..])
  }

  /** True when some activity with code `code` has type `kind`. */
  predicate HasActivityOfKind(activities: seq<Activity>, code: string, kind: int) {
    exists a :: a in activities && a.code == code && a.kind == kind
  }

  /** One row of the report, built from one usage record. */
  function Enrich(u: Usage, members: seq<Member>, activities: seq<Activity>): (row: EnrichedRow)
    ensures row.memberCode == u.memberCode && row.activityCode == u.activityCode
    ensures row.hours == u.endHour - u.startHour
    ensures row.memberNames == MemberNamesFor(members, u.memberCode)
    ensures row.activityNames == NamesOf(ActivitiesFor(activities, u.activityCode))
    ensures row.activityKinds == KindsOf(ActivitiesFor(activities, u.activityCode))
    ensures HasActivityOfKind(activities, u.activityCode, 2) ==>
              row.additionalFee == 2 * (u.endHour - u.startHour)
    ensures !HasActivityOfKind(activities, u.activityCode, 2) && HasActivityOfKind(activities, u.activityCode, 3) ==>
              row.additionalFee == 4 * (u.endHour - u.startHour)
    ensures !HasActivityOfKind(activities, u.activityCode, 2) && !HasActivityOfKind(activities, u.activityCode, 3) ==>
              row.additionalFee == 0
  {
    var matched := ActivitiesFor(activities, u.activityCode);
    var hours := u.endHour - u.startHour;
    var kinds := KindsOf(matched);
    KindsReflectActivities(matched, 2);
    KindsReflectActivities(matched, 3);
    EnrichedRow(u.memberCode, MemberNamesFor(members, u.memberCode),
                u.activityCode, NamesOf(matched),
                hours, kinds, AdditionalFee(hours, kinds))
  }

  /** A type appears among the matched types exactly when a matched activity has it. */
  lemma KindsReflectActivities(activities: seq<Activity>, kind: int)
    ensures kind in KindsOf(activities) <==> exists a :: a in activities && a.kind == kind
  {
  }

  /** The enriched-usage report: one row per usage record, in the same order. */
  function EnrichedReport(usages: seq<Usage>, members: seq<Member>, activities: seq<Activity>): (rows: seq<EnrichedRow>)
    ensures |rows| == |usages|
    ensures forall i :: 0 <= i < |usages| ==> rows[i] == Enrich(usages[i], members, activities)
  {
    if usages == [] then []
    else [Enrich(usages[0], members, activities)] + EnrichedReport(usages[1..], members, activities)
  }

  /** Row `i` carries usage `i`'s codes and duration. */
  lemma RowCarriesUsage(usages: seq<Usage>, members: seq<Member>, activities: seq<Activity>, i: int)
    requires 0 <= i < |usages|
    ensures EnrichedReport(usages, members, activities)[i].memberCode == usages[i].memberCode
    ensures EnrichedReport(usages, members, activities)[i].activityCode == usages[i].activityCode
    ensures EnrichedReport(usages, members, activities)[i].hours == usages[i].endHour - usages[i].startHour
  {
  }

  /** The report of two batches of usage records is the two reports one after the other. */
  lemma {:induction false} EnrichedReportAppend(u1: seq<Usage>, u2: seq<Usage>, members: seq<Member>, activities: seq<Activity>)
    ensures EnrichedReport(u1 + u2, members, activities)
         == EnrichedReport(u1, members, activities) + EnrichedReport(u2, members, activities)
  {
    if u1 != [] {
      assert (u1 + u2)[1..] == u1[1..] + u2;
      EnrichedReportAppend(u1[1..], u2, members, activities);
    }
  }

  /** With unique member codes, a code that some member has resolves to that member's name alone. */
  lemma {:induction false} UniqueMemberResolves(members: seq<Member>, k: int)
    requires UniqueMemberCodes(members)
    requires 0 <= k < |members|
    ensures MemberNamesFor(members, members[k].code) == [members[k].name]
  {
    if k == 0 {
      assert forall m :: m in members[1..] ==> m.code != members[0].code by {
        forall m | m in members[1..] ensures m.code != members[0].code {
          var j :| 0 <= j < |members[1..]| && members[1..][j] == m;
          assert members[j + 1] == m;
        }
      }
      NoMemberNoName(members[1..], members[0].code);
    } else {
      assert UniqueMemberCodes(members[1..]) by {
        forall i, j | 0 <= i < j < |members[1..]|
          ensures members[1..][i].code != members[1..][j].code
        {
          assert members[1..][i] == members[i + 1] && members[1..][j] == members[j + 1];
        }
      }
      assert members[1..][k - 1] == members[k];
      UniqueMemberResolves(members[1..], k - 1);
    }
  }

  /** A code that no member has resolves to no name. */
  lemma NoMemberNoName(members: seq<Member>, code: string)
    requires forall m :: m in members ==> m.code != code
    ensures MemberNamesFor(members, code) == []
  {
  }

  /** A code that no activity has resolves to no activity. */
  lemma NoActivityMatches(activities: seq<Activity>, code: string)
    requires forall a :: a in activities ==> a.code != code
    ensures ActivitiesFor(activities, code) == []
  {
  }

  /** With unique activity codes, a code that some activity has resolves to that activity alone,
      so the row's type is that activity's type and nothing else. */
  lemma {:induction false} UniqueActivityResolves(activities: seq<Activity>, k: int)
    requires UniqueActivityCodes(activities)
    requires 0 <= k < |activities|
    ensures ActivitiesFor(activities, activities[k].code) == [activities[k]]
    ensures KindsOf(ActivitiesFor(activities, activities[k].code)) == [activities[k].kind]
  {
    if k == 0 {
      assert forall a :: a in activities[1..] ==> a.code != activities[0].code by {
        forall a | a in activities[1..] ensures a.code != activities[0].code {
          var j :| 0 <= j < |activities[1..]| && activities[1..][j] == a;
          assert activities[j + 1] == a;
        }
      }
      NoActivityMatches(activities[1..], activities[0].code);
    } else {
      assert UniqueActivityCodes(activities[1..]) by {
        forall i, j | 0 <= i < j < |activities[1..]|
          ensures activities[1..][i].code != activities[1..][j].code
        {
          assert activities[1..][i] == activities[i + 1] && activities[1..][j] == activities[j + 1];
        }
      }
      assert activities[1..][k - 1] == activities[k];
      UniqueActivityResolves(activities[1..], k - 1);
    }
  }

  /** A usage whose activity code matches no activity has an empty type and pays no additional fee. */
  lemma UnknownActivityIsFree(u: Usage, members: seq<Member>, activities: seq<Activity>)
    requires forall a :: a in activities ==> a.code != u.activityCode
    ensures Enrich(u, members, activities).activityKinds == []
    ensures Enrich(u, members, activities).activityNames == []
    ensures Enrich(u, members, activities).additionalFee == 0
  {
  }

  /** Hours are not clamped: a session that ends before it starts on a type 2 or 3
      activity yields a negative additional fee. */
  lemma NegativeDurationPassesThrough(u: Usage, members: seq<Member>, activities: seq<Activity>)
    requires u.endHour < u.startHour
    requires HasActivityOfKind(activities, u.activityCode, 2) || HasActivityOfKind(activities, u.activityCode, 3)
    ensures Enrich(u, members, activities).hours < 0
    ensures Enrich(u, members, activities).additionalFee < 0
  {
  }
}
