/** The total-fee report (`cuotaTotal`): one row per member, in member order,
    whose additional sum is the sum of the additional fees of the enriched
    rows that carry the member's code, and whose total adds the fixed fee. */
module FeeTotals {
  import opened GymRecords

  /** The sum of every additional fee in the rows. */
  function AllFees(rows: seq<EnrichedRow>): int {
    if rows == [] then 0 else rows[0].additionalFee + AllFees(rows[1..])
  }

  /** The rows whose member code is `code`, in order. */
  function RowsOf(rows: seq<EnrichedRow>, code: string): (selected: seq<EnrichedRow>)
    ensures |selected| <= |rows|
    ensures forall r :: r in selected <==> r in rows && r.memberCode == code
    ensures forall r :: multiset(selected)[r] == if r.memberCode == code then multiset(rows)[r] else 0
  {
    if rows == [] then []
    else
      assert rows == [rows[0]] + rows[1..];
      if rows[0].memberCode == code then [rows[0]] + RowsOf(rows[1..], code)
      else RowsOf(rows[1..], code)
  }

  /** `suma_cuota_adic` for the member code `code`. */
  function FeeSumFor(rows: seq<EnrichedRow>, code: string): (sum: int)
    ensures (forall r :: r in rows ==> r.memberCode != code) ==> sum == 0
    ensures (forall r :: r in rows && r.memberCode == code ==> r.additionalFee >= 0) ==> sum >= 0
  {
    if rows == [] then 0
    else (if rows[0].memberCode == code then rows[0].additionalFee else 0) + FeeSumFor(rows[1..], code)
  }

  /** The member's sum is the sum of the fees of exactly the rows with its code. */
  lemma {:induction false} FeeSumIsSumOfOwnRows(rows: seq<EnrichedRow>, code: string)
    ensures FeeSumFor(rows, code) == AllFees(RowsOf(rows, code))
  {
    if rows != [] {
      FeeSumIsSumOfOwnRows(rows[1..], code);
      if rows[0].memberCode == code {
        assert ([rows[0]] + RowsOf(rows[1..], code))[1..] == RowsOf(rows[1..], code);
      }
    }
  }

  /** Sums over two batches of rows add up. */
  lemma {:induction false} FeeSumAppend(a: seq<EnrichedRow>, b: seq<EnrichedRow>, code: string)
    ensures FeeSumFor(a + b, code) == FeeSumFor(a, code) + FeeSumFor(b, code)
  {
    if a == [] {
      assert a + b == b;
    } else {
      assert (a + b)[1..] == a[1..] + b;
      FeeSumAppend(a[1..], b, code);
    }
  }

  /** One row of the total-fee report. */
  function TotalRowFor(m: Member, rows: seq<EnrichedRow>): TotalRow {
    var sum := FeeSumFor(rows, m.code);
    TotalRow(m.code, m.name, m.fixedFee, sum, m.fixedFee + sum)
  }

  /** The total-fee report: one row per member, members without rows included. */
  function TotalReport(members: seq<Member>, rows: seq<EnrichedRow>): (totals: seq<TotalRow>)
    ensures |totals| == |members|
    ensures forall i :: 0 <= i < |members| ==>
              && totals[i].code == members[i].code
              && totals[i].name == members[i].name
              && totals[i].fixedFee == members[i].fixedFee
              && totals[i].additionalSum == FeeSumFor(rows, members[i].code)
              && totals[i].total == totals[i].fixedFee + totals[i].additionalSum
  {
    if members == [] then []
    else [TotalRowFor(members[0], rows)] + TotalReport(members[1..], rows)
  }

  /** A member no row refers to has a zero sum and pays only the fixed fee. */
  lemma MemberWithoutRows(members: seq<Member>, rows: seq<EnrichedRow>, i: int)
    requires 0 <= i < |members|
    requires forall r :: r in rows ==> r.memberCode != members[i].code
    ensures TotalReport(members, rows)[i].additionalSum == 0
    ensures TotalReport(members, rows)[i].total == members[i].fixedFee
  {
  }

  /** The sum of the additional sums of a total-fee report. */
  function AllSums(totals: seq<TotalRow>): int {
    if totals == [] then 0 else totals[0].additionalSum + AllSums(totals[1..])
  }

  /** The report's sums split into the first member's sum and the rest. */
  lemma AllSumsUnfold(members: seq<Member>, rows: seq<EnrichedRow>)
    requires members != []
    ensures AllSums(TotalReport(members, rows))
         == FeeSumFor(rows, members[0].code) + AllSums(TotalReport(members[1..], rows))
  {
  }

  /** What the members of `members` are credited for one row: its fee, once per
      member carrying its code. */
  function Credit(members: seq<Member>, r: EnrichedRow): int {
    if members == [] then 0
    else (if members[0].code == r.memberCode then r.additionalFee else 0) + Credit(members[1..], r)
  }

  /** A row is credited its fee times the number of members carrying its code. */
  lemma {:induction false} CreditIsCountTimesFee(members: seq<Member>, r: EnrichedRow)
    ensures Credit(members, r) == CodeCount(members, r.memberCode) * r.additionalFee
  {
    if members != [] {
      CreditIsCountTimesFee(members[1..], r);
      var c := CodeCount(members[1..], r.memberCode);
      if members[0].code == r.memberCode {
        assert CodeCount(members, r.memberCode) == 1 + c;
        assert (1 + c) * r.additionalFee == r.additionalFee + c * r.additionalFee;
      } else {
        assert CodeCount(members, r.memberCode) == c;
      }
    }
  }

  /** A row added in front of the rows adds its credit to the report's sums. */
  lemma {:induction false} RowCreditedPerMatchingMember(members: seq<Member>, r: EnrichedRow, rest: seq<EnrichedRow>)
    ensures AllSums(TotalReport(members, [r] + rest)) == Credit(members, r) + AllSums(TotalReport(members, rest))
  {
    if members != [] {
      var rows := [r] + rest;
      RowCreditedPerMatchingMember(members[1..], r, rest);
      AllSumsUnfold(members, rows);
      AllSumsUnfold(members, rest);
      assert rows[1..] == rest;
    }
  }

  /** The sum of the credits of every row. */
  function CreditedFees(members: seq<Member>, rows: seq<EnrichedRow>): int {
    if rows == [] then 0 else Credit(members, rows[0]) + CreditedFees(members, rows[1..])
  }

  /** The report's sums add up to every row's fee weighted by the number of
      members that carry its code: unmatched rows are lost and duplicated
      member codes count a row more than once. */
  lemma {:induction false} SumsAreCreditedFees(members: seq<Member>, rows: seq<EnrichedRow>)
    ensures AllSums(TotalReport(members, rows)) == CreditedFees(members, rows)
  {
    if rows == [] {
      assert forall i :: 0 <= i < |members| ==> TotalReport(members, rows)[i].additionalSum == 0;
      AllSumsOfZeros(TotalReport(members, rows));
    } else {
      assert rows == [rows[0]] + rows[1..];
      RowCreditedPerMatchingMember(members, rows[0], rows[1..]);
      SumsAreCreditedFees(members, rows[1..]);
    }
  }

  /** Sums that are all zero add up to zero. */
  lemma {:induction false} AllSumsOfZeros(totals: seq<TotalRow>)
    requires forall i :: 0 <= i < |totals| ==> totals[i].additionalSum == 0
    ensures AllSums(totals) == 0
  {
    if totals != [] {
      AllSumsOfZeros(totals[1..]);
    }
  }

  /** With unique member codes, a code that some member carries is carried exactly once. */
  lemma {:induction false} UniqueCodeCountsOnce(members: seq<Member>, code: string)
    requires UniqueMemberCodes(members)
    requires exists m :: m in members && m.code == code
    ensures CodeCount(members, code) == 1
  {
    if members[0].code == code {
      assert forall m :: m in members[1..] ==> m.code != code by {
        forall m | m in members[1..] ensures m.code != code {
          var j :| 0 <= j < |members[1..]| && members[1..][j] == m;
          assert members[j + 1] == m;
        }
      }
    } else {
      assert UniqueMemberCodes(members[1..]) by {
        forall i, j | 0 <= i < j < |members[1..]|
          ensures members[1..][i].code != members[1..][j].code
        {
          assert members[1..][i] == members[i + 1] && members[1..][j] == members[j + 1];
        }
      }
      var m :| m in members && m.code == code;
      assert m in members[1..];
      UniqueCodeCountsOnce(members[1..], code);
    }
  }

  /** Conservation: with unique member codes and every row's code carried by a
      member, the members' sums add up to the sum of all additional fees. */
  lemma {:induction false} Conservation(members: seq<Member>, rows: seq<EnrichedRow>)
    requires UniqueMemberCodes(members)
    requires forall r :: r in rows ==> exists m :: m in members && m.code == r.memberCode
    ensures AllSums(TotalReport(members, rows)) == AllFees(rows)
  {
    SumsAreCreditedFees(members, rows);
    CreditedFeesWhenEachCountsOnce(members, rows);
  }

  /** Credited fees equal all fees when every row's code is carried exactly once. */
  lemma {:induction false} CreditedFeesWhenEachCountsOnce(members: seq<Member>, rows: seq<EnrichedRow>)
    requires UniqueMemberCodes(members)
    requires forall r :: r in rows ==> exists m :: m in members && m.code == r.memberCode
    ensures CreditedFees(members, rows) == AllFees(rows)
  {
    if rows != [] {
      assert rows[0] in rows;
      UniqueCodeCountsOnce(members, rows[0].memberCode);
      CreditIsCountTimesFee(members, rows[0]);
      assert forall r :: r in rows[1..] ==> r in rows;
      CreditedFeesWhenEachCountsOnce(members, rows[1..]);
    }
  }
}
