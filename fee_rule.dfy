/** The additional-fee rule applied to one usage record.

    The activity type of a usage is the sequence of the types of every
    activity whose code matches, and the comparison with 2 or 3 holds when
    ANY of them is equal: a type 2 wins over a type 3, anything else
    (including no matching activity at all) pays nothing. Hours are not
    clamped, so a session that ends before it starts yields a negative fee. */
module FeeRule {

  /** Hourly surcharge for the matched activity types: the reference table. */
  function HourlyRate(kinds: seq<int>): (rate: int)
    ensures rate == 0 || rate == 2 || rate == 4
    ensures rate == 0 <==> 2 !in kinds && 3 !in kinds
    ensures rate == 2 <==> 2 in kinds
  {
    if 2 in kinds then 2 else if 3 in kinds then 4 else 0
  }

  /** The additional fee of a usage lasting `hours`, given the types of the
      activities it resolved to. */
  function AdditionalFee(hours: int, kinds: seq<int>): (fee: int)
    ensures hours >= 0 ==> 0 <= fee <= 4 * hours
    ensures hours <= 0 ==> 4 * hours <= fee <= 0
    ensures 2 !in kinds && 3 !in kinds ==> fee == 0
  {
    if 2 in kinds then hours * 2
    else if 3 in kinds then hours * 4
    else 0
  }

  /** The fee is the hourly rate times the hours. */
  lemma FeeIsRateTimesHours(hours: int, kinds: seq<int>)
    ensures AdditionalFee(hours, kinds) == HourlyRate(kinds) * hours
  {
  }

  /** The rule for a usage that resolved to exactly one activity of type `kind`. */
  lemma FeeOfSingleActivity(hours: int, kind: int)
    ensures kind == 2 ==> AdditionalFee(hours, [kind]) == 2 * hours
    ensures kind == 3 ==> AdditionalFee(hours, [kind]) == 4 * hours
    ensures kind != 2 && kind != 3 ==> AdditionalFee(hours, [kind]) == 0
  {
  }

  /** Splitting a session into two consecutive ones does not change what it costs. */
  lemma FeeIsAdditive(h1: int, h2: int, kinds: seq<int>)
    ensures AdditionalFee(h1 + h2, kinds) == AdditionalFee(h1, kinds) + AdditionalFee(h2, kinds)
  {
  }
}
