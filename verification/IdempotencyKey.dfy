/** Idempotency keys `{alert_id}:{channel}:{occurrence_count}` as printed strings. */
module IdempotencyKey {

  const DIGITS := "0123456789"

  function Decimal(n: nat): (digits: string)
    ensures digits != ""
  {
    if n < 10 then [DIGITS[n]] else Decimal(n / 10) + [DIGITS[n % 10]]
  }

  function Print(alertId: string, channel: string, count: nat): string {
    alertId + ":" + channel + ":" + Decimal(count)
  }

  predicate ColonFree(s: string) {
    ':' !in s
  }

  // --- reading keys back ---------------------------------------------------------

  function DigitValue(c: char): nat {
    if '0' <= c <= '9' then c as int - '0' as int else 0
  }

  function DecimalValue(digits: string): nat {
    if digits == "" then 0
    else 10 * DecimalValue(digits[..|digits| - 1]) + DigitValue(digits[|digits| - 1])
  }

  lemma {:induction false} DecimalReadsBack(n: nat)
    ensures DecimalValue(Decimal(n)) == n
    ensures ColonFree(Decimal(n))
  {
    var digits := Decimal(n);
    if n < 10 {
      DigitReadsBack(n);
      assert digits[..|digits| - 1] == "";
    } else {
      DecimalReadsBack(n / 10);
      DigitReadsBack(n % 10);
      assert digits[..|digits| - 1] == Decimal(n / 10);
    }
  }

  lemma DigitReadsBack(d: nat)
    requires d < 10
    ensures DigitValue(DIGITS[d]) == d && DIGITS[d] != ':'
  {
    assert '0' as int == 48;
    assert DIGITS[d] as int == 48 + d;
  }

  /** A colon followed by a colon-free text can be split off in one way only. */
  lemma LastColonIsUnique(a: string, b: string, c: string, d: string)
    requires ColonFree(b) && ColonFree(d)
    requires a + ":" + b == c + ":" + d
    ensures a == c && b == d
  {
    var s := a + ":" + b;
    LastColonAt(a, b);
    LastColonAt(c, d);
    assert |a| == |c|;
    assert s[..|a|] == a && s[..|a|] == c;
    assert s[|a| + 1..] == b && s[|a| + 1..] == d;
  }

  lemma LastColonAt(a: string, b: string)
    requires ColonFree(b)
    ensures (a + ":" + b)[|a|] == ':'
    ensures forall i :: |a| < i < |a + ":" + b| ==> (a + ":" + b)[i] != ':'
  {
  }

  /** Printing is injective as soon as channel names have no colon, whatever the alert ids look like. */
  lemma PrintIsInjective(id1: string, channel1: string, count1: nat, id2: string, channel2: string, count2: nat)
    requires ColonFree(channel1) && ColonFree(channel2)
    requires Print(id1, channel1, count1) == Print(id2, channel2, count2)
    ensures id1 == id2 && channel1 == channel2 && count1 == count2
  {
    DecimalReadsBack(count1);
    DecimalReadsBack(count2);
    LastColonIsUnique(id1 + ":" + channel1, Decimal(count1), id2 + ":" + channel2, Decimal(count2));
    LastColonIsUnique(id1, channel1, id2, channel2);
  }

  // --- splitting --------------------------------------------------------------------

  /** Python's `s.split(":")`. */
  function Split(s: string): (parts: seq<string>)
    ensures parts != []
  {
    if s == "" then [""]
    else
      var rest := Split(s[1..]);
      if s[0] == ':' then [""] + rest else [[s[0]] + rest[0]] + rest[1..]
  }

  lemma {:induction false} SplitAtFirstColon(a: string, b: string)
    requires ColonFree(a)
    ensures Split(a + ":" + b) == [a] + Split(b)
  {
    var s := a + ":" + b;
    if a == "" {
      assert s[1..] == b;
    } else {
      SplitAtFirstColon(a[1..], b);
      assert s[1..] == a[1..] + ":" + b;
      assert [a[0]] + a[1..] == a;
    }
  }

  lemma {:induction false} SplitColonFree(a: string)
    requires ColonFree(a)
    ensures Split(a) == [a]
  {
    if a == "" {
    } else {
      SplitColonFree(a[1..]);
      assert [a[0]] + a[1..] == a;
    }
  }

  /** For colon-free ids, the second part of a printed key is its channel. */
  lemma SplitRecoversChannel(alertId: string, channel: string, count: nat)
    requires ColonFree(alertId) && ColonFree(channel)
    ensures Split(Print(alertId, channel, count)) == [alertId, channel, Decimal(count)]
  {
    DecimalReadsBack(count);
    assert Print(alertId, channel, count) == alertId + ":" + (channel + ":" + Decimal(count));
    SplitAtFirstColon(alertId, channel + ":" + Decimal(count));
    SplitAtFirstColon(channel, Decimal(count));
    SplitColonFree(Decimal(count));
  }
}
