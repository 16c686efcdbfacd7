/**
 * The store-backed sequential order id of utils/orderIdGenerator.js: `EE<year><seq>`, where
 * seq is one more than the number read from the last four characters of the most recently
 * created order whose id starts with `EE<year>`, or 1, left-padded with zeros to 4 digits.
 * The year comes from the clock; the store read is the collection as it stands.
 */
module OrderIdGenerator {
  import opened Wrappers
  import opened JsText
  import opened Query
  import opened OrderModel

  /** `EE<year>`, the prefix the `^EE<year>` query matches. */
  function YearPrefix(year: nat): (p: string)
    ensures |p| >= 3 && p[..2] == "EE" && IsDigit(p[2])
  {
    "EE" + NatToString(year)
  }

  predicate MatchesYear(o: Order, year: nat) {
    StartsWith(o.orderId, YearPrefix(year))
  }

  /** `findOne({ orderId: { $regex: ^EE<year> } }).sort({ createdAt: -1 })`. */
  function LastOrderOfYear(orders: seq<Order>, year: nat): (r: Option<Order>)
    ensures r.None? <==> forall i :: 0 <= i < |orders| ==> !MatchesYear(orders[i], year)
    ensures r.Some? ==> r.value in orders && MatchesYear(r.value, year)
    ensures r.Some? ==> forall i :: 0 <= i < |orders| && MatchesYear(orders[i], year) ==> orders[i].createdAt <= r.value.createdAt
  {
    var p := (o: Order) => MatchesYear(o, year);
    var newest := SortDesc(Filter(orders, p), CreatedAt);
    NewestMatching(orders, p, CreatedAt);
    if newest == [] then None else Some(newest[0])
  }

  /** The sequence number after `last`: the parsed last four characters plus one, else 1. */
  function NextSequence(last: Option<Order>): int {
    if last.Some? && last.value.orderId != "" then
      match ParseInt(SliceLast(last.value.orderId, 4))
      case Some(n) => n + 1
      case None => 1
    else 1
  }

  /** `EE${year}${String(next).padStart(4, '0')}`. */
  function FormatOrderId(year: nat, next: int): string {
    YearPrefix(year) + PadStart(IntToString(next), 4, '0')
  }

  /** `generateOrderId()` against the collection as it stands. */
  function GenerateOrderId(orders: seq<Order>, year: nat): string {
    FormatOrderId(year, NextSequence(LastOrderOfYear(orders, year)))
  }

  // ---------------------------------------------------------------- properties

  /** A non-negative sequence gives "EE", the year, and digits only: no separator anywhere. */
  lemma FormatShape(year: nat, next: int)
    requires next >= 0
    ensures var id := FormatOrderId(year, next);
      && StartsWith(id, YearPrefix(year))
      && AllDigits(id[2..])
      && |id| >= |YearPrefix(year)| + 4
  {
    var p := YearPrefix(year);
    var suffix := PadStart(NatToString(next), 4, '0');
    assert AllDigits(suffix) by { PaddedValue(next); }
    var id := p + suffix;
    assert FormatOrderId(year, next) == id by {
      assert IntToString(next) == NatToString(next);
    }
    assert id[..|p|] == p;
    assert id == "EE" + NatToString(year) + suffix;
    DigitsAfterHead("EE", NatToString(year), suffix);
  }

  /** After a head, two digit strings in a row are all digits. */
  lemma DigitsAfterHead(head: string, a: string, b: string)
    requires AllDigits(a) && AllDigits(b)
    ensures AllDigits((head + a + b)[|head|..])
  {
    assert (head + a + b)[|head|..] == a + b;
    AllDigitsConcat(a, b);
  }

  /** With no id of this year in the store, the sequence starts at 1: `EE<year>0001`. */
  lemma FirstOfYear(orders: seq<Order>, year: nat)
    requires forall i :: 0 <= i < |orders| ==> !MatchesYear(orders[i], year)
    ensures GenerateOrderId(orders, year) == YearPrefix(year) + "0001"
  {
    assert LastOrderOfYear(orders, year).None?;
    assert IntToString(1) == "1";
    assert PadStart("1", 4, '0') == "0001" by {
      assert Repeat('0', 3) == "000";
    }
  }

  /** When the last four characters of the newest matching id read as n, the sequence is n + 1. */
  lemma ContinuesFromLast(orders: seq<Order>, year: nat, n: int)
    requires LastOrderOfYear(orders, year).Some?
    requires ParseInt(SliceLast(LastOrderOfYear(orders, year).value.orderId, 4)) == Some(n)
    ensures GenerateOrderId(orders, year) == FormatOrderId(year, n + 1)
  {
    var last := LastOrderOfYear(orders, year).value;
    assert StartsWith(last.orderId, YearPrefix(year));
  }

  /** When those four characters are not a number, the sequence falls back to 1. */
  lemma NonNumericFallsBack(orders: seq<Order>, year: nat)
    requires LastOrderOfYear(orders, year).Some?
    requires ParseInt(SliceLast(LastOrderOfYear(orders, year).value.orderId, 4)).None?
    ensures GenerateOrderId(orders, year) == FormatOrderId(year, 1)
  {
  }

  /** For 1 <= n <= 9999 the suffix is exactly four digits, and the last four characters read back as n. */
  lemma SequenceRoundTrip(year: nat, n: int)
    requires 1 <= n <= 9999
    ensures var id := FormatOrderId(year, n);
      && |id| == |YearPrefix(year)| + 4
      && ParseInt(SliceLast(id, 4)) == Some(n)
  {
    var suffix := PadStart(NatToString(n), 4, '0');
    PaddedSequence(n);
    var id := FormatOrderId(year, n);
    assert id == YearPrefix(year) + suffix;
    assert SliceLast(id, 4) == suffix;
    ParseIntDigits(suffix);
  }

  /** A sequence number below 10^4, padded to four, is four digits that denote it. */
  lemma PaddedSequence(n: int)
    requires 1 <= n <= 9999
    ensures var suffix := PadStart(NatToString(n), 4, '0');
      |suffix| == 4 && AllDigits(suffix) && DigitsValue(suffix) == n
  {
    NatToStringLength(n, 4);
    assert Pow10(4) == 10000;
    PaddedValue(n);
  }

  /** Reading back the id just generated for n, the generator continues with n + 1. */
  lemma NextAfter(o: Order, year: nat, n: int)
    requires 1 <= n <= 9999 && o.orderId == FormatOrderId(year, n)
    ensures NextSequence(Some(o)) == n + 1
  {
    SequenceRoundTrip(year, n);
  }

  /** Padding never truncates: from 10000 on, the full decimal number is appended. */
  lemma WideSequenceKept(year: nat, n: int)
    requires n >= 10000
    ensures FormatOrderId(year, n) == YearPrefix(year) + NatToString(n)
  {
    NatToStringLength(n, 4);
    assert Pow10(4) == 10000;
  }

  /** Only `EE<year>` ids are consulted: the hyphenated `EE-<year>-...` ids never match. */
  lemma HyphenatedNeverMatches(o: Order, year: nat)
    requires StartsWith(o.orderId, "EE-")
    ensures !MatchesYear(o, year)
  {
  }

  // ------------------------------------------- past 9999: the sequence wraps to 1

  /**
   * As written, the sequence after `EE<year>10000` reads back only "0000", so the next id
   * is `EE<year>0001` again: in a store that already holds the first id of the year, the
   * generated id is refused by the unique index.
   */
  lemma SequenceWrapsAfter9999(year: nat, first: Order, wide: Order)
    requires first.orderId == FormatOrderId(year, 1) && first.createdAt == 0
    requires wide.orderId == FormatOrderId(year, 10000) && wide.createdAt == 1
    ensures NextSequence(Some(wide)) == 1
    ensures GenerateOrderId([first, wide], year) == first.orderId
    ensures !Accepts([first, wide], first.(orderId := GenerateOrderId([first, wide], year)))
  {
    WideReadsZero(year, wide);
    FormatShape(year, 10000);
    assert MatchesYear(wide, year);
    var orders := [first, wide];
    assert orders[1] == wide;
    var last := LastOrderOfYear(orders, year);
    assert last.Some? && last.value.createdAt >= 1;
    assert last == Some(wide);
  }

  /** The last four characters of `EE<year>10000` are "0000", which reads as 0. */
  lemma WideReadsZero(year: nat, wide: Order)
    requires wide.orderId == FormatOrderId(year, 10000)
    ensures NextSequence(Some(wide)) == 1
  {
    WideSequenceKept(year, 10000);
    assert NatToString(10000) == "10000";
    assert SliceLast(wide.orderId, 4) == "0000";
    AllZerosValue(4);
    assert Repeat('0', 4) == "0000";
    ParseIntDigits("0000");
  }

  /** The sequence read from the whole text after `EE<year>`, not only its last four characters. */
  function NextSequenceFixed(last: Option<Order>, year: nat): int {
    var p := YearPrefix(year);
    if last.Some? && |last.value.orderId| > |p| then
      match ParseInt(last.value.orderId[|p|..])
      case Some(n) => n + 1
      case None => 1
    else 1
  }

  function GenerateOrderIdFixed(orders: seq<Order>, year: nat): string {
    FormatOrderId(year, NextSequenceFixed(LastOrderOfYear(orders, year), year))
  }

  /** Reading back any id the corrected generator formats, it continues with n + 1, with no upper bound. */
  lemma FixedNextAfter(o: Order, year: nat, n: nat)
    requires o.orderId == FormatOrderId(year, n)
    ensures NextSequenceFixed(Some(o), year) == n + 1
  {
    var p := YearPrefix(year);
    var suffix := PadStart(NatToString(n), 4, '0');
    assert IntToString(n) == NatToString(n);
    assert o.orderId == p + suffix;
    assert o.orderId[|p|..] == suffix;
    PaddedValue(n);
    ParseIntDigits(suffix);
  }

  /** Any padded sequence number is a string of digits denoting it. */
  lemma PaddedValue(n: nat)
    ensures var suffix := PadStart(NatToString(n), 4, '0');
      suffix != [] && AllDigits(suffix) && DigitsValue(suffix) == n
  {
    var digits := NatToString(n);
    var suffix := PadStart(digits, 4, '0');
    NatToStringValue(n);
    if |digits| < 4 {
      assert suffix == Repeat('0', 4 - |digits|) + digits;
      LeadingZerosValue(4 - |digits|, digits);
    } else {
      assert suffix == digits;
    }
  }

  /** The first id of the year is unchanged by the correction. */
  lemma FixedFirstOfYear(orders: seq<Order>, year: nat)
    requires forall i :: 0 <= i < |orders| ==> !MatchesYear(orders[i], year)
    ensures GenerateOrderIdFixed(orders, year) == GenerateOrderId(orders, year)
  {
  }
}
