/** Order numbers as the create page proposes them: "ORD" followed by the
    highest existing order id plus one, formatted with the .NET "D6" format
    (at least six decimal digits, zero padded, with a leading '-' for a
    negative value). */
module OrderNumbering {
  import opened Common

  const Prefix: string := "ORD"

  /** The number proposed when no order exists yet. */
  const FirstOrderNumber: string := "ORD000001"

  predicate IsDigit(c: char) {
    '0' <= c <= '9'
  }

  predicate AllDigits(s: string) {
    forall i :: 0 <= i < |s| ==> IsDigit(s[i])
  }

  function DigitChar(d: int): (c: char)
    requires 0 <= d < 10
    ensures IsDigit(c) && c as int - '0' as int == d
  {
    ('0' as int + d) as char
  }

  /** The shortest decimal spelling of `n`. */
  function Digits(n: nat): (s: string)
    ensures |s| >= 1 && AllDigits(s)
    ensures n > 0 ==> s[0] != '0'
    decreases n
  {
    if n < 10 then [DigitChar(n)] else Digits(n / 10) + [DigitChar(n % 10)]
  }

  /** The value of a string of decimal digits, leading zeros allowed. */
  function ParseDigits(s: string): nat
    requires AllDigits(s)
    decreases |s|
  {
    if s == [] then 0
    else ParseDigits(s[..|s| - 1]) * 10 + (s[|s| - 1] as int - '0' as int)
  }

  /** `s` left-padded with '0' to at least `width` characters. */
  function PadZeros(s: string, width: nat): (r: string)
    ensures |r| == if |s| >= width then |s| else width
    ensures r[|r| - |s|..] == s
    ensures forall i :: 0 <= i < |r| - |s| ==> r[i] == '0'
  {
    if |s| >= width then s else seq(width - |s|, _ => '0') + s
  }

  /** The .NET "D6" format of an integer. */
  function FormatD6(n: int): string {
    if n < 0 then "-" + PadZeros(Digits(-n), 6) else PadZeros(Digits(n), 6)
  }

  /** The number proposed after the order with the highest id `lastId`: the
      id plus one, in `int` arithmetic, so `int.MaxValue` wraps. */
  function OrderNumberAfter(lastId: int): string
    requires IsInt32(lastId)
  {
    Prefix + FormatD6(Int32Succ(lastId))
  }

  /** Parsing undoes `Digits`. */
  lemma {:induction false} ParseDigitsOfDigits(n: nat)
    ensures ParseDigits(Digits(n)) == n
    decreases n
  {
    if n >= 10 {
      var s := Digits(n);
      assert s[..|s| - 1] == Digits(n / 10);
      ParseDigitsOfDigits(n / 10);
    }
  }

  /** Leading zeros do not change the parsed value. */
  lemma {:induction false} ParseIgnoresLeadingZeros(k: nat, s: string)
    requires AllDigits(s)
    ensures AllDigits(seq(k, _ => '0') + s)
    ensures ParseDigits(seq(k, _ => '0') + s) == ParseDigits(s)
    decreases |s|
  {
    var z: string := seq(k, _ => '0');
    if s == [] {
      assert z + s == z;
      ZerosParseToZero(k);
    } else {
      var t := z + s;
      assert t[..|t| - 1] == z + s[..|s| - 1];
      ParseIgnoresLeadingZeros(k, s[..|s| - 1]);
    }
  }

  lemma {:induction false} ZerosParseToZero(k: nat)
    ensures AllDigits(seq(k, _ => '0'))
    ensures ParseDigits(seq(k, _ => '0')) == 0
    decreases k
  {
    if k > 0 {
      var z: string := seq(k, _ => '0');
      assert z[..k - 1] == seq(k - 1, _ => '0');
      ZerosParseToZero(k - 1);
    }
  }

  /** A padded decimal spelling still reads back as the number. */
  lemma PaddedDigitsParse(n: nat)
    ensures AllDigits(PadZeros(Digits(n), 6))
    ensures |PadZeros(Digits(n), 6)| >= 6
    ensures ParseDigits(PadZeros(Digits(n), 6)) == n
  {
    var s := Digits(n);
    ParseDigitsOfDigits(n);
    if |s| < 6 {
      ParseIgnoresLeadingZeros(6 - |s|, s);
    }
  }

  /** For a non-negative successor the order number is "ORD" followed by a
      string of at least six digits that reads back as `lastId + 1`; so
      numbers proposed after larger ids have larger numeric suffixes. */
  lemma OrderNumberSuffix(lastId: int)
    requires 0 <= lastId < MaxInt32
    ensures var s := OrderNumberAfter(lastId);
      && |s| >= 9
      && s[..3] == Prefix
      && AllDigits(s[3..])
      && ParseDigits(s[3..]) == lastId + 1
  {
    var n := Int32Succ(lastId);
    assert n == lastId + 1;
    var body := PadZeros(Digits(n), 6);
    assert FormatD6(n) == body;
    var s := OrderNumberAfter(lastId);
    assert s == Prefix + body;
    PaddedDigitsParse(n);
    assert s[3..] == body;
    assert s[..3] == Prefix;
  }

  /** Reads a "D6" spelling back: an optional '-' and then at least one
      decimal digit; anything else is malformed. */
  function ReadD6(s: string): Option<int> {
    if |s| > 1 && s[0] == '-' && AllDigits(s[1..]) then Some(-(ParseDigits(s[1..]) as int))
    else if |s| > 0 && s[0] != '-' && AllDigits(s) then Some(ParseDigits(s))
    else None
  }

  /** "D6" formatting loses nothing: every integer reads back from its
      spelling. */
  lemma FormatD6ReadsBack(n: int)
    ensures ReadD6(FormatD6(n)) == Some(n)
  {
    if n < 0 {
      var m: nat := -n;
      var body := PadZeros(Digits(m), 6);
      PaddedDigitsParse(m);
      assert FormatD6(n) == "-" + body;
      SignedReadsBack(body, m);
    } else {
      var body := PadZeros(Digits(n), 6);
      PaddedDigitsParse(n);
      assert FormatD6(n) == body;
      UnsignedReadsBack(body, n);
    }
  }

  lemma SignedReadsBack(body: string, m: nat)
    requires |body| > 0 && AllDigits(body) && ParseDigits(body) == m
    ensures ReadD6("-" + body) == Some(-(m as int))
  {
    assert ("-" + body)[1..] == body;
  }

  lemma UnsignedReadsBack(body: string, m: nat)
    requires |body| > 0 && AllDigits(body) && ParseDigits(body) == m
    ensures ReadD6(body) == Some(m)
  {
    assert IsDigit(body[0]);
  }

  /** "D6" formatting is injective, since it reads back. */
  lemma FormatD6Injective(a: int, b: int)
    requires a != b
    ensures FormatD6(a) != FormatD6(b)
  {
    FormatD6ReadsBack(a);
    FormatD6ReadsBack(b);
  }

  /** Distinct last ids give distinct proposed order numbers. */
  lemma OrderNumberInjective(a: int, b: int)
    requires IsInt32(a) && IsInt32(b) && a != b
    ensures OrderNumberAfter(a) != OrderNumberAfter(b)
  {
    Int32SuccInjective(a, b);
    FormatD6Injective(Int32Succ(a), Int32Succ(b));
    var sa, sb := OrderNumberAfter(a), OrderNumberAfter(b);
    assert sa[3..] == FormatD6(Int32Succ(a));
    assert sb[3..] == FormatD6(Int32Succ(b));
  }

  /** The highest order id among the existing ones, or None when there is
      none: `OrderByDescending(o => o.OrderId).FirstOrDefault()` over the ids
      as the Orders table yields them. */
  function LastOrderId(ids: seq<int>): (r: Option<int>)
    ensures r.None? <==> ids == []
    ensures r.Some? ==> r.value in ids && forall k :: k in ids ==> k <= r.value
  {
    if ids == [] then None else Some(MaxBy(ids, (k: int) => k))
  }

  /** The number the create page proposes, given the ids of the existing
      orders. */
  function ProposedOrderNumber(ids: seq<int>): (s: string)
    requires forall k :: k in ids ==> IsInt32(k)
    ensures ids == [] ==> s == FirstOrderNumber
    ensures ids != [] ==> exists m :: m in ids && (forall k :: k in ids ==> k <= m) && s == OrderNumberAfter(m)
  {
    match LastOrderId(ids)
    case None => FirstOrderNumber
    case Some(m) => OrderNumberAfter(m)
  }
  /** Once an order is stored under an id above every existing one, the next
      proposed number has a strictly larger numeric suffix than the one
      proposed before it. */
  lemma SuffixGrowsAfterPlacement(ids: seq<int>, id: int)
    requires forall k :: k in ids ==> 1 <= k < id
    requires 1 <= id < MaxInt32
    ensures var before, after := ProposedOrderNumber(ids), ProposedOrderNumber(ids + [id]);
      && |before| >= 9 && AllDigits(before[3..])
      && |after| >= 9 && AllDigits(after[3..])
      && ParseDigits(before[3..]) <= id < ParseDigits(after[3..]) == id + 1
  {
    NewHighestIsProposed(ids, id);
    OrderNumberSuffix(id);
    ProposedSuffixAtMost(ids, id);
  }

  lemma NewHighestIsProposed(ids: seq<int>, id: int)
    requires forall k :: k in ids ==> k < id
    requires IsInt32(id) && forall k :: k in ids ==> IsInt32(k)
    ensures ProposedOrderNumber(ids + [id]) == OrderNumberAfter(id)
  {
    var ids' := ids + [id];
    assert id in ids';
    assert forall k :: k in ids' ==> k in ids || k == id;
    assert LastOrderId(ids') == Some(id);
  }

  lemma ProposedSuffixAtMost(ids: seq<int>, id: int)
    requires forall k :: k in ids ==> 1 <= k < id
    requires 1 <= id <= MaxInt32
    ensures var before := ProposedOrderNumber(ids);
      |before| >= 9 && AllDigits(before[3..]) && ParseDigits(before[3..]) <= id
  {
    if ids == [] {
      FirstIsAfterZero();
      OrderNumberSuffix(0);
    } else {
      var n := LastOrderId(ids).value;
      assert ProposedOrderNumber(ids) == OrderNumberAfter(n);
      OrderNumberSuffix(n);
    }
  }

  lemma FirstIsAfterZero()
    ensures OrderNumberAfter(0) == FirstOrderNumber
  {
    assert Digits(1) == "1";
    assert PadZeros("1", 6) == "000001";
  }

}
