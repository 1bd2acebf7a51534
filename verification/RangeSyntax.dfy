/** Lists of integers and ranges as text: what the parser makes of a string, and that it reads back everything
  * the notation can express. */
module RangeSyntax {
  import opened Wrappers

  const INT_MAX: int := 0x7FFF_FFFF
  const INT_MIN: int := -0x8000_0000
  const LONG_MAX: int := 0x7FFF_FFFF_FFFF_FFFF
  const LONG_MIN: int := -0x8000_0000_0000_0000

  /** The numbers a result can hold: the size in bytes of the next 32 more is a 32-bit 0. */
  const MAX_NUMBERS: nat := 0x4000_0000 - 32

  /** The program exits on a malformed number; stepping an int past its maximum is undefined; a result that
    * is to grow to no bytes ends the program, or the next store is outside it. */
  datatype Outcome =
    | Malformed
    | Overflow
    | Oversize
    | Values(list: seq<int>)

  // ----- numbers -----

  predicate IsDigit(c: char) {
    '0' <= c <= '9'
  }

  predicate IsSpace(c: char) {
    c == ' ' || 9 as char <= c <= 13 as char
  }

  function DigitValue(c: char): nat
    requires IsDigit(c)
  {
    c as int - '0' as int
  }

  function SkipSpaces(s: string): string {
    if s != "" && IsSpace(s[0]) then SkipSpaces(s[1..]) else s
  }

  function CountDigits(s: string): (d: nat)
    ensures d <= |s| && forall j | 0 <= j < d :: IsDigit(s[j])
    ensures d < |s| ==> !IsDigit(s[d])
  {
    if s != "" && IsDigit(s[0]) then 1 + CountDigits(s[1..]) else 0
  }

  function Value(ds: string): nat
    requires forall j | 0 <= j < |ds| :: IsDigit(ds[j])
  {
    if ds == "" then 0 else 10 * Value(ds[..|ds| - 1]) + DigitValue(ds[|ds| - 1])
  }

  function Clamp(x: int): int {
    if x > LONG_MAX then LONG_MAX else if x < LONG_MIN then LONG_MIN else x
  }

  /** A long number in base 10, as `strtol` reads it, that must extend to the end of the string. */
  function ParseInt(s: string): Option<int> {
    var t := SkipSpaces(s);
    var signed := t != "" && (t[0] == '-' || t[0] == '+');
    var u := if signed then t[1..] else t;
    var d := CountDigits(u);
    if d == 0 then (if s == "" then Some(0) else None)
    else if d < |u| then None
    else
      var v: int := Value(u);
      Some(Clamp(if signed && t[0] == '-' then -v else v))
  }

  /** Conversion of a long to a 32-bit int. */
  function ToInt(x: int): int {
    (x + 0x8000_0000) % 0x1_0000_0000 - 0x8000_0000
  }

  function PrintNat(n: nat): string {
    if n < 10 then [('0' as int + n) as char] else PrintNat(n / 10) + [('0' as int + n % 10) as char]
  }

  function PrintInt(n: int): string {
    if n < 0 then "-" + PrintNat(-n) else PrintNat(n)
  }

  lemma {:induction false} PrintedDigits(n: nat)
    ensures PrintNat(n) != "" && forall j | 0 <= j < |PrintNat(n)| :: IsDigit(PrintNat(n)[j])
    ensures Value(PrintNat(n)) == n
  {
    if 10 <= n {
      PrintedDigits(n / 10);
      assert PrintNat(n)[..|PrintNat(n)| - 1] == PrintNat(n / 10);
    } else {
      assert PrintNat(n)[..0] == "";
    }
  }

  lemma {:induction false} AllDigits(s: string)
    requires forall j | 0 <= j < |s| :: IsDigit(s[j])
    ensures CountDigits(s) == |s|
  {
    if s != "" {
      AllDigits(s[1..]);
    }
  }

  /** A printed number reads back as itself. */
  lemma ReadsBack(n: int)
    requires LONG_MIN <= n <= LONG_MAX
    ensures ParseInt(PrintInt(n)) == Some(n)
  {
    var digits := PrintNat(if n < 0 then -n else n);
    PrintedDigits(if n < 0 then -n else n);
    AllDigits(digits);
    assert n < 0 ==> PrintInt(n)[1..] == digits;
    assert IsDigit(digits[0]);
  }

  // ----- fields -----

  /** Where a character first occurs; the length if it does not. */
  function IndexOf(s: string, c: char): (i: nat)
    ensures i <= |s| && (i < |s| ==> s[i] == c) && forall j | 0 <= j < i :: s[j] != c
  {
    if s == "" || s[0] == c then 0 else 1 + IndexOf(s[1..], c)
  }

  lemma IndexIs(s: string, c: char, i: nat)
    requires i <= |s| && (i < |s| ==> s[i] == c) && forall j | 0 <= j < i :: s[j] != c
    ensures IndexOf(s, c) == i
  {
  }

  function UpTo(a: int, b: int): (r: seq<int>)
    ensures |r| == if a > b then 0 else b - a + 1
    ensures forall j | 0 <= j < |r| :: r[j] == a + j
  {
    if a > b then [] else seq(b - a + 1, j => a + j)
  }

  /** The numbers of a range, when the result already holds `have`; counting up to the largest int never
    * ends, unless the result cannot hold the numbers up to it. */
  function RangeValues(a: int, b: int, have: nat): Outcome {
    if a <= b && MAX_NUMBERS < have + |UpTo(a, b)| then Oversize
    else if a <= b && b == INT_MAX then Overflow
    else Values(UpTo(a, b))
  }

  function OneValue(i: int, have: nat): Outcome {
    if MAX_NUMBERS < have + 1 then Oversize else Values([i])
  }

  /** One field: empty, a number, or two numbers with a dash between them. */
  function ParseField(f: string, have: nat): Outcome {
    if f == "" then Values([])
    else
      var off := if f[0] == '-' then 1 else 0;
      var p := IndexOf(f[off..], '-');
      if off + p == |f| then
        match ParseInt(f)
        case None => Malformed
        case Some(i) => OneValue(ToInt(i), have)
      else
        match ParseInt(f[..off + p])
        case None => Malformed
        case Some(a) =>
          match ParseInt(f[off + p + 1..])
          case None => Malformed
          case Some(b) => RangeValues(ToInt(a), ToInt(b), have)
  }

  function Prepend(o: Outcome, rest: Outcome): Outcome {
    if o.Values? && rest.Values? then Values(o.list + rest.list) else if o.Values? then rest else o
  }

  /** The fields from left to right; `have` numbers are in the result already. */
  function Parse(s: string, have: nat): Outcome {
    var e := IndexOf(s, ',');
    var o := ParseField(s[..e], have);
    if e == |s| || !o.Values? then o else Prepend(o, Parse(s[e + 1..], have + |o.list|))
  }

  // ----- round trip -----

  datatype Item = One(n: int) | Range(lo: int, hi: int)

  predicate IsInt(n: int) {
    INT_MIN <= n <= INT_MAX
  }

  predicate ValidItem(item: Item) {
    match item
    case One(n) => IsInt(n)
    case Range(lo, hi) => IsInt(lo) && IsInt(hi)
  }

  function PrintItem(item: Item): string {
    match item
    case One(n) => PrintInt(n)
    case Range(lo, hi) => PrintInt(lo) + "-" + PrintInt(hi)
  }

  function Print(items: seq<Item>): string {
    if items == [] then ""
    else if |items| == 1 then PrintItem(items[0])
    else PrintItem(items[0]) + "," + Print(items[1..])
  }

  function ItemValues(item: Item): seq<int> {
    match item
    case One(n) => [n]
    case Range(lo, hi) => UpTo(lo, hi)
  }

  function Expand(items: seq<Item>): seq<int> {
    if items == [] then [] else ItemValues(items[0]) + Expand(items[1..])
  }

  /** Counting to the end of the range stays within the ints. */
  predicate Countable(item: Item) {
    item.Range? && item.lo <= item.hi ==> item.hi < INT_MAX
  }

  lemma PrintedInt(n: int)
    ensures PrintInt(n) != "" && (PrintInt(n)[0] == '-' <==> n < 0)
    ensures n < 0 ==> 1 < |PrintInt(n)|
    ensures forall j | (if n < 0 then 1 else 0) <= j < |PrintInt(n)| :: IsDigit(PrintInt(n)[j])
  {
    PrintedDigits(if n < 0 then -n else n);
    assert IsDigit(PrintNat(if n < 0 then -n else n)[0]);
  }

  lemma NoComma(item: Item)
    ensures PrintItem(item) != "" && forall j | 0 <= j < |PrintItem(item)| :: PrintItem(item)[j] != ','
  {
    match item
    case One(n) => PrintedInt(n);
    case Range(lo, hi) =>
      PrintedInt(lo);
      PrintedInt(hi);
  }

  lemma IntStays(n: int)
    requires IsInt(n)
    ensures ToInt(n) == n && LONG_MIN <= n <= LONG_MAX
  {
  }

  lemma OneReadsBack(n: int, have: nat)
    requires IsInt(n)
    ensures ParseField(PrintInt(n), have) == OneValue(n, have)
  {
    hide ParseInt, PrintInt, ToInt, RangeValues;
    var f, off := PrintInt(n), if n < 0 then 1 else 0;
    PrintedInt(n);
    IntStays(n);
    ReadsBack(n);
    IndexIs(f[off..], '-', |f| - off);
  }

  lemma RangeReadsBack(lo: int, hi: int, have: nat)
    requires IsInt(lo) && IsInt(hi)
    ensures ParseField(PrintInt(lo) + "-" + PrintInt(hi), have) == RangeValues(lo, hi, have)
  {
    hide ParseInt, PrintInt, ToInt, RangeValues;
    var a, b, off := PrintInt(lo), PrintInt(hi), if lo < 0 then 1 else 0;
    var f := a + "-" + b;
    PrintedInt(lo);
    IntStays(lo);
    IntStays(hi);
    ReadsBack(lo);
    ReadsBack(hi);
    assert f[0] == a[0];
    IndexIs(f[off..], '-', |a| - off);
    assert f[..|a|] == a && f[|a| + 1..] == b;
  }

  /** What parsing one printed item gives. */
  function ItemOutcome(item: Item, have: nat): (o: Outcome)
    requires ValidItem(item) && have <= MAX_NUMBERS
    ensures o.Values? <==> have + |ItemValues(item)| <= MAX_NUMBERS && Countable(item)
    ensures if o.Values? then o.list == ItemValues(item) else o.Overflow? || o.Oversize?
  {
    match item
    case One(n) => OneValue(n, have)
    case Range(lo, hi) => RangeValues(lo, hi, have)
  }

  lemma FieldReadsBack(item: Item, have: nat)
    requires ValidItem(item) && have <= MAX_NUMBERS
    ensures ParseField(PrintItem(item), have) == ItemOutcome(item, have)
  {
    hide ParseField, PrintInt, OneValue, RangeValues;
    match item
    case One(n) => OneReadsBack(n, have);
    case Range(lo, hi) => RangeReadsBack(lo, hi, have);
  }

  predicate AllCountable(items: seq<Item>) {
    forall j | 0 <= j < |items| :: Countable(items[j])
  }

  /** The first item of a printed list is its first field, and the printed rest is what follows. */
  lemma FirstField(items: seq<Item>, have: nat)
    requires items != [] && ValidItem(items[0]) && have <= MAX_NUMBERS
    ensures var o := ItemOutcome(items[0], have);
            Parse(Print(items), have) ==
            if |items| == 1 || !o.Values? then o else Prepend(o, Parse(Print(items[1..]), have + |o.list|))
  {
    hide ParseField, PrintItem, ItemOutcome;
    var f, s := PrintItem(items[0]), Print(items);
    FieldReadsBack(items[0], have);
    NoComma(items[0]);
    IndexIs(s, ',', |f|);
    assert s[..|f|] == f;
    if |items| != 1 {
      assert s[|f| + 1..] == Print(items[1..]);
    }
  }

  /** Parsing what was printed gives the expansions in order, exactly if no range has to count up to the
    * largest int and the result can hold them all. */
  lemma {:induction false} RoundTrip(items: seq<Item>, have: nat)
    requires have <= MAX_NUMBERS && forall j | 0 <= j < |items| :: ValidItem(items[j])
    ensures Parse(Print(items), have) == Values(Expand(items)) <==>
            AllCountable(items) && have + |Expand(items)| <= MAX_NUMBERS
    ensures var o := Parse(Print(items), have); o == Values(Expand(items)) || o.Overflow? || o.Oversize?
  {
    hide Parse, Print, Countable, ItemValues, ItemOutcome;
    if |items| == 0 {
      EmptyField(have);
    } else {
      FirstField(items, have);
      var o, rest := ItemOutcome(items[0], have), items[1..];
      assert AllCountable(items) <==> Countable(items[0]) && AllCountable(rest) by {
        assert forall j | 1 <= j < |items| :: items[j] == rest[j - 1];
      }
      if |items| == 1 {
        assert Expand(items) == ItemValues(items[0]) + Expand([]) == ItemValues(items[0]);
      } else if o.Values? {
        RoundTrip(rest, have + |o.list|);
      }
    }
  }

  lemma EmptyField(have: nat)
    ensures Print([]) == "" && Parse("", have) == Values([])
  {
  }

  /** A list that fails although every number in it is far below the largest int: 2^30 numbers. */
  lemma TooManyNumbers()
    ensures Print([Range(0, 0x3FFF_FFFF)]) == "0-1073741823" && Countable(Range(0, 0x3FFF_FFFF))
    ensures Parse("0-1073741823", 0) == Oversize
  {
    hide Parse, ParseField;
    var item := Range(0, 0x3FFF_FFFF);
    PrintsTenDigits();
    assert PrintItem(item) == "0-1073741823";
    ParsesAlone(item);
  }

  /** And one that fails on a single number. */
  lemma CountsPastMaximum()
    ensures Print([Range(INT_MAX, INT_MAX)]) == "2147483647-2147483647"
    ensures Parse("2147483647-2147483647", 0) == Overflow
  {
    hide Parse, ParseField;
    var item := Range(INT_MAX, INT_MAX);
    PrintsTenDigits();
    assert PrintItem(item) == "2147483647-2147483647";
    ParsesAlone(item);
  }

  lemma ParsesAlone(item: Item)
    requires ValidItem(item)
    ensures Parse(PrintItem(item), 0) == ItemOutcome(item, 0) && Print([item]) == PrintItem(item)
  {
    hide PrintItem, ParseField, ItemOutcome;
    var f := PrintItem(item);
    NoComma(item);
    FieldReadsBack(item, 0);
    IndexIs(f, ',', |f|);
    assert f[..|f|] == f;
  }

  lemma PrintsTenDigits()
    ensures PrintInt(0) == "0" && PrintInt(0x3FFF_FFFF) == "1073741823" && PrintInt(INT_MAX) == "2147483647"
  {
    hide PrintNat;
    PrintsOne(0, "0");
    PrintsOne(1, "1");
    PrintsNext(10, "1", "10");
    PrintsNext(107, "10", "107");
    PrintsNext(1073, "107", "1073");
    PrintsNext(10737, "1073", "10737");
    PrintsNext(107374, "10737", "107374");
    PrintsNext(1073741, "107374", "1073741");
    PrintsNext(10737418, "1073741", "10737418");
    PrintsNext(107374182, "10737418", "107374182");
    PrintsNext(1073741823, "107374182", "1073741823");
    PrintsOne(2, "2");
    PrintsNext(21, "2", "21");
    PrintsNext(214, "21", "214");
    PrintsNext(2147, "214", "2147");
    PrintsNext(21474, "2147", "21474");
    PrintsNext(214748, "21474", "214748");
    PrintsNext(2147483, "214748", "2147483");
    PrintsNext(21474836, "2147483", "21474836");
    PrintsNext(214748364, "21474836", "214748364");
    PrintsNext(2147483647, "214748364", "2147483647");
  }

  lemma PrintsOne(n: nat, s: string)
    requires n < 10 && s == [('0' as int + n) as char]
    ensures PrintNat(n) == s
  {
  }

  lemma PrintsNext(n: nat, before: string, s: string)
    requires 10 <= n && PrintNat(n / 10) == before && s == before + [('0' as int + n % 10) as char]
    ensures PrintNat(n) == s
  {
  }
}
