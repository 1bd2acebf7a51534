/** What the parser accepts and what it makes of it, said of places in the string: which strings are numbers
  * and what they are worth, how a list falls into fields, and when a list is rejected. */
module RangeMeaning {
  import opened RangeSyntax
  import opened Wrappers

  // ----- numbers -----

  /** Spaces up to place `k`, at most a sign, and one or more digits from place `d` to the end. */
  predicate SpelledAt(s: string, k: nat, d: nat) {
    && k <= d <= k + 1 && d < |s|
    && (forall j | 0 <= j < k :: s[j] == ' ' || 9 <= s[j] as int <= 13)
    && (d == k + 1 ==> s[k] == '-' || s[k] == '+')
    && (forall j | d <= j < |s| :: '0' <= s[j] <= '9')
  }

  function PowerOfTen(n: nat): nat {
    if n == 0 then 1 else 10 * PowerOfTen(n - 1)
  }

  /** The digits weighted by their places. */
  function Worth(digits: string): int {
    if digits == "" then 0
    else (digits[0] as int - '0' as int) * PowerOfTen(|digits| - 1) + Worth(digits[1..])
  }

  /** The long nearest to `v`. */
  predicate IsNearest(x: int, v: int) {
    && -0x8000_0000_0000_0000 <= x <= 0x7FFF_FFFF_FFFF_FFFF
    && (v < x ==> x == -0x8000_0000_0000_0000) && (x < v ==> x == 0x7FFF_FFFF_FFFF_FFFF)
  }

  /** The string spells the number `x`; the empty string counts as 0. */
  ghost predicate Spells(s: string, x: int) {
    || (s == "" && x == 0)
    || exists k: nat, d: nat :: SpelledAt(s, k, d)
         && IsNearest(x, if k < d && s[k] == '-' then -Worth(s[d..]) else Worth(s[d..]))
  }

  ghost predicate IsNumber(s: string) {
    s == "" || exists k: nat, d: nat :: SpelledAt(s, k, d)
  }

  lemma {:induction false} WorthAppend(a: string, c: char)
    ensures Worth(a + [c]) == 10 * Worth(a) + (c as int - '0' as int)
  {
    if a == "" {
      assert a + [c] == [c] && [c][1..] == "";
    } else {
      assert (a + [c])[1..] == a[1..] + [c];
      WorthAppend(a[1..], c);
      TenTimes(a[0] as int - '0' as int, PowerOfTen(|a| - 1));
    }
  }

  lemma TenTimes(x: int, p: nat)
    ensures x * (10 * p) == 10 * (x * p)
  {
  }

  lemma {:induction false} ValueIsWorth(digits: string)
    requires forall j | 0 <= j < |digits| :: IsDigit(digits[j])
    ensures Value(digits) == Worth(digits)
  {
    if digits != "" {
      var n := |digits| - 1;
      ValueIsWorth(digits[..n]);
      WorthAppend(digits[..n], digits[n]);
      assert digits[..n] + [digits[n]] == digits;
    }
  }

  lemma {:induction false} SkipsTo(s: string, k: nat)
    requires k <= |s| && (forall j | 0 <= j < k :: IsSpace(s[j])) && (k < |s| ==> !IsSpace(s[k]))
    ensures SkipSpaces(s) == s[k..]
  {
    if 0 < k {
      SkipsTo(s[1..], k - 1);
      assert s[1..][k - 1..] == s[k..];
    }
  }

  lemma {:induction false} SkippedAt(s: string) returns (k: nat)
    ensures k <= |s| && SkipSpaces(s) == s[k..] && forall j | 0 <= j < k :: IsSpace(s[j])
  {
    if s != "" && IsSpace(s[0]) {
      k := SkippedAt(s[1..]);
      assert s[1..][k..] == s[k + 1..];
      k := k + 1;
    } else {
      k := 0;
    }
  }

  /** A spelled string is read to its end, as what it is worth. */
  lemma ReadsSpelled(s: string, k: nat, d: nat)
    requires SpelledAt(s, k, d)
    ensures ParseInt(s).Some?
    ensures IsNearest(ParseInt(s).value, if k < d && s[k] == '-' then -Worth(s[d..]) else Worth(s[d..]))
  {
    SkipsTo(s, k);
    var u := s[d..];
    assert k < d ==> s[k..][1..] == u;
    AllDigits(u);
    ValueIsWorth(u);
    hide SkipSpaces, CountDigits, Value, Worth;
    assert s[k..][0] == s[k];
  }

  /** Reading a number succeeds exactly for numbers, and gives exactly what they spell. */
  lemma ParseIntMeaning(s: string, x: int)
    ensures ParseInt(s).Some? <==> IsNumber(s)
    ensures ParseInt(s) == Some(x) <==> Spells(s, x)
  {
    if ParseInt(s).Some? && s != "" {
      var k, d := SpellingOf(s);
    }
    forall k: nat, d: nat | SpelledAt(s, k, d)
      ensures ParseInt(s).Some?
      ensures IsNearest(ParseInt(s).value, if k < d && s[k] == '-' then -Worth(s[d..]) else Worth(s[d..]))
    {
      ReadsSpelled(s, k, d);
    }
    hide ParseInt, Worth, SpelledAt;
    EmptyNumber();
  }

  lemma EmptyNumber()
    ensures ParseInt("") == Some(0)
  {
  }

  lemma SpellingOf(s: string) returns (k: nat, d: nat)
    requires ParseInt(s).Some? && s != ""
    ensures SpelledAt(s, k, d)
  {
    k := SkippedAt(s);
    var t := SkipSpaces(s);
    var signed := t != "" && (t[0] == '-' || t[0] == '+');
    d := if signed then k + 1 else k;
    var u := if signed then t[1..] else t;
    hide SkipSpaces, Value;
    assert CountDigits(u) == |u| > 0;
    assert u == s[d..];
    forall j | d <= j < |s|
      ensures '0' <= s[j] <= '9'
    {
      assert s[j] == u[j - d] && IsDigit(u[j - d]);
    }
  }

  /** Conversion to an int keeps the value modulo 2^32. */
  lemma ToIntMeaning(x: int)
    ensures -0x8000_0000 <= ToInt(x) < 0x8000_0000 && (ToInt(x) - x) % 0x1_0000_0000 == 0
  {
  }

  // ----- fields -----

  /** The first dash after the first character. */
  predicate DashAt(f: string, p: nat) {
    1 <= p < |f| && f[p] == '-' && forall j | 1 <= j < p :: f[j] != '-'
  }

  predicate NoDash(f: string) {
    forall j | 1 <= j < |f| :: f[j] != '-'
  }

  /** A field that is neither empty, nor a number, nor two numbers with a dash between them. */
  ghost predicate BadField(f: string) {
    && f != ""
    && (NoDash(f) ==> !IsNumber(f))
    && (forall p: nat | DashAt(f, p) :: !IsNumber(f[..p]) || !IsNumber(f[p + 1..]))
  }

  lemma SingleField(f: string, have: nat)
    requires f != "" && NoDash(f)
    ensures ParseField(f, have) == match ParseInt(f) case None => Malformed case Some(x) => OneValue(ToInt(x), have)
  {
    hide ParseInt, ToInt, OneValue, RangeValues;
    var off := if f[0] == '-' then 1 else 0;
    IndexIs(f[off..], '-', |f| - off);
  }

  lemma DashedField(f: string, p: nat, have: nat)
    requires DashAt(f, p)
    ensures ParseField(f, have) ==
            match (ParseInt(f[..p]), ParseInt(f[p + 1..]))
            case (Some(a), Some(b)) => RangeValues(ToInt(a), ToInt(b), have)
            case _ => Malformed
  {
    hide ParseInt, ToInt, OneValue, RangeValues;
    var off := if f[0] == '-' then 1 else 0;
    IndexIs(f[off..], '-', p - off);
  }

  lemma FirstDash(f: string) returns (p: nat)
    requires f != "" && !NoDash(f)
    ensures DashAt(f, p)
  {
    p := 1 + IndexOf(f[1..], '-');
    assert forall j | 1 <= j < |f| :: f[j] == f[1..][j - 1];
  }

  /** A field that spells a number adds that number; one that spells two adds the range; exactly a bad field is
    * malformed. */
  lemma FieldMeaning(f: string, have: nat)
    ensures ParseField(f, have).Malformed? <==> BadField(f)
    ensures f == "" ==> ParseField(f, have) == Values([])
    ensures forall x | f != "" && NoDash(f) && Spells(f, x) :: ParseField(f, have) == OneValue(ToInt(x), have)
    ensures forall p: nat, a, b | DashAt(f, p) && Spells(f[..p], a) && Spells(f[p + 1..], b) ::
              ParseField(f, have) == RangeValues(ToInt(a), ToInt(b), have)
  {
    hide ParseInt, ToInt, Spells, IsNumber, ParseField;
    if f == "" {
      EmptyAdds(have);
    } else if NoDash(f) {
      SingleField(f, have);
      ParseIntMeaning(f, 0);
      forall x | Spells(f, x)
        ensures ParseField(f, have) == OneValue(ToInt(x), have)
      {
        ParseIntMeaning(f, x);
      }
    } else {
      var p := FirstDash(f);
      DashedField(f, p, have);
      ParseIntMeaning(f[..p], 0);
      ParseIntMeaning(f[p + 1..], 0);
      forall a, b | Spells(f[..p], a) && Spells(f[p + 1..], b)
        ensures ParseField(f, have) == RangeValues(ToInt(a), ToInt(b), have)
      {
        ParseIntMeaning(f[..p], a);
        ParseIntMeaning(f[p + 1..], b);
      }
    }
  }

  lemma EmptyAdds(have: nat)
    ensures ParseField("", have) == Values([])
  {
  }

  // ----- lists -----

  /** Fields with a comma between each two. */
  function Join(fields: seq<string>): string {
    if fields == [] then ""
    else if |fields| == 1 then fields[0]
    else fields[0] + "," + Join(fields[1..])
  }

  predicate AreFields(fields: seq<string>) {
    fields != [] && forall j | 0 <= j < |fields| :: ',' !in fields[j]
  }

  /** Every string falls into fields. */
  lemma {:induction false} Split(s: string) returns (fields: seq<string>)
    ensures AreFields(fields) && Join(fields) == s
    decreases |s|
  {
    var e := IndexOf(s, ',');
    if e == |s| {
      fields := [s];
    } else {
      var rest := Split(s[e + 1..]);
      fields := [s[..e]] + rest;
      assert fields[1..] == rest && s == s[..e] + "," + s[e + 1..];
    }
  }

  /** The fields one after the other, up to the first that adds no numbers. */
  function InOrder(fields: seq<string>, have: nat): Outcome {
    if fields == [] then Values([])
    else
      match ParseField(fields[0], have)
      case Values(list) => Prepend(Values(list), InOrder(fields[1..], have + |list|))
      case o => o
  }

  lemma {:induction false} ParseIsInOrder(fields: seq<string>, have: nat)
    requires AreFields(fields)
    ensures Parse(Join(fields), have) == InOrder(fields, have)
    decreases |fields|
  {
    hide ParseField;
    var f, s := fields[0], Join(fields);
    IndexIs(s, ',', |f|) by {
      assert forall j | 0 <= j < |f| :: s[j] == f[j] && f[j] in f;
    }
    assert s[..|f|] == f;
    if |fields| == 1 {
      assert InOrder(fields[1..], have) == Values([]);
      NothingAfter(ParseField(f, have));
    } else {
      assert s[|f| + 1..] == Join(fields[1..]);
      if ParseField(f, have).Values? {
        ParseIsInOrder(fields[1..], have + |ParseField(f, have).list|);
      }
    }
  }

  lemma NothingAfter(o: Outcome)
    ensures Prepend(o, Values([])) == o
  {
    if o.Values? {
      assert o.list + [] == o.list;
    }
  }

  /** A list is rejected exactly if the first of its fields that adds no numbers is a bad one. */
  lemma {:induction false} MalformedExactly(fields: seq<string>, have: nat)
    ensures InOrder(fields, have).Malformed? <==>
            exists k: nat :: k < |fields| && BadField(fields[k]) && InOrder(fields[..k], have).Values?
    decreases |fields|
  {
    hide ParseField, BadField, InOrder;
    if fields == [] {
      assert InOrder(fields, have) == Values([]) by {
        PrefixStarts(fields, have, 0);
      }
    } else {
      var o := ParseField(fields[0], have);
      FieldMeaning(fields[0], have);
      PrefixStarts(fields, have, 0);
      PrefixStarts(fields, have, |fields|);
      assert fields[..|fields|] == fields;
      if BadField(fields[0]) {
        assert fields[..0] == [] && InOrder(fields[..0], have).Values?;
      } else {
        forall k: nat | 0 < k < |fields|
          ensures InOrder(fields[..k], have).Values? <==>
                  o.Values? && InOrder(fields[1..][..k - 1], have + |o.list|).Values?
        {
          PrefixStarts(fields, have, k);
        }
        if o.Values? {
          MalformedExactly(fields[1..], have + |o.list|);
          assert fields[1..][..|fields| - 1] == fields[1..];
          LaterField(fields, have, have + |o.list|);
        }
      }
    }
  }

  /** What the first `k` fields come to starts with the first one. */
  lemma PrefixStarts(fields: seq<string>, have: nat, k: nat)
    requires k <= |fields|
    ensures k == 0 ==> InOrder(fields[..k], have) == Values([])
    ensures 0 < k ==>
              var o := ParseField(fields[0], have);
              InOrder(fields[..k], have) ==
              if o.Values? then Prepend(o, InOrder(fields[1..][..k - 1], have + |o.list|)) else o
  {
    hide ParseField;
    if 0 < k {
      assert fields[..k][0] == fields[0] && fields[..k][1..] == fields[1..][..k - 1];
    }
  }

  /** A bad field of the rest is one of the whole. */
  lemma LaterField(fields: seq<string>, have: nat, have': nat)
    requires fields != [] && !BadField(fields[0])
    requires forall k: nat | 0 < k < |fields| ::
               InOrder(fields[..k], have).Values? <==> InOrder(fields[1..][..k - 1], have').Values?
    ensures (exists k: nat :: k < |fields| && BadField(fields[k]) && InOrder(fields[..k], have).Values?) <==>
            (exists k: nat :: k < |fields[1..]| && BadField(fields[1..][k]) && InOrder(fields[1..][..k], have').Values?)
  {
    hide BadField, InOrder;
    var rest := fields[1..];
    if k: nat :| k < |rest| && BadField(rest[k]) && InOrder(rest[..k], have').Values? {
      assert fields[k + 1] == rest[k] && InOrder(fields[..k + 1], have).Values?;
    }
    if k: nat :| k < |fields| && BadField(fields[k]) && InOrder(fields[..k], have).Values? {
      assert k != 0 && rest[k - 1] == fields[k];
    }
  }

  /** So the parser rejects exactly the strings whose first field that adds no numbers is bad. */
  lemma RejectsExactly(fields: seq<string>)
    requires AreFields(fields)
    ensures Parse(Join(fields), 0).Malformed? <==>
            exists k: nat :: k < |fields| && BadField(fields[k]) && InOrder(fields[..k], 0).Values?
  {
    ParseIsInOrder(fields, 0);
    MalformedExactly(fields, 0);
  }
}
