/** The parser itself: it copies the string, overwrites separators with terminators in the copy, and grows
  * the result as it goes. */
module RangeParser {
  import opened RangeSyntax
  import opened Wrappers

  const NUL: char := 0 as char
  const GRAIN: nat := 32
  const INT_SIZE: nat := 4

  /** Arithmetic on 32-bit unsigned ints. */
  function ToUnsigned(x: nat): nat {
    x % 0x1_0000_0000
  }

  /** The size in bytes fits until the capacity is `MAX_NUMBERS`, and then is cut to 0. */
  lemma NextSize(held: nat)
    requires held <= MAX_NUMBERS && held % GRAIN == 0
    ensures ToUnsigned(held + GRAIN) == held + GRAIN && (held + GRAIN) % GRAIN == 0
    ensures ToUnsigned((held + GRAIN) * INT_SIZE) ==
            if held == MAX_NUMBERS then 0 else (held + GRAIN) * INT_SIZE
    ensures (held + GRAIN) * INT_SIZE / INT_SIZE == held + GRAIN
    ensures held < MAX_NUMBERS ==> held + GRAIN <= MAX_NUMBERS
  {
  }

  /** The growing result. */
  class IntList {
    var ret: array?<int>
    var retIdx: nat
    var retAllocated: nat

    ghost predicate Valid()
      reads this
    {
      && (ret == null <==> retAllocated == 0)
      && retIdx <= retAllocated <= MAX_NUMBERS && retAllocated % GRAIN == 0
      && (ret != null ==> retAllocated == ret.Length)
    }

    function Contents(): seq<int>
      reads this, ret
      requires Valid()
    {
      if ret == null then [] else ret[..retIdx]
    }

    lemma Bounded()
      requires Valid()
      ensures |Contents()| <= MAX_NUMBERS
    {
    }

    constructor ()
      ensures Valid() && Contents() == [] && ret == null
    {
      ret, retIdx, retAllocated := null, 0, 0;
    }

    /** Room for `GRAIN` more numbers; none if the size in bytes, cut to 32 bits, is 0. */
    method Grow() returns (ok: bool)
      requires Valid() && retIdx == retAllocated
      modifies this
      ensures Valid() && Contents() == old(Contents()) && retIdx == old(retIdx)
      ensures ok <==> old(retAllocated) < MAX_NUMBERS
      ensures ok ==> retIdx < retAllocated && ret != null && fresh(ret)
      ensures !ok ==> ret == old(ret)
    {
      hide ToUnsigned;
      NextSize(retAllocated);
      var newSize := ToUnsigned(ToUnsigned(retAllocated + GRAIN) * INT_SIZE);
      if newSize == 0 {
        return false;
      }
      var bigger := new int[newSize / INT_SIZE];
      if ret == null {
        assert retAllocated == 0;
      } else {
        forall k | 0 <= k < retIdx {
          bigger[k] := ret[k];
        }
      }
      ret := bigger;
      retAllocated := ToUnsigned(retAllocated + GRAIN);
      ok := true;
    }

    /** Add one number, growing by a fixed grain when full; the asserts are the program's own. */
    method Add(i: int) returns (ok: bool)
      requires Valid()
      modifies this, ret
      ensures Valid() && (ret == old(ret) || (ret != null && fresh(ret)))
      ensures ok <==> |old(Contents())| < MAX_NUMBERS
      ensures Contents() == old(Contents()) + if ok then [i] else []
    {
      if retIdx >= retAllocated {
        assert retIdx == retAllocated;
        ok := Grow();
        if !ok {
          return;
        }
      }
      assert retAllocated > retIdx;
      ret[retIdx] := i;
      retIdx := ToUnsigned(retIdx + 1);
      ok := true;
    }
  }

  /** End the string at `from` at its first `sep`; the result is the place after it, or -1 without one. */
  method TokenizeBySep(str: array<char>, from: nat, last: nat, sep: char) returns (idx: int)
    requires from <= last < str.Length && str[last] == NUL && sep != NUL
    requires forall j | from <= j < last :: str[j] != NUL
    modifies str
    ensures var p := IndexOf(old(str[from..last]), sep);
            && (from + p == last ==> idx == -1 && str[..] == old(str[..]))
            && (from + p < last ==> idx == p + 1 && str[..] == old(str[..])[from + p := NUL])
  {
    var strI := from;
    while true
      invariant from <= strI <= last && str[..] == old(str[..])
      invariant forall j | from <= j < strI :: str[j] != sep
      decreases last - strI
    {
      var c := str[strI];
      strI := strI + 1;
      if c == sep {
        IndexIs(str[from..last], sep, strI - 1 - from);
        str[strI - 1] := NUL;
        return strI - from;
      } else if c == NUL {
        IndexIs(str[from..last], sep, last - from);
        return -1;
      }
    }
  }

  /** The number in the string at `from`; nothing if the program would exit. */
  method ParseIntAt(str: array<char>, from: nat, last: nat) returns (r: Option<int>)
    requires from <= last < str.Length && str[last] == NUL && forall j | from <= j < last :: str[j] != NUL
    ensures r == ParseInt(str[from..last])
  {
    r := ParseInt(str[from..last]);
  }

  /** What a call that was to add `o` to the result did, to what it held before. */
  ghost predicate Added(list: IntList, before: seq<int>, o: Outcome, r: Outcome)
    reads list, list.ret
  {
    && (o.Values? <==> r.Values?) && (!o.Values? ==> r == o)
    && (o.Values? ==> list.Valid() && list.Contents() == before + o.list)
  }

  /** One number. */
  method AddOne(i: int, list: IntList) returns (r: Outcome)
    requires list.Valid()
    modifies list, list.ret
    ensures Added(list, old(list.Contents()), OneValue(i, |old(list.Contents())|), r)
    ensures list.ret == old(list.ret) || (list.ret != null && fresh(list.ret))
  {
    var ok := list.Add(i);
    r := if ok then Values([]) else Oversize;
  }

  /** Every number of a range, counting an int upwards. */
  method AddRange(first: int, last: int, list: IntList) returns (r: Outcome)
    requires list.Valid() && IsInt(first) && IsInt(last)
    modifies list, list.ret
    ensures Added(list, old(list.Contents()), RangeValues(first, last, |old(list.Contents())|), r)
    ensures list.ret == old(list.ret) || (list.ret != null && fresh(list.ret))
  {
    hide UpTo, IntList.Valid, IntList.Contents;
    ghost var before := list.Contents();
    var x := first;
    UpToStep(first, last);
    UpToNone(first);
    while x <= last
      invariant first <= x && (x <= last + 1 || x == first) && list.Valid()
      invariant list.Contents() == before + UpTo(first, x - 1)
      invariant list.ret == old(list.ret) || (list.ret != null && fresh(list.ret))
      invariant first <= last && last == INT_MAX ==> x <= last
      decreases last - x
    {
      UpToStep(first, x);
      var ok := list.Add(x);
      if !ok {
        return Oversize;
      }
      if x == INT_MAX {
        return Overflow;
      }
      x := x + 1;
    }
    if first > last {
      EmptyRange(first, last);
    }
    list.Bounded();
    r := Values([]);
  }

  lemma UpToStep(a: int, x: int)
    ensures |UpTo(a, x)| == if a <= x then x - a + 1 else 0
    ensures a <= x ==> UpTo(a, x) == UpTo(a, x - 1) + [x] && |UpTo(a, x - 1)| == x - a
  {
  }

  lemma UpToNone(a: int)
    ensures UpTo(a, a - 1) == []
  {
  }

  lemma EmptyRange(a: int, b: int)
    requires b < a
    ensures UpTo(a, b) == UpTo(a, a - 1) == []
  {
  }

  /** The two halves of a field split at a dash. */
  method AddBounds(str: array<char>, start: nat, cut: nat, last: nat, list: IntList) returns (r: Outcome)
    requires start <= cut < last < str.Length && str[cut] == NUL && str[last] == NUL && list.Valid()
    requires forall j | start <= j < last && j != cut :: str[j] != NUL
    requires list.ret == null || (list.ret as object) != str
    modifies list, list.ret
    ensures Added(list, old(list.Contents()),
                  Bounds(old(str[start..cut]), old(str[cut + 1..last]), |old(list.Contents())|), r)
    ensures list.ret == old(list.ret) || (list.ret != null && fresh(list.ret))
  {
    hide ParseInt, ToInt, RangeValues;
    var a := ParseIntAt(str, start, cut);
    if a.None? {
      return Malformed;
    }
    var b := ParseIntAt(str, cut + 1, last);
    if b.None? {
      return Malformed;
    }
    ToIntIsInt(a.value);
    ToIntIsInt(b.value);
    r := AddRange(ToInt(a.value), ToInt(b.value), list);
  }

  lemma ToIntIsInt(x: int)
    ensures IsInt(ToInt(x))
  {
  }

  /** The outcome of two halves. */
  function Bounds(a: string, b: string, have: nat): Outcome {
    match ParseInt(a)
    case None => Malformed
    case Some(i) =>
      match ParseInt(b)
      case None => Malformed
      case Some(j) => RangeValues(ToInt(i), ToInt(j), have)
  }

  /** A field without a dash after its sign. */
  lemma NumberField(f: string, off: nat, have: nat)
    requires f != "" && off == (if f[0] == '-' then 1 else 0) && off + IndexOf(f[off..], '-') == |f|
    ensures ParseField(f, have) ==
            match ParseInt(f)
            case None => Malformed
            case Some(i) => OneValue(ToInt(i), have)
  {
  }

  /** A field with one, at place `cut`. */
  lemma RangeField(f: string, off: nat, cut: nat, have: nat)
    requires f != "" && off == (if f[0] == '-' then 1 else 0) && cut == off + IndexOf(f[off..], '-') < |f|
    ensures ParseField(f, have) == Bounds(f[..cut], f[cut + 1..], have)
  {
  }

  /** One field that ends before the terminator at `last`. */
  method ParseFieldAt(str: array<char>, start: nat, last: nat, list: IntList) returns (r: Outcome)
    requires start < last < str.Length && str[last] == NUL && list.Valid()
    requires forall j | start <= j < last :: str[j] != NUL
    requires list.ret == null || (list.ret as object) != str
    modifies str, list, list.ret
    ensures Added(list, old(list.Contents()), ParseField(old(str[start..last]), |old(list.Contents())|), r)
    ensures list.ret == old(list.ret) || (list.ret != null && fresh(list.ret))
    ensures forall j | last < j < str.Length :: str[j] == old(str[j])
  {
    hide ParseInt, ToInt, OneValue, RangeValues, Bounds, ParseField, IndexOf, IntList.Valid, IntList.Contents;
    ghost var have := |list.Contents()|;
    ghost var f := str[start..last];
    var off := if str[start] == '-' then 1 else 0;
    var idx := TokenizeBySep(str, start + off, last, '-');
    assert f[off..] == old(str[start + off..last]);
    if idx == -1 {
      assert str[start..last] == f;
      NumberField(f, off, have);
      var i := ParseIntAt(str, start, last);
      if i.None? {
        return Malformed;
      }
      r := AddOne(ToInt(i.value), list);
    } else {
      assert idx > 0;
      var cut := start + off + idx - 1;
      assert str[start..cut] == f[..off + idx - 1];
      assert str[cut + 1..last] == f[off + idx..];
      RangeField(f, off, off + idx - 1, have);
      r := AddBounds(str, start, cut, last, list);
    }
  }

  /** Where the field that starts at `start` ends, in what is left of the copy. */
  method FieldEnd(str: array<char>, start: nat, n: nat) returns (last: nat)
    requires start <= n < str.Length && str[n] == NUL && forall j | start <= j < n :: str[j] != NUL
    ensures start <= last <= n && last == start + IndexOf(str[start..n], ',')
    ensures last < n ==> str[last] == ','
  {
    var sI := start;
    while true
      invariant start <= sI <= n && forall j | start <= j < sI :: str[j] != ','
      decreases n - sI
    {
      var c := str[sI];
      sI := sI + 1;
      if c == NUL || c == ',' {
        break;
      }
    }
    last := sI - 1;
    IndexIs(str[start..n], ',', last - start);
  }

  lemma EmptyFieldAdds(before: seq<int>)
    ensures ParseField("", |before|) == Values([]) && before + [] == before
  {
  }

  /** Parsing `rest` on top of what was parsed before gives what parsing all gives. */
  ghost predicate Remains(s: string, rest: string, before: seq<int>) {
    Prepend(Values(before), Parse(rest, |before|)) == Parse(s, 0)
  }

  /** What one field adds to what was parsed before it. */
  lemma Step(s: string, rest: string, before: seq<int>, e: nat)
    requires e == IndexOf(rest, ',') && Remains(s, rest, before)
    ensures var o := ParseField(rest[..e], |before|);
            && (!o.Values? ==> Parse(s, 0) == o)
            && (o.Values? && e < |rest| ==> Remains(s, rest[e + 1..], before + o.list))
            && (o.Values? && e == |rest| ==> Values(before + o.list) == Parse(s, 0))
  {
    hide ParseField, IndexOf;
    var o := ParseField(rest[..e], |before|);
    if o.Values? && e < |rest| {
      ParseStep(rest, |before|, e);
      hide Parse;
      PrependTwice(before, o.list, Parse(rest[e + 1..], |before + o.list|));
    }
  }

  lemma ParseStep(rest: string, have: nat, e: nat)
    requires e == IndexOf(rest, ',') < |rest| && ParseField(rest[..e], have).Values?
    ensures var o := ParseField(rest[..e], have);
            Parse(rest, have) == Prepend(o, Parse(rest[e + 1..], have + |o.list|))
  {
    hide ParseField, IndexOf;
  }

  lemma PrependTwice(a: seq<int>, b: seq<int>, o: Outcome)
    ensures Prepend(Values(a), Prepend(Values(b), o)) == Prepend(Values(a + b), o)
  {
    if o.Values? {
      assert a + (b + o.list) == a + b + o.list;
    }
  }

  /** Take the next field off what is left of the copy. */
  method NextField(str: array<char>, start: nat, n: nat, list: IntList) returns (o: Outcome, next: nat, done: bool)
    requires start <= n && str.Length == n + 1 && str[n] == NUL && list.Valid()
    requires forall j | start <= j < n :: str[j] != NUL
    requires list.ret == null || (list.ret as object) != str
    modifies str, list, list.ret
    ensures var rest := old(str[start..n]);
            var e := IndexOf(rest, ',');
            && next == start + e + 1 && (done <==> e == |rest|)
            && Added(list, old(list.Contents()), ParseField(rest[..e], |old(list.Contents())|), o)
    ensures list.ret == old(list.ret) || (list.ret != null && fresh(list.ret))
    ensures forall j | next <= j < str.Length :: str[j] == old(str[j])
  {
    hide ParseField, IndexOf;
    ghost var rest := str[start..n];
    var last := FieldEnd(str, start, n);
    next := last + 1;
    done := str[last] == NUL;
    assert str[start..last] == rest[..last - start];
    o := Values([]);
    if start != last {
      str[last] := NUL;
      assert str[start..last] == rest[..last - start];
      o := ParseFieldAt(str, start, last, list);
    } else {
      EmptyFieldAdds(list.Contents());
    }
  }

  /** The part of the copy not yet taken is the rest of the string. */
  ghost predicate Untouched(str: array<char>, s: string, from: nat)
    reads str
  {
    str.Length == |s| + 1 && from <= |s| && str[|s|] == NUL && forall j | from <= j < |s| :: str[j] == s[j]
  }

  lemma UntouchedRest(str: array<char>, s: string, from: nat)
    requires Untouched(str, s, from) && NUL !in s
    ensures str[from..|s|] == s[from..] && forall j | from <= j < |s| :: str[j] != NUL
  {
    assert forall j | from <= j < |s| :: s[j] in s;
  }

  /** The whole parser agrees with the notation; every write is inside the copy and the result. */
  method ParseIntsRange(s: Option<string>) returns (r: Outcome)
    requires s.Some? ==> NUL !in s.value
    ensures r == if s.None? then Values([]) else Parse(s.value, 0)
  {
    hide ParseField, IndexOf, Parse, Remains;
    if s.None? {
      return Values([]);
    }
    var n := |s.value|;
    var str := new char[n + 1](i => if 0 <= i < n then s.value[i] else NUL);
    var list := new IntList();
    var sI, done := 0, false;
    NothingYet(s.value);
    while !done
      invariant sI <= n + 1 && list.Valid() && fresh(list) && fresh(str)
      invariant list.ret == null || (fresh(list.ret) && (list.ret as object) != str)
      invariant !done ==> Untouched(str, s.value, sI)
      invariant !done ==> Remains(s.value, s.value[sI..], list.Contents())
      invariant done ==> Values(list.Contents()) == Parse(s.value, 0)
      decreases n + 1 - sI, !done
    {
      ghost var rest := s.value[sI..];
      UntouchedRest(str, s.value, sI);
      Step(s.value, rest, list.Contents(), IndexOf(rest, ','));
      var o;
      o, sI, done := NextField(str, sI, n, list);
      if !o.Values? {
        return o;
      }
      assert !done ==> s.value[sI..] == rest[IndexOf(rest, ',') + 1..];
    }
    r := Values(list.Contents());
  }

  lemma NothingYet(s: string)
    ensures Remains(s, s[0..], [])
  {
    hide Parse;
    assert s[0..] == s;
    if Parse(s, 0).Values? {
      assert [] + Parse(s, 0).list == Parse(s, 0).list;
    }
  }
}
