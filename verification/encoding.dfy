/** `as_str()`: the genome's values joined by underscores, used as the deduplication key in
    selection; and a decoder that shows the key determines the values. */
module Encoding {
  import opened Wrappers
  import opened Genome

  predicate IsDigit(c: char)
  {
    '0' <= c <= '9'
  }

  predicate AllDigits(s: string)
  {
    forall k :: 0 <= k < |s| ==> IsDigit(s[k])
  }

  /** Decimal digits of a natural number, most significant first. */
  function NatToString(n: nat): (s: string)
    ensures |s| > 0 && AllDigits(s)
    decreases n
  {
    var last := ((n % 10) + '0' as int) as char;
    if n < 10 then [last] else NatToString(n / 10) + [last]
  }

  /** Python's `str` on an int: a minus sign for negative values, then the digits. */
  function IntToString(v: int): (s: string)
    ensures |s| > 0 && '_' !in s
  {
    if v < 0 then "-" + NatToString(-v) else NatToString(v)
  }

  /** `'_'.join(map(str, values))`. */
  function AsStr(vs: seq<int>): (s: string)
    ensures |vs| > 0 ==> |s| > 0
  {
    if |vs| == 0 then ""
    else if |vs| == 1 then IntToString(vs[0])
    else IntToString(vs[0]) + "_" + AsStr(vs[1..])
  }

  /** The selection key of a genome. */
  function Key(cv: ConnectivityVector): string
  {
    AsStr(cv.Values())
  }

  /** The number a string of decimal digits denotes. */
  function DigitsValue(s: string): nat
    requires AllDigits(s)
  {
    if |s| == 0 then 0 else DigitsValue(s[..|s|-1]) * 10 + (s[|s|-1] as int - '0' as int)
  }

  /** Inverse of `IntToString`. */
  function ParseInt(s: string): Option<int>
  {
    if |s| > 1 && s[0] == '-' && AllDigits(s[1..]) then Some(-(DigitsValue(s[1..]) as int))
    else if |s| > 0 && AllDigits(s) then Some(DigitsValue(s))
    else None
  }

  /** `s.split('_')`. */
  function Split(s: string): (parts: seq<string>)
    ensures |parts| > 0
  {
    if |s| == 0 then [""]
    else
      var rest := Split(s[1..]);
      if s[0] == '_' then [""] + rest else [[s[0]] + rest[0]] + rest[1..]
  }

  function ParseAll(parts: seq<string>): Option<seq<int>>
  {
    if |parts| == 0 then Some([])
    else
      match (ParseInt(parts[0]), ParseAll(parts[1..]))
      case (Some(v), Some(vs)) => Some([v] + vs)
      case _ => None
  }

  /** Reads a key back into the values it was made from. */
  function Decode(s: string): Option<seq<int>>
  {
    if s == "" then Some([]) else ParseAll(Split(s))
  }

  lemma {:induction false} NatRoundTrip(n: nat)
    ensures DigitsValue(NatToString(n)) == n
    decreases n
  {
    var s := NatToString(n);
    if n < 10 {
      assert s[..0] == [];
    } else {
      assert s[..|s|-1] == NatToString(n / 10);
      NatRoundTrip(n / 10);
    }
  }

  lemma IntRoundTrip(v: int)
    ensures ParseInt(IntToString(v)) == Some(v)
  {
    var s := IntToString(v);
    if v < 0 {
      var d := NatToString(-v);
      assert s == "-" + d;
      assert s[1..] == d && s[0] == '-' && |s| > 1;
      NatRoundTrip(-v);
      assert AllDigits(s[1..]);
      assert ParseInt(s) == Some(-(DigitsValue(d) as int));
    } else {
      assert s == NatToString(v);
      NatRoundTrip(v);
      assert AllDigits(s) && |s| > 0;
      assert !(s[0] == '-') by { assert IsDigit(s[0]); }
      assert ParseInt(s) == Some(DigitsValue(s));
    }
  }

  lemma {:induction false} SplitPlain(p: string)
    requires '_' !in p
    ensures Split(p) == [p]
  {
    if |p| > 0 {
      assert p[0] != '_' && '_' !in p[1..];
      SplitPlain(p[1..]);
      assert [p[0]] + p[1..] == p;
    }
  }

  lemma {:induction false} SplitAt(p: string, t: string)
    requires '_' !in p
    ensures Split(p + "_" + t) == [p] + Split(t)
  {
    if |p| == 0 {
      assert p + "_" + t == "_" + t;
      assert ("_" + t)[1..] == t;
    } else {
      assert p[0] != '_' && '_' !in p[1..];
      assert (p + "_" + t)[0] == p[0];
      assert (p + "_" + t)[1..] == p[1..] + "_" + t;
      SplitAt(p[1..], t);
      assert [p[0]] + p[1..] == p;
    }
  }

  /** Decoding a key gives back the genome values it was made from. */
  lemma {:induction false} DecodeAsStr(vs: seq<int>)
    ensures Decode(AsStr(vs)) == Some(vs)
  {
    if |vs| == 1 {
      var head := IntToString(vs[0]);
      assert AsStr(vs) == head && head != "";
      SplitPlain(head);
      IntRoundTrip(vs[0]);
      assert [head][1..] == [];
      assert ParseAll([head][1..]) == Some([]);
      assert ParseInt([head][0]) == Some(vs[0]);
      assert ParseAll([head]) == Some([vs[0]] + []);
      assert [vs[0]] + [] == vs;
    } else if |vs| > 1 {
      var head := IntToString(vs[0]);
      SplitAt(head, AsStr(vs[1..]));
      DecodeAsStr(vs[1..]);
      IntRoundTrip(vs[0]);
      var parts := [head] + Split(AsStr(vs[1..]));
      assert parts[1..] == Split(AsStr(vs[1..]));
      assert [vs[0]] + vs[1..] == vs;
    }
  }

  /** `as_str` is injective on value sequences. */
  lemma AsStrInjective(a: seq<int>, b: seq<int>)
    requires AsStr(a) == AsStr(b)
    ensures a == b
  {
    DecodeAsStr(a);
    DecodeAsStr(b);
  }

  /** Two genomes share a selection key exactly when `__eq__` holds between them, so deduplicating
      by key is deduplicating by equality (and `__hash__`, a function of the same values, agrees). */
  lemma KeyIffEqual(a: ConnectivityVector, b: ConnectivityVector)
    ensures Key(a) == Key(b) <==> Equal(a, b)
  {
    if Key(a) == Key(b) {
      AsStrInjective(a.Values(), b.Values());
    }
  }

  /** The key of a small genome: ids in order, separated by underscores, multi-digit ids intact. */
  lemma AsStrExample()
    ensures AsStr([0, 1, 12]) == "0_1_12"
  {
    assert NatToString(0) == "0";
    assert NatToString(1) == "1";
    assert NatToString(12) == "12" by {
      assert NatToString(1) == "1";
    }
    assert [0, 1, 12][1..] == [1, 12];
    assert [1, 12][1..] == [12];
  }
}
