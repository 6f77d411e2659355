/** The string manipulations the file store relies on: splitting and joining
    `/`-separated paths the way Python's `str.split("/")` and `"/".join` do,
    Python-style slicing, substring search, and decimal rendering and parsing
    of sizes carried in `content-length` headers. */
module Strings {
  import opened Wrappers

  /** The separator of relpaths and URL paths. */
  const Sep: char := '/'

  /** No segment contains the separator. */
  predicate NoSep(parts: seq<string>)
  {
    forall i :: 0 <= i < |parts| ==> Sep !in parts[i]
  }

  /** `s.split("/")`: the maximal separator-free pieces of `s`; there is
      always at least one, possibly empty. */
  function Split(s: string): (parts: seq<string>)
    ensures |parts| >= 1
    ensures NoSep(parts)
    decreases |s|
  {
    if |s| == 0 then [""]
    else
      var rest := Split(s[1..]);
      if s[0] == Sep then [""] + rest
      else [[s[0]] + rest[0]] + rest[1..]
  }

  /** `"/".join(parts)`. */
  function Join(parts: seq<string>): string
    requires |parts| >= 1
    decreases |parts|
  {
    if |parts| == 1 then parts[0] else parts[0] + [Sep] + Join(parts[1..])
  }

  /** `s.split("/")[-1]`: the final path segment, which is all of `s` or
      follows its last separator. */
  function LastSegment(s: string): (r: string)
    ensures Sep !in r
    ensures r == s || EndsWith(s, [Sep] + r)
  {
    var parts := Split(s);
    JoinSplit(s);
    assert |parts| >= 2 ==> EndsWith(s, [Sep] + parts[|parts| - 1]) by {
      if |parts| >= 2 { JoinEndsWith(parts); }
    }
    parts[|parts| - 1]
  }

  predicate StartsWith(s: string, prefix: string)
  {
    |prefix| <= |s| && s[..|prefix|] == prefix
  }

  predicate EndsWith(s: string, suffix: string)
  {
    |suffix| <= |s| && s[|s| - |suffix|..] == suffix
  }

  /** `sub` occurs in `s` starting at position `i`. */
  predicate OccursAt(s: string, sub: string, i: nat)
  {
    i + |sub| <= |s| && s[i..i + |sub|] == sub
  }

  /** Python's `sub in s`. */
  predicate Contains(s: string, sub: string)
  {
    exists i: nat | i <= |s| :: OccursAt(s, sub, i)
  }

  /** Python's `s[:n]`. */
  function Take(s: string, n: nat): string
  {
    if |s| <= n then s else s[..n]
  }

  /** Python's `s[n:]`. */
  function Drop(s: string, n: nat): string
  {
    if |s| <= n then "" else s[n..]
  }

  /** The position of the first `c` in `s`, or `|s|` when there is none. */
  function IndexOf(s: string, c: char): (i: nat)
    ensures i <= |s|
    ensures i < |s| ==> s[i] == c
    ensures c !in s[..i]
    decreases |s|
  {
    if |s| == 0 then 0
    else if s[0] == c then 0
    else 1 + IndexOf(s[1..], c)
  }

  predicate IsDigit(c: char)
  {
    '0' <= c <= '9'
  }

  predicate AllDigits(s: string)
  {
    forall i :: 0 <= i < |s| ==> IsDigit(s[i])
  }

  function DigitChar(d: nat): char
    requires d < 10
  {
    ('0' as int + d) as char
  }

  function DigitValue(c: char): nat
    requires IsDigit(c)
  {
    c as int - '0' as int
  }

  /** `str(n)`: the decimal rendering of `n`, without leading zeros. */
  function NatToString(n: nat): (s: string)
    ensures |s| >= 1
    ensures AllDigits(s)
    ensures |s| > 1 ==> s[0] != '0'
    ensures n > 0 ==> s[0] != '0'
    decreases n
  {
    if n < 10 then [DigitChar(n)] else NatToString(n / 10) + [DigitChar(n % 10)]
  }

  /** The number a digit string denotes. */
  function DigitsValue(s: string): nat
    requires AllDigits(s)
    decreases |s|
  {
    if |s| == 0 then 0 else 10 * DigitsValue(s[..|s| - 1]) + DigitValue(s[|s| - 1])
  }

  /** `int(s)` for a size header; `None` when `s` is not a decimal number. */
  function ParseNat(s: string): Option<nat>
  {
    if |s| >= 1 && AllDigits(s) then Some(DigitsValue(s)) else None
  }

  /** Python's `[:n]` and `[n:]` reassemble the string they slice. */
  lemma TakeDrop(s: string, n: nat)
    ensures Take(s, n) + Drop(s, n) == s
  {
    if |s| > n {
      assert s[..n] + s[n..] == s;
    }
  }

  /** Splitting a string that starts with a separator-free piece `p` glues
      `p` onto the first segment of the rest. */
  lemma {:induction false} SplitSegmentThen(p: string, t: string)
    requires Sep !in p
    ensures Split(p + t) == [p + Split(t)[0]] + Split(t)[1..]
    decreases |p|
  {
    if |p| == 0 {
      assert p + t == t;
      assert p + Split(t)[0] == Split(t)[0];
      assert Split(t) == [Split(t)[0]] + Split(t)[1..];
    } else {
      assert (p + t)[0] == p[0];
      assert (p + t)[1..] == p[1..] + t;
      SplitSegmentThen(p[1..], t);
      assert [p[0]] + (p[1..] + Split(t)[0]) == p + Split(t)[0];
    }
  }

  /** A separator-free string is a single segment. */
  lemma SplitNoSep(s: string)
    requires Sep !in s
    ensures Split(s) == [s]
  {
    SplitSegmentThen(s, "");
    assert s + "" == s;
  }

  /** `"/".join` followed by `.split("/")` recovers separator-free parts. */
  lemma {:induction false} SplitJoin(parts: seq<string>)
    requires |parts| >= 1
    requires NoSep(parts)
    ensures Split(Join(parts)) == parts
    decreases |parts|
  {
    if |parts| == 1 {
      SplitNoSep(parts[0]);
    } else {
      var t := [Sep] + Join(parts[1..]);
      assert Join(parts) == parts[0] + t;
      assert Sep !in parts[0];
      SplitSegmentThen(parts[0], t);
      assert t[0] == Sep && t[1..] == Join(parts[1..]);
      SplitJoin(parts[1..]);
      assert Split(t) == [""] + parts[1..];
      assert parts[0] + "" == parts[0];
    }
  }

  /** `.split("/")` followed by `"/".join` gives back the string. */
  lemma {:induction false} JoinSplit(s: string)
    ensures Join(Split(s)) == s
    decreases |s|
  {
    if |s| > 0 {
      var rest := Split(s[1..]);
      JoinSplit(s[1..]);
      if s[0] == Sep {
        assert Split(s) == [""] + rest;
        assert ([""] + rest)[1..] == rest;
        assert [Sep] + s[1..] == s;
      } else {
        var parts := [[s[0]] + rest[0]] + rest[1..];
        assert Split(s) == parts;
        if |rest| == 1 {
          assert Join(parts) == [s[0]] + rest[0];
        } else {
          assert parts[1..] == rest[1..];
          assert Join(parts) == [s[0]] + rest[0] + [Sep] + Join(rest[1..]);
        }
        assert [s[0]] + s[1..] == s;
      }
    }
  }

  /** Appending `/name` to a path appends the segment `name`. */
  lemma {:induction false} SplitAppend(d: string, name: string)
    requires Sep !in name
    ensures Split(d + [Sep] + name) == Split(d) + [name]
    decreases |d|
  {
    var s := d + [Sep] + name;
    if |d| == 0 {
      assert s[0] == Sep && s[1..] == name;
      SplitNoSep(name);
    } else {
      assert s[0] == d[0];
      assert s[1..] == d[1..] + [Sep] + name;
      SplitAppend(d[1..], name);
      var y := Split(d[1..]);
      if d[0] != Sep {
        var x := y + [name];
        assert x[0] == y[0];
        assert x[1..] == y[1..] + [name];
      }
    }
  }

  /** The last segment of `d/name` is `name`. */
  lemma LastSegmentAppend(d: string, name: string)
    requires Sep !in name
    ensures LastSegment(d + [Sep] + name) == name
  {
    SplitAppend(d, name);
  }

  /** A joined path of two or more parts ends in `/` and its last part. */
  lemma {:induction false} JoinEndsWith(parts: seq<string>)
    requires |parts| >= 2
    ensures EndsWith(Join(parts), [Sep] + parts[|parts| - 1])
    decreases |parts|
  {
    var tail := [Sep] + parts[|parts| - 1];
    if |parts| > 2 {
      JoinEndsWith(parts[1..]);
      var j := Join(parts);
      var r := Join(parts[1..]);
      assert j == parts[0] + [Sep] + r;
      assert j[|j| - |tail|..] == r[|r| - |tail|..];
    } else {
      assert Join(parts[1..]) == parts[1];
      assert Join(parts) == parts[0] + tail;
      assert (parts[0] + tail)[|parts[0]|..] == tail;
    }
  }

  /** `s` contains itself wherever it is concatenated. */
  lemma ContainsMiddle(a: string, b: string, c: string)
    ensures Contains(a + b + c, b)
  {
    var s := a + b + c;
    assert s[|a|..|a| + |b|] == b;
    assert OccursAt(s, b, |a|);
  }

  /** `DigitsValue` of a digit string with one more digit appended. */
  lemma DigitsValueSnoc(s: string, c: char)
    requires AllDigits(s) && IsDigit(c)
    ensures AllDigits(s + [c])
    ensures DigitsValue(s + [c]) == 10 * DigitsValue(s) + DigitValue(c)
  {
    assert (s + [c])[..|s|] == s;
  }

  /** `int(str(n)) == n`: parsing reverses decimal rendering. */
  lemma {:induction false} ParseNatToString(n: nat)
    ensures ParseNat(NatToString(n)) == Some(n)
    decreases n
  {
    if n < 10 {
      DigitsValueSnoc("", DigitChar(n));
      assert "" + [DigitChar(n)] == NatToString(n);
    } else {
      ParseNatToString(n / 10);
      DigitsValueSnoc(NatToString(n / 10), DigitChar(n % 10));
    }
  }

  /** `str` is injective: different sizes render differently. */
  lemma NatToStringInjective(m: nat, n: nat)
    requires NatToString(m) == NatToString(n)
    ensures m == n
  {
    ParseNatToString(m);
    ParseNatToString(n);
  }
}
