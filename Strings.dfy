/** The string operations the Python helper scripts rely on: `str.join`,
    ASCII `str.upper`, and the decimal rendering of a count in an f-string. */
module Strings {

  /** `sep.join(xs)`: the elements of `xs` with `sep` between neighbours. */
  function Join(xs: seq<string>, sep: string): string
  {
    if |xs| == 0 then ""
    else if |xs| == 1 then xs[0]
    else xs[0] + sep + Join(xs[1..], sep)
  }

  /** Total length of the elements of `xs`. */
  function SumLengths(xs: seq<string>): nat
  {
    if |xs| == 0 then 0 else |xs[0]| + SumLengths(xs[1..])
  }

  /** Where element `i` starts in `Join(xs, sep)`: every earlier element and its separator come first. */
  function Offset(xs: seq<string>, sep: string, i: nat): nat
    requires i <= |xs|
  {
    SumLengths(xs[..i]) + i * |sep|
  }

  lemma {:induction false} SumLengthsFirst(xs: seq<string>, i: nat)
    requires 0 < i <= |xs|
    ensures SumLengths(xs[..i]) == |xs[0]| + SumLengths(xs[1..][..i - 1])
  {
    assert xs[..i][1..] == xs[1..][..i - 1];
  }

  /** The joined string is as long as the elements plus one separator between each pair. */
  lemma {:induction false} JoinLength(xs: seq<string>, sep: string)
    ensures |xs| > 0 ==> |Join(xs, sep)| == SumLengths(xs) + (|xs| - 1) * |sep|
    ensures |xs| == 0 ==> Join(xs, sep) == ""
  {
    if |xs| > 1 {
      JoinLength(xs[1..], sep);
    }
  }

  /** Element `i` of `xs` appears in `Join(xs, sep)` at `Offset(xs, sep, i)`, followed by
      `sep` unless it is the last element. */
  lemma {:induction false} JoinAt(xs: seq<string>, sep: string, i: nat)
    requires i < |xs|
    ensures Offset(xs, sep, i) + |xs[i]| <= |Join(xs, sep)|
    ensures Join(xs, sep)[Offset(xs, sep, i)..Offset(xs, sep, i) + |xs[i]|] == xs[i]
    ensures i + 1 < |xs| ==>
      Offset(xs, sep, i) + |xs[i]| + |sep| <= |Join(xs, sep)| &&
      Join(xs, sep)[Offset(xs, sep, i) + |xs[i]|..Offset(xs, sep, i) + |xs[i]| + |sep|] == sep
    decreases i
  {
    var j := Join(xs, sep);
    if i == 0 {
      assert xs[..0] == [];
      if |xs| > 1 {
        assert j == xs[0] + sep + Join(xs[1..], sep);
        assert j[|xs[0]|..|xs[0]| + |sep|] == sep;
      }
    } else {
      var rest := xs[1..];
      JoinAt(rest, sep, i - 1);
      SumLengthsFirst(xs, i);
      var off := Offset(rest, sep, i - 1);
      var head := xs[0] + sep;
      assert Offset(xs, sep, i) == |head| + off;
      assert j == head + Join(rest, sep);
      SliceAfterPrefix(head, Join(rest, sep), off, off + |xs[i]|);
      if i + 1 < |xs| {
        SliceAfterPrefix(head, Join(rest, sep), off + |xs[i]|, off + |xs[i]| + |sep|);
      }
    }
  }

  /** A slice of `t` is the same slice of `p + t` shifted by `|p|`. */
  lemma SliceAfterPrefix(p: string, t: string, a: nat, b: nat)
    requires a <= b <= |t|
    ensures (p + t)[|p| + a..|p| + b] == t[a..b]
  {
  }

  /** Python's `str.upper` restricted to ASCII: `a`..`z` become `A`..`Z`, every other
      character is kept. */
  function UpperChar(c: char): (r: char)
    ensures !('a' <= r <= 'z')
    ensures 'a' <= c <= 'z' ==> r as int == c as int - 32
    ensures !('a' <= c <= 'z') ==> r == c
  {
    if 'a' <= c <= 'z' then (c as int - 32) as char else c
  }

  /** `s.upper()`, character by character. */
  function Upper(s: string): (r: string)
    ensures |r| == |s|
  {
    if |s| == 0 then "" else [UpperChar(s[0])] + Upper(s[1..])
  }

  /** Upper-casing works one character at a time: character `i` of the result
      depends on character `i` of the input alone. */
  lemma {:induction false} UpperAt(s: string, i: nat)
    requires i < |s|
    ensures Upper(s)[i] == UpperChar(s[i])
  {
    if i > 0 {
      UpperAt(s[1..], i - 1);
    }
  }

  /** `[arg.upper() for arg in args]`. */
  function UpperAll(args: seq<string>): (r: seq<string>)
    ensures |r| == |args|
  {
    if |args| == 0 then [] else [Upper(args[0])] + UpperAll(args[1..])
  }

  /** The comprehension is element-wise: element `i` of the result is the upper-cased
      element `i` of the input, and the list keeps its length and order. */
  lemma {:induction false} UpperAllAt(args: seq<string>, i: nat)
    requires i < |args|
    ensures UpperAll(args)[i] == Upper(args[i])
  {
    if i > 0 {
      UpperAllAt(args[1..], i - 1);
    }
  }

  predicate IsDigit(c: char)
  {
    '0' <= c <= '9'
  }

  /** The decimal rendering of `n` (`str(n)`, `{n}` in an f-string). */
  function NatToString(n: nat): (r: string)
    ensures |r| > 0 && forall i :: 0 <= i < |r| ==> IsDigit(r[i])
    ensures |r| > 1 ==> r[0] != '0'
    decreases n
  {
    if n < 10 then [('0' as int + n) as char]
    else NatToString(n / 10) + [('0' as int + n % 10) as char]
  }

  /** The value of a string of decimal digits; the inverse of `NatToString`. */
  function ParseDecimal(s: string): nat
    requires forall i :: 0 <= i < |s| ==> IsDigit(s[i])
  {
    if |s| == 0 then 0
    else
      assert IsDigit(s[|s| - 1]);
      10 * ParseDecimal(s[..|s| - 1]) + (s[|s| - 1] as int - '0' as int)
  }

  /** Rendering a count in decimal loses nothing: the digits parse back to the count. */
  lemma {:induction false} ParseNatToString(n: nat)
    ensures ParseDecimal(NatToString(n)) == n
    decreases n
  {
    var r := NatToString(n);
    if n >= 10 {
      ParseNatToString(n / 10);
      assert r[..|r| - 1] == NatToString(n / 10);
    }
  }

  /** Element `i` of `items` stands in `s` at the offset `Join(items, sep)` gives it. */
  ghost predicate ItemAt(s: string, items: seq<string>, sep: string, i: nat)
    requires i < |items|
  {
    && Offset(items, sep, i) + |items[i]| <= |s|
    && s[Offset(items, sep, i)..Offset(items, sep, i) + |items[i]|] == items[i]
  }

  /** `sep` follows element `i` of `items` in `s`. */
  ghost predicate SepAfter(s: string, items: seq<string>, sep: string, i: nat)
    requires i < |items|
  {
    && Offset(items, sep, i) + |items[i]| + |sep| <= |s|
    && s[Offset(items, sep, i) + |items[i]|..Offset(items, sep, i) + |items[i]| + |sep|] == sep
  }

  /** `s` is laid out as `Join(items, sep)` places things: every element at its offset,
      `sep` right after every element but the last, and nothing after the last element. */
  ghost predicate ListsAt(s: string, items: seq<string>, sep: string)
  {
    && (items == [] ==> s == "")
    && (items != [] ==> |s| == SumLengths(items) + (|items| - 1) * |sep|)
    && (forall i :: 0 <= i < |items| ==> ItemAt(s, items, sep, i))
    && (forall i :: 0 <= i < |items| - 1 ==> SepAfter(s, items, sep, i))
  }

  /** A joined string lists its elements. */
  lemma JoinLists(items: seq<string>, sep: string)
    ensures ListsAt(Join(items, sep), items, sep)
  {
    JoinLength(items, sep);
    forall i | 0 <= i < |items|
      ensures ItemAt(Join(items, sep), items, sep, i)
      ensures i < |items| - 1 ==> SepAfter(Join(items, sep), items, sep, i)
    {
      JoinAt(items, sep, i);
    }
  }

  /** Where element `i + 1` starts: past the first element and its separator, where
      element `i` of the rest starts. */
  lemma OffsetTail(items: seq<string>, sep: string, i: nat)
    requires i + 1 <= |items|
    ensures Offset(items, sep, i + 1) == |items[0]| + |sep| + Offset(items[1..], sep, i)
  {
    SumLengthsFirst(items, i + 1);
    assert (i + 1) * |sep| == |sep| + i * |sep|;
  }

  /** Past the first element and its separator, the rest of a listing lists the rest. */
  lemma ListsAtTail(s: string, items: seq<string>, sep: string)
    requires |items| > 1 && ListsAt(s, items, sep)
    ensures |items[0]| + |sep| <= |s|
    ensures s[..|items[0]|] == items[0] && s[|items[0]|..|items[0]| + |sep|] == sep
    ensures ListsAt(s[|items[0]| + |sep|..], items[1..], sep)
  {
    var k := |items[0]| + |sep|;
    var rest := items[1..];
    var t := s[k..];
    assert items[..0] == [];
    assert ItemAt(s, items, sep, 0) && SepAfter(s, items, sep, 0);
    assert |t| == SumLengths(rest) + (|rest| - 1) * |sep| by {
      assert SumLengths(items) == |items[0]| + SumLengths(rest);
      assert (|items| - 1) * |sep| == |sep| + (|rest| - 1) * |sep|;
    }
    forall i | 0 <= i < |rest|
      ensures ItemAt(t, rest, sep, i)
    {
      assert ItemAt(s, items, sep, i + 1);
      OffsetTail(items, sep, i);
      var a := Offset(rest, sep, i);
      assert t[a..a + |rest[i]|] == s[k + a..k + a + |rest[i]|];
    }
    forall i | 0 <= i < |rest| - 1
      ensures SepAfter(t, rest, sep, i)
    {
      assert SepAfter(s, items, sep, i + 1);
      OffsetTail(items, sep, i);
      var a := Offset(rest, sep, i) + |rest[i]|;
      assert t[a..a + |sep|] == s[k + a..k + a + |sep|];
    }
  }

  /** Only the joined string lists the elements: together with `JoinLists`, `ListsAt(s,
      items, sep)` holds exactly when `s == Join(items, sep)`. */
  lemma {:induction false} ListsAtIsJoin(s: string, items: seq<string>, sep: string)
    requires ListsAt(s, items, sep)
    ensures s == Join(items, sep)
    decreases |items|
  {
    if |items| == 1 {
      assert items[..0] == [];
      assert ItemAt(s, items, sep, 0);
      assert SumLengths(items) == |items[0]| + SumLengths(items[1..]);
      assert s == s[0..|items[0]|];
    } else if |items| > 1 {
      var k := |items[0]| + |sep|;
      ListsAtTail(s, items, sep);
      ListsAtIsJoin(s[k..], items[1..], sep);
      assert s == s[..|items[0]|] + s[|items[0]|..k] + s[k..];
    }
  }

  /** `r` reads as `head`, the count `n` in decimal, `mid`, and then `items` joined by `sep`:
      the digits parse back to `n` and every item stands at its place in the listing. */
  ghost predicate CountedListing(r: string, head: string, n: nat, mid: string, items: seq<string>, sep: string)
  {
    var d := |NatToString(n)|;
    var base := |head| + d + |mid|;
    && |r| >= base
    && r[..|head|] == head
    && (forall i :: |head| <= i < |head| + d ==> IsDigit(r[i]))
    && ParseDecimal(r[|head|..|head| + d]) == n
    && r[|head| + d..base] == mid
    && ListsAt(r[base..], items, sep)
    && (items == [] ==> |r| == base)
  }

  /** The f-string `head{n}mid{sep.join(items)}` is such a listing. */
  lemma CountedListingOfFormat(head: string, n: nat, mid: string, items: seq<string>, sep: string)
    ensures CountedListing(head + NatToString(n) + mid + Join(items, sep), head, n, mid, items, sep)
  {
    var digits := NatToString(n);
    var r := head + digits + mid + Join(items, sep);
    var base := |head| + |digits| + |mid|;
    assert r[..|head|] == head;
    assert r[|head|..|head| + |digits|] == digits;
    assert r[|head| + |digits|..base] == mid;
    assert r[base..] == Join(items, sep);
    ParseNatToString(n);
    JoinLists(items, sep);
  }
}
